/** Prompts of one session that run one after the other: when a session stays intact, when the next prompt can
    still send a closed history, and what the ends that break a session do. */
module SequentialPrompts {
  import opened History
  import opened Options
  import opened ProcessPrompt
  import opened Sequences
  import opened SessionTable

  // ---------------------------------------------------------------- a trim that nobody disturbs

  ghost predicate QuietAt(w: World, p: Point) {
    forall m :: w.other(p, m) == m
  }

  /** How many messages are above the hard limit. */
  function Over(h: seq<Message>): nat {
    if |h| > MAX_HISTORY_SIZE then |h| - MAX_HISTORY_SIZE else 0
  }

  predicate Compacts(w: World, m: Mem, sid: string) {
    |Get(m, sid)| > COMPACTION_THRESHOLD && w.backend && sid !in m.compacting
  }

  /** How many of the oldest messages the trim takes off. */
  function Taken(w: World, m: Mem, sid: string, p: Point): nat {
    var h := Get(m, sid);
    if !Compacts(w, m, sid) then Over(h)
    else
      match w.compaction(p)
      case Threw => Over(h)
      case Replied(success, text) =>
        if !success || text == "" then |h| - COMPACTION_THRESHOLD
        else if Over(h) > Cut(h, COMPACTION_COUNT) then Over(h)
        else Cut(h, COMPACTION_COUNT)
  }

  /** What the trim puts in front of the rest: the summary, or nothing. */
  function Summary(w: World, m: Mem, sid: string, p: Point): seq<Message> {
    var h, r := Get(m, sid), w.compaction(p);
    if Compacts(w, m, sid) && r.Replied? && r.success && r.text != "" && |h| - Cut(h, COMPACTION_COUNT) < MAX_HISTORY_SIZE
    then [Compressed(r.text)] else []
  }

  /** Whatever way a trim goes, it takes off oldest messages, never the last two, and may put a summary in front. */
  lemma QuietTrim(w: World, m: Mem, sid: string, p: Point)
    requires QuietAt(w, p)
    ensures sid in TrimAt(w, m, sid, p).sessions
    ensures Taken(w, m, sid, p) > 0 ==> Taken(w, m, sid, p) + 2 <= |Get(m, sid)|
    ensures Get(TrimAt(w, m, sid, p), sid) == Summary(w, m, sid, p) + Get(m, sid)[Taken(w, m, sid, p)..]
    ensures Summary(w, m, sid, p) == []
         || (Taken(w, m, sid, p) > 1 && exists text :: Summary(w, m, sid, p) == [Compressed(text)])
  {
    var h := Get(m, sid);
    var (m1, t) := BeginTrim(m, sid, w.backend);
    if t.Some? {
      assert Get(m1, sid) == h && w.other(p, m1) == m1;
      var r := w.compaction(p);
      if r.Replied? && r.success && r.text != "" {
        ReplaceThenTrim(h, t.value.count, Compressed(r.text));
      }
    }
  }

  lemma ReplaceThenTrim(h: seq<Message>, c: nat, m: Message)
    requires 1 < c <= |h|
    ensures Fifo([m] + h[c..], MAX_HISTORY_SIZE)
         == (if |h| - c < MAX_HISTORY_SIZE then [m] else []) + h[if Over(h) > c then Over(h) else c..]
  {
    var g := [m] + h[c..];
    if |h| - c >= MAX_HISTORY_SIZE {
      var k := |g| - MAX_HISTORY_SIZE;
      assert g[k..] == h[c + k - 1..];
    }
  }

  lemma TrimSound(w: World, m: Mem, sid: string, p: Point)
    requires QuietAt(w, p) && Sound(Get(m, sid))
    ensures var h := Get(TrimAt(w, m, sid, p), sid);
            Sound(h) && forall x :: x in Labels(h) ==> x in Labels(Get(m, sid))
  {
    var h, rest, front := Get(m, sid), Get(m, sid)[Taken(w, m, sid, p)..], Summary(w, m, sid, p);
    QuietTrim(w, m, sid, p);
    SoundDrop(h, Taken(w, m, sid, p));
    hide Taken, Summary, TrimAt, Complete, Labels;
    if front == [] {
      assert front + rest == rest;
    } else {
      var text :| front == [Compressed(text)];
      PlainSound(Compressed(text));
      SoundConcat(front, rest);
    }
  }

  /** A summary that is put in front says what the model answered. */
  lemma SummaryStored(w: World, m: Mem, sid: string, p: Point, text: string)
    requires QuietAt(w, p) && Compacts(w, m, sid) && w.compaction(p) == Replied(true, text) && text != ""
    requires |Get(m, sid)| - Cut(Get(m, sid), COMPACTION_COUNT) < 30
    ensures var h := Get(TrimAt(w, m, sid, p), sid);
            h != [] && h[0].role.Assistant? && h[0].text == "[compressed] " + text && h[0].toolCalls == []
  {
    QuietTrim(w, m, sid, p);
  }

  // ---------------------------------------------------------------- a prompt as a run of the session table

  lemma {:induction false} RunBoth(s: Shared, es: seq<Event>, more: seq<Event>)
    ensures SessionTable.Run(s, es + more) == SessionTable.Run(SessionTable.Run(s, es), more)
    decreases |more|
  {
    if more == [] {
      assert es + more == es;
    } else {
      RunBoth(s, es, more[..|more| - 1]);
      assert (es + more)[..|es + more| - 1] == es + more[..|more| - 1];
    }
  }

  lemma RunTwo(s: Shared, a: Event, b: Event)
    ensures SessionTable.Run(s, [a]) == SessionTable.Step(s, a)
    ensures SessionTable.Run(s, [a, b]) == SessionTable.Step(SessionTable.Step(s, a), b)
  {
    assert [a, b][..1] == [a] && [a][..0] == [];
  }

  function TrimEvents(w: World, sid: string, p: Point): seq<Event> {
    [Trim(0, sid, w.backend), Resume(0, w.compaction(p))]
  }

  /** An undisturbed trim is a trim and a resume of the session table, whether it opens a window or not. */
  lemma TrimIsRun(w: World, m: Mem, sid: string, p: Point)
    requires QuietAt(w, p)
    ensures SessionTable.Run(Shared(m, map[]), TrimEvents(w, sid, p)) == Shared(TrimAt(w, m, sid, p), map[])
  {
    var a, b := Trim(0, sid, w.backend), Resume(0, w.compaction(p));
    RunTwo(Shared(m, map[]), a, b);
    var (m1, t) := BeginTrim(m, sid, w.backend);
    assert w.other(p, m1) == m1;
    if t.Some? {
      assert map[0 := Window(sid, t.value)] - {0} == map[];
    }
  }

  /** What the entry of a prompt does to the table. */
  function EntryEvents(w: World, sid: string, disk: seq<Message>, prompt: string): seq<Event> {
    [SessionTable.Load(sid, disk), SessionTable.Append(sid, [TextMessage(User, prompt)])] + TrimEvents(w, sid, EnteringTrim)
  }

  lemma EntryIsRun(w: World, sid: string, m: Mem, disk: seq<Message>, prompt: string)
    requires Quiet(w)
    ensures SessionTable.Run(Shared(m, map[]), EntryEvents(w, sid, disk, prompt))
         == Shared(Entered(w, sid, m, disk, prompt), map[])
  {
    var load, append := SessionTable.Load(sid, disk), SessionTable.Append(sid, [TextMessage(User, prompt)]);
    var m1 := WithPrompt(m, sid, disk, prompt);
    RunTwo(Shared(m, map[]), load, append);
    RunBoth(Shared(m, map[]), [load, append], TrimEvents(w, sid, EnteringTrim));
    assert SessionTable.Run(Shared(m, map[]), [load, append]).mem.sessions == m1.sessions;
    EnteredIs(w, sid, m, disk, prompt);
    TrimIsRun(w, m1, sid, EnteringTrim);
  }

  /** What a round does to the table. */
  function RoundEvents(w: World, sid: string, i: nat): seq<Event> {
    match Final(w.llm(i))
    case Raised => []
    case Failed =>
      if w.llm(i).offline.Some? then [SessionTable.Append(sid, [TextMessage(Assistant, w.llm(i).offline.value)])]
      else [SessionTable.PopBack(sid)]
    case Reply(text, calls) =>
      if calls == [] then [SessionTable.Append(sid, [TextMessage(Assistant, text)])] + TrimEvents(w, sid, EndTrim(i))
      else if !AllReturn(calls, w.llm(i).outputs) then [SessionTable.Append(sid, [CallMessage(text, calls)])]
      else
        [SessionTable.Append(sid, [CallMessage(text, calls)]), SessionTable.Append(sid, Results(calls, w.llm(i).outputs))]
        + TrimEvents(w, sid, ResultsTrim(i))
        + if w.llm(i).idle then [SessionTable.Append(sid, [TextMessage(Assistant, IDLE_TEXT)])] else []
  }

  lemma ToolRoundIsRun(w: World, sid: string, m: Mem, i: nat, text: string, calls: seq<ToolCall>)
    requires Quiet(w) && Final(w.llm(i)) == Reply(text, calls) && calls != [] && AllReturn(calls, w.llm(i).outputs)
    ensures SessionTable.Run(Shared(m, map[]), RoundEvents(w, sid, i)) == Shared(OneRound(w, sid, m, i).mem, map[])
  {
    var s := Shared(m, map[]);
    var a, b := SessionTable.Append(sid, [CallMessage(text, calls)]), SessionTable.Append(sid, Results(calls, w.llm(i).outputs));
    var trim := TrimEvents(w, sid, ResultsTrim(i));
    var m1 := WithResults(w, sid, m, i);
    ToolsAre(w, sid, m, i, text, calls);
    RunTwo(s, a, b);
    assert SessionTable.Run(s, [a, b]) == Shared(m1, map[]);
    RunBoth(s, [a, b], trim);
    TrimIsRun(w, m1, sid, ResultsTrim(i));
    var rest := if w.llm(i).idle then [SessionTable.Append(sid, [TextMessage(Assistant, IDLE_TEXT)])] else [];
    RunBoth(s, [a, b] + trim, rest);
    if w.llm(i).idle {
      RunTwo(Shared(TrimAt(w, m1, sid, ResultsTrim(i)), map[]), rest[0], rest[0]);
    }
  }

  /** An undisturbed round does to the session table what the table's own steps do, in this order; so everything proved
      about runs of the table holds of prompts. */
  lemma RoundIsRun(w: World, sid: string, m: Mem, i: nat)
    requires Quiet(w)
    ensures SessionTable.Run(Shared(m, map[]), RoundEvents(w, sid, i)) == Shared(OneRound(w, sid, m, i).mem, map[])
  {
    var s := Shared(m, map[]);
    match Final(w.llm(i))
    case Raised =>
    case Failed =>
      RunTwo(s, RoundEvents(w, sid, i)[0], RoundEvents(w, sid, i)[0]);
    case Reply(text, calls) =>
      if calls == [] {
        var a := SessionTable.Append(sid, [TextMessage(Assistant, text)]);
        RunTwo(s, a, a);
        RunBoth(s, [a], TrimEvents(w, sid, EndTrim(i)));
        TrimIsRun(w, Push(m, sid, [TextMessage(Assistant, text)]), sid, EndTrim(i));
      } else if AllReturn(calls, w.llm(i).outputs) {
        ToolRoundIsRun(w, sid, m, i, text, calls);
      } else {
        RunTwo(s, RoundEvents(w, sid, i)[0], RoundEvents(w, sid, i)[0]);
      }
  }

  // ---------------------------------------------------------------- whole and open groups at the end

  /** The session ends with the call at `k` and all its results. */
  predicate WholeAt(h: seq<Message>, k: nat) {
    k < |h| && IsCaller(h[k]) && |h| - k == BlockSize(h[k]) && Answers(h[k + 1..], h[k].toolCalls)
  }

  /** The session ends with the call at `k` and fewer results than it needs. */
  predicate OpenAt(h: seq<Message>, k: nat) {
    k < |h| && IsCaller(h[k]) && |h| - k < BlockSize(h[k]) && AllTool(h[k + 1..])
  }

  predicate EndsWhole(h: seq<Message>) {
    exists k :: 0 <= k < |h| && WholeAt(h, k)
  }

  predicate EndsOpen(h: seq<Message>) {
    exists k :: 0 <= k < |h| && OpenAt(h, k)
  }

  lemma WholeBehind(a: seq<Message>, h: seq<Message>)
    requires EndsWhole(h)
    ensures EndsWhole(a + h)
  {
    var k :| 0 <= k < |h| && WholeAt(h, k);
    assert (a + h)[|a| + k] == h[k] && (a + h)[|a| + k + 1..] == h[k + 1..];
    assert WholeAt(a + h, |a| + k);
  }

  /** An open call is never part of a complete history. */
  lemma {:induction false} OpenNotComplete(h: seq<Message>, k: nat)
    requires OpenAt(h, k)
    ensures !Complete(h)
    decreases |h|
  {
    var b := BlockSize(h[0]);
    if GoodBlock(h) {
      BlockTools(h);
      if k > 0 {
        assert h[b..][k - b] == h[k] && h[b..][k - b + 1..] == h[k + 1..];
        OpenNotComplete(h[b..], k - b);
      }
    }
  }

  lemma {:induction false} DropStray(h: seq<Message>)
    requires Complete(h) && h != [] && !EndsWhole(h)
    ensures Complete(DropLast(h)) && Labels(DropLast(h)) <= Labels(h)
    decreases |h|
  {
    var b := BlockSize(h[0]);
    var rest := h[b..];
    if rest == [] {
      assert IsCaller(h[0]) ==> WholeAt(h, 0);
      assert DropLast(h) == [];
    } else {
      assert h == h[..b] + rest;
      if EndsWhole(rest) {
        WholeBehind(h[..b], rest);
      }
      DropStray(rest);
      ReplaceRest(h, DropLast(rest));
      assert DropLast(h) == h[..b] + DropLast(rest);
    }
  }

  lemma ReplaceRest(h: seq<Message>, rest: seq<Message>)
    requires h != [] && GoodBlock(h) && Complete(rest)
    ensures var g := h[..BlockSize(h[0])] + rest;
            Complete(g) && Labels(g) == HeadLabels(h[0]) + Labels(rest)
  {
    var g, b := h[..BlockSize(h[0])] + rest, BlockSize(h[0]);
    assert g[0] == h[0] && g[1..b] == h[1..b] && g[b..] == rest;
  }

  /** Taking back the last message keeps a session sound exactly when that message is not the last result of a
      whole group; otherwise the session ends in an open call. */
  lemma DropLastSoundIff(h: seq<Message>)
    requires Sound(h)
    ensures Sound(DropLast(h)) <==> !EndsWhole(h)
    ensures EndsWhole(h) ==> EndsOpen(DropLast(h))
  {
    var g := DropLast(h);
    if EndsWhole(h) {
      var k :| 0 <= k < |h| && WholeAt(h, k);
      assert g[k] == h[k] && g[k + 1..] == h[k + 1..][..|h| - k - 2];
      assert OpenAt(g, k);
      OpenNotComplete(g, k);
    } else if h != [] {
      DropStray(h);
      assert forall i :: 0 <= i < |Labels(g)| ==> Labels(g)[i] == Labels(h)[i];
    }
  }

  lemma CallOpens(h: seq<Message>, c: Message)
    requires IsCaller(c)
    ensures EndsOpen(h + [c]) && OpenAt(h + [c], |h|) && !Sound(h + [c])
  {
    assert OpenAt(h + [c], |h|);
    OpenNotComplete(h + [c], |h|);
  }

  // ---------------------------------------------------------------- new call ids

  function CallsAt(w: World, i: nat): seq<ToolCall> {
    if Final(w.llm(i)).Reply? then Final(w.llm(i)).calls else []
  }

  /** From round `from` on, no id is blank, none is used twice, and none occurs among `used`. */
  ghost predicate Fresh(w: World, from: nat, used: seq<string>) {
    && (forall i: nat :: from <= i ==> Distinct(CallIds(CallsAt(w, i))) && "" !in CallIds(CallsAt(w, i)))
    && (forall i: nat, x :: from <= i && x in CallIds(CallsAt(w, i)) ==> x !in used)
    && (forall i: nat, j: nat, x :: from <= i < j && x in CallIds(CallsAt(w, i)) ==> x !in CallIds(CallsAt(w, j)))
  }

  lemma FreshFewer(w: World, from: nat, used: seq<string>, fewer: seq<string>)
    requires Fresh(w, from, used) && forall x :: x in fewer ==> x in used
    ensures Fresh(w, from, fewer)
  {
  }

  lemma FreshNext(w: World, i: nat, used: seq<string>)
    requires Fresh(w, i, used)
    ensures Fresh(w, i + 1, used + CallIds(CallsAt(w, i)))
  {
  }

  // ---------------------------------------------------------------- one prompt

  lemma PlainAppendSound(h: seq<Message>, m: Message)
    requires Sound(h) && !IsCaller(m) && !m.role.Tool?
    ensures Sound(h + [m]) && Labels(h + [m]) == Labels(h)
  {
    PlainSound(m);
    SoundConcat(h, [m]);
  }

  /** The table when a round's results are in and about to be trimmed. */
  function WithResults(w: World, sid: string, m: Mem, i: nat): Mem {
    match Final(w.llm(i))
    case Reply(text, calls) =>
      if AllReturn(calls, w.llm(i).outputs)
      then Push(Push(m, sid, [CallMessage(text, calls)]), sid, Results(calls, w.llm(i).outputs)) else m
    case _ => m
  }

  /** Nobody disturbing, a round of tool calls adds the whole group and trims once. */
  lemma ToolsAre(w: World, sid: string, m: Mem, i: nat, text: string, calls: seq<ToolCall>)
    requires Quiet(w) && Final(w.llm(i)) == Reply(text, calls) && calls != [] && AllReturn(calls, w.llm(i).outputs)
    ensures Get(WithResults(w, sid, m, i), sid) == Get(m, sid) + [CallMessage(text, calls)] + Results(calls, w.llm(i).outputs)
    ensures var m2 := TrimAt(w, WithResults(w, sid, m, i), sid, ResultsTrim(i));
            CallTools(w, sid, m, i, text, calls)
            == if w.llm(i).idle then Stop(Push(m2, sid, [TextMessage(Assistant, IDLE_TEXT)]), Answered(IDLE_TEXT))
               else Go(m2, [CallMessage(text, calls)] + Results(calls, w.llm(i).outputs), text)
  {
  }

  lemma ToolsSound(w: World, sid: string, m: Mem, i: nat, text: string, calls: seq<ToolCall>)
    requires Quiet(w) && Sound(Get(m, sid)) && Fresh(w, i, Labels(Get(m, sid)))
    requires Final(w.llm(i)) == Reply(text, calls) && calls != [] && AllReturn(calls, w.llm(i).outputs)
    ensures var h := Get(CallTools(w, sid, m, i, text, calls).mem, sid);
            Sound(h) && Fresh(w, i + 1, Labels(h))
  {
    var h := Get(m, sid);
    var c, rs := CallMessage(text, calls), Results(calls, w.llm(i).outputs);
    var m1 := WithResults(w, sid, m, i);
    ToolsAre(w, sid, m, i, text, calls);
    GroupSound(c, rs);
    hide TrimAt, CallTools, WithResults, Complete, Labels, Fresh, AllReturn, Answers;
    GroupIsSound(w, i, calls, [c] + rs);
    assert forall x :: x in Labels(h) ==> x !in CallIds(calls) by { FreshUnused(w, i, Labels(h)); }
    SoundConcat(h, [c] + rs);
    Assoc(h, [c], rs);
    TrimSound(w, m1, sid, ResultsTrim(i));
    var h2 := Get(TrimAt(w, m1, sid, ResultsTrim(i)), sid);
    FreshNext(w, i, Labels(h));
    FreshFewer(w, i + 1, Labels(h) + CallIds(calls), Labels(h2));
    PlainAppendSound(h2, TextMessage(Assistant, IDLE_TEXT));
  }

  lemma GroupIsSound(w: World, i: nat, calls: seq<ToolCall>, g: seq<Message>)
    requires Complete(g) && Labels(g) == CallIds(calls) && calls == CallsAt(w, i) && exists used :: Fresh(w, i, used)
    ensures Sound(g)
  {
  }

  lemma FreshUnused(w: World, i: nat, used: seq<string>)
    requires Fresh(w, i, used)
    ensures forall x :: x in used ==> x !in CallIds(CallsAt(w, i))
  {
  }

  /** What holds before round `i`. */
  ghost predicate Healthy(w: World, h: seq<Message>, i: nat) {
    Quiet(w) && Sound(h) && Fresh(w, i, Labels(h))
  }

  /** The ends that break a session that held `h`: a tool that raised, and a rollback that takes a result out
      of a whole group. */
  predicate Breaks(e: End, h: seq<Message>) {
    e.ToolRaised? || (e.RolledBack? && EndsWhole(h))
  }

  lemma OneRoundSoundIff(w: World, sid: string, m: Mem, i: nat)
    requires Healthy(w, Get(m, sid), i)
    ensures var next := OneRound(w, sid, m, i);
            match next
            case Go(m1, _, _) => Healthy(w, Get(m1, sid), i + 1)
            case Stop(m1, e) =>
              && (Sound(Get(m1, sid)) <==> !Breaks(e, Get(m, sid)))
              && (Breaks(e, Get(m, sid)) ==> EndsOpen(Get(m1, sid)))
  {
    hide Sound, Fresh, TrimAt, EndsOpen, EndsWhole;
    match Final(w.llm(i))
    case Raised =>
    case Failed =>
      if w.llm(i).offline.Some? {
        PlainAppendSound(Get(m, sid), TextMessage(Assistant, w.llm(i).offline.value));
      } else {
        DropLastSoundIff(Get(m, sid));
      }
    case Reply(text, calls) =>
      if calls == [] {
        PlainAppendSound(Get(m, sid), TextMessage(Assistant, text));
        TrimSound(w, Push(m, sid, [TextMessage(Assistant, text)]), sid, EndTrim(i));
      } else if AllReturn(calls, w.llm(i).outputs) {
        ToolsSound(w, sid, m, i, text, calls);
      } else {
        CallOpens(Get(m, sid), CallMessage(text, calls));
      }
  }

  /** The table at the start of round `i`. */
  function AtRound(w: World, sid: string, m: Mem, i: nat): Mem {
    if i == 0 then m else OneRound(w, sid, AtRound(w, sid, m, i - 1), i - 1).mem
  }

  lemma {:induction false} RoundsSoundIff(w: World, sid: string, e: Mem, m: Mem, local: seq<Message>, i: nat, maxIter: int,
                                          last: string, sent: seq<seq<Message>>)
    requires Healthy(w, Get(m, sid), i) && m == AtRound(w, sid, e, i)
    ensures var o := Rounds(w, sid, m, local, i, maxIter, last, sent);
            var h := Get(AtRound(w, sid, e, o.rounds), sid);
            && (Sound(Get(o.mem, sid)) <==> !Breaks(o.end, h))
            && (Breaks(o.end, h) ==> EndsOpen(Get(o.mem, sid)))
    decreases maxIter - i
  {
    hide Sound, Fresh, OneRound, Breaks, EndsOpen;
    if i < maxIter {
      var next := OneRound(w, sid, m, i);
      var sent1 := sent + Copies(local, Asked(w.llm(i)));
      RoundsUnfold(w, sid, m, local, i, maxIter, last, sent);
      OneRoundSoundIff(w, sid, m, i);
      if next.Go? {
        RoundsSoundIff(w, sid, e, next.mem, local + next.group, i + 1, maxIter, next.last, sent1);
      }
    } else {
      assert !Breaks(Rounds(w, sid, m, local, i, maxIter, last, sent).end, Get(m, sid)) by { NeverBreaks(Get(m, sid)); }
    }
  }

  lemma NeverBreaks(h: seq<Message>)
    ensures forall reply :: !Breaks(Answered(reply), h)
  {
  }

  /** Where a prompt starts from: the stored session, or what was saved on disk. */
  function Start(m: Mem, sid: string, disk: seq<Message>): seq<Message> {
    if sid in m.sessions then m.sessions[sid] else disk
  }

  /** The table with the user's message in, about to be trimmed. */
  function WithPrompt(m: Mem, sid: string, disk: seq<Message>, prompt: string): Mem {
    Push(if sid !in m.sessions && disk != [] then Put(m, sid, disk) else m, sid, [TextMessage(User, prompt)])
  }

  /** The session a prompt's last round found. */
  function LastFound(w: World, sid: string, m: Mem, disk: seq<Message>, prompt: string, maxIter: int): seq<Message> {
    Get(AtRound(w, sid, Entered(w, sid, m, disk, prompt), Prompt(w, sid, m, disk, prompt, maxIter).rounds), sid)
  }

  predicate Broken(w: World, sid: string, m: Mem, disk: seq<Message>, prompt: string, maxIter: int) {
    Breaks(Prompt(w, sid, m, disk, prompt, maxIter).end, LastFound(w, sid, m, disk, prompt, maxIter))
  }

  lemma EnteredIs(w: World, sid: string, m: Mem, disk: seq<Message>, prompt: string)
    requires QuietAt(w, Entering)
    ensures Get(WithPrompt(m, sid, disk, prompt), sid) == Start(m, sid, disk) + [TextMessage(User, prompt)]
    ensures Entered(w, sid, m, disk, prompt) == TrimAt(w, WithPrompt(m, sid, disk, prompt), sid, EnteringTrim)
  {
    assert w.other(Entering, m) == m;
  }

  lemma EnteredHealthy(w: World, sid: string, m: Mem, disk: seq<Message>, prompt: string)
    requires Quiet(w) && Sound(Start(m, sid, disk)) && Fresh(w, 0, Labels(Start(m, sid, disk)))
    ensures Healthy(w, Get(Entered(w, sid, m, disk, prompt), sid), 0)
  {
    hide TrimAt, Entered;
    var h := Start(m, sid, disk);
    EnteredIs(w, sid, m, disk, prompt);
    PlainAppendSound(h, TextMessage(User, prompt));
    TrimSound(w, WithPrompt(m, sid, disk, prompt), sid, EnteringTrim);
    FreshFewer(w, 0, Labels(h), Labels(Get(Entered(w, sid, m, disk, prompt), sid)));
  }

  /** A prompt that runs alone on a sound session and meets only new call ids: every history it sends to any
      model is closed, and the session is sound afterwards exactly when the prompt neither ended with a tool
      that raised nor took a result out of a whole group. */
  lemma PromptSoundIff(w: World, sid: string, m: Mem, disk: seq<Message>, prompt: string, maxIter: int)
    requires Quiet(w) && Sound(Start(m, sid, disk)) && Fresh(w, 0, Labels(Start(m, sid, disk)))
    ensures var o := Prompt(w, sid, m, disk, prompt, maxIter);
            && (Sound(Get(o.mem, sid)) <==> !Broken(w, sid, m, disk, prompt, maxIter))
            && (Broken(w, sid, m, disk, prompt, maxIter) <==> EndsOpen(Get(o.mem, sid)))
            && forall k :: 0 <= k < |o.sent| ==> Closed(o.sent[k])
  {
    var e := Entered(w, sid, m, disk, prompt);
    var h := Get(e, sid);
    EnteredHealthy(w, sid, m, disk, prompt);
    RoundsSoundIff(w, sid, e, e, Sanitize(h), 0, maxIter, "", []);
    SoundSanitizesClosed(h);
    SanitizeClosedIff(h);
    PromptSends(w, sid, m, disk, prompt, maxIter);
    var g := Get(Prompt(w, sid, m, disk, prompt, maxIter).mem, sid);
    if EndsOpen(g) {
      var k :| 0 <= k < |g| && OpenAt(g, k);
      OpenNotComplete(g, k);
    }
  }

  /** The trim at the end of round `i` takes off no more than what stood before the round's call. */
  predicate KeepsCall(w: World, sid: string, m: Mem, i: nat) {
    Taken(w, WithResults(w, sid, m, i), sid, ResultsTrim(i)) <= |Get(m, sid)|
  }

  /** When a round of tool calls leads to another round, the session ends with that round's last result, and
      with the whole group exactly when the trim kept the call. */
  lemma GroupKeptIff(w: World, sid: string, m: Mem, i: nat)
    requires Quiet(w) && OneRound(w, sid, m, i).Go?
    ensures var h := Get(OneRound(w, sid, m, i).mem, sid);
            && h != [] && h[|h| - 1].role.Tool?
            && (EndsWhole(h) <==> KeepsCall(w, sid, m, i))
  {
    var Reply(text, calls) := Final(w.llm(i));
    var c, rs := CallMessage(text, calls), Results(calls, w.llm(i).outputs);
    var m1 := WithResults(w, sid, m, i);
    ToolsAre(w, sid, m, i, text, calls);
    QuietTrim(w, m1, sid, ResultsTrim(i));
    hide Taken, Summary, TrimAt, CallTools, WithResults, EndsWhole;
    GroupIn(Get(m, sid), c, rs, Summary(w, m1, sid, ResultsTrim(i)), Taken(w, m1, sid, ResultsTrim(i)));
  }

  /** What a round stores: the call and, in order, what each of its own tools returned, as long as its trim keeps the call. */
  lemma RoundStored(w: World, sid: string, m: Mem, i: nat)
    requires Quiet(w) && OneRound(w, sid, m, i).Go?
    ensures var r, outputs := Final(w.llm(i)), w.llm(i).outputs;
            && r.Reply? && EndsWithRound(Get(WithResults(w, sid, m, i), sid), r.text, r.calls, outputs)
            && (KeepsCall(w, sid, m, i) ==> EndsWithRound(Get(OneRound(w, sid, m, i).mem, sid), r.text, r.calls, outputs))
  {
    var r, outputs, m1 := Final(w.llm(i)), w.llm(i).outputs, WithResults(w, sid, m, i);
    NextGroup(w, sid, m, i);
    ToolsAre(w, sid, m, i, r.text, r.calls);
    QuietTrim(w, m1, sid, ResultsTrim(i));
    assert OneRound(w, sid, m, i).mem == TrimAt(w, m1, sid, ResultsTrim(i));
    hide TrimAt, Taken, Summary, WithResults, EndsWithRound, AllReturn, OneRound, CallTools, Get;
    KeptStored([], Get(m, sid), r.text, r.calls, outputs, 0);
    assert [] + Get(m1, sid)[0..] == Get(m1, sid);
    if KeepsCall(w, sid, m, i) {
      KeptStored(Summary(w, m1, sid, ResultsTrim(i)), Get(m, sid), r.text, r.calls, outputs, Taken(w, m1, sid, ResultsTrim(i)));
    }
  }

  lemma KeptStored(front: seq<Message>, h: seq<Message>, text: string, calls: seq<ToolCall>, outputs: nat -> Option<Output>, t: nat)
    requires AllReturn(calls, outputs) && t <= |h|
    ensures EndsWithRound(front + (h + [CallMessage(text, calls)] + Results(calls, outputs))[t..], text, calls, outputs)
  {
    var g := [CallMessage(text, calls)] + Results(calls, outputs);
    assert front + (h + [CallMessage(text, calls)] + Results(calls, outputs))[t..] == (front + h[t..]) + g;
    hide EndsWithRound, AllReturn;
    GroupEnds(front + h[t..], text, calls, outputs);
  }

  lemma GroupIn(before: seq<Message>, c: Message, rs: seq<Message>, front: seq<Message>, t: nat)
    requires IsCaller(c) && Answers(rs, c.toolCalls) && t < |before + [c] + rs|
    requires front == [] || exists text :: front == [Compressed(text)]
    ensures var h := front + (before + [c] + rs)[t..];
            h != [] && h[|h| - 1].role.Tool? && (EndsWhole(h) <==> t <= |before|)
  {
    var all := before + [c] + rs;
    var h := front + all[t..];
    assert h[|h| - 1] == all[|all| - 1] == rs[|rs| - 1];
    if t <= |before| {
      var k := |front| + |before| - t;
      assert h[k] == all[|before|] == c;
      assert h[k + 1..] == rs;
      assert WholeAt(h, k);
    } else {
      assert all[t..] == rs[t - |before| - 1..];
      assert forall k :: 0 <= k < |h| ==> !IsCaller(h[k]);
    }
  }

  lemma {:induction false} RoundsThrough(w: World, sid: string, e: Mem, m: Mem, local: seq<Message>, i: nat, maxIter: int,
                                         last: string, sent: seq<seq<Message>>)
    requires m == AtRound(w, sid, e, i)
    ensures var o := Rounds(w, sid, m, local, i, maxIter, last, sent);
            && o.rounds >= i && (o.end.RolledBack? ==> o.end.round == o.rounds)
            && (o.rounds > i ==> OneRound(w, sid, AtRound(w, sid, e, o.rounds - 1), o.rounds - 1).Go?)
            && (o.rounds < maxIter ==> OneRound(w, sid, AtRound(w, sid, e, o.rounds), o.rounds) == Stop(o.mem, o.end))
            && (o.rounds >= maxIter ==> o.mem == AtRound(w, sid, e, o.rounds) && o.end.Answered?)
    decreases maxIter - i
  {
    hide OneRound;
    if i < maxIter {
      var next := OneRound(w, sid, m, i);
      RoundsUnfold(w, sid, m, local, i, maxIter, last, sent);
      RollbackRound(w, sid, m, i);
      if next.Go? {
        RoundsThrough(w, sid, e, next.mem, local + next.group, i + 1, maxIter, next.last, sent + Copies(local, Asked(w.llm(i))));
      }
    }
  }

  lemma RollbackRound(w: World, sid: string, m: Mem, i: nat)
    ensures var next := OneRound(w, sid, m, i); next.Stop? && next.end.RolledBack? ==> next.end.round == i
  {
  }

  predicate RollsBackAt(w: World, sid: string, m: Mem, disk: seq<Message>, prompt: string, maxIter: int, i: nat) {
    Prompt(w, sid, m, disk, prompt, maxIter).end == RolledBack(i)
  }

  lemma PromptThrough(w: World, sid: string, m: Mem, disk: seq<Message>, prompt: string, maxIter: int)
    ensures var o, e := Prompt(w, sid, m, disk, prompt, maxIter), Entered(w, sid, m, disk, prompt);
            && (o.end.RolledBack? ==> o.end.round == o.rounds)
            && (o.rounds > 0 ==> OneRound(w, sid, AtRound(w, sid, e, o.rounds - 1), o.rounds - 1).Go?)
            && (o.rounds < maxIter ==> OneRound(w, sid, AtRound(w, sid, e, o.rounds), o.rounds) == Stop(o.mem, o.end))
            && (o.rounds >= maxIter ==> o.end.Answered?)
  {
    var e := Entered(w, sid, m, disk, prompt);
    hide Rounds, OneRound, AtRound, Entered, Sanitize;
    assert AtRound(w, sid, e, 0) == e by { AtStart(w, sid, e); }
    RoundsThrough(w, sid, e, e, Sanitize(Get(e, sid)), 0, maxIter, "", []);
  }

  lemma AtStart(w: World, sid: string, e: Mem)
    ensures AtRound(w, sid, e, 0) == e
  {
  }

  lemma FoundOnEntry(w: World, sid: string, m: Mem, disk: seq<Message>, prompt: string)
    requires Quiet(w)
    ensures var h := Get(Entered(w, sid, m, disk, prompt), sid);
            h != [] && h[|h| - 1] == TextMessage(User, prompt) && !EndsWhole(h)
            && h[|h| - 1].role.User? && h[|h| - 1].text == prompt
  {
    var m1 := WithPrompt(m, sid, disk, prompt);
    EnteredIs(w, sid, m, disk, prompt);
    QuietTrim(w, m1, sid, EnteringTrim);
    hide Taken, Summary, TrimAt, EndsWhole, Entered, WithPrompt, Get;
    PlainEnd(Summary(w, m1, sid, EnteringTrim), Start(m, sid, disk), TextMessage(User, prompt), Taken(w, m1, sid, EnteringTrim));
  }

  /** Whatever other threads do, and in whatever round: a rollback takes back the last message it finds, and that
      is the user's message exactly when other threads and earlier rounds left it at the end. */
  lemma RollbackTakesPromptIff(w: World, sid: string, m: Mem, disk: seq<Message>, prompt: string, maxIter: int, i: nat)
    requires RollsBackAt(w, sid, m, disk, prompt, maxIter, i)
    ensures var o, user := Prompt(w, sid, m, disk, prompt, maxIter), TextMessage(User, prompt);
            var found := Get(w.other(BeforeEnd(i), AtRound(w, sid, Entered(w, sid, m, disk, prompt), i)), sid);
            && Get(o.mem, sid) == DropLast(found)
            && (Get(o.mem, sid) + [user] == found <==> found != [] && found[|found| - 1] == user)
  {
    PromptThrough(w, sid, m, disk, prompt, maxIter);
    hide Prompt, AtRound, Entered;
    RollbackDrops(w, sid, AtRound(w, sid, Entered(w, sid, m, disk, prompt), i), i);
    var found := Get(w.other(BeforeEnd(i), AtRound(w, sid, Entered(w, sid, m, disk, prompt), i)), sid);
    assert found != [] ==> DropLast(found) + [found[|found| - 1]] == found;
  }

  lemma RollbackDrops(w: World, sid: string, m: Mem, i: nat)
    requires OneRound(w, sid, m, i).Stop? && OneRound(w, sid, m, i).end.RolledBack?
    ensures Get(OneRound(w, sid, m, i).mem, sid) == DropLast(Get(w.other(BeforeEnd(i), m), sid))
  {
  }

  /** So when another thread appends before the rollback, the rollback takes that thread's message, even in the
      first round, and the user's message stays. */
  lemma RollbackTakesForeign(w: World, sid: string, m: Mem, disk: seq<Message>, prompt: string, maxIter: int, i: nat,
                             ms: seq<Message>)
    requires RollsBackAt(w, sid, m, disk, prompt, maxIter, i) && ms != []
    requires var e := AtRound(w, sid, Entered(w, sid, m, disk, prompt), i); w.other(BeforeEnd(i), e) == Push(e, sid, ms)
    ensures Get(Prompt(w, sid, m, disk, prompt, maxIter).mem, sid)
         == Get(AtRound(w, sid, Entered(w, sid, m, disk, prompt), i), sid) + DropLast(ms)
  {
    hide Prompt, AtRound, Entered, RollsBackAt;
    RollbackTakesPromptIff(w, sid, m, disk, prompt, maxIter, i);
    var e := AtRound(w, sid, Entered(w, sid, m, disk, prompt), i);
    assert Get(Push(e, sid, ms), sid) == Get(e, sid) + ms;
    hide Push, Get;
    assert DropLast(Get(e, sid) + ms) == Get(e, sid) + DropLast(ms);
  }

  /** Undisturbed, a rollback in the first round takes back the user's message and never breaks the session. */
  lemma FirstRollbackKeeps(w: World, sid: string, m: Mem, disk: seq<Message>, prompt: string, maxIter: int)
    requires Quiet(w) && RollsBackAt(w, sid, m, disk, prompt, maxIter, 0)
    ensures var found := LastFound(w, sid, m, disk, prompt, maxIter);
            found != [] && found[|found| - 1] == TextMessage(User, prompt)
    ensures !Broken(w, sid, m, disk, prompt, maxIter)
  {
    PromptThrough(w, sid, m, disk, prompt, maxIter);
    FoundOnEntry(w, sid, m, disk, prompt);
    hide EndsWhole, Entered, Prompt, OneRound, Get;
  }

  /** A later rollback takes back a tool result instead, and breaks the session exactly when the trim of the
      round before kept that round's call. */
  lemma LaterRollbackBreaksIff(w: World, sid: string, m: Mem, disk: seq<Message>, prompt: string, maxIter: int, i: nat)
    requires Quiet(w) && RollsBackAt(w, sid, m, disk, prompt, maxIter, i) && i > 0
    ensures var found := LastFound(w, sid, m, disk, prompt, maxIter);
            found != [] && found[|found| - 1].role.Tool?
    ensures Broken(w, sid, m, disk, prompt, maxIter)
       <==> KeepsCall(w, sid, AtRound(w, sid, Entered(w, sid, m, disk, prompt), i - 1), i - 1)
  {
    var e := Entered(w, sid, m, disk, prompt);
    PromptThrough(w, sid, m, disk, prompt, maxIter);
    hide Prompt, OneRound, KeepsCall, EndsWhole, Entered, Get;
    assert AtRound(w, sid, e, i) == OneRound(w, sid, AtRound(w, sid, e, i - 1), i - 1).mem;
    hide AtRound;
    GroupKeptIff(w, sid, AtRound(w, sid, e, i - 1), i - 1);
  }

  lemma PlainEnd(front: seq<Message>, h: seq<Message>, m: Message, t: nat)
    requires t <= |h| && !IsCaller(m) && !m.role.Tool?
    ensures var g := front + (h + [m])[t..]; g != [] && g[|g| - 1] == m && !EndsWhole(g)
  {
    var g := front + (h + [m])[t..];
    forall k | 0 <= k < |g| ensures !WholeAt(g, k) {
      assert k < |g| - 1 ==> g[k + 1..][|g| - k - 2] == m;
    }
  }

  // ---------------------------------------------------------------- what the next prompt sends

  lemma {:induction false} NoIds(h: seq<Message>)
    requires forall i :: 0 <= i < |h| ==> !IsCaller(h[i])
    ensures ValidIds(h) == {}
    decreases |h|
  {
    if h != [] {
      NoIds(h[..|h| - 1]);
      assert !IsCaller(h[|h| - 1]);
    }
  }

  lemma {:induction false} NothingToAnswer(h: seq<Message>)
    requires forall i :: 0 <= i < |h| ==> !IsCaller(h[i])
    ensures Repairable(h, {})
    decreases |h|
  {
    if h != [] {
      assert !IsCaller(h[0]);
      NothingToAnswer(h[1..]);
    }
  }

  /** After a trim, an open call followed by the user's message: closed by the repair exactly when the call is gone. */
  lemma OpenEntryIff(h: seq<Message>, k: nat, front: seq<Message>, t: nat, user: Message)
    requires OpenAt(h, k) && t < |h + [user]| && user == TextMessage(User, user.text)
    requires front == [] || exists text :: front == [Compressed(text)]
    ensures Closed(Sanitize(front + (h + [user])[t..])) <==> k < t
  {
    var g := front + (h + [user])[t..];
    if k < t {
      assert forall i :: 0 <= i < |h + [user]| - t ==> (h + [user])[t..][i] == (h + [user])[t + i];
      assert forall i :: k < i < |h| ==> h[i] == h[k + 1..][i - k - 1];
      assert forall i :: 0 <= i < |g| ==> !IsCaller(g[i]);
      NoIds(g);
      NothingToAnswer(g);
      SanitizeClosedIff(g);
    } else {
      assert (h + [user])[t..] == h[t..k] + [h[k]] + h[k + 1..] + [user];
      assert g == (front + h[t..k]) + [h[k]] + h[k + 1..] + [user];
      OpenCallStaysOpen(front + h[t..k], h[k], h[k + 1..], [user]);
    }
  }

  /** Some open call at the end of the session is still there after the trim at the start of a prompt. */
  predicate OpenCallSurvives(w: World, sid: string, m: Mem, disk: seq<Message>, prompt: string) {
    exists k :: 0 <= k < |Start(m, sid, disk)| && OpenAt(Start(m, sid, disk), k)
             && Taken(w, WithPrompt(m, sid, disk, prompt), sid, EnteringTrim) <= k
  }

  lemma OneOpen(h: seq<Message>, k: nat, l: nat)
    requires OpenAt(h, k) && OpenAt(h, l)
    ensures k == l
  {
    assert forall i :: k < i < |h| ==> h[i] == h[k + 1..][i - k - 1];
    assert forall i :: l < i < |h| ==> h[i] == h[l + 1..][i - l - 1];
  }

  /** From a session that is sound or ends in an open call: the first history a prompt sends is closed exactly
      when no open call survives the prompt's own trim. */
  lemma FirstSentClosedIff(w: World, sid: string, m: Mem, disk: seq<Message>, prompt: string, maxIter: int)
    requires Quiet(w) && maxIter > 0
    requires Sound(Start(m, sid, disk)) || EndsOpen(Start(m, sid, disk))
    ensures var o := Prompt(w, sid, m, disk, prompt, maxIter);
            o.sent != [] && (Closed(o.sent[0]) <==> !OpenCallSurvives(w, sid, m, disk, prompt))
  {
    hide Taken, Summary, TrimAt, Entered, Prompt, WithPrompt, OpenAt, Sanitize, Start, Closed, Sound, Repairable;
    var h, m1, user := Start(m, sid, disk), WithPrompt(m, sid, disk, prompt), TextMessage(User, prompt);
    var e := Entered(w, sid, m, disk, prompt);
    EnteredIs(w, sid, m, disk, prompt);
    PromptSends(w, sid, m, disk, prompt, maxIter);
    QuietTrim(w, m1, sid, EnteringTrim);
    if EndsOpen(h) {
      var k :| 0 <= k < |h| && OpenAt(h, k);
      OpenEntryIff(h, k, Summary(w, m1, sid, EnteringTrim), Taken(w, m1, sid, EnteringTrim), user);
      forall l | 0 <= l < |h| && OpenAt(h, l) ensures l == k {
        OneOpen(h, k, l);
      }
    } else {
      PlainAppendSound(h, user);
      TrimSound(w, m1, sid, EnteringTrim);
      SoundSanitizesClosed(Get(e, sid));
    }
  }

  /** Two prompts, one after the other, each running alone: the second one's first history is closed exactly
      when the first one did not break the session, or the second one's trim takes the open call off. */
  lemma NextPromptClosedIff(w: World, sid: string, m: Mem, disk: seq<Message>, prompt: string, maxIter: int,
                            w2: World, disk2: seq<Message>, prompt2: string, maxIter2: int)
    requires Quiet(w) && Sound(Start(m, sid, disk)) && Fresh(w, 0, Labels(Start(m, sid, disk)))
    requires Quiet(w2) && maxIter2 > 0
    ensures var o := Prompt(w, sid, m, disk, prompt, maxIter);
            var o2 := Prompt(w2, sid, o.mem, disk2, prompt2, maxIter2);
            && o2.sent != []
            && (Closed(o2.sent[0]) <==>
                  !Broken(w, sid, m, disk, prompt, maxIter) || !OpenCallSurvives(w2, sid, o.mem, disk2, prompt2))
  {
    var o := Prompt(w, sid, m, disk, prompt, maxIter);
    PromptSoundIff(w, sid, m, disk, prompt, maxIter);
    PromptBounded(w, sid, m, disk, prompt, maxIter);
    hide Prompt, Broken, Quiet, Sound, Fresh;
    assert Start(o.mem, sid, disk2) == Get(o.mem, sid);
    FirstSentClosedIff(w2, sid, o.mem, disk2, prompt2, maxIter2);
  }

  // ---------------------------------------------------------------- a tool that raises

  lemma {:induction false} RaisedEndsInCall(w: World, sid: string, m: Mem, local: seq<Message>, i: nat, maxIter: int,
                                            last: string, sent: seq<seq<Message>>)
    requires Quiet(w) && Rounds(w, sid, m, local, i, maxIter, last, sent).end.ToolRaised?
    ensures var o := Rounds(w, sid, m, local, i, maxIter, last, sent);
            sid in o.mem.sessions && Get(o.mem, sid) != [] && IsCaller(Get(o.mem, sid)[|Get(o.mem, sid)| - 1])
    decreases maxIter - i
  {
    var next := OneRound(w, sid, m, i);
    if next.Go? {
      RaisedEndsInCall(w, sid, next.mem, local + next.group, i + 1, maxIter, next.last,
                       sent + Copies(local, Asked(w.llm(i))));
    }
  }

  lemma RaisedPromptEndsInCall(w: World, sid: string, m: Mem, disk: seq<Message>, prompt: string, maxIter: int)
    requires Quiet(w) && Prompt(w, sid, m, disk, prompt, maxIter).end.ToolRaised?
    ensures var o := Prompt(w, sid, m, disk, prompt, maxIter);
            sid in o.mem.sessions && o.mem.sessions[sid] != [] && IsCaller(o.mem.sessions[sid][|o.mem.sessions[sid]| - 1])
  {
    var e := Entered(w, sid, m, disk, prompt);
    hide Entered, Rounds, Sanitize;
    RaisedEndsInCall(w, sid, e, Sanitize(Get(e, sid)), 0, maxIter, "", []);
  }

  /** A tool that raises leaves a call with no results, from whatever session and in whatever round, and no trim
      can take it off in time: the next prompt's first history is never closed. */
  lemma ToolRaisedBreaksNext(w: World, sid: string, m: Mem, disk: seq<Message>, prompt: string, maxIter: int,
                             w2: World, disk2: seq<Message>, prompt2: string, maxIter2: int)
    requires Quiet(w) && Quiet(w2) && maxIter2 > 0
    requires Prompt(w, sid, m, disk, prompt, maxIter).end.ToolRaised?
    ensures var o2 := Prompt(w2, sid, Prompt(w, sid, m, disk, prompt, maxIter).mem, disk2, prompt2, maxIter2);
            o2.sent != [] && !Closed(o2.sent[0])
  {
    hide *;
    var o := Prompt(w, sid, m, disk, prompt, maxIter);
    RaisedPromptEndsInCall(w, sid, m, disk, prompt, maxIter);
    OpenLastCallSent(w2, sid, o.mem, disk2, prompt2, maxIter2);
  }

  lemma OpenLastCallSent(w: World, sid: string, m: Mem, disk: seq<Message>, prompt: string, maxIter: int)
    requires Quiet(w) && maxIter > 0
    requires sid in m.sessions && m.sessions[sid] != [] && IsCaller(m.sessions[sid][|m.sessions[sid]| - 1])
    ensures var o := Prompt(w, sid, m, disk, prompt, maxIter);
            o.sent != [] && !Closed(o.sent[0])
  {
    var h, m1 := m.sessions[sid], WithPrompt(m, sid, disk, prompt);
    assert h == DropLast(h) + [h[|h| - 1]];
    CallOpens(DropLast(h), h[|h| - 1]);
    EnteredIs(w, sid, m, disk, prompt);
    QuietTrim(w, m1, sid, EnteringTrim);
    hide Prompt, Entered, Taken, Summary, TrimAt, OpenAt, Sanitize, DropLast, WithPrompt;
    FirstSentClosedIff(w, sid, m, disk, prompt, maxIter);
  }

  // ---------------------------------------------------------------- rollbacks

  /** All models failing in the first round: the session is restored exactly when the trim on entry took nothing off. */
  lemma FirstRoundRollbackIff(w: World, sid: string, m: Mem, disk: seq<Message>, prompt: string, maxIter: int)
    requires Quiet(w) && maxIter > 0 && Final(w.llm(0)).Failed? && w.llm(0).offline.None?
    ensures Prompt(w, sid, m, disk, prompt, maxIter).end == RolledBack(0)
    ensures Get(Prompt(w, sid, m, disk, prompt, maxIter).mem, sid) == Start(m, sid, disk)
            <==> Taken(w, WithPrompt(m, sid, disk, prompt), sid, EnteringTrim) == 0
  {
    var m1 := WithPrompt(m, sid, disk, prompt);
    FirstRoundGivesUp(w, sid, m, disk, prompt, maxIter);
    EnteredIs(w, sid, m, disk, prompt);
    QuietTrim(w, m1, sid, EnteringTrim);
    hide Prompt, Taken, Summary, TrimAt, Entered, WithPrompt, Start, Get, DropLast;
    TakenBackIff(Summary(w, m1, sid, EnteringTrim), Start(m, sid, disk), TextMessage(User, prompt), Taken(w, m1, sid, EnteringTrim));
  }

  lemma FirstRoundGivesUp(w: World, sid: string, m: Mem, disk: seq<Message>, prompt: string, maxIter: int)
    requires Quiet(w) && maxIter > 0 && Final(w.llm(0)).Failed? && w.llm(0).offline.None?
    ensures var o := Prompt(w, sid, m, disk, prompt, maxIter);
            o.end == RolledBack(0) && Get(o.mem, sid) == DropLast(Get(Entered(w, sid, m, disk, prompt), sid))
  {
    var e := Entered(w, sid, m, disk, prompt);
    hide Entered, Sanitize;
    RoundsUnfold(w, sid, e, Sanitize(Get(e, sid)), 0, maxIter, "", []);
  }

  lemma TakenBackIff(front: seq<Message>, h: seq<Message>, user: Message, t: nat)
    requires t <= |h| && (front == [] || (t > 1 && |front| == 1))
    ensures DropLast(front + (h + [user])[t..]) == h <==> t == 0
  {
    if t == 0 {
      assert front + (h + [user])[t..] == h + [user];
    } else {
      assert |DropLast(front + (h + [user])[t..])| == |front| + |h| - t;
    }
  }

  /** The whole story in one run: a short sound session, one round of tools, then all models fail with no
      offline rule. The first prompt ends with the rollback, and the second one's first request is not closed. */
  lemma RollbackRun(w: World, w2: World, sid: string, m: Mem, p1: string, p2: string, maxIter: int)
    requires Quiet(w) && Quiet(w2) && sid in m.sessions && maxIter >= 2
    requires Final(w.llm(0)).Reply? && Final(w.llm(0)).calls != [] && AllReturn(Final(w.llm(0)).calls, w.llm(0).outputs)
    requires !w.llm(0).idle && Final(w.llm(1)).Failed? && w.llm(1).offline.None?
    requires |m.sessions[sid]| + |Final(w.llm(0)).calls| + 2 <= COMPACTION_THRESHOLD
    ensures var o := Prompt(w, sid, m, [], p1, maxIter);
            && o.end == RolledBack(1)
            && var o2 := Prompt(w2, sid, o.mem, [], p2, maxIter);
               o2.sent != [] && !Closed(o2.sent[0])
  {
    var h, user := m.sessions[sid], TextMessage(User, p1);
    var Reply(text, calls) := Final(w.llm(0));
    var c, rs := CallMessage(text, calls), Results(calls, w.llm(0).outputs);
    var e := Entered(w, sid, m, [], p1);
    var m2 := OneRound(w, sid, e, 0).mem;
    ToolsThenFailure(w, sid, e);
    assert Get(e, sid) == h + [user];
    var o := Prompt(w, sid, m, [], p1, maxIter);
    var local, last := Sanitize(Get(e, sid)), OneRound(w, sid, e, 0).last;
    RoundsUnfold(w, sid, e, local, 0, maxIter, "", []);
    RoundsUnfold(w, sid, m2, local + OneRound(w, sid, e, 0).group, 1, maxIter, last, [] + Copies(local, Asked(w.llm(0))));
    assert o.mem == Put(m2, sid, DropLast(Get(m2, sid)));
    assert Get(o.mem, sid) == DropLast(h + [user] + [c] + rs);
    assert Get(Entered(w2, sid, o.mem, [], p2), sid) == Get(o.mem, sid) + [TextMessage(User, p2)];
    LaterRollbackOpens(h + [user], c, rs, p2);
    SanitizeClosedIff(Get(Entered(w2, sid, o.mem, [], p2), sid));
    PromptSends(w2, sid, o.mem, [], p2, maxIter);
  }

  lemma LaterRollbackOpens(a: seq<Message>, c: Message, rs: seq<Message>, prompt: string)
    requires IsCaller(c) && Answers(rs, c.toolCalls)
    ensures !Closed(Sanitize(DropLast(a + [c] + rs) + [TextMessage(User, prompt)]))
  {
    assert DropLast(a + [c] + rs) == a + [c] + rs[..|rs| - 1];
    OpenCallStaysOpen(a, c, rs[..|rs| - 1], [TextMessage(User, prompt)]);
  }

  lemma ToolsThenFailure(w: World, sid: string, m: Mem)
    requires Quiet(w) && sid in m.sessions
    requires Final(w.llm(0)).Reply? && Final(w.llm(0)).calls != [] && AllReturn(Final(w.llm(0)).calls, w.llm(0).outputs)
    requires !w.llm(0).idle && Final(w.llm(1)).Failed? && w.llm(1).offline.None?
    requires |m.sessions[sid]| + |Final(w.llm(0)).calls| < COMPACTION_THRESHOLD
    ensures var Reply(text, calls) := Final(w.llm(0));
            var next := OneRound(w, sid, m, 0);
            && next.Go?
            && Get(next.mem, sid) == m.sessions[sid] + [CallMessage(text, calls)] + Results(calls, w.llm(0).outputs)
            && OneRound(w, sid, next.mem, 1) == Stop(Put(next.mem, sid, DropLast(Get(next.mem, sid))), RolledBack(1))
  {
  }

  // ---------------------------------------------------------------- two prompts at once

  /** Another prompt of the same session has stored its call and not yet its results when this one enters:
      whatever the session held, every history this prompt sends is open, in every round. */
  lemma InterleavedPromptSendsOpen(w: World, sid: string, m: Mem, disk: seq<Message>, prompt: string, maxIter: int,
                                   text: string, calls: seq<ToolCall>)
    requires calls != [] && w.other(Entering, m) == Push(m, sid, [CallMessage(text, calls)]) && QuietAt(w, EnteringTrim)
    ensures forall k :: 0 <= k < |Prompt(w, sid, m, disk, prompt, maxIter).sent| ==>
              !Closed(Prompt(w, sid, m, disk, prompt, maxIter).sent[k])
    ensures maxIter > 0 ==> Prompt(w, sid, m, disk, prompt, maxIter).sent != []
  {
    var c, user, h := CallMessage(text, calls), TextMessage(User, prompt), Get(m, sid);
    var m1 := Push(Push(m, sid, [c]), sid, [user]);
    var e := Entered(w, sid, m, disk, prompt);
    assert e == TrimAt(w, m1, sid, EnteringTrim);
    QuietTrim(w, m1, sid, EnteringTrim);
    CallOpens(h, c);
    PromptSends(w, sid, m, disk, prompt, maxIter);
    SanitizeClosedIff(Get(e, sid));
    hide Prompt, Taken, Summary, TrimAt, OpenAt, Entered;
    OpenEntryIff(h + [c], |h|, Summary(w, m1, sid, EnteringTrim), Taken(w, m1, sid, EnteringTrim), user);
  }

  // ---------------------------------------------------------------- sessions of many prompts

  /** What happens before a prompt: nothing, a crash, a shutdown that saves the session, or a clearing. */
  datatype Before = Nothing | Crash | Shutdown(saves: Saving) | Cleared

  /** How a saving goes: it fails, or the oldest `cut` messages do not fit into the file. */
  datatype Saving = Fails | Fits(cut: nat)

  /** One prompt of a session: what happens before it, its environment, its text, its round limit, and how the
      saving at its end goes. */
  datatype Request = Request(before: Before, w: World, prompt: string, maxIter: int, saves: Saving)

  /** The memory, and what the session's file holds. */
  datatype State = State(mem: Mem, disk: seq<Message>)

  /** `SaveSession`: nothing to save, or the file is replaced; the last two messages always fit. */
  function Saved(disk: seq<Message>, sid: string, h: seq<Message>, saves: Saving): seq<Message> {
    if sid == "" || h == [] || saves.Fails? then disk else h[Unfit(h, saves.cut)..]
  }

  function Unfit(h: seq<Message>, cut: nat): (n: nat)
    ensures n <= |h|
  {
    if |h| <= 2 then 0 else if cut + 2 <= |h| then cut else |h| - 2
  }

  function Prepared(s: State, sid: string, b: Before): State {
    match b
    case Nothing => s
    case Crash => State(Mem(map[], {}), s.disk)
    case Shutdown(saves) => State(Mem(map[], {}), Saved(s.disk, sid, Get(s.mem, sid), saves))
    case Cleared => State(Mem(s.mem.sessions - {sid}, s.mem.compacting), [])
  }

  /** The ends at which a prompt saves: a final answer, an idle stop and the round limit, but neither an offline
      answer nor a rollback nor an exception. */
  predicate Saves(w: World, o: Outcome, maxIter: int) {
    o.end.Answered? && (o.rounds >= maxIter || Final(w.llm(o.rounds)).Reply?)
  }

  function PromptOf(sid: string, s: State, q: Request): Outcome {
    var s0 := Prepared(s, sid, q.before);
    Prompt(q.w, sid, s0.mem, s0.disk, q.prompt, q.maxIter)
  }

  function After(sid: string, s: State, q: Request): State {
    var s0, o := Prepared(s, sid, q.before), PromptOf(sid, s, q);
    State(o.mem, if Saves(q.w, o, q.maxIter) then Saved(s0.disk, sid, Get(o.mem, sid), q.saves) else s0.disk)
  }

  /** Prompts of one session, one after the other; the histories sent are collected. */
  function Session(sid: string, s: State, qs: seq<Request>): (State, seq<seq<Message>>)
    decreases |qs|
  {
    if qs == [] then (s, [])
    else
      var (s1, sent) := Session(sid, After(sid, s, qs[0]), qs[1..]);
      (s1, PromptOf(sid, s, qs[0]).sent + sent)
  }

  function Found(sid: string, s: State, q: Request): seq<Message> {
    Start(Prepared(s, sid, q.before).mem, sid, Prepared(s, sid, q.before).disk)
  }

  /** Each prompt runs alone and meets only ids new to the session it finds, if that is sound. */
  ghost predicate Orderly(sid: string, s: State, qs: seq<Request>)
    decreases |qs|
  {
    qs == [] ||
    (var q := qs[0];
     && Quiet(q.w) && (Sound(Found(sid, s, q)) ==> Fresh(q.w, 0, Labels(Found(sid, s, q))))
     && Orderly(sid, After(sid, s, q), qs[1..]))
  }

  predicate BrokenBy(sid: string, s: State, q: Request) {
    var s0 := Prepared(s, sid, q.before);
    Broken(q.w, sid, s0.mem, s0.disk, q.prompt, q.maxIter)
  }

  predicate NoneBroken(sid: string, s: State, qs: seq<Request>)
    decreases |qs|
  {
    qs == [] || (!BrokenBy(sid, s, qs[0]) && NoneBroken(sid, After(sid, s, qs[0]), qs[1..]))
  }

  /** The session in memory is sound after every prompt. */
  predicate AlwaysSound(sid: string, s: State, qs: seq<Request>)
    decreases |qs|
  {
    qs == [] || (Sound(Get(After(sid, s, qs[0]).mem, sid)) && AlwaysSound(sid, After(sid, s, qs[0]), qs[1..]))
  }

  /** Memory and file are sound. */
  predicate Intact(sid: string, s: State) {
    Sound(Get(s.mem, sid)) && Sound(s.disk)
  }

  lemma SavedSound(disk: seq<Message>, sid: string, h: seq<Message>, saves: Saving)
    requires Sound(disk) && Sound(h)
    ensures Sound(Saved(disk, sid, h, saves))
  {
    hide Sound, Unfit;
    if saves.Fits? {
      SoundDrop(h, Unfit(h, saves.cut));
    }
  }

  lemma PreparedIntact(sid: string, s: State, b: Before)
    requires Intact(sid, s)
    ensures Intact(sid, Prepared(s, sid, b)) && Sound(Start(Prepared(s, sid, b).mem, sid, Prepared(s, sid, b).disk))
  {
    EmptySound();
    hide Sound, Saved;
    if b.Shutdown? {
      SavedSound(s.disk, sid, Get(s.mem, sid), b.saves);
    }
  }

  /** One prompt keeps memory and file sound exactly when it does not break the session, and sends only closed histories. */
  lemma AfterIntactIff(sid: string, s: State, q: Request)
    requires Intact(sid, s) && Orderly(sid, s, [q])
    ensures Sound(Get(After(sid, s, q).mem, sid)) <==> !BrokenBy(sid, s, q)
    ensures !BrokenBy(sid, s, q) ==> Intact(sid, After(sid, s, q))
    ensures forall k :: 0 <= k < |PromptOf(sid, s, q).sent| ==> Closed(PromptOf(sid, s, q).sent[k])
  {
    var s0 := Prepared(s, sid, q.before);
    PreparedIntact(sid, s, q.before);
    assert [q][0] == q;
    hide Sound, Fresh, Prompt, Broken, Quiet, Closed, Prepared, Saved, Saves, Start;
    PromptSoundIff(q.w, sid, s0.mem, s0.disk, q.prompt, q.maxIter);
    if !BrokenBy(sid, s, q) {
      SavedSound(s0.disk, sid, Get(PromptOf(sid, s, q).mem, sid), q.saves);
    }
  }

  /** Over any number of prompts, with crashes, shutdowns, reloads from what was saved and clearings between
      them: the session is sound after each prompt exactly when none of them breaks it; then what was saved is
      sound as well, and every history ever sent is closed. */
  lemma {:induction false} SessionSoundIff(sid: string, s: State, qs: seq<Request>)
    requires Orderly(sid, s, qs) && Intact(sid, s)
    ensures AlwaysSound(sid, s, qs) <==> NoneBroken(sid, s, qs)
    ensures NoneBroken(sid, s, qs) ==> Intact(sid, Session(sid, s, qs).0)
    ensures NoneBroken(sid, s, qs) ==> forall k :: 0 <= k < |Session(sid, s, qs).1| ==> Closed(Session(sid, s, qs).1[k])
    decreases |qs|
  {
    hide Sound, Closed, After, PromptOf, BrokenBy, Intact, Found, Fresh, Quiet;
    if qs != [] {
      assert Orderly(sid, s, [qs[0]]) by { assert [qs[0]][1..] == []; }
      AfterIntactIff(sid, s, qs[0]);
      if !BrokenBy(sid, s, qs[0]) {
        SessionSoundIff(sid, After(sid, s, qs[0]), qs[1..]);
      }
    }
  }

  /** A final answer that could be saved stands at the end of the file, behind as much of the session as fitted; after a
      crash the next prompt finds exactly that. */
  lemma SavedAnswerFound(sid: string, s: State, q: Request, next: Request)
    requires sid != "" && Quiet(q.w) && q.saves.Fits? && next.before.Crash?
    requires var o := PromptOf(sid, s, q); o.end.Answered? && o.rounds < q.maxIter && Final(q.w.llm(o.rounds)).Reply?
    ensures var h, found := Get(After(sid, s, q).mem, sid), Found(sid, After(sid, s, q), next);
            && found != [] && |found| <= |h| && found == h[|h| - |found|..]
            && (q.saves.cut == 0 ==> found == h)
  {
    var o, s0 := PromptOf(sid, s, q), Prepared(s, sid, q.before);
    EndsNotEmpty(q.w, sid, s0.mem, s0.disk, q.prompt, q.maxIter);
  }

  lemma EndsNotEmpty(w: World, sid: string, m: Mem, disk: seq<Message>, prompt: string, maxIter: int)
    requires Quiet(w) && Prompt(w, sid, m, disk, prompt, maxIter).end.Answered?
    requires Prompt(w, sid, m, disk, prompt, maxIter).rounds < maxIter
    ensures Get(Prompt(w, sid, m, disk, prompt, maxIter).mem, sid) != []
  {
    var i, e := Prompt(w, sid, m, disk, prompt, maxIter).rounds, Entered(w, sid, m, disk, prompt);
    PromptThrough(w, sid, m, disk, prompt, maxIter);
    hide Prompt, AtRound, Entered;
    var m1 := AtRound(w, sid, e, i);
    RoundReplies(w, sid, m1, i);
    if Final(w.llm(i)).Reply? && Final(w.llm(i)).calls == [] {
      var text := Final(w.llm(i)).text;
      var m2 :| LastStored(Get(m2, sid), text) && OneRound(w, sid, m1, i).mem == TrimAt(w, m2, sid, EndTrim(i));
      hide OneRound, TrimAt, Taken, Summary;
      QuietTrim(w, m2, sid, EndTrim(i));
    }
  }

  /** What a prompt finds: after a shutdown that could save everything, the session as it was; after a crash, what was
      saved before; after a clearing, nothing. */
  lemma RestartFinds(sid: string, s: State, q: Request)
    ensures q.before == Shutdown(Fits(0)) && sid != "" && Get(s.mem, sid) != [] ==> Found(sid, s, q) == Get(s.mem, sid)
    ensures q.before.Crash? ==> Found(sid, s, q) == s.disk
    ensures q.before.Cleared? ==> Found(sid, s, q) == []
    ensures q.before.Nothing? && sid in s.mem.sessions ==> Found(sid, s, q) == s.mem.sessions[sid]
  {
    assert Get(s.mem, sid)[0..] == Get(s.mem, sid);
  }

  /** An offline answer and a rollback leave the file as it was. */
  lemma OthersNotSaved(sid: string, s: State, q: Request)
    requires var o := PromptOf(sid, s, q); o.rounds < q.maxIter && !Final(q.w.llm(o.rounds)).Reply?
    ensures After(sid, s, q).disk == Prepared(s, sid, q.before).disk
  {
  }

  /** However the prompts end, sound or not, at most 31 messages are stored after each. */
  lemma {:induction false} SessionBounded(sid: string, s: State, qs: seq<Request>)
    requires qs != [] && forall i :: 0 <= i < |qs| ==> Quiet(qs[i].w)
    ensures |Get(Session(sid, s, qs).0.mem, sid)| <= 31
    decreases |qs|
  {
    var q, s0 := qs[0], Prepared(s, sid, qs[0].before);
    assert Quiet(q.w);
    PromptBounded(q.w, sid, s0.mem, s0.disk, q.prompt, q.maxIter);
    hide Prompt, Quiet;
    if |qs| > 1 {
      SessionBounded(sid, After(sid, s, q), qs[1..]);
    } else {
      assert Session(sid, After(sid, s, q), qs[1..]) == (After(sid, s, q), []);
    }
  }

  /** An undisturbed environment whose model answers every round with the same text and no calls. */
  function Chatty(text: string): World {
    World(i => Round(Reply(text, []), [], None, j => None, false), p => Replied(true, text), (p, m) => m, true)
  }

  function Chat(prompts: seq<string>, text: string): (qs: seq<Request>)
    ensures |qs| == |prompts|
  {
    seq(|prompts|, k requires 0 <= k < |prompts| => Request(Crash, Chatty(text), prompts[k], 1, Fits(0)))
  }

  /** Such sessions exist: from every intact state, any number of prompts that the model answers without calls, even
      with a crash before each. */
  lemma {:induction false} OrderlySessionsExist(sid: string, s: State, prompts: seq<string>, text: string)
    requires Intact(sid, s)
    ensures Orderly(sid, s, Chat(prompts, text)) && NoneBroken(sid, s, Chat(prompts, text))
    decreases |prompts|
  {
    if prompts != [] {
      var qs := Chat(prompts, text);
      var q := qs[0];
      assert qs[1..] == Chat(prompts[1..], text);
      ChattyOrderly(sid, s, q, prompts[0], text);
      hide After, BrokenBy, Quiet, Fresh, Found, Sound, Labels, Intact, Chat;
      AfterIntactIff(sid, s, q);
      OrderlySessionsExist(sid, After(sid, s, q), prompts[1..], text);
    }
  }

  lemma ChattyOrderly(sid: string, s: State, q: Request, prompt: string, text: string)
    requires q == Request(Crash, Chatty(text), prompt, 1, Fits(0))
    ensures !BrokenBy(sid, s, q) && Orderly(sid, s, [q])
    ensures Quiet(q.w) && (Sound(Found(sid, s, q)) ==> Fresh(q.w, 0, Labels(Found(sid, s, q))))
  {
    var s0 := Prepared(s, sid, q.before);
    ChattyAnswers(sid, s0.mem, s0.disk, prompt, text);
    if Sound(Found(sid, s, q)) {
      ChattyFresh(text, Labels(Found(sid, s, q)));
    }
    ChattyFresh(text, []);
    hide Sound, Fresh, Labels, Found, Chatty, Quiet, After;
    assert [q][1..] == [];
  }

  lemma EmptySound()
    ensures Sound([])
  {
  }

  lemma ChattyFresh(text: string, used: seq<string>)
    ensures Quiet(Chatty(text)) && Fresh(Chatty(text), 0, used)
  {
    forall i: nat ensures CallsAt(Chatty(text), i) == [] {
      assert Final(Chatty(text).llm(i)) == Reply(text, []);
    }
  }

  lemma ChattyAnswers(sid: string, m: Mem, disk: seq<Message>, prompt: string, text: string)
    ensures !Broken(Chatty(text), sid, m, disk, prompt, 1)
  {
    var w := Chatty(text);
    assert Final(w.llm(0)) == Reply(text, []);
    var e := Entered(w, sid, m, disk, prompt);
    assert OneRound(w, sid, e, 0).Stop? && OneRound(w, sid, e, 0).end.Answered?;
    RoundsUnfold(w, sid, e, Sanitize(Get(e, sid)), 0, 1, "", []);
  }
}

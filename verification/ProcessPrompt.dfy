/** The agent loop: one prompt, its rounds of tool calls, and what it sends to the language models. */
module ProcessPrompt {
  import opened History
  import opened Options
  import opened SessionTable

  /** A model's answer: an exception, an unsuccessful response, or text with tool calls. */
  datatype Reply = Raised | Failed | Reply(text: string, calls: seq<ToolCall>)

  datatype Output = Output(name: string, result: string)

  /** Everything one round meets: the primary model, the fallback models in order, the offline rule, what
      each tool returns (or that it raises), and whether the idle check fires. */
  datatype Round = Round(primary: Reply, fallbacks: seq<Reply>, offline: Option<string>,
                         outputs: nat -> Option<Output>, idle: bool)

  /** The places where a prompt does not hold the session lock. */
  datatype Point = Entering | EnteringTrim | BeforeCall(round: nat) | BeforeResults(round: nat)
                 | ResultsTrim(round: nat) | BeforeEnd(round: nat) | EndTrim(round: nat)

  /** One environment: models, tools, and what all other threads do to the session table at each point. */
  datatype World = World(llm: nat -> Round, compaction: Point -> ChatResult, other: (Point, Mem) -> Mem, backend: bool)

  datatype End = Answered(reply: string) | RolledBack(round: nat) | ChatRaised | ToolRaised

  datatype Outcome = Outcome(mem: Mem, sent: seq<seq<Message>>, rounds: nat, end: End)

  function TryFallbacks(rs: seq<Reply>): (r: (nat, Reply))
    ensures r.0 <= |rs|
  {
    if rs == [] then (0, Failed)
    else if rs[0].Failed? then
      var (n, r) := TryFallbacks(rs[1..]);
      (n + 1, r)
    else (1, rs[0])
  }

  /** The reply a round works with. */
  function Final(r: Round): Reply {
    if r.primary.Failed? then TryFallbacks(r.fallbacks).1 else r.primary
  }

  /** How many models receive the history in a round. */
  function Asked(r: Round): (n: nat)
    ensures n >= 1
  {
    if r.primary.Failed? then 1 + TryFallbacks(r.fallbacks).0 else 1
  }

  function Copies(h: seq<Message>, n: nat): seq<seq<Message>> {
    seq(n, i => h)
  }

  function CallMessage(text: string, calls: seq<ToolCall>): Message {
    Message(Assistant, text, calls, "", "", "")
  }

  function ResultMessage(call: ToolCall, o: Output): Message {
    Message(Tool, "", [], o.name, call.id, o.result)
  }

  /** The message answers this call with what its own tool returned. */
  predicate IsResult(m: Message, call: ToolCall, o: Option<Output>) {
    && m.role.Tool? && m.toolCallId == call.id
    && o.Some? && m.toolName == o.value.name && m.toolResult == o.value.result
  }

  predicate AllReturn(calls: seq<ToolCall>, outputs: nat -> Option<Output>) {
    forall j :: 0 <= j < |calls| ==> outputs(j).Some?
  }

  function Results(calls: seq<ToolCall>, outputs: nat -> Option<Output>): (rs: seq<Message>)
    requires AllReturn(calls, outputs)
    ensures Answers(rs, calls)
  {
    seq(|calls|, j requires 0 <= j < |calls| => ResultMessage(calls[j], outputs(j).value))
  }

  function Push(m: Mem, sid: string, ms: seq<Message>): Mem {
    Put(m, sid, Get(m, sid) + ms)
  }

  /** A whole trim, with other threads' steps inside the window if there is one. */
  function TrimAt(w: World, m: Mem, sid: string, p: Point): Mem {
    var (m1, t) := BeginTrim(m, sid, w.backend);
    if t.None? then m1 else FinishTrim(w.other(p, m1), sid, t.value, w.compaction(p))
  }

  const IDLE_TEXT := "I've been running the same tools without making progress. Stopping to prevent an infinite loop. Please try a different approach."
  const LIMIT_TEXT := "Task partially completed (reached iteration limit)."

  /** What a round leads to: the end of the prompt, or the next round. */
  datatype Next = Stop(mem: Mem, end: End) | Go(mem: Mem, group: seq<Message>, last: string)

  /** All models failed: answer from the offline rules, or take the last message back. */
  function GiveUp(w: World, sid: string, m: Mem, i: nat): Next {
    var m1 := w.other(BeforeEnd(i), m);
    var offline := w.llm(i).offline;
    if offline.Some? then Stop(Push(m1, sid, [TextMessage(Assistant, offline.value)]), Answered(offline.value))
    else Stop(Put(m1, sid, DropLast(Get(m1, sid))), RolledBack(i))
  }

  function Answer(w: World, sid: string, m: Mem, i: nat, text: string): Next {
    var m1 := Push(w.other(BeforeEnd(i), m), sid, [TextMessage(Assistant, text)]);
    Stop(TrimAt(w, m1, sid, EndTrim(i)), Answered(if text == "" then "No response text." else text))
  }

  function CallTools(w: World, sid: string, m: Mem, i: nat, text: string, calls: seq<ToolCall>): Next {
    var c := CallMessage(text, calls);
    var m1 := Push(w.other(BeforeCall(i), m), sid, [c]);
    if !AllReturn(calls, w.llm(i).outputs) then Stop(m1, ToolRaised)
    else
      var rs := Results(calls, w.llm(i).outputs);
      var m2 := TrimAt(w, Push(w.other(BeforeResults(i), m1), sid, rs), sid, ResultsTrim(i));
      if w.llm(i).idle then
        Stop(Push(w.other(BeforeEnd(i), m2), sid, [TextMessage(Assistant, IDLE_TEXT)]), Answered(IDLE_TEXT))
      else Go(m2, [c] + rs, text)
  }

  function OneRound(w: World, sid: string, m: Mem, i: nat): Next {
    match Final(w.llm(i))
    case Raised => Stop(m, ChatRaised)
    case Failed => GiveUp(w, sid, m, i)
    case Reply(text, calls) => if calls == [] then Answer(w, sid, m, i, text) else CallTools(w, sid, m, i, text, calls)
  }

  function Rounds(w: World, sid: string, m: Mem, local: seq<Message>, i: nat, maxIter: int, last: string,
                  sent: seq<seq<Message>>): Outcome
    decreases maxIter - i
  {
    if i >= maxIter then Outcome(m, sent, i, Answered(if last == "" then LIMIT_TEXT else last))
    else
      var sent1 := sent + Copies(local, Asked(w.llm(i)));
      match OneRound(w, sid, m, i)
      case Stop(m1, e) => Outcome(m1, sent1, i, e)
      case Go(m1, group, text) => Rounds(w, sid, m1, local + group, i + 1, maxIter, text, sent1)
  }

  /** The table once the user's message is in and trimmed; the local copy is taken from it. */
  function Entered(w: World, sid: string, m: Mem, disk: seq<Message>, prompt: string): Mem {
    var m0 := w.other(Entering, m);
    var m1 := if sid !in m0.sessions && disk != [] then Put(m0, sid, disk) else m0;
    TrimAt(w, Push(m1, sid, [TextMessage(User, prompt)]), sid, EnteringTrim)
  }

  function Prompt(w: World, sid: string, m: Mem, disk: seq<Message>, prompt: string, maxIter: int): Outcome {
    var m1 := Entered(w, sid, m, disk, prompt);
    Rounds(w, sid, m1, Sanitize(Get(m1, sid)), 0, maxIter, "", [])
  }

  // ---------------------------------------------------------------- the loop as the program runs it

  class Agent {
    const table: Sessions

    constructor (t: Sessions)
      ensures table == t
    {
      table := t;
    }

    /** Other threads' steps while the lock is free. */
    method Interfere(w: World, p: Point)
      modifies table
      ensures table.View() == w.other(p, old(table.View()))
    {
      var m := w.other(p, table.View());
      table.sessions, table.compacting := m.sessions, m.compacting;
    }

    method Trim(w: World, sid: string, p: Point)
      modifies table
      ensures table.View() == TrimAt(w, old(table.View()), sid, p)
    {
      var ticket := table.StartTrim(sid, w.backend);
      if ticket.Some? {
        Interfere(w, p);
        table.CompleteTrim(sid, ticket.value, w.compaction(p));
      }
    }

    /** Runs the tools of one reply; `None` when one of them raises. */
    method RunTools(calls: seq<ToolCall>, outputs: nat -> Option<Output>) returns (r: Option<seq<Message>>)
      ensures r.Some? <==> AllReturn(calls, outputs)
      ensures r.Some? ==> r.value == Results(calls, outputs)
      ensures r.Some? ==> |r.value| == |calls| && forall j :: 0 <= j < |calls| ==> IsResult(r.value[j], calls[j], outputs(j))
    {
      var rs := [];
      for j := 0 to |calls|
        invariant |rs| == j
        invariant forall k :: 0 <= k < j ==> outputs(k).Some? && rs[k] == ResultMessage(calls[k], outputs(k).value)
      {
        match outputs(j)
        case None => return None;
        case Some(o) => rs := rs + [ResultMessage(calls[j], o)];
      }
      return Some(rs);
    }

    method GiveUpRound(w: World, sid: string, i: nat) returns (end: End)
      modifies table
      ensures Stop(table.View(), end) == GiveUp(w, sid, old(table.View()), i)
    {
      Interfere(w, BeforeEnd(i));
      var offline := w.llm(i).offline;
      if offline.Some? {
        table.Append(sid, [TextMessage(Assistant, offline.value)]);
        end := Answered(offline.value);
      } else {
        table.PopBack(sid);
        end := RolledBack(i);
      }
    }

    method AnswerRound(w: World, sid: string, i: nat, text: string) returns (end: End)
      modifies table
      ensures Stop(table.View(), end) == Answer(w, sid, old(table.View()), i, text)
    {
      Interfere(w, BeforeEnd(i));
      table.Append(sid, [TextMessage(Assistant, text)]);
      Trim(w, sid, EndTrim(i));
      end := Answered(if text == "" then "No response text." else text);
    }

    /** A round of tool calls: the end it leads to, or the messages it adds to the local copy. */
    method ToolRound(w: World, sid: string, i: nat, text: string, calls: seq<ToolCall>)
      returns (end: Option<End>, group: seq<Message>)
      modifies table
      ensures (if end.Some? then Stop(table.View(), end.value) else Go(table.View(), group, text))
              == CallTools(w, sid, old(table.View()), i, text, calls)
    {
      group := [];
      var call := CallMessage(text, calls);
      Interfere(w, BeforeCall(i));
      table.Append(sid, [call]);
      var results := RunTools(calls, w.llm(i).outputs);
      if results.None? {
        return Some(ToolRaised), group;
      }
      group := [call] + results.value;
      Interfere(w, BeforeResults(i));
      table.Append(sid, results.value);
      Trim(w, sid, ResultsTrim(i));
      if w.llm(i).idle {
        Interfere(w, BeforeEnd(i));
        table.Append(sid, [TextMessage(Assistant, IDLE_TEXT)]);
        return Some(Answered(IDLE_TEXT)), group;
      }
      end := None;
    }

    method Enter(w: World, sid: string, disk: seq<Message>, prompt: string) returns (local: seq<Message>)
      modifies table
      ensures table.View() == Entered(w, sid, old(table.View()), disk, prompt)
      ensures local == Sanitize(Get(table.View(), sid))
    {
      Interfere(w, Entering);
      if sid !in table.sessions && disk != [] {
        table.sessions := table.sessions[sid := disk];
      }
      table.Append(sid, [TextMessage(User, prompt)]);
      Trim(w, sid, EnteringTrim);
      local := SanitizeHistory(if sid in table.sessions then table.sessions[sid] else []);
    }

    method ProcessPrompt(w: World, sid: string, disk: seq<Message>, prompt: string, maxIter: int)
      returns (sent: seq<seq<Message>>, iterations: nat, end: End)
      modifies table
      ensures Outcome(table.View(), sent, iterations, end) == Prompt(w, sid, old(table.View()), disk, prompt, maxIter)
    {
      var local := Enter(w, sid, disk, prompt);
      iterations, sent := 0, [];
      var last := "";
      while iterations < maxIter
        invariant Rounds(w, sid, table.View(), local, iterations, maxIter, last, sent)
               == Prompt(w, sid, old(table.View()), disk, prompt, maxIter)
      {
        sent := sent + Copies(local, Asked(w.llm(iterations)));
        match Final(w.llm(iterations))
        case Raised =>
          end := ChatRaised;
          return;
        case Failed =>
          end := GiveUpRound(w, sid, iterations);
          return;
        case Reply(text, calls) =>
          if calls == [] {
            end := AnswerRound(w, sid, iterations, text);
            return;
          }
          var stop, group := ToolRound(w, sid, iterations, text, calls);
          if stop.Some? {
            end := stop.value;
            return;
          }
          local, last := local + group, text;
          iterations := iterations + 1;
      }
      end := Answered(if last == "" then LIMIT_TEXT else last);
    }
  }

  // ---------------------------------------------------------------- what is sent, whatever other threads do

  /** All histories sent in a call, from `sent` on, extend `local`, and each is closed exactly when `local` is. */
  predicate SentLike(sent: seq<seq<Message>>, from: nat, local: seq<Message>) {
    forall k :: from <= k < |sent| ==> local <= sent[k] && (Closed(sent[k]) <==> Closed(local))
  }

  lemma GroupClosed(w: World, sid: string, m: Mem, i: nat)
    ensures OneRound(w, sid, m, i).Go? ==> Closed(OneRound(w, sid, m, i).group)
  {
    if OneRound(w, sid, m, i).Go? {
      var Reply(text, calls) := Final(w.llm(i));
      GroupSound(CallMessage(text, calls), Results(calls, w.llm(i).outputs));
    }
  }

  lemma {:induction false} RoundsSend(w: World, sid: string, m: Mem, local: seq<Message>, i: nat, maxIter: int,
                                      last: string, sent: seq<seq<Message>>)
    requires i <= maxIter
    ensures var o := Rounds(w, sid, m, local, i, maxIter, last, sent);
            && sent <= o.sent && SentLike(o.sent, |sent|, local)
            && i <= o.rounds <= maxIter
            && (i < maxIter ==> |sent| < |o.sent| && o.sent[|sent|] == local)
    decreases maxIter - i
  {
    if i < maxIter {
      var next := OneRound(w, sid, m, i);
      GroupClosed(w, sid, m, i);
      hide OneRound, Closed;
      if next.Go? {
        ClosedAppendIff(local, next.group);
        RoundsSend(w, sid, next.mem, local + next.group, i + 1, maxIter, next.last, sent + Copies(local, Asked(w.llm(i))));
      }
    }
  }

  /** Whatever other threads do to the table, and whatever models and tools answer: every history sent to a
      model or fallback model extends the repaired copy taken at the start, and is closed exactly when the
      session, as it was when the copy was taken, is repairable; and there are at most `maxIter` rounds. */
  lemma PromptSends(w: World, sid: string, m: Mem, disk: seq<Message>, prompt: string, maxIter: int)
    ensures var o := Prompt(w, sid, m, disk, prompt, maxIter);
            var snapshot := Get(Entered(w, sid, m, disk, prompt), sid);
            var start := Sanitize(snapshot);
            && (forall k :: 0 <= k < |o.sent| ==>
                  start <= o.sent[k] && (Closed(o.sent[k]) <==> Repairable(snapshot, ValidIds(snapshot))))
            && (maxIter > 0 ==> o.rounds <= maxIter && o.sent != [] && o.sent[0] == start)
            && (maxIter <= 0 ==> o.rounds == 0 && o.sent == [])
  {
    var m1 := Entered(w, sid, m, disk, prompt);
    SanitizeClosedIff(Get(m1, sid));
    if maxIter >= 0 {
      RoundsSend(w, sid, m1, Sanitize(Get(m1, sid)), 0, maxIter, "", []);
    }
  }

  // ---------------------------------------------------------------- how much is stored

  ghost predicate Quiet(w: World) {
    forall p, m :: w.other(p, m) == m
  }

  /** Whatever other threads do meanwhile, a trim leaves at most thirty messages. */
  lemma TrimBounded(w: World, m: Mem, sid: string, p: Point)
    ensures |Get(TrimAt(w, m, sid, p), sid)| <= 30
    ensures Quiet(w) ==> sid in TrimAt(w, m, sid, p).sessions
  {
  }

  lemma OneRoundBounded(w: World, sid: string, m: Mem, i: nat)
    requires Quiet(w) && sid in m.sessions && |Get(m, sid)| <= MAX_HISTORY_SIZE
    ensures sid in OneRound(w, sid, m, i).mem.sessions
    ensures |Get(OneRound(w, sid, m, i).mem, sid)| <= MAX_HISTORY_SIZE + 1
    ensures OneRound(w, sid, m, i).Go? ==> |Get(OneRound(w, sid, m, i).mem, sid)| <= MAX_HISTORY_SIZE
  {
    match Final(w.llm(i))
    case Reply(text, calls) =>
      if calls == [] {
        TrimBounded(w, Push(m, sid, [TextMessage(Assistant, text)]), sid, EndTrim(i));
      } else if AllReturn(calls, w.llm(i).outputs) {
        TrimBounded(w, Push(Push(m, sid, [CallMessage(text, calls)]), sid, Results(calls, w.llm(i).outputs)), sid, ResultsTrim(i));
      }
    case _ =>
  }

  lemma {:induction false} RoundsBounded(w: World, sid: string, m: Mem, local: seq<Message>, i: nat, maxIter: int,
                                         last: string, sent: seq<seq<Message>>)
    requires Quiet(w) && sid in m.sessions && |Get(m, sid)| <= MAX_HISTORY_SIZE
    ensures var m1 := Rounds(w, sid, m, local, i, maxIter, last, sent).mem;
            sid in m1.sessions && |Get(m1, sid)| <= MAX_HISTORY_SIZE + 1
    decreases maxIter - i
  {
    if i < maxIter {
      OneRoundBounded(w, sid, m, i);
      var next := OneRound(w, sid, m, i);
      if next.Go? {
        RoundsBounded(w, sid, next.mem, local + next.group, i + 1, maxIter, next.last,
                      sent + Copies(local, Asked(w.llm(i))));
      }
    }
  }

  /** Without interference every prompt, however it ends, leaves at most 31 stored messages, from a stored or
      loaded session of any length. */
  lemma PromptBounded(w: World, sid: string, m: Mem, disk: seq<Message>, prompt: string, maxIter: int)
    requires Quiet(w)
    ensures var m1 := Prompt(w, sid, m, disk, prompt, maxIter).mem;
            sid in m1.sessions && |Get(m1, sid)| <= MAX_HISTORY_SIZE + 1
  {
    var m1 := if sid !in m.sessions && disk != [] then Put(m, sid, disk) else m;
    TrimBounded(w, Push(m1, sid, [TextMessage(User, prompt)]), sid, EnteringTrim);
    var e := Entered(w, sid, m, disk, prompt);
    RoundsBounded(w, sid, e, Sanitize(Get(e, sid)), 0, maxIter, "", []);
  }

  // ---------------------------------------------------------------- who answers, and what is sent and stored

  /** The models of a round are asked in order until one does not fail: it answers, and nobody behind it is asked. */
  lemma {:induction false} FirstToAnswer(rs: seq<Reply>)
    ensures var (n, r) := TryFallbacks(rs);
            && (forall j :: 0 <= j < |rs| && (j < n - 1 || r.Failed?) ==> rs[j].Failed?)
            && (if r.Failed? then n == |rs| else 1 <= n <= |rs| && r == rs[n - 1])
    decreases |rs|
  {
    if rs != [] && rs[0].Failed? {
      FirstToAnswer(rs[1..]);
      assert forall j :: 0 < j < |rs| ==> rs[j] == rs[1..][j - 1];
    }
  }

  lemma TriesInOrder(r: Round)
    ensures var all, n := [r.primary] + r.fallbacks, Asked(r);
            && 1 <= n <= |all|
            && (Final(r).Failed? <==> forall j :: 0 <= j < |all| ==> all[j].Failed?)
            && (Final(r).Failed? ==> n == |all|)
            && (!Final(r).Failed? ==> Final(r) == all[n - 1] && forall j :: 0 <= j < n - 1 ==> all[j].Failed?)
  {
    var all := [r.primary] + r.fallbacks;
    FirstToAnswer(r.fallbacks);
    assert forall j :: 0 < j < |all| ==> all[j] == r.fallbacks[j - 1];
    assert all[0] == r.primary;
    if r.primary.Failed? && !Final(r).Failed? {
      assert !all[Asked(r) - 1].Failed?;
    }
  }

  /** The history ends with the call of a reply and one result per call, each with what its own tool returned. */
  predicate EndsWithRound(h: seq<Message>, text: string, calls: seq<ToolCall>, outputs: nat -> Option<Output>) {
    && |h| > |calls|
    && var at := |h| - |calls|;
       && h[at - 1].role.Assistant? && h[at - 1].text == text && h[at - 1].toolCalls == calls
       && forall j :: 0 <= j < |calls| ==> IsResult(h[at + j], calls[j], outputs(j))
  }

  lemma ResultsAre(calls: seq<ToolCall>, outputs: nat -> Option<Output>, j: nat)
    requires AllReturn(calls, outputs) && j < |calls|
    ensures IsResult(Results(calls, outputs)[j], calls[j], outputs(j))
  {
  }

  lemma GroupEnds(h: seq<Message>, text: string, calls: seq<ToolCall>, outputs: nat -> Option<Output>)
    requires AllReturn(calls, outputs)
    ensures EndsWithRound(h + ([CallMessage(text, calls)] + Results(calls, outputs)), text, calls, outputs)
  {
    var c, rs := CallMessage(text, calls), Results(calls, outputs);
    var g := h + ([c] + rs);
    assert g[|h|] == c && |g| == |h| + 1 + |calls|;
    hide AllReturn, IsResult, Answers;
    forall j | 0 <= j < |calls| ensures IsResult(g[|h| + 1 + j], calls[j], outputs(j)) {
      ResultsAre(calls, outputs, j);
      assert g[|h| + 1 + j] == rs[j];
    }
  }

  /** How many histories were sent before round `i`. */
  function SentBefore(w: World, i: nat): nat {
    if i == 0 then 0 else SentBefore(w, i - 1) + Asked(w.llm(i - 1))
  }

  /** All histories of one round are the same, and each round's is the one before with the round's group behind it. */
  predicate Grows(w: World, sent: seq<seq<Message>>, i: nat) {
    && SentBefore(w, i + 2) <= |sent|
    && forall k :: SentBefore(w, i + 1) <= k < SentBefore(w, i + 2) ==>
         var before := sent[SentBefore(w, i)];
         && Final(w.llm(i)).Reply?
         && before < sent[k] && |sent[k]| == |before| + 1 + |Final(w.llm(i)).calls|
         && EndsWithRound(sent[k], Final(w.llm(i)).text, Final(w.llm(i)).calls, w.llm(i).outputs)
  }

  lemma {:induction false} SentMonotone(w: World, i: nat, j: nat)
    requires i <= j
    ensures SentBefore(w, i) <= SentBefore(w, j) && (i < j ==> SentBefore(w, i) < SentBefore(w, j))
    decreases j
  {
    if i < j {
      SentMonotone(w, i, j - 1);
    }
  }

  lemma NextGroup(w: World, sid: string, m: Mem, i: nat)
    requires OneRound(w, sid, m, i).Go?
    ensures var r := Final(w.llm(i));
            && r.Reply? && r.calls != [] && AllReturn(r.calls, w.llm(i).outputs)
            && OneRound(w, sid, m, i).group == [CallMessage(r.text, r.calls)] + Results(r.calls, w.llm(i).outputs)
            && OneRound(w, sid, m, i).last == r.text
  {
  }

  lemma RoundsUnfold(w: World, sid: string, m: Mem, local: seq<Message>, i: nat, maxIter: int, last: string,
                     sent: seq<seq<Message>>)
    requires i < maxIter
    ensures var next := OneRound(w, sid, m, i);
            var sent1 := sent + Copies(local, Asked(w.llm(i)));
            Rounds(w, sid, m, local, i, maxIter, last, sent)
            == if next.Stop? then Outcome(next.mem, sent1, i, next.end)
               else Rounds(w, sid, next.mem, local + next.group, i + 1, maxIter, next.last, sent1)
  {
  }

  /** All of these histories are `h`. */
  predicate AllAre(sent: seq<seq<Message>>, from: nat, to: nat, h: seq<Message>) {
    to <= |sent| && forall k :: from <= k < to ==> sent[k] == h
  }

  lemma GrowsAt(w: World, sent: seq<seq<Message>>, i: nat, local: seq<Message>)
    requires Final(w.llm(i)).Reply? && AllReturn(Final(w.llm(i)).calls, w.llm(i).outputs)
    requires AllAre(sent, SentBefore(w, i), SentBefore(w, i + 1), local)
    requires var r := Final(w.llm(i));
             AllAre(sent, SentBefore(w, i + 1), SentBefore(w, i + 2),
                    local + ([CallMessage(r.text, r.calls)] + Results(r.calls, w.llm(i).outputs)))
    ensures Grows(w, sent, i)
  {
    var r := Final(w.llm(i));
    GroupEnds(local, r.text, r.calls, w.llm(i).outputs);
    SentMonotone(w, i, i + 1);
    SentMonotone(w, i + 1, i + 2);
    hide EndsWithRound, AllReturn;
  }

  lemma SentOnce(w: World, sent: seq<seq<Message>>, i: nat, local: seq<Message>)
    requires |sent| == SentBefore(w, i)
    ensures var sent1 := sent + Copies(local, Asked(w.llm(i)));
            |sent1| == SentBefore(w, i + 1) && AllAre(sent1, SentBefore(w, i), SentBefore(w, i + 1), local)
  {
  }

  lemma StillAre(sent1: seq<seq<Message>>, sent2: seq<seq<Message>>, from: nat, to: nat, h: seq<Message>)
    requires AllAre(sent1, from, to, h) && sent1 <= sent2
    ensures AllAre(sent2, from, to, h)
  {
  }

  /** What is sent from round `i` on, with `local` about to be sent. */
  ghost predicate GrowsFrom(w: World, o: Outcome, i: nat, maxIter: int, local: seq<Message>) {
    && o.rounds >= i
    && (i < maxIter ==> AllAre(o.sent, SentBefore(w, i), SentBefore(w, i + 1), local))
    && (forall r: nat :: i <= r < o.rounds && r + 1 < maxIter ==> Grows(w, o.sent, r))
    && |o.sent| == SentBefore(w, if o.rounds < maxIter then o.rounds + 1 else o.rounds)
  }

  lemma {:induction false} RoundsGrow(w: World, sid: string, m: Mem, local: seq<Message>, i: nat, maxIter: int,
                                      last: string, sent: seq<seq<Message>>)
    requires |sent| == SentBefore(w, i) && (i <= maxIter || i == 0)
    ensures var o := Rounds(w, sid, m, local, i, maxIter, last, sent);
            sent <= o.sent && GrowsFrom(w, o, i, maxIter, local)
    decreases maxIter - i
  {
    hide OneRound, AllAre, Grows, SentBefore;
    if i < maxIter {
      var next := OneRound(w, sid, m, i);
      var sent1 := sent + Copies(local, Asked(w.llm(i)));
      SentOnce(w, sent, i, local);
      RoundsUnfold(w, sid, m, local, i, maxIter, last, sent);
      if next.Go? {
        RoundsGrow(w, sid, next.mem, local + next.group, i + 1, maxIter, next.last, sent1);
        var o := Rounds(w, sid, next.mem, local + next.group, i + 1, maxIter, next.last, sent1);
        StillAre(sent1, o.sent, SentBefore(w, i), SentBefore(w, i + 1), local);
        if i + 1 < maxIter {
          NextGroup(w, sid, m, i);
          GrowsAt(w, o.sent, i, local);
        }
      }
    }
  }

  /** What each model is sent: the first round's history is the repaired copy, and when a round leads to another, each
      history of the next round is that of the round before followed by the reply's call and, in order, what each
      of its tools returned, whatever other threads do to the session. */
  lemma PromptGrows(w: World, sid: string, m: Mem, disk: seq<Message>, prompt: string, maxIter: int)
    ensures var o := Prompt(w, sid, m, disk, prompt, maxIter);
            && (forall i: nat :: i < o.rounds && i + 1 < maxIter ==> Grows(w, o.sent, i))
            && |o.sent| == SentBefore(w, if o.rounds < maxIter then o.rounds + 1 else o.rounds)
  {
    var e := Entered(w, sid, m, disk, prompt);
    hide Entered, Rounds, Grows, AllAre;
    RoundsGrow(w, sid, e, Sanitize(Get(e, sid)), 0, maxIter, "", []);
  }

  /** What a finished round stores last, when nobody trims after it but the round itself, and what it replies. */
  predicate LastStored(h: seq<Message>, text: string) {
    h != [] && h[|h| - 1].role.Assistant? && h[|h| - 1].text == text && h[|h| - 1].toolCalls == []
  }

  /** How a round of a prompt ends, whatever other threads do: with the reply's own text, the offline rule's, or the
      idle text, which is also stored as the session's last message; before the last trim, if a trim follows. */
  lemma RoundReplies(w: World, sid: string, m: Mem, i: nat)
    requires OneRound(w, sid, m, i).Stop? && OneRound(w, sid, m, i).end.Answered?
    ensures var end, h, r := OneRound(w, sid, m, i).end, Get(OneRound(w, sid, m, i).mem, sid), Final(w.llm(i));
            match r
            case Failed => w.llm(i).offline == Some(end.reply) && LastStored(h, end.reply)
            case Reply(text, calls) =>
              if calls != [] then w.llm(i).idle && end.reply == IDLE_TEXT && LastStored(h, end.reply)
              else
                && end.reply == (if text == "" then "No response text." else text)
                && exists m1 :: LastStored(Get(m1, sid), text) && OneRound(w, sid, m, i).mem == TrimAt(w, m1, sid, EndTrim(i))
            case Raised => false
  {
    match Final(w.llm(i))
    case Reply(text, calls) =>
      if calls == [] {
        var m1 := Push(w.other(BeforeEnd(i), m), sid, [TextMessage(Assistant, text)]);
        assert LastStored(Get(m1, sid), text);
      }
    case _ =>
  }

  /** The text of a reply, if it is one. */
  function TextOf(r: Reply): string {
    if r.Reply? then r.text else ""
  }

  /** What a prompt that reached its limit says: the text of its last reply, or a fixed text if there is none. */
  predicate SaysLimit(w: World, o: Outcome, i: nat, last: string) {
    var text := if o.rounds > i then TextOf(Final(w.llm(o.rounds - 1))) else last;
    o.end == Answered(if text == "" then LIMIT_TEXT else text)
  }

  lemma {:induction false} LimitReplies(w: World, sid: string, m: Mem, local: seq<Message>, i: nat, maxIter: int,
                                        last: string, sent: seq<seq<Message>>)
    ensures var o := Rounds(w, sid, m, local, i, maxIter, last, sent);
            o.rounds >= i && (o.rounds >= maxIter ==> SaysLimit(w, o, i, last))
    decreases maxIter - i
  {
    hide OneRound, Final, Asked;
    if i < maxIter {
      var next := OneRound(w, sid, m, i);
      RoundsUnfold(w, sid, m, local, i, maxIter, last, sent);
      if next.Go? {
        assert next.last == TextOf(Final(w.llm(i))) by { NextGroup(w, sid, m, i); }
        LimitReplies(w, sid, next.mem, local + next.group, i + 1, maxIter, next.last, sent + Copies(local, Asked(w.llm(i))));
      }
    }
  }

  /** A prompt that reaches its limit answers with the text of its last reply, or with a fixed text. */
  lemma PromptLimitReplies(w: World, sid: string, m: Mem, disk: seq<Message>, prompt: string, maxIter: int)
    ensures var o := Prompt(w, sid, m, disk, prompt, maxIter);
            o.rounds >= maxIter ==> SaysLimit(w, o, 0, "")
  {
    var e := Entered(w, sid, m, disk, prompt);
    hide Entered, Rounds, SaysLimit;
    LimitReplies(w, sid, e, Sanitize(Get(e, sid)), 0, maxIter, "", []);
  }
}

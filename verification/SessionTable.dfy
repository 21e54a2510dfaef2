/** The table of sessions shared by all threads: trimming, compaction with the lock released in the middle,
    and every interleaving of other threads' steps with that window. */
module SessionTable {
  import opened History
  import opened Options
  import opened Sequences

  /** What the language model answers to a compaction request. */
  datatype ChatResult = Threw | Replied(success: bool, text: string)

  /** What a compacting thread remembers while the lock is released. */
  datatype Ticket = Ticket(count: nat, summarised: seq<Message>)

  datatype Mem = Mem(sessions: map<string, seq<Message>>, compacting: set<string>)

  function Get(m: Mem, sid: string): seq<Message> {
    if sid in m.sessions then m.sessions[sid] else []
  }

  function Put(m: Mem, sid: string, h: seq<Message>): Mem {
    m.(sessions := m.sessions[sid := h])
  }

  /** The newest `limit` messages. */
  function Fifo(h: seq<Message>, limit: nat): seq<Message> {
    if |h| <= limit then h else h[|h| - limit..]
  }

  function Touch(m: Mem, sid: string): Mem {
    Put(m, sid, Get(m, sid))
  }

  /** Trimming up to the point where the lock is released: either the thread now owns the compaction of
      this session, or trimming is already over. */
  function BeginTrim(m: Mem, sid: string, backend: bool): (r: (Mem, Option<Ticket>)) {
    var h := Get(m, sid);
    if |h| > COMPACTION_THRESHOLD && backend && sid !in m.compacting then
      var c := Cut(h, COMPACTION_COUNT);
      (Touch(m, sid).(compacting := m.compacting + {sid}), Some(Ticket(c, h[..c])))
    else
      (Put(m, sid, Fifo(h, MAX_HISTORY_SIZE)), None)
  }

  function FinishCompact(m: Mem, sid: string, t: Ticket, r: ChatResult): Mem {
    if r.Threw? then m
    else
      var m1 := m.(compacting := m.compacting - {sid});
      if sid !in m.sessions then m1
      else
        var h := m.sessions[sid];
        if !r.success || r.text == "" then Put(m1, sid, Fifo(h, COMPACTION_THRESHOLD))
        else if |h| < t.count then m1
        else Put(m1, sid, [Compressed(r.text)] + h[t.count..])
  }

  /** The rest of trimming, from the moment the lock is held again. */
  function FinishTrim(m: Mem, sid: string, t: Ticket, r: ChatResult): Mem {
    var m1 := FinishCompact(m, sid, t, r);
    if sid in m1.sessions then Put(m1, sid, Fifo(m1.sessions[sid], MAX_HISTORY_SIZE)) else m1
  }

  // ---------------------------------------------------------------- the table as the program updates it

  class Sessions {
    var sessions: map<string, seq<Message>>
    var compacting: set<string>

    function View(): Mem
      reads this
    {
      Mem(sessions, compacting)
    }

    constructor ()
      ensures View() == Mem(map[], {})
    {
      sessions := map[];
      compacting := {};
    }

    /** Erase from the front until at most `limit` messages are left. */
    method DropFront(sid: string, limit: nat)
      requires sid in sessions
      modifies this`sessions
      ensures View() == Put(old(View()), sid, Fifo(old(sessions)[sid], limit))
    {
      ghost var h0 := sessions[sid];
      while |sessions[sid]| > limit
        invariant sid in sessions && sessions == old(sessions)[sid := sessions[sid]]
        invariant |sessions[sid]| <= |h0| && sessions[sid] == h0[|h0| - |sessions[sid]|..]
        invariant |sessions[sid]| < |h0| ==> |sessions[sid]| >= limit
        decreases |sessions[sid]|
      {
        sessions := sessions[sid := sessions[sid][1..]];
      }
    }

    /** `TrimHistory` and `CompactHistory` down to the unlock. */
    method StartTrim(sid: string, backend: bool) returns (ticket: Option<Ticket>)
      modifies this
      ensures (View(), ticket) == BeginTrim(old(View()), sid, backend)
    {
      if sid !in sessions {
        sessions := sessions[sid := []];
      }
      var history := sessions[sid];
      assert sessions == old(sessions)[sid := history];
      if |history| > COMPACTION_THRESHOLD && backend && sid !in compacting {
        compacting := compacting + {sid};
        var count := CompactionCut(history);
        ticket := Some(Ticket(count, history[..count]));
      } else {
        DropFront(sid, MAX_HISTORY_SIZE);
        ticket := None;
        assert sessions == old(sessions)[sid := Fifo(history, MAX_HISTORY_SIZE)];
      }
    }

    /** `CompactHistory` from the second lock on, and the rest of `TrimHistory`. */
    method CompleteTrim(sid: string, ticket: Ticket, r: ChatResult)
      modifies this
      ensures View() == FinishTrim(old(View()), sid, ticket, r)
    {
      if r.Replied? {
        compacting := compacting - {sid};
        if sid in sessions {
          if !r.success || r.text == "" {
            DropFront(sid, COMPACTION_THRESHOLD);
          } else if |sessions[sid]| >= ticket.count {
            sessions := sessions[sid := [Compressed(r.text)] + sessions[sid][ticket.count..]];
          }
        }
      }
      if sid in sessions {
        DropFront(sid, MAX_HISTORY_SIZE);
      }
    }

    method Append(sid: string, ms: seq<Message>)
      modifies this`sessions
      ensures View() == Put(old(View()), sid, Get(old(View()), sid) + ms)
    {
      var h := if sid in sessions then sessions[sid] else [];
      sessions := sessions[sid := h + ms];
    }

    /** The rollback after all backends failed. */
    method PopBack(sid: string)
      modifies this`sessions
      ensures View() == Put(old(View()), sid, DropLast(Get(old(View()), sid)))
    {
      var h := if sid in sessions then sessions[sid] else [];
      sessions := sessions[sid := if h != [] then h[..|h| - 1] else h];
    }

    method ClearSession(sid: string)
      modifies this`sessions
      ensures View() == Mem(old(sessions) - {sid}, old(compacting))
    {
      sessions := sessions - {sid};
    }
  }

  function DropLast(h: seq<Message>): seq<Message> {
    if h == [] then [] else h[..|h| - 1]
  }

  // ---------------------------------------------------------------- all interleavings

  /** A thread between its unlock and its second lock. */
  datatype Window = Window(sid: string, ticket: Ticket)

  datatype Shared = Shared(mem: Mem, windows: map<nat, Window>)

  datatype Event =
    | Append(sid: string, ms: seq<Message>)
    | PopBack(sid: string)
    | Clear(sid: string)
    | Load(sid: string, h: seq<Message>)
    | Trim(tid: nat, sid: string, backend: bool)
    | Resume(tid: nat, r: ChatResult)

  /** One critical section of one thread. A thread that is waiting for the model cannot trim, and only a
      waiting thread can resume. */
  function Step(s: Shared, e: Event): Shared {
    match e
    case Append(sid, ms) => s.(mem := Put(s.mem, sid, Get(s.mem, sid) + ms))
    case PopBack(sid) => s.(mem := Put(s.mem, sid, DropLast(Get(s.mem, sid))))
    case Clear(sid) => s.(mem := s.mem.(sessions := s.mem.sessions - {sid}))
    case Load(sid, h) => if sid in s.mem.sessions then s else s.(mem := Put(s.mem, sid, h))
    case Trim(tid, sid, backend) =>
      if tid in s.windows then s
      else
        var (m, t) := BeginTrim(s.mem, sid, backend);
        Shared(m, if t.Some? then s.windows[tid := Window(sid, t.value)] else s.windows)
    case Resume(tid, r) =>
      if tid !in s.windows then s
      else Shared(FinishTrim(s.mem, s.windows[tid].sid, s.windows[tid].ticket, r), s.windows - {tid})
  }

  function Run(s: Shared, es: seq<Event>): Shared {
    if es == [] then s else Step(Run(s, es[..|es| - 1]), es[|es| - 1])
  }

  /** Every waiting thread holds its session's mark, and no two wait on the same session. */
  predicate Exclusive(s: Shared) {
    && (forall t :: t in s.windows ==> s.windows[t].sid in s.mem.compacting)
    && (forall t, u :: t in s.windows && u in s.windows && t != u ==> s.windows[t].sid != s.windows[u].sid)
  }

  lemma StepExclusive(s: Shared, e: Event)
    requires Exclusive(s)
    ensures Exclusive(Step(s, e))
  {
  }

  lemma {:induction false} RunExclusive(s: Shared, es: seq<Event>)
    requires Exclusive(s)
    ensures Exclusive(Run(s, es))
    decreases |es|
  {
    if es != [] {
      RunExclusive(s, es[..|es| - 1]);
      StepExclusive(Run(s, es[..|es| - 1]), es[|es| - 1]);
    }
  }

  /** How many messages other threads' trims take off the front of `sid` in one step. */
  function DroppedBy(s: Shared, e: Event, sid: string): nat {
    if e.Trim? && e.sid == sid && e.tid !in s.windows && |Get(s.mem, sid)| > MAX_HISTORY_SIZE
    then |Get(s.mem, sid)| - MAX_HISTORY_SIZE else 0
  }

  function Dropped(s: Shared, es: seq<Event>, sid: string): nat {
    if es == [] then 0
    else Dropped(s, es[..|es| - 1], sid) + DroppedBy(Run(s, es[..|es| - 1]), es[|es| - 1], sid)
  }

  function AppendedBy(e: Event, sid: string): seq<Message> {
    if e.Append? && e.sid == sid then e.ms else []
  }

  function Appended(es: seq<Event>, sid: string): seq<Message> {
    if es == [] then [] else Appended(es[..|es| - 1], sid) + AppendedBy(es[|es| - 1], sid)
  }

  /** Everything the session ever held since the window opened and not taken back, with the messages that
      trims took off the front still in place: other threads append to its end and roll back from its end. */
  function Tape(s: Shared, es: seq<Event>, sid: string): seq<Message> {
    if es == [] then Get(s.mem, sid)
    else TapeStep(Tape(s, es[..|es| - 1], sid), Get(Run(s, es[..|es| - 1]).mem, sid), es[|es| - 1], sid)
  }

  function TapeStep(tape: seq<Message>, h: seq<Message>, e: Event, sid: string): seq<Message> {
    if e.PopBack? && e.sid == sid && h != [] then DropLast(tape) else tape + AppendedBy(e, sid)
  }

  /** The low-water mark: how many of the messages present when the window opened no rollback ever took back. */
  function Low(s: Shared, es: seq<Event>, sid: string): nat {
    if es == [] then |Get(s.mem, sid)| else Min(Low(s, es[..|es| - 1], sid), |Tape(s, es, sid)|)
  }

  lemma {:induction false} LowKept(s: Shared, es: seq<Event>, sid: string)
    ensures Low(s, es, sid) <= |Get(s.mem, sid)| && Low(s, es, sid) <= |Tape(s, es, sid)|
    ensures Tape(s, es, sid)[..Low(s, es, sid)] == Get(s.mem, sid)[..Low(s, es, sid)]
    decreases |es|
  {
    if es != [] {
      var before := es[..|es| - 1];
      LowKept(s, before, sid);
      var low, low', t, t' := Low(s, before, sid), Low(s, es, sid), Tape(s, before, sid), Tape(s, es, sid);
      assert t'[..low'] == t[..low][..low'];
    }
  }

  predicate NoRollback(es: seq<Event>, sid: string) {
    forall i :: 0 <= i < |es| ==> es[i] != PopBack(sid)
  }

  /** Without a rollback the tape only grows. */
  lemma {:induction false} TapeOfAppends(s: Shared, es: seq<Event>, sid: string)
    requires NoRollback(es, sid)
    ensures Tape(s, es, sid) == Get(s.mem, sid) + Appended(es, sid) && Low(s, es, sid) == |Get(s.mem, sid)|
    decreases |es|
  {
    if es == [] {
      assert Get(s.mem, sid) + [] == Get(s.mem, sid);
    } else {
      TapeOfAppends(s, es[..|es| - 1], sid);
      assert es[|es| - 1] != PopBack(sid);
      Assoc(Get(s.mem, sid), Appended(es[..|es| - 1], sid), AppendedBy(es[|es| - 1], sid));
    }
  }

  /** Steps other threads may take while thread `tid` waits: anything on other sessions, and on this one
      appending, rolling back and trimming. */
  predicate Outside(e: Event, tid: nat, sid: string) {
    match e
    case Clear(x) => x != sid
    case Resume(t, _) => t != tid
    case Trim(t, _, _) => t != tid
    case _ => true
  }

  predicate AllOutside(es: seq<Event>, tid: nat, sid: string) {
    forall i :: 0 <= i < |es| ==> Outside(es[i], tid, sid)
  }

  /** Thread `tid` waits with ticket `w`, and its session is present. */
  predicate Waiting(s: Shared, tid: nat, w: Window) {
    Exclusive(s) && tid in s.windows && s.windows[tid] == w && w.sid in s.mem.sessions
  }

  lemma OutsideStep(s: Shared, e: Event, tid: nat, w: Window)
    requires Waiting(s, tid, w) && Outside(e, tid, w.sid)
    ensures Waiting(Step(s, e), tid, w)
    ensures var h := Get(s.mem, w.sid);
            var t := TapeStep(h, h, e, w.sid);
            DroppedBy(s, e, w.sid) <= |t| && Get(Step(s, e).mem, w.sid) == t[DroppedBy(s, e, w.sid)..]
  {
    StepExclusive(s, e);
    assert Get(s.mem, w.sid) + [] == Get(s.mem, w.sid);
    match e
    case Resume(t, r) =>
      assert t in s.windows ==> s.windows[t].sid != w.sid;
    case _ =>
  }

  /** What the session holds is the tape, less what trims took off the front. */
  lemma {:induction false} WindowContents(s: Shared, es: seq<Event>, tid: nat, w: Window)
    requires Waiting(s, tid, w) && AllOutside(es, tid, w.sid)
    ensures Waiting(Run(s, es), tid, w)
    ensures var d, tape := Dropped(s, es, w.sid), Tape(s, es, w.sid);
            d <= |tape| && Get(Run(s, es).mem, w.sid) == tape[d..]
    decreases |es|
  {
    if es != [] {
      hide Waiting, Outside, TapeStep;
      var before, e := es[..|es| - 1], es[|es| - 1];
      WindowContents(s, before, tid, w);
      OutsideStep(Run(s, before), e, tid, w);
      TapeBehind(Tape(s, before, w.sid), Dropped(s, before, w.sid), e, w.sid, DroppedBy(Run(s, before), e, w.sid));
    }
  }

  lemma TapeBehind(tape: seq<Message>, d: nat, e: Event, sid: string, d2: nat)
    requires d <= |tape| && d2 <= |TapeStep(tape[d..], tape[d..], e, sid)|
    ensures var t := TapeStep(tape, tape[d..], e, sid);
            d + d2 <= |t| && TapeStep(tape[d..], tape[d..], e, sid)[d2..] == t[d + d2..]
  {
    var t := TapeStep(tape, tape[d..], e, sid);
    assert TapeStep(tape[d..], tape[d..], e, sid) == t[d..];
  }

  /** Of all messages, `d` are gone from the front and the next `count` give way to a summary, if there are as many. */
  function Replaced(all: seq<Message>, d: nat, count: nat, text: string): seq<Message>
    requires d <= |all|
  {
    Fifo(if count + d <= |all| then [Compressed(text)] + all[count + d..] else all[d..], MAX_HISTORY_SIZE)
  }

  /** Thread `tid` holds ticket `w`; other threads take the steps `es`; then the model answers.
      The resuming thread removes as many messages as it summarised, counted from the current front.
      With `d` messages trimmed away meanwhile, exactly the `d` messages behind the first `count` ones are
      lost without being summarised. */
  lemma CompactionAcrossWindow(s: Shared, tid: nat, w: Window, es: seq<Event>, text: string)
    requires Waiting(s, tid, w) && AllOutside(es, tid, w.sid) && text != ""
    ensures var d, tape := Dropped(s, es, w.sid), Tape(s, es, w.sid);
            && d <= |tape|
            && Get(Step(Run(s, es), Resume(tid, Replied(true, text))).mem, w.sid) == Replaced(tape, d, w.ticket.count, text)
  {
    WindowContents(s, es, tid, w);
    ResumeReplaces(Run(s, es), tid, w, Tape(s, es, w.sid), Dropped(s, es, w.sid), text);
  }

  /** Opening the window: the ticket holds the oldest messages, at least ten and never the last two. */
  lemma WindowOpens(s: Shared, tid: nat, sid: string)
    requires Exclusive(s) && tid !in s.windows && sid in s.mem.sessions && sid !in s.mem.compacting
    requires |Get(s.mem, sid)| > COMPACTION_THRESHOLD
    ensures var s' := Step(s, Trim(tid, sid, true));
            var h := Get(s.mem, sid);
            && Get(s'.mem, sid) == h
            && tid in s'.windows && Waiting(s', tid, s'.windows[tid]) && s'.windows[tid].sid == sid
            && COMPACTION_COUNT <= s'.windows[tid].ticket.count <= |h| - 2
            && s'.windows[tid].ticket.summarised == h[..s'.windows[tid].ticket.count]
  {
    StepExclusive(s, Trim(tid, sid, true));
  }

  lemma ResumeReplaces(s: Shared, tid: nat, w: Window, all: seq<Message>, d: nat, text: string)
    requires Waiting(s, tid, w) && text != ""
    requires d <= |all| && Get(s.mem, w.sid) == all[d..]
    ensures Get(Step(s, Resume(tid, Replied(true, text))).mem, w.sid) == Replaced(all, d, w.ticket.count, text)
  {
    if w.ticket.count + d <= |all| {
      assert all[d..][w.ticket.count..] == all[w.ticket.count + d..];
    }
  }

  /** A trim takes something exactly when it finds more than thirty messages, so a window in which the
      session never exceeds thirty loses nothing. */
  predicate FindsTooMany(s: Shared, e: Event, sid: string) {
    e.Trim? && e.sid == sid && e.tid !in s.windows && |Get(s.mem, sid)| > MAX_HISTORY_SIZE
  }

  predicate NeverTooMany(s: Shared, es: seq<Event>, sid: string) {
    es == [] || (NeverTooMany(s, es[..|es| - 1], sid) && !FindsTooMany(Run(s, es[..|es| - 1]), es[|es| - 1], sid))
  }

  lemma {:induction false} NothingDroppedIff(s: Shared, es: seq<Event>, sid: string)
    ensures Dropped(s, es, sid) == 0 <==> NeverTooMany(s, es, sid)
    decreases |es|
  {
    if es != [] {
      NothingDroppedIff(s, es[..|es| - 1], sid);
    }
  }

  /** With no trim finding more than thirty messages meanwhile and no rollback reaching into the summarised
      ones, compaction is exact: it erases the first `count` messages of the session as it was, and the old
      messages no rollback took back and everything added since follow in order. */
  lemma CompactionExact(s: Shared, tid: nat, w: Window, es: seq<Event>, text: string)
    requires Waiting(s, tid, w) && AllOutside(es, tid, w.sid) && text != ""
    requires w.ticket.count <= Low(s, es, w.sid) && NeverTooMany(s, es, w.sid)
    ensures var h, tape, low := Get(s.mem, w.sid), Tape(s, es, w.sid), Low(s, es, w.sid);
            && w.ticket.count <= low <= |h| && low <= |tape|
            && tape[..w.ticket.count] == h[..w.ticket.count]
            && Get(Step(Run(s, es), Resume(tid, Replied(true, text))).mem, w.sid)
               == Fifo([Compressed(text)] + h[w.ticket.count..low] + tape[low..], MAX_HISTORY_SIZE)
  {
    NothingDroppedIff(s, es, w.sid);
    CompactionAcrossWindow(s, tid, w, es, text);
    LowKept(s, es, w.sid);
    hide Tape, Low, Fifo, Run, Step, NeverTooMany, Dropped;
    ExactSplit(Get(s.mem, w.sid), Tape(s, es, w.sid), w.ticket.count, Low(s, es, w.sid), Compressed(text));
  }

  lemma ExactSplit(h: seq<Message>, tape: seq<Message>, c: nat, low: nat, m: Message)
    requires c <= low <= |h| && low <= |tape| && tape[..low] == h[..low]
    ensures tape[..c] == h[..c] && [m] + tape[c..] == [m] + h[c..low] + tape[low..]
  {
    assert tape[..c] == tape[..low][..c] && h[..c] == h[..low][..c];
    assert h[c..low] == h[..low][c..] == tape[..low][c..];
    assert tape[c..] == h[c..low] + tape[low..];
    Assoc([m], h[c..low], tape[low..]);
  }

  /** The whole compaction, from the trim that releases the lock to the end: the model is sent the oldest
      messages `h[..c]`; the messages then erased are `tape[d..d + c]`, where `d` is zero exactly when no trim
      in between found too many. With `d` zero and no rollback, exactly the summarised messages give way to
      the summary, and the old rest and everything appended follow. */
  lemma CompactionFromTrim(s: Shared, tid: nat, sid: string, es: seq<Event>, text: string)
    requires Exclusive(s) && tid !in s.windows && sid in s.mem.sessions && sid !in s.mem.compacting
    requires |Get(s.mem, sid)| > COMPACTION_THRESHOLD && AllOutside(es, tid, sid) && text != ""
    ensures var h, s1 := Get(s.mem, sid), Step(s, Trim(tid, sid, true));
            && tid in s1.windows
            && var t, d, tape := s1.windows[tid].ticket, Dropped(s1, es, sid), Tape(s1, es, sid);
               var after := Get(Step(Run(s1, es), Resume(tid, Replied(true, text))).mem, sid);
               && COMPACTION_COUNT <= t.count <= |h| - 2 && t.summarised == h[..t.count]
               && d <= |tape| && (d == 0 <==> NeverTooMany(s1, es, sid))
               && after == Replaced(tape, d, t.count, text)
               && (d == 0 && t.count <= Low(s1, es, sid) ==> |tape| >= t.count && tape[..t.count] == t.summarised)
               && (d == 0 && NoRollback(es, sid) ==>
                     after == Fifo([Compressed(text)] + h[t.count..] + Appended(es, sid), MAX_HISTORY_SIZE))
  {
    WindowOpens(s, tid, sid);
    var h, s1 := Get(s.mem, sid), Step(s, Trim(tid, sid, true));
    var w := s1.windows[tid];
    hide Exclusive, Step, Fifo, Outside;
    NothingDroppedIff(s1, es, sid);
    CompactionAcrossWindow(s1, tid, w, es, text);
    if Dropped(s1, es, sid) == 0 && w.ticket.count <= Low(s1, es, sid) {
      CompactionExact(s1, tid, w, es, text);
    }
    if NoRollback(es, sid) {
      TapeOfAppends(s1, es, sid);
      LowKept(s1, es, sid);
      if Dropped(s1, es, sid) == 0 {
        CompactionExact(s1, tid, w, es, text);
        assert h[w.ticket.count..|h|] == h[w.ticket.count..];
        assert (h + Appended(es, sid))[|h|..] == Appended(es, sid);
      }
    }
  }

  predicate AllDifferent(ms: seq<Message>) {
    forall i, j :: 0 <= i < j < |ms| ==> ms[i] != ms[j]
  }

  predicate NoneIn(ms: seq<Message>, h: seq<Message>) {
    forall i :: 0 <= i < |ms| ==> ms[i] !in h
  }

  /** What the step appends to the session, or reads from disk for it, is new. */
  predicate BringsNew(e: Event, sid: string, h: seq<Message>) {
    match e
    case Append(x, ms) => x == sid ==> NoneIn(ms, h)
    case Load(x, ms) => x == sid ==> NoneIn(ms, h)
    case _ => true
  }

  /** Steps of other threads: any step but a trim or a resume of thread `tid`. */
  predicate ByOthers(e: Event, tid: nat) {
    match e
    case Resume(t, _) => t != tid
    case Trim(t, _, _) => t != tid
    case _ => true
  }

  predicate OthersBringNew(es: seq<Event>, tid: nat, sid: string, h: seq<Message>) {
    forall i :: 0 <= i < |es| ==> ByOthers(es[i], tid) && BringsNew(es[i], sid, h)
  }

  predicate NoClear(es: seq<Event>, sid: string) {
    forall i :: 0 <= i < |es| ==> es[i] != Clear(sid)
  }

  /** Thread `tid` waits with ticket `w`, whether its session is present or not. */
  predicate StillWaiting(s: Shared, tid: nat, w: Window) {
    Exclusive(s) && tid in s.windows && s.windows[tid] == w
  }

  lemma NewStep(s: Shared, e: Event, tid: nat, w: Window, h: seq<Message>)
    requires StillWaiting(s, tid, w) && ByOthers(e, tid) && BringsNew(e, w.sid, h)
    ensures StillWaiting(Step(s, e), tid, w)
    ensures NoneIn(Get(s.mem, w.sid), h) || e == Clear(w.sid) ==> NoneIn(Get(Step(s, e).mem, w.sid), h)
  {
    StepExclusive(s, e);
    match e
    case Resume(t, r) =>
      assert t in s.windows ==> s.windows[t].sid != w.sid;
    case _ =>
  }

  /** Once the session has been cleared, it holds new messages only. */
  lemma {:induction false} ClearedHoldsNew(s: Shared, es: seq<Event>, tid: nat, w: Window, h: seq<Message>)
    requires StillWaiting(s, tid, w) && OthersBringNew(es, tid, w.sid, h)
    ensures StillWaiting(Run(s, es), tid, w)
    ensures !NoClear(es, w.sid) ==> NoneIn(Get(Run(s, es).mem, w.sid), h)
    decreases |es|
  {
    if es != [] {
      hide StillWaiting, ByOthers, BringsNew, NoneIn;
      var before, e := es[..|es| - 1], es[|es| - 1];
      ClearedHoldsNew(s, before, tid, w, h);
      NewStep(Run(s, before), e, tid, w, h);
      assert NoClear(es, w.sid) <==> NoClear(before, w.sid) && e != Clear(w.sid);
    }
  }

  /** Above the low-water mark the tape holds new messages only. */
  lemma {:induction false} TapeBringsNew(s: Shared, es: seq<Event>, tid: nat, sid: string)
    requires OthersBringNew(es, tid, sid, Get(s.mem, sid))
    ensures NoneIn(Tape(s, es, sid)[Low(s, es, sid)..], Get(s.mem, sid))
    decreases |es|
  {
    if es != [] {
      var before, e := es[..|es| - 1], es[|es| - 1];
      TapeBringsNew(s, before, tid, sid);
      assert BringsNew(e, sid, Get(s.mem, sid));
      LowKept(s, before, sid);
      LowKept(s, es, sid);
      hide BringsNew;
      NewBehind(Tape(s, before, sid), Low(s, before, sid), AppendedBy(e, sid), Tape(s, es, sid), Get(s.mem, sid)) by {
        AppendedNew(e, sid, Get(s.mem, sid));
      }
    }
  }

  lemma AppendedNew(e: Event, sid: string, h: seq<Message>)
    requires BringsNew(e, sid, h)
    ensures NoneIn(AppendedBy(e, sid), h)
  {
  }

  lemma NewBehind(t: seq<Message>, low: nat, more: seq<Message>, t': seq<Message>, h: seq<Message>)
    requires low <= |t| && NoneIn(t[low..], h) && NoneIn(more, h)
    requires t' == t + more || t' == DropLast(t)
    ensures NoneIn(t'[Min(low, |t'|)..], h)
  {
    var low' := Min(low, |t'|);
    forall i | 0 <= i < |t'[low'..]| ensures t'[low'..][i] !in h {
      assert low' + i < |t| ==> t'[low' + i] == t[low..][low' + i - low];
      assert low' + i >= |t| ==> t'[low' + i] == more[low' + i - |t|];
    }
  }

  /** Exactly when compaction erases what it summarised, whatever all other threads do meanwhile: while thread
      `tid` waits, they append, roll back, trim, load, clear and compact other sessions in any order, and bring
      only messages the session did not hold. The resuming thread erases the first `c` messages it finds, or none if
      there are fewer; they are the summarised ones if and only if nobody cleared the session, no trim found too many messages and no
      rollback reached below the cut. */
  lemma ErasedIsSummarisedIff(s: Shared, es: seq<Event>, tid: nat, w: Window, text: string)
    requires Waiting(s, tid, w) && AllDifferent(Get(s.mem, w.sid)) && text != ""
    requires OthersBringNew(es, tid, w.sid, Get(s.mem, w.sid))
    requires 1 <= w.ticket.count <= |Get(s.mem, w.sid)| && w.ticket.summarised == Get(s.mem, w.sid)[..w.ticket.count]
    ensures var c, found := w.ticket.count, Get(Run(s, es).mem, w.sid);
            var after := Get(Step(Run(s, es), Resume(tid, Replied(true, text))).mem, w.sid);
            if |found| < c then after == Fifo(found, MAX_HISTORY_SIZE)
            else
              && after == Fifo([Compressed(text)] + found[c..], MAX_HISTORY_SIZE)
              && (found[..c] == w.ticket.summarised
                  <==> NoClear(es, w.sid) && NeverTooMany(s, es, w.sid) && c <= Low(s, es, w.sid))
  {
    var h, c, found := Get(s.mem, w.sid), w.ticket.count, Get(Run(s, es).mem, w.sid);
    ClearedHoldsNew(s, es, tid, w, h);
    assert found[0..] == found;
    if w.sid in Run(s, es).mem.sessions {
      ResumeReplaces(Run(s, es), tid, w, found, 0, text);
    }
    if |found| < c {
      return;
    }
    if NoClear(es, w.sid) {
      forall i | 0 <= i < |es| ensures Outside(es[i], tid, w.sid) {
        assert ByOthers(es[i], tid) && es[i] != Clear(w.sid);
      }
      WindowContents(s, es, tid, w);
      TapeBringsNew(s, es, tid, w.sid);
      LowKept(s, es, w.sid);
      NothingDroppedIff(s, es, w.sid);
      hide Tape, Low, Dropped, NeverTooMany, Run, Step, Waiting;
      FrontIsOldIff(h, Tape(s, es, w.sid), Low(s, es, w.sid), Dropped(s, es, w.sid), c);
    } else {
      assert found[..c][0] == found[0] && h[..c][0] == h[0] && h[0] in h;
    }
  }

  /** The same on sequences: `low` old messages, new ones behind them, `d` messages gone from the front. */
  lemma FrontIsOldIff(h: seq<Message>, tape: seq<Message>, low: nat, d: nat, c: nat)
    requires AllDifferent(h) && low <= |h| && low <= |tape| && tape[..low] == h[..low] && NoneIn(tape[low..], h)
    requires 1 <= c <= |h| && d + c <= |tape|
    ensures tape[d..][..c] == h[..c] <==> d == 0 && c <= low
  {
    var found := tape[d..];
    assert forall i :: 0 <= i < low ==> tape[i] == tape[..low][i] && h[i] == h[..low][i];
    assert forall i :: low <= i < |tape| ==> tape[i] == tape[low..][i - low];
    if d == 0 && c <= low {
      ExactSplit(h, tape, c, low, Compressed(""));
      assert found == tape;
    } else if d > 0 {
      assert found[..c][0] == tape[d] && h[..c][0] == h[0] && h[0] in h;
    } else {
      assert found[..c][low] == tape[low] && h[..c][low] == h[low] && h[low] in h;
    }
  }

  /** That hypothesis is needed: if other threads append until the session exceeds thirty messages and one
      of them trims, every message above thirty is lost behind the summarised ones. */
  lemma TrimInsideWindowLoses(s: Shared, tid: nat, w: Window, other: nat, ms: seq<Message>, backend: bool)
    requires Waiting(s, tid, w) && other !in s.windows
    requires |Get(s.mem, w.sid)| + |ms| > MAX_HISTORY_SIZE
    ensures Dropped(s, [Append(w.sid, ms), Trim(other, w.sid, backend)], w.sid)
            == |Get(s.mem, w.sid)| + |ms| - MAX_HISTORY_SIZE > 0
  {
    var a, t := Append(w.sid, ms), Trim(other, w.sid, backend);
    assert [a, t][..1] == [a] && [a][..0] == [];
    assert Run(s, [a]) == Step(s, a);
    assert Dropped(s, [a], w.sid) == 0;
  }

  /** Clearing and refilling a session inside the window makes compaction replace messages nobody summarised. */
  lemma ClearInsideWindow(s: Shared, tid: nat, sid: string, ms: seq<Message>, text: string)
    requires Exclusive(s) && tid in s.windows && s.windows[tid].sid == sid && text != ""
    requires s.windows[tid].ticket.count <= |ms| <= MAX_HISTORY_SIZE
    requires s.windows[tid].ticket.count >= 1
    ensures var c := s.windows[tid].ticket.count;
            Get(Run(s, [Clear(sid), Append(sid, ms), Resume(tid, Replied(true, text))]).mem, sid)
            == [Compressed(text)] + ms[c..]
  {
    var e1, e2, e3 := Clear(sid), Append(sid, ms), Resume(tid, Replied(true, text));
    RunThree(s, e1, e2, e3);
    var s2 := Step(Step(s, e1), e2);
    assert [] + ms == ms;
    assert Get(s2.mem, sid) == ms;
    StepExclusive(s, e1);
    StepExclusive(Step(s, e1), e2);
    assert ms[0..] == ms;
    ResumeReplaces(s2, tid, s.windows[tid], ms, 0, text);
  }

  lemma RunThree(s: Shared, a: Event, b: Event, c: Event)
    ensures Run(s, [a, b, c]) == Step(Step(Step(s, a), b), c)
  {
    assert [a, b, c][..2] == [a, b] && [a, b][..1] == [a] && [a][..0] == [];
    assert Run(s, [a]) == Step(s, a);
    assert Run(s, [a, b]) == Step(Run(s, [a]), b);
  }

  predicate Stuck(s: Shared, sid: string) {
    sid in s.mem.compacting && forall t :: t in s.windows ==> s.windows[t].sid != sid
  }

  /** A waiting compaction on `sid` ends in an exception. */
  predicate EndsByThrow(s: Shared, e: Event, sid: string) {
    e.Resume? && e.r.Threw? && e.tid in s.windows && s.windows[e.tid].sid == sid
  }

  predicate Thrown(s: Shared, es: seq<Event>, sid: string) {
    es != [] && (Thrown(s, es[..|es| - 1], sid) || EndsByThrow(Run(s, es[..|es| - 1]), es[|es| - 1], sid))
  }

  /** Compaction of a session is disabled for good exactly when it was already, or when some compaction
      request of that session threw. */
  lemma {:induction false} StuckIffThrown(s: Shared, es: seq<Event>, sid: string)
    requires Exclusive(s)
    ensures Stuck(Run(s, es), sid) <==> Stuck(s, sid) || Thrown(s, es, sid)
    decreases |es|
  {
    if es != [] {
      var before, e := es[..|es| - 1], es[|es| - 1];
      StuckIffThrown(s, before, sid);
      RunExclusive(s, before);
      StuckStep(Run(s, before), e, sid);
    }
  }

  lemma StuckStep(s: Shared, e: Event, sid: string)
    requires Exclusive(s)
    ensures Stuck(Step(s, e), sid) <==> Stuck(s, sid) || EndsByThrow(s, e, sid)
  {
    if e.Resume? && e.tid in s.windows {
      var s' := Step(s, e);
      assert forall t :: t in s'.windows <==> t in s.windows && t != e.tid;
    } else if e.Trim? && e.tid !in s.windows {
      var s' := Step(s, e);
      assert e.tid in s'.windows ==> s'.windows[e.tid].sid == e.sid;
      assert forall t :: t in s.windows ==> t in s'.windows && s'.windows[t] == s.windows[t];
    }
  }

  /** When the compaction request throws, the mark of the session is never taken back: in no later run does
      any thread open a compaction window on that session, so from then on only messages are dropped. */
  lemma {:induction false} ThrowDisablesCompaction(s: Shared, tid: nat, es: seq<Event>)
    requires Exclusive(s) && tid in s.windows
    ensures Stuck(Run(Step(s, Resume(tid, Threw)), es), s.windows[tid].sid)
    decreases |es|
  {
    if es != [] {
      ThrowDisablesCompaction(s, tid, es[..|es| - 1]);
    }
  }
}

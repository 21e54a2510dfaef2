/** The Telegram polling loop: the update offset, the limit on concurrent handlers and the backoff. */
module TelegramPolling {

  const MAX_HANDLERS: nat := 3
  const BACKOFF_START: int := 5
  const BACKOFF_MAX: int := 60

  /** What an update carries, as far as the loop looks. `Malformed` raises an exception after the id was read. */
  datatype Content = NoMessage | NoTextOrChat | EmptyText | BlockedChat | Malformed | Prompt(chat: int, text: string)

  /** An update of the server's stream; reading the id of an unreadable one raises an exception. */
  datatype Update = Update(id: int, readable: bool, content: Content)

  datatype Response = Conflict | NetworkError | NotOk | BadBody | Batch(items: seq<Update>)

  /** What became of a prompt: handed to a worker thread, or answered as busy while so many handlers ran. */
  datatype Fate = Dispatched(id: int) | Busy(id: int, running: nat)

  datatype State = State(
    offset: int,
    backoff: int,
    active: nat,
    acked: seq<int>,     // history: ids the offset moved past, in order
    fates: seq<Fate>     // history: what became of the prompts, in order
  )

  const Init := State(0, BACKOFF_START, 0, [], [])

  function Min(a: int, b: int): int {
    if a < b then a else b
  }

  /** Handlers that end while the loop runs. */
  function HandlersEnd(s: State, n: nat): State {
    s.(active := if n <= s.active then s.active - n else 0)
  }

  function Ack(s: State, u: Update): State {
    s.(offset := u.id + 1, acked := s.acked + [u.id])
  }

  function Offer(s: State, id: int): State {
    if s.active >= MAX_HANDLERS then s.(fates := s.fates + [Busy(id, s.active)])
    else s.(active := s.active + 1, fates := s.fates + [Dispatched(id)])
  }

  /** Items from `i` on; before item `j`, `ends(j)` handlers end. An exception abandons the rest of the batch. */
  function Process(s: State, items: seq<Update>, ends: nat -> nat, i: nat): State
    requires i <= |items|
    decreases |items| - i
  {
    if i == |items| then s
    else
      var s0 := HandlersEnd(s, ends(i));
      if !items[i].readable then s0
      else
        var s1 := Ack(s0, items[i]);
        if items[i].content.Malformed? then s1
        else Process(if items[i].content.Prompt? then Offer(s1, items[i].id) else s1, items, ends, i + 1)
  }

  function Poll(s: State, r: Response, ends: nat -> nat): State {
    match r
    case Conflict => s.(backoff := Min(s.backoff * 2, BACKOFF_MAX))
    case NetworkError => s.(backoff := BACKOFF_START)
    case NotOk => s.(backoff := BACKOFF_START)
    case BadBody => s.(backoff := BACKOFF_START)
    case Batch(items) => Process(s.(backoff := BACKOFF_START), items, ends, 0)
  }

  // ---------------------------------------------------------------- the client object

  class TelegramClient {
    var updateOffset: int
    var conflictBackoffSec: int
    var activeHandlers: nat
    ghost var run: State

    ghost predicate Valid()
      reads this
    {
      run.offset == updateOffset && run.backoff == conflictBackoffSec && run.active == activeHandlers
    }

    constructor ()
      ensures Valid() && run == Init
    {
      updateOffset, conflictBackoffSec, activeHandlers, run := 0, BACKOFF_START, 0, Init;
    }

    /** Worker threads that finish. */
    method HandlersFinish(n: nat)
      requires Valid()
      modifies this
      ensures Valid() && run == HandlersEnd(old(run), n)
    {
      activeHandlers := if n <= activeHandlers then activeHandlers - n else 0;
      run := HandlersEnd(run, n);
    }

    /** One pass of the loop body for one reply of the server. */
    method PollOnce(r: Response, ends: nat -> nat)
      requires Valid()
      modifies this
      ensures Valid() && run == Poll(old(run), r, ends)
    {
      match r
      case Conflict =>
        conflictBackoffSec := Min(conflictBackoffSec * 2, BACKOFF_MAX);
        run := Poll(run, r, ends);
      case Batch(items) =>
        conflictBackoffSec := BACKOFF_START;
        run := run.(backoff := BACKOFF_START);
        ghost var goal := Process(run, items, ends, 0);
        var i := 0;
        while i < |items|
          invariant 0 <= i <= |items| && Valid()
          invariant Process(run, items, ends, i) == goal
        {
          HandlersFinish(ends(i));
          if !items[i].readable {
            return;
          }
          updateOffset := items[i].id + 1;
          run := Ack(run, items[i]);
          match items[i].content {
            case Malformed => return;
            case Prompt(chat, text) =>
              run := Offer(run, items[i].id);
              if activeHandlers < MAX_HANDLERS {
                activeHandlers := activeHandlers + 1;
              }
            case _ =>
          }
          i := i + 1;
        }
      case _ =>
        conflictBackoffSec := BACKOFF_START;
        run := Poll(run, r, ends);
    }
  }

  // ---------------------------------------------------------------- runs against a server

  datatype Event = Reply(r: Response, ends: nat -> nat) | HandlerDone

  function Step(s: State, e: Event): State {
    match e
    case Reply(r, ends) => Poll(s, r, ends)
    case HandlerDone => HandlersEnd(s, 1)
  }

  function Run(s: State, es: seq<Event>): State {
    if es == [] then s else Step(Run(s, es[..|es| - 1]), es[|es| - 1])
  }

  predicate IdsIncrease(stream: seq<Update>) {
    && (forall i :: 0 <= i < |stream| ==> stream[i].id >= 0)
    && (forall i, j :: 0 <= i < j < |stream| ==> stream[i].id < stream[j].id)
  }

  /** Exactly the updates before `n` have ids below the offset. */
  predicate Below(stream: seq<Update>, offset: int, n: nat) {
    && n <= |stream|
    && (forall i :: 0 <= i < n ==> stream[i].id < offset)
    && (n < |stream| ==> offset <= stream[n].id)
  }

  /** A batch is a piece of the stream that starts at the first update the offset asks for. */
  predicate Honest(stream: seq<Update>, offset: int, r: Response) {
    r.Batch? ==>
      exists n :: 0 <= n <= |stream| && Below(stream, offset, n) && r.items <= stream[n..]
  }

  predicate HonestRun(stream: seq<Update>, s: State, es: seq<Event>) {
    es == [] ||
    (HonestRun(stream, s, es[..|es| - 1]) &&
     var e := es[|es| - 1];
     e.Reply? ==> Honest(stream, Run(s, es[..|es| - 1]).offset, e.r))
  }

  function Ids(us: seq<Update>): seq<int> {
    seq(|us|, i requires 0 <= i < |us| => us[i].id)
  }

  /** The ids of the updates that carry a prompt, in stream order. */
  function PromptIds(us: seq<Update>): seq<int> {
    if us == [] then []
    else PromptIds(us[..|us| - 1]) + (if us[|us| - 1].content.Prompt? then [us[|us| - 1].id] else [])
  }

  function FateIds(fs: seq<Fate>): seq<int> {
    seq(|fs|, i requires 0 <= i < |fs| => fs[i].id)
  }

  /** The first `n` updates of the stream, and only those, were acknowledged; each prompt among them met
      exactly one fate, in order, and was turned away only while all handlers were busy; and the offset asks for
      exactly the rest. */
  predicate Caught(stream: seq<Update>, s: State, n: nat) {
    && n <= |stream|
    && s.acked == Ids(stream[..n])
    && FateIds(s.fates) == PromptIds(stream[..n])
    && Below(stream, s.offset, n)
    && s.active <= MAX_HANDLERS
    && (forall i :: 0 <= i < |s.fates| && s.fates[i].Busy? ==> s.fates[i].running == MAX_HANDLERS)
  }

  lemma TakeOne(stream: seq<Update>, s: State, n: nat)
    requires IdsIncrease(stream) && Caught(stream, s, n) && n < |stream|
    requires stream[n].readable
    ensures var s1 := Ack(s, stream[n]);
            Caught(stream, if stream[n].content.Prompt? then Offer(s1, stream[n].id) else s1, n + 1)
  {
    assert stream[..n + 1][..n] == stream[..n];
    assert Ids(stream[..n + 1]) == Ids(stream[..n]) + [stream[n].id];
    var f := if s.active >= MAX_HANDLERS then Busy(stream[n].id, s.active) else Dispatched(stream[n].id);
    assert FateIds(s.fates + [f]) == FateIds(s.fates) + [stream[n].id];
    assert PromptIds(stream[..n]) + [] == PromptIds(stream[..n]);
  }

  lemma CaughtFits(stream: seq<Update>, s: State, n: nat)
    requires Caught(stream, s, n)
    ensures n <= |stream|
  {
  }

  lemma EndsKeepCaught(stream: seq<Update>, s: State, ended: nat, n: nat)
    requires Caught(stream, s, n)
    ensures Caught(stream, HandlersEnd(s, ended), n)
  {
  }

  lemma {:induction false} ProcessCatches(stream: seq<Update>, s: State, items: seq<Update>, ends: nat -> nat, i: nat, n: nat)
    returns (k: nat)
    requires IdsIncrease(stream) && i <= |items| && n >= i && n - i + |items| <= |stream|
    requires items == stream[n - i..n - i + |items|] && Caught(stream, s, n)
    ensures n <= k <= |stream| && Caught(stream, Process(s, items, ends, i), k)
    ensures i < |items| && items[i].readable ==> k > n
    ensures Process(s, items, ends, i).backoff == s.backoff
    decreases |items| - i
  {
    hide Caught;
    k := n;
    CaughtFits(stream, s, n);
    if i < |items| {
      var s0 := HandlersEnd(s, ends(i));
      EndsKeepCaught(stream, s, ends(i), n);
      assert items[i] == stream[n];
      if items[i].readable {
        TakeOne(stream, s0, n);
        k := n + 1;
        if !items[i].content.Malformed? {
          var s1 := Ack(s0, items[i]);
          k := ProcessCatches(stream, if items[i].content.Prompt? then Offer(s1, items[i].id) else s1, items, ends, i + 1, n + 1);
        }
      }
    }
  }

  function Pow2(k: nat): nat {
    if k == 0 then 1 else 2 * Pow2(k - 1)
  }

  /** How many conflict replies came since the last other reply. */
  function Streak(es: seq<Event>): nat {
    if es == [] then 0
    else match es[|es| - 1]
         case HandlerDone => Streak(es[..|es| - 1])
         case Reply(r, _) => if r.Conflict? then Streak(es[..|es| - 1]) + 1 else 0
  }

  predicate BackedOff(s: State, streak: nat) {
    s.backoff == Min(BACKOFF_START * Pow2(streak), BACKOFF_MAX)
  }

  lemma {:induction false} Pow2Grows(k: nat)
    ensures Pow2(k) >= 1
  {
    if k > 0 {
      Pow2Grows(k - 1);
    }
  }

  lemma StepCatches(stream: seq<Update>, s: State, e: Event, n: nat) returns (k: nat)
    requires IdsIncrease(stream) && Caught(stream, s, n)
    requires e.Reply? ==> Honest(stream, s.offset, e.r)
    ensures n <= k <= |stream| && Caught(stream, Step(s, e), k)
    ensures forall streak: nat :: BackedOff(s, streak) ==>
              BackedOff(Step(s, e), if e.HandlerDone? then streak else if e.r.Conflict? then streak + 1 else 0)
  {
    k := n;
    if e.Reply? && e.r.Batch? {
      StartsWhereCaught(stream, s, e.r, n);
      var s0 := s.(backoff := BACKOFF_START);
      assert Caught(stream, s0, n);
      hide Caught, Process;
      if e.r.items == [] {
        assert Process(s0, [], e.ends, 0) == s0 by { ProcessNothing(s0, e.ends); }
      } else {
        k := ProcessCatches(stream, s0, e.r.items, e.ends, 0, n);
      }
    }
  }

  lemma ProcessNothing(s: State, ends: nat -> nat)
    ensures Process(s, [], ends, 0) == s
  {
  }

  /** An honest batch starts right behind what was caught. */
  lemma StartsWhereCaught(stream: seq<Update>, s: State, r: Response, n: nat)
    requires IdsIncrease(stream) && Caught(stream, s, n) && r.Batch? && Honest(stream, s.offset, r)
    ensures n + |r.items| <= |stream| && r.items == stream[n..n + |r.items|]
  {
    var m :| 0 <= m <= |stream| && Below(stream, s.offset, m) && r.items <= stream[m..];
    BelowUnique(stream, s.offset, m, n);
  }

  lemma BelowUnique(stream: seq<Update>, offset: int, m: nat, n: nat)
    requires Below(stream, offset, m) && Below(stream, offset, n)
    ensures m == n
  {
  }

  /** For any run against an honest server, with conflicts, network errors, bad replies and exceptions in the
      middle of batches: the acknowledged updates are a prefix of the stream; every prompt in that prefix was
      dispatched, or answered as busy while three handlers ran, exactly once and in order; at most three handlers
      run; and the backoff is five seconds doubled once per conflict since the last other reply, at most sixty. */
  lemma {:induction false} PollingRun(stream: seq<Update>, es: seq<Event>)
    requires IdsIncrease(stream) && HonestRun(stream, Init, es)
    ensures exists n :: 0 <= n <= |stream| && Caught(stream, Run(Init, es), n)
    ensures BackedOff(Run(Init, es), Streak(es)) && 5 <= Run(Init, es).backoff <= 60
    decreases |es|
  {
    if es == [] {
      assert stream[..0] == [] && Caught(stream, Init, 0);
      assert Caught(stream, Run(Init, es), 0);
    } else {
      PollingRun(stream, es[..|es| - 1]);
      var n :| 0 <= n <= |stream| && Caught(stream, Run(Init, es[..|es| - 1]), n);
      var k := StepCatches(stream, Run(Init, es[..|es| - 1]), es[|es| - 1], n);
      assert 0 <= k <= |stream| && Caught(stream, Run(Init, es), k);
    }
    Pow2Grows(Streak(es));
  }

  lemma {:induction false} PromptIdsBelow(us: seq<Update>, bound: int)
    requires forall i :: 0 <= i < |us| ==> us[i].id < bound
    ensures forall i :: 0 <= i < |PromptIds(us)| ==> PromptIds(us)[i] < bound
    decreases |us|
  {
    if us != [] {
      PromptIdsBelow(us[..|us| - 1], bound);
    }
  }

  lemma {:induction false} PromptIdsIncrease(us: seq<Update>)
    requires IdsIncrease(us)
    ensures forall i, j :: 0 <= i < j < |PromptIds(us)| ==> PromptIds(us)[i] < PromptIds(us)[j]
    decreases |us|
  {
    if us != [] {
      PromptIdsIncrease(us[..|us| - 1]);
      PromptIdsBelow(us[..|us| - 1], us[|us| - 1].id);
    }
  }

  /** So no update is ever offered to a handler twice. */
  lemma NoUpdateTwice(stream: seq<Update>, es: seq<Event>)
    requires IdsIncrease(stream) && HonestRun(stream, Init, es)
    ensures var f := Run(Init, es).fates; forall i, j :: 0 <= i < j < |f| ==> f[i].id != f[j].id
  {
    PollingRun(stream, es);
    var f := Run(Init, es).fates;
    var n :| 0 <= n <= |stream| && Caught(stream, Run(Init, es), n);
    PromptIdsIncrease(stream[..n]);
    forall i, j | 0 <= i < j < |f| ensures f[i].id != f[j].id {
      assert FateIds(f)[i] < FateIds(f)[j];
    }
  }

  // ---------------------------------------------------------------- who is busy

  function Dispatches(fs: seq<Fate>): nat {
    if fs == [] then 0 else Dispatches(fs[..|fs| - 1]) + (if fs[|fs| - 1].Dispatched? then 1 else 0)
  }

  /** How many handlers end while a batch is processed: no more than there are running at each moment. */
  function EndedIn(s: State, items: seq<Update>, ends: nat -> nat, i: nat): nat
    requires i <= |items|
    decreases |items| - i
  {
    if i == |items| then 0
    else
      Min(ends(i), s.active)
      + if !items[i].readable || items[i].content.Malformed? then 0
        else
          var s1 := Ack(HandlersEnd(s, ends(i)), items[i]);
          EndedIn(if items[i].content.Prompt? then Offer(s1, items[i].id) else s1, items, ends, i + 1)
  }

  function EndedBy(s: State, e: Event): nat {
    match e
    case HandlerDone => Min(1, s.active)
    case Reply(r, ends) => if r.Batch? then EndedIn(s.(backoff := BACKOFF_START), r.items, ends, 0) else 0
  }

  /** How many handlers ended in a run. */
  function Ended(es: seq<Event>): nat {
    if es == [] then 0 else Ended(es[..|es| - 1]) + EndedBy(Run(Init, es[..|es| - 1]), es[|es| - 1])
  }

  lemma {:induction false} ProcessAccounts(s: State, items: seq<Update>, ends: nat -> nat, i: nat)
    requires i <= |items|
    ensures var p := Process(s, items, ends, i);
            s.fates <= p.fates && p.active + EndedIn(s, items, ends, i) == s.active + Dispatches(p.fates) - Dispatches(s.fates)
    ensures s.active <= 3 ==> Process(s, items, ends, i).active <= 3
    decreases |items| - i
  {
    if i < |items| && items[i].readable && !items[i].content.Malformed? {
      var s1 := Ack(HandlersEnd(s, ends(i)), items[i]);
      if items[i].content.Prompt? {
        var s2 := Offer(s1, items[i].id);
        assert s2.fates[..|s.fates|] == s.fates;
        ProcessAccounts(s2, items, ends, i + 1);
      } else {
        ProcessAccounts(s1, items, ends, i + 1);
      }
    }
  }

  /** In every run, whatever the server sends: the running handlers are the dispatched ones that have not ended,
      and there are never more than three. */
  lemma {:induction false} HandlersAccounted(es: seq<Event>)
    ensures Run(Init, es).active + Ended(es) == Dispatches(Run(Init, es).fates) && Run(Init, es).active <= 3
    decreases |es|
  {
    if es != [] {
      var s, e := Run(Init, es[..|es| - 1]), es[|es| - 1];
      HandlersAccounted(es[..|es| - 1]);
      if e.Reply? && e.r.Batch? {
        ProcessAccounts(s.(backoff := BACKOFF_START), e.r.items, e.ends, 0);
      }
    }
  }

  predicate Passes(items: seq<Update>, n: nat) {
    n <= |items| && forall k :: 0 <= k < n ==> items[k].readable && !items[k].content.Malformed?
  }

  /** A batch may be processed up to `j`, and then on. */
  lemma {:induction false} ProcessSplit(s: State, items: seq<Update>, ends: nat -> nat, i: nat, j: nat)
    requires i <= j && Passes(items, j)
    ensures Process(s, items, ends, i) == Process(Process(s, items[..j], ends, i), items, ends, j)
    decreases j - i
  {
    if i < j {
      assert items[..j][i] == items[i];
      var s1 := Ack(HandlersEnd(s, ends(i)), items[i]);
      ProcessSplit(if items[i].content.Prompt? then Offer(s1, items[i].id) else s1, items, ends, i + 1, j);
    }
  }

  /** Exactly when a prompt is answered as busy, in any run: item `j` of a batch is, if and only if three of the
      handlers dispatched so far have not ended by then; otherwise it is dispatched. */
  lemma BusyIff(es: seq<Event>, items: seq<Update>, ends: nat -> nat, j: nat)
    requires j < |items| && Passes(items, j) && items[j].readable && items[j].content.Prompt?
    ensures var before := es + [Reply(Batch(items[..j]), ends)];
            var fates, after := Run(Init, before).fates, Run(Init, es + [Reply(Batch(items), ends)]).fates;
            && Dispatches(fates) >= Ended(before)
            && var running := Dispatches(fates) - Ended(before);
               var left := if ends(j) <= running then running - ends(j) else 0;
               && fates < after
               && after[|fates|] == if left == 3 then Busy(items[j].id, 3) else Dispatched(items[j].id)
  {
    var before, e := es + [Reply(Batch(items[..j]), ends)], Reply(Batch(items), ends);
    assert before[..|es|] == es && (es + [e])[..|es|] == es;
    HandlersAccounted(before);
    var s := Run(Init, es).(backoff := BACKOFF_START);
    var mid := Process(s, items[..j], ends, 0);
    assert Run(Init, before) == mid && Run(Init, es + [e]) == Process(s, items, ends, 0);
    ProcessSplit(s, items, ends, 0, j);
    OfferedAt(mid, items, ends, j);
  }

  lemma OfferedAt(s: State, items: seq<Update>, ends: nat -> nat, j: nat)
    requires j < |items| && items[j].readable && items[j].content.Prompt?
    ensures var left := if ends(j) <= s.active then s.active - ends(j) else 0;
            s.fates + [if left >= 3 then Busy(items[j].id, left) else Dispatched(items[j].id)] <= Process(s, items, ends, j).fates
  {
    var next := Offer(Ack(HandlersEnd(s, ends(j)), items[j]), items[j].id);
    ProcessAccounts(next, items, ends, j + 1);
  }

  lemma UnreadableStops(stream: seq<Update>, s: State, n: nat, e: Event)
    requires IdsIncrease(stream) && Caught(stream, s, n) && n < |stream| && !stream[n].readable
    requires e.Reply? ==> Honest(stream, s.offset, e.r)
    ensures var s' := Step(s, e);
            Caught(stream, s', n) && s'.offset == s.offset && s'.acked == s.acked && s'.fates == s.fates
  {
    if e.Reply? && e.r.Batch? {
      StartsWhereCaught(stream, s, e.r, n);
      assert e.r.items != [] ==> e.r.items[0] == stream[n];
    }
  }

  /** An update whose id cannot be read stops the loop for good: in every later run against an honest server the
      offset stays, nothing more is acknowledged, and no prompt meets any fate. */
  lemma {:induction false} UnreadableBlocks(stream: seq<Update>, s: State, n: nat, es: seq<Event>)
    requires IdsIncrease(stream) && Caught(stream, s, n) && n < |stream| && !stream[n].readable
    requires HonestRun(stream, s, es)
    ensures var s' := Run(s, es);
            Caught(stream, s', n) && s'.offset == s.offset && s'.acked == s.acked && s'.fates == s.fates
    decreases |es|
  {
    hide Caught, Step;
    if es != [] {
      UnreadableBlocks(stream, s, n, es[..|es| - 1]);
      UnreadableStops(stream, Run(s, es[..|es| - 1]), n, es[|es| - 1]);
    }
  }

  lemma CaughtOnce(stream: seq<Update>, s: State, m: nat, n: nat)
    requires IdsIncrease(stream) && Caught(stream, s, m) && Caught(stream, s, n)
    ensures m == n
  {
    BelowUnique(stream, s.offset, m, n);
  }

  /** A nonempty batch of an honest server gets on exactly when its first update's id can be read: an exception
      anywhere behind the id costs no more than the rest of the batch. */
  lemma BatchGetsOnIff(stream: seq<Update>, s: State, n: nat, items: seq<Update>, ends: nat -> nat)
    requires IdsIncrease(stream) && Caught(stream, s, n) && n < |stream|
    requires items != [] && Honest(stream, s.offset, Batch(items))
    ensures (exists k :: n < k <= |stream| && Caught(stream, Poll(s, Batch(items), ends), k)) <==> stream[n].readable
  {
    var s0 := s.(backoff := BACKOFF_START);
    StartsWhereCaught(stream, s, Batch(items), n);
    assert items[0] == stream[n] && Caught(stream, s0, n);
    if stream[n].readable {
      var k := ProcessCatches(stream, s0, items, ends, 0, n);
      assert Process(s0, items, ends, 0) == Poll(s, Batch(items), ends);
    } else {
      UnreadableStops(stream, s, n, Reply(Batch(items), ends));
      hide Caught, Poll;
      forall k | 0 <= k <= |stream| && Caught(stream, Poll(s, Batch(items), ends), k) ensures k == n {
        CaughtOnce(stream, Poll(s, Batch(items), ends), k, n);
      }
    }
  }
}

/** The shutdown handshake of the dashboard and the webhook channel: request handlers count their workers,
    completion callbacks count them down and notify, and `Stop` waits for the count to reach zero. */
module WorkerHandshake {

  /** Whether the completion callback always notifies, or only when it took the count to zero. */
  datatype Variant = Always | OnlyLast

  /** A request from its check of the running flag to the end of its callback. */
  datatype Request =
    | Checked(v: Variant)            // found the server running; not counted yet
    | Working(v: Variant)            // context created and counted; the worker or its callback still runs
    | Uncounted(owes: bool)          // answered, context deleted, counted down; may still owe a notify
    | Done

  datatype Stopper =
    | Idle
    | Flagged      // cleared the running flag
    | Locked       // holds the mutex, about to read the count
    | Leaving      // holds the mutex, read a count other than zero, about to wait
    | Sleeping     // waits, mutex released
    | Passed       // read zero and went on

  datatype State = State(running: bool, pending: int, requests: map<nat, Request>, stop: Stopper)

  const Init := State(true, 0, map[], Idle)

  datatype Event =
    | Check(r: nat, v: Variant)
    | Count(r: nat)
    | Uncount(r: nat)
    | Notify(r: nat)
    | ClearFlag
    | Lock
    | Read
    | Sleep
    | Wake          // a spurious wakeup

  predicate Is(s: State, r: nat, q: Request) {
    r in s.requests && s.requests[r] == q
  }

  predicate HoldsMutex(p: Stopper) {
    p.Locked? || p.Leaving?
  }

  function Step(s: State, e: Event): State {
    match e
    case Check(r, v) =>
      if s.running && r !in s.requests then s.(requests := s.requests[r := Checked(v)]) else s
    case Count(r) =>
      if r in s.requests && s.requests[r].Checked? then
        s.(pending := s.pending + 1, requests := s.requests[r := Working(s.requests[r].v)])
      else s
    case Uncount(r) =>
      if r in s.requests && s.requests[r].Working? then
        s.(pending := s.pending - 1,
           requests := s.requests[r := if s.requests[r].v.Always? || s.pending == 1 then Uncounted(true) else Done])
      else s
    case Notify(r) =>
      if Is(s, r, Uncounted(true)) && !HoldsMutex(s.stop) then
        s.(requests := s.requests[r := Done], stop := if s.stop.Sleeping? then Flagged else s.stop)
      else s
    case ClearFlag => if s.stop.Idle? then s.(running := false, stop := Flagged) else s
    case Lock => if s.stop.Flagged? then s.(stop := Locked) else s
    case Read => if s.stop.Locked? then s.(stop := if s.pending == 0 then Passed else Leaving) else s
    case Sleep => if s.stop.Leaving? then s.(stop := Sleeping) else s
    case Wake => if s.stop.Sleeping? then s.(stop := Flagged) else s
  }

  function Run(s: State, es: seq<Event>): State {
    if es == [] then s else Step(Run(s, es[..|es| - 1]), es[|es| - 1])
  }

  /** The fields of the channel object, with the other threads' positions as ghost state. */
  class Channel {
    var running: bool
    var pendingWorkers: int
    ghost var requests: map<nat, Request>
    ghost var stop: Stopper

    ghost function View(): State
      reads this
    {
      State(running, pendingWorkers, requests, stop)
    }

    constructor ()
      ensures View() == Init
    {
      running, pendingWorkers := true, 0;
      requests, stop := map[], Idle;
    }

    /** The handler's check of the running flag. */
    method Admit(r: nat, ghost v: Variant) returns (ok: bool)
      requires r !in requests
      modifies this`requests
      ensures View() == Step(old(View()), Check(r, v)) && ok == running
    {
      ok := running;
      if ok {
        requests := requests[r := Checked(v)];
      }
    }

    method CountUp(r: nat)
      requires r in requests && requests[r].Checked?
      modifies this`pendingWorkers, this`requests
      ensures View() == Step(old(View()), Count(r))
    {
      pendingWorkers := pendingWorkers + 1;
      requests := requests[r := Working(requests[r].v)];
    }

    /** The callback's decrement; tells whether it must notify. */
    method CountDown(r: nat, v: Variant) returns (mustNotify: bool)
      requires r in requests && requests[r] == Working(v)
      modifies this`pendingWorkers, this`requests
      ensures View() == Step(old(View()), Uncount(r))
      ensures mustNotify <==> Is(View(), r, Uncounted(true))
    {
      mustNotify := v.Always? || pendingWorkers == 1;
      pendingWorkers := pendingWorkers - 1;
      requests := requests[r := if mustNotify then Uncounted(true) else Done];
    }

    method ClearRunning()
      requires stop.Idle?
      modifies this`running, this`stop
      ensures View() == Step(old(View()), ClearFlag)
    {
      running := false;
      stop := Flagged;
    }

    /** `Stop` evaluates its wait predicate under the mutex. */
    method ReadCount() returns (zero: bool)
      requires stop.Locked?
      modifies this`stop
      ensures View() == Step(old(View()), Read) && zero == stop.Passed?
    {
      zero := pendingWorkers == 0;
      stop := if zero then Passed else Leaving;
    }
  }

  /** The requests whose context exists: counted and not yet answered. */
  function Live(s: State): set<nat> {
    set r | r in s.requests && s.requests[r].Working?
  }

  function InGap(s: State): set<nat> {
    set r | r in s.requests && s.requests[r].Checked?
  }

  predicate SomeoneOwes(s: State) {
    exists r :: r in s.requests && s.requests[r] == Uncounted(true)
  }

  predicate Inv(s: State) {
    && s.pending == |Live(s)|
    && (s.running <==> s.stop.Idle?)
    && ((s.stop.Leaving? || s.stop.Sleeping?) && s.pending == 0 ==> SomeoneOwes(s))
  }

  lemma LiveUp(s: State, r: nat)
    requires r in s.requests && s.requests[r].Checked?
    ensures |Live(Step(s, Count(r)))| == |Live(s)| + 1
  {
    assert Live(Step(s, Count(r))) == Live(s) + {r};
  }

  lemma LiveDown(s: State, r: nat)
    requires r in s.requests && s.requests[r].Working?
    ensures |Live(Step(s, Uncount(r)))| == |Live(s)| - 1
  {
    assert Live(Step(s, Uncount(r))) == Live(s) - {r};
  }

  lemma LiveSame(s: State, e: Event)
    requires e.Count? ==> Step(s, e) == s
    requires e.Uncount? ==> Step(s, e) == s
    ensures Live(Step(s, e)) == Live(s)
  {
  }

  lemma LiveStep(s: State, e: Event)
    requires s.pending == |Live(s)|
    ensures Step(s, e).pending == |Live(Step(s, e))|
  {
    hide Live;
    if e.Count? && e.r in s.requests && s.requests[e.r].Checked? {
      LiveUp(s, e.r);
    } else if e.Uncount? && e.r in s.requests && s.requests[e.r].Working? {
      LiveDown(s, e.r);
    } else {
      LiveSame(s, e);
    }
  }

  lemma OweStep(s: State, e: Event)
    requires Inv(s)
    ensures Step(s, e).stop.Leaving? || Step(s, e).stop.Sleeping? ==> Step(s, e).pending != 0 || SomeoneOwes(Step(s, e))
  {
    var s' := Step(s, e);
    if (s'.stop.Leaving? || s'.stop.Sleeping?) && s'.pending == 0 {
      if e.Uncount? && s' != s {
        assert s'.requests[e.r] == Uncounted(true);
      } else if s.pending == 0 && SomeoneOwes(s) {
        var r :| r in s.requests && s.requests[r] == Uncounted(true);
        assert Is(s', r, Uncounted(true));
      }
    }
  }

  lemma {:induction false} RunInvFrom(s: State, es: seq<Event>)
    requires Inv(s)
    ensures Inv(Run(s, es))
    decreases |es|
  {
    if es != [] {
      var p, e := Run(s, es[..|es| - 1]), es[|es| - 1];
      RunInvFrom(s, es[..|es| - 1]);
      LiveStep(p, e);
      OweStep(p, e);
    }
  }

  /** In every run: the count equals the number of contexts created and not yet answered, and no wakeup is
      lost: while `Stop` sleeps, or has decided to, with the count at zero, some callback still owes its notify. */
  lemma RunInv(es: seq<Event>)
    ensures var s := Run(Init, es);
            && s.pending == |Live(s)|
            && ((s.stop.Leaving? || s.stop.Sleeping?) && s.pending == 0 ==> SomeoneOwes(s))
            && Inv(s)
  {
    assert Live(Init) == {};
    RunInvFrom(Init, es);
  }

  /** There is an owed notify, and whichever callback gives one next, `Stop` is woken, reads zero and passes. */
  lemma OwedNotifyReleasesStop(es: seq<Event>)
    requires Run(Init, es).stop.Sleeping? && Run(Init, es).pending == 0
    ensures SomeoneOwes(Run(Init, es))
    ensures forall r :: Is(Run(Init, es), r, Uncounted(true)) ==> Run(Run(Init, es), [Notify(r), Lock, Read]).stop.Passed?
  {
    RunInv(es);
    var s := Run(Init, es);
    forall r | Is(s, r, Uncounted(true)) ensures Run(s, [Notify(r), Lock, Read]).stop.Passed? {
      var a, b, c := Notify(r), Lock, Read;
      assert [a, b, c][..2] == [a, b] && [a, b][..1] == [a] && [a][..0] == [];
      assert Run(s, [a]) == Step(s, a);
      assert Run(s, [a, b]).stop.Locked? && Run(s, [a, b]).pending == 0;
      assert Run(s, [a, b, c]).stop.Passed?;
    }
  }

  /** Neither a live context nor a request that could still create one. */
  predicate Quiet(s: State) {
    s.stop.Passed? && !s.running && Live(s) == {} && InGap(s) == {}
  }

  lemma {:induction false} QuietStays(s: State, es: seq<Event>)
    requires Quiet(s)
    ensures Quiet(Run(s, es))
    decreases |es|
  {
    if es != [] {
      var p, e := Run(s, es[..|es| - 1]), es[|es| - 1];
      QuietStays(s, es[..|es| - 1]);
      assert forall r :: r in p.requests ==> r !in Live(p) && r !in InGap(p);
      assert forall r :: r in p.requests ==> !p.requests[r].Working? && !p.requests[r].Checked?;
    }
  }

  /** Exactly when a worker can outlive `Stop`: from the moment `Stop` reads zero and passes, no continuation
      has a live context if and only if no request sits between its check and its count at that moment. */
  lemma NoWorkerOutlivesStopIff(es: seq<Event>)
    requires Run(Init, es).stop.Locked? && Step(Run(Init, es), Read).stop.Passed?
    ensures var s := Step(Run(Init, es), Read);
            (forall more :: Live(Run(s, more)) == {}) <==> InGap(s) == {}
  {
    RunInv(es);
    var s := Step(Run(Init, es), Read);
    assert Live(s) == Live(Run(Init, es));
    if InGap(s) == {} {
      forall more ensures Live(Run(s, more)) == {} {
        QuietStays(s, more);
      }
    } else {
      var r :| r in InGap(s);
      assert [Count(r)][..0] == [];
      assert Run(s, [Count(r)]) == Step(s, Count(r));
      assert r in Live(Run(s, [Count(r)]));
    }
  }

  lemma {:induction false} GapOnlyShrinks(s: State, es: seq<Event>)
    requires !s.running && !s.stop.Idle?
    ensures !Run(s, es).running && !Run(s, es).stop.Idle? && InGap(Run(s, es)) <= InGap(s)
    decreases |es|
  {
    if es != [] {
      var p, e := Run(s, es[..|es| - 1]), es[|es| - 1];
      GapOnlyShrinks(s, es[..|es| - 1]);
      assert InGap(Step(p, e)) <= InGap(p);
    }
  }

  /** If no request is in the gap when the flag is cleared, then whenever `Stop` later passes, no worker is
      left and none will ever appear. */
  lemma StopIsFinal(before: seq<Event>, es: seq<Event>, more: seq<Event>)
    requires Run(Init, before).stop.Idle? && InGap(Run(Init, before)) == {}
    requires var s := Run(Step(Run(Init, before), ClearFlag), es);
             s.stop.Locked? && Step(s, Read).stop.Passed?
    ensures Live(Run(Step(Run(Step(Run(Init, before), ClearFlag), es), Read), more)) == {}
  {
    var f := Step(Run(Init, before), ClearFlag);
    assert InGap(f) == InGap(Run(Init, before));
    GapOnlyShrinks(f, es);
    RunInv(before);
    LiveStep(Run(Init, before), ClearFlag);
    RunInvFrom(f, es);
    var s := Run(f, es);
    var p := Step(s, Read);
    assert Live(p) == Live(s) && InGap(p) == InGap(s);
    QuietStays(p, more);
  }

  /** A request that arrives while the server runs is let in, counted, counted down again, and owes its notify always,
      or only if it was the last, by variant; giving the notify ends it. */
  lemma RequestLifecycle(s: State, r: nat, v: Variant)
    requires s.running && r !in s.requests && !HoldsMutex(s.stop)
    ensures var s1 := Step(s, Check(r, v));
            var s2 := Step(s1, Count(r));
            var s3 := Step(s2, Uncount(r));
            && Is(s1, r, Checked(v)) && s1.pending == s.pending
            && Is(s2, r, Working(v)) && s2.pending == s.pending + 1
            && s3.pending == s.pending
            && Is(s3, r, if v.Always? || s.pending == 0 then Uncounted(true) else Done)
            && (Is(s3, r, Uncounted(true)) ==> Is(Step(s3, Notify(r)), r, Done))
  {
  }

  /** Stopping: the flag goes down and later requests are refused; under the mutex the count decides between passing and
      sleeping, and a sleeper that wakes looks again. */
  lemma StopLifecycle(s: State, r: nat, v: Variant)
    requires s.stop.Idle?
    ensures var f := Step(s, ClearFlag);
            var l := Step(f, Lock);
            var d := Step(l, Read);
            && !f.running && Step(f, Check(r, v)) == f
            && f.pending == l.pending == d.pending == s.pending
            && (d.stop.Passed? <==> s.pending == 0)
            && (s.pending != 0 ==> Step(d, Sleep).stop.Sleeping? && Step(Step(d, Sleep), Wake).stop.Flagged?)
  {
  }
}

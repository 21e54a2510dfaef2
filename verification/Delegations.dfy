/** Delegation tracking of the supervisor: entries are pushed on a list, found again by the index they had
    when they were pushed, and moved to a bounded history. Overlapping delegations shift each other's indexes. */
module Delegations {

  const MAX_HISTORY: nat := 20

  /** A tracked delegation; `owner` says which delegation pushed it. */
  datatype Entry = Entry(owner: nat, role: string, task: string, session: string, completed: bool, success: bool)

  datatype State = State(
    active: seq<Entry>,
    history: seq<Entry>,
    total: nat,
    successful: nat,
    index: map<nat, nat>,     // the index each running delegation remembers
    stack: seq<nat>,          // running delegations, oldest first
    log: seq<Entry>,          // history: every entry ever moved
    early: set<nat>,          // delegations that returned before they updated the tracking
    begun: set<nat>,
    shifted: set<nat>         // running delegations at or above whose index an entry was removed
  )

  const Init := State([], [], 0, 0, map[], [], [], {}, {}, {})

  datatype Event =
    | Begin(d: nat, role: string, task: string)
    | ReturnEarly(d: nat)
    | Finish(d: nat, session: string, success: bool)

  /** Only the first hundred characters of a task are tracked. */
  function Short(task: string): string {
    if |task| <= 100 then task else task[..100]
  }

  function Last<T>(s: seq<T>, n: nat): seq<T> {
    if |s| <= n then s else s[|s| - n..]
  }

  function RemoveAt<T>(s: seq<T>, i: nat): seq<T>
    requires i < |s|
  {
    s[..i] + s[i + 1..]
  }

  function Without(s: seq<nat>, d: nat): seq<nat> {
    if s == [] then [] else Without(s[..|s| - 1], d) + (if s[|s| - 1] == d then [] else [s[|s| - 1]])
  }

  function Forget(s: State, d: nat): State {
    s.(index := s.index - {d}, stack := Without(s.stack, d))
  }

  function Moved(e: Entry, session: string, success: bool): Entry {
    e.(completed := true, success := success, session := session)
  }

  /** The update under the lock: it applies to whatever entry stands at the index now. */
  function MoveAt(s: State, i: nat, session: string, success: bool): State
    requires i < |s.active|
  {
    var m := Moved(s.active[i], session, success);
    s.(active := RemoveAt(s.active, i), history := Last(s.history + [m], MAX_HISTORY), log := s.log + [m],
       successful := s.successful + (if success then 1 else 0))
  }

  function Step(s: State, e: Event): State {
    match e
    case Begin(d, role, task) =>
      if d in s.begun then s
      else
        s.(active := s.active + [Entry(d, role, Short(task), "", false, false)], total := s.total + 1,
           index := s.index[d := |s.active|], stack := s.stack + [d], begun := s.begun + {d})
    case ReturnEarly(d) =>
      if d in s.index then Forget(s, d).(early := s.early + {d}) else s
    case Finish(d, session, success) =>
      if d !in s.index then s
      else if s.index[d] >= |s.active| then Forget(s, d)
      else
        Forget(MoveAt(s, s.index[d], session, success), d).(shifted :=
          s.shifted + set u | u in s.index && u != d && s.index[u] >= s.index[d])
  }

  function Run(s: State, es: seq<Event>): State {
    if es == [] then s else Step(Run(s, es[..|es| - 1]), es[|es| - 1])
  }

  // ---------------------------------------------------------------- the engine's fields

  class SupervisorEngine {
    var active: seq<Entry>
    var history: seq<Entry>
    var total: nat
    var successful: nat
    ghost var run: State

    ghost predicate Valid()
      reads this
    {
      run.active == active && run.history == history && run.total == total && run.successful == successful
    }

    constructor ()
      ensures Valid() && run == Init
    {
      active, history, total, successful, run := [], [], 0, 0, Init;
    }

    /** Before the role session is created: push the entry and remember its index. */
    method Track(d: nat, role: string, task: string) returns (index: nat)
      requires Valid() && d !in run.begun
      modifies this
      ensures Valid() && run == Step(old(run), Begin(d, role, task)) && run.index[d] == index
    {
      index := |active|;
      active := active + [Entry(d, role, Short(task), "", false, false)];
      total := total + 1;
      run := Step(run, Begin(d, role, task));
    }

    /** After the role session has answered: update and move the entry at the remembered index. */
    method Complete(d: nat, index: nat, session: string, success: bool)
      requires Valid() && d in run.index && run.index[d] == index
      modifies this
      ensures Valid() && run == Step(old(run), Finish(d, session, success))
    {
      if index < |active| {
        var tracked := Moved(active[index], session, success);
        if success {
          successful := successful + 1;
        }
        history := history + [tracked];
        if |history| > MAX_HISTORY {
          history := Last(history, MAX_HISTORY);
        }
        active := active[..index] + active[index + 1..];
      }
      run := Step(run, Finish(d, session, success));
    }
  }

  // ---------------------------------------------------------------- counters, for any overlap

  function Successes(log: seq<Entry>): nat {
    if log == [] then 0 else Successes(log[..|log| - 1]) + (if log[|log| - 1].success then 1 else 0)
  }

  predicate Counted(s: State) {
    && s.total == |s.active| + |s.log|
    && s.history == Last(s.log, MAX_HISTORY)
    && s.successful == Successes(s.log)
  }

  lemma LastAppend<T>(s: seq<T>, x: T, n: nat)
    requires n > 0
    ensures Last(Last(s, n) + [x], n) == Last(s + [x], n)
  {
  }

  lemma CountedStep(s: State, e: Event)
    requires Counted(s)
    ensures Counted(Step(s, e))
  {
    if e.Finish? && e.d in s.index && s.index[e.d] < |s.active| {
      var m := Moved(s.active[s.index[e.d]], e.session, e.success);
      assert (s.log + [m])[..|s.log|] == s.log;
      LastAppend(s.log, m, MAX_HISTORY);
      hide Last;
    }
  }

  lemma {:induction false} SuccessesBounded(log: seq<Entry>)
    ensures Successes(log) <= |log|
    decreases |log|
  {
    if log != [] {
      SuccessesBounded(log[..|log| - 1]);
    }
  }

  /** For any overlap of delegations: the total is the active ones plus all ever moved, the history holds the
      last twenty moved in order, and successes count exactly the successful moves. The reported number of
      failures, total minus successes, therefore also counts every delegation that still runs or leaked. */
  lemma {:induction false} CountersInAnyRun(es: seq<Event>)
    ensures var s := Run(Init, es);
            && s.total == |s.active| + |s.log|
            && s.history == Last(s.log, MAX_HISTORY)
            && s.successful == Successes(s.log) <= |s.log|
            && s.total - s.successful == |s.active| + (|s.log| - Successes(s.log))
    decreases |es|
  {
    if es != [] {
      CountersInAnyRun(es[..|es| - 1]);
      CountedStep(Run(Init, es[..|es| - 1]), es[|es| - 1]);
    }
    SuccessesBounded(Run(Init, es).log);
  }

  // ---------------------------------------------------------------- whose entry is moved

  predicate OwnersDistinct(a: seq<Entry>) {
    forall i, j :: 0 <= i < j < |a| ==> a[i].owner != a[j].owner
  }

  predicate Placed(s: State, d: nat)
    requires d in s.index
  {
    if d in s.shifted then forall p :: 0 <= p < |s.active| && s.active[p].owner == d ==> p < s.index[d]
    else s.index[d] < |s.active| && s.active[s.index[d]].owner == d
  }

  predicate Inv(s: State) {
    && OwnersDistinct(s.active)
    && (forall p :: 0 <= p < |s.active| ==> s.active[p].owner in s.begun)
    && (forall d :: d in s.index ==> d in s.begun && Placed(s, d))
    && s.shifted <= s.begun
  }

  lemma RemoveKeeps(s: State, i: nat, session: string, success: bool)
    requires Inv(s) && i < |s.active|
    ensures var a := RemoveAt(s.active, i);
            && OwnersDistinct(a)
            && (forall p :: 0 <= p < |a| ==> a[p].owner in s.begun)
            && (forall p :: 0 <= p < |a| ==> a[p] == if p < i then s.active[p] else s.active[p + 1])
  {
  }

  lemma StepInv(s: State, e: Event)
    requires Inv(s)
    ensures Inv(Step(s, e))
  {
    if e.Finish? && e.d in s.index && s.index[e.d] < |s.active| {
      var i, s' := s.index[e.d], Step(s, e);
      RemoveKeeps(s, i, e.session, e.success);
      forall u | u in s'.index ensures Placed(s', u) {
        assert Placed(s, u);
      }
    }
  }

  lemma {:induction false} RunInv(es: seq<Event>)
    ensures Inv(Run(Init, es))
    decreases |es|
  {
    if es != [] {
      RunInv(es[..|es| - 1]);
      StepInv(Run(Init, es[..|es| - 1]), es[|es| - 1]);
    }
  }

  /** Exactly when a finishing delegation moves its own entry: if and only if, since it began, no other
      delegation finished at an index at or below its own. */
  lemma MovesOwnEntryIff(es: seq<Event>, d: nat, session: string, success: bool)
    requires d in Run(Init, es).index
    ensures var s := Run(Init, es);
            var s' := Step(s, Finish(d, session, success));
            (|s'.log| == |s.log| + 1 && s'.log[|s.log|].owner == d) <==> d !in s.shifted
  {
    RunInv(es);
    assert Placed(Run(Init, es), d);
  }

  /** The entry at `p` is out of reach: every running delegation remembers a higher index. */
  predicate OutOfReach(s: State, p: nat) {
    p < |s.active| && forall d :: d in s.index ==> s.index[d] > p
  }

  /** An entry out of reach stays active for good, at its place, whatever delegations follow. */
  lemma {:induction false} LeakedForGood(s: State, p: nat, es: seq<Event>)
    requires OutOfReach(s, p)
    ensures OutOfReach(Run(s, es), p) && Run(s, es).active[p] == s.active[p]
    decreases |es|
  {
    if es != [] {
      LeakedForGood(s, p, es[..|es| - 1]);
    }
  }

  /** Two overlapping delegations are enough: the first one to finish leaves the second without an entry, and
      the second one's entry stays active whatever happens afterwards. */
  lemma OverlapLeaks(r1: string, t1: string, r2: string, t2: string, x: string, more: seq<Event>)
    ensures var s := Run(Init, [Begin(1, r1, t1), Begin(2, r2, t2), Finish(1, x, true), Finish(2, x, true)]);
            && |s.active| == 1 && s.active[0].owner == 2 && s.successful == 1 && s.index == map[]
            && |Run(s, more).active| > 0 && Run(s, more).active[0] == s.active[0]
  {
    var a, b, c, d := Begin(1, r1, t1), Begin(2, r2, t2), Finish(1, x, true), Finish(2, x, true);
    assert [a, b, c, d][..3] == [a, b, c] && [a, b, c][..2] == [a, b] && [a, b][..1] == [a] && [a][..0] == [];
    assert Run(Init, [a]) == Step(Init, a);
    assert Run(Init, [a, b]) == Step(Run(Init, [a]), b);
    var s := Run(Init, [a, b, c]);
    assert s == Step(Run(Init, [a, b]), c);
    assert s.active == [Entry(2, r2, Short(t2), "", false, false)];
    assert s.index[2] == 1;
    LeakedForGood(Run(Init, [a, b, c, d]), 0, more);
  }

  // ---------------------------------------------------------------- nested runs

  /** Only the delegation begun last among the running ones may finish or return early. */
  predicate Nested(s: State, es: seq<Event>) {
    es == [] ||
    (Nested(s, es[..|es| - 1]) &&
     var p, e := Run(s, es[..|es| - 1]), es[|es| - 1];
     !e.Begin? ==> p.stack != [] && e.d == p.stack[|p.stack| - 1])
  }

  /** The running delegations, in order, remember increasing indexes, and none of them was shifted. */
  predicate Ordered(s: State) {
    && (forall k :: 0 <= k < |s.stack| ==> s.stack[k] in s.index && s.stack[k] !in s.shifted && s.stack[k] !in s.early)
    && (forall k, l :: 0 <= k < l < |s.stack| ==> s.index[s.stack[k]] < s.index[s.stack[l]])
    && (forall d :: d in s.index ==> d in s.stack)
  }

  predicate Kept(a: seq<Entry>, d: nat) {
    exists p :: 0 <= p < |a| && a[p].owner == d
  }

  /** The active entries are those of running delegations and of all that returned early. */
  predicate Explained(s: State) {
    && (forall p :: 0 <= p < |s.active| ==> s.active[p].owner in s.index || s.active[p].owner in s.early)
    && (forall d :: d in s.early ==> d in s.begun && Kept(s.active, d))
  }

  predicate Stacked(s: State) {
    Ordered(s) && Explained(s)
  }

  lemma {:induction false} WithoutLast(s: seq<nat>, d: nat)
    requires s != [] && s[|s| - 1] == d && forall k :: 0 <= k < |s| - 1 ==> s[k] != d
    ensures Without(s, d) == s[..|s| - 1]
  {
    WithoutNone(s[..|s| - 1], d);
  }

  lemma {:induction false} WithoutNone(s: seq<nat>, d: nat)
    requires d !in s
    ensures Without(s, d) == s
    decreases |s|
  {
    if s != [] {
      WithoutNone(s[..|s| - 1], d);
    }
  }

  lemma OrderedPop(s: State, s': State, d: nat)
    requires Ordered(s) && s.stack != [] && d == s.stack[|s.stack| - 1]
    requires s'.stack == s.stack[..|s.stack| - 1] && s'.index == s.index - {d} && s'.early <= s.early + {d}
    requires forall u :: u in s'.shifted ==> u in s.shifted || (u in s.index && u != d && s.index[u] >= s.index[d])
    ensures Ordered(s')
  {
    forall u | u in s'.index ensures u in s'.stack {
      var k :| 0 <= k < |s.stack| && s.stack[k] == u;
      assert s'.stack[k] == u;
    }
    forall k | 0 <= k < |s'.stack| ensures s'.stack[k] in s'.index && s'.stack[k] !in s'.shifted && s'.stack[k] !in s'.early {
      assert s.index[s.stack[k]] < s.index[d];
    }
  }

  lemma OrderedEnd(s: State, e: Event)
    requires Inv(s) && Ordered(s) && !e.Begin? && s.stack != [] && e.d == s.stack[|s.stack| - 1]
    ensures Ordered(Step(s, e))
  {
    assert forall k :: 0 <= k < |s.stack| - 1 ==> s.index[s.stack[k]] < s.index[e.d];
    WithoutLast(s.stack, e.d);
    assert Placed(s, e.d);
    hide Ordered;
    OrderedPop(s, Step(s, e), e.d);
  }

  lemma ExplainedReturn(s: State, d: nat)
    requires Inv(s) && Explained(s) && d in s.index && d !in s.shifted
    ensures Explained(Step(s, ReturnEarly(d)))
  {
    assert Placed(s, d);
    assert Kept(s.active, d) by { assert s.active[s.index[d]].owner == d; }
  }

  lemma ExplainedFinish(s: State, d: nat, session: string, success: bool)
    requires Inv(s) && Explained(s) && d in s.index && d !in s.shifted && d !in s.early
    ensures Explained(Step(s, Finish(d, session, success)))
  {
    assert Placed(s, d);
    ExplainedRemoval(s, Step(s, Finish(d, session, success)), d);
  }

  lemma ExplainedRemoval(s: State, s': State, d: nat)
    requires OwnersDistinct(s.active) && Explained(s) && d in s.index && d !in s.early
    requires s.index[d] < |s.active| && s.active[s.index[d]].owner == d
    requires s'.active == RemoveAt(s.active, s.index[d]) && s'.index == s.index - {d}
    requires s'.early == s.early && s'.begun == s.begun
    ensures Explained(s')
  {
    var i := s.index[d];
    forall p | 0 <= p < |s'.active| ensures s'.active[p].owner in s'.index || s'.active[p].owner in s'.early {
      var q := if p < i then p else p + 1;
      assert s'.active[p] == s.active[q] && q != i && s.active[q].owner != d;
    }
    forall x | x in s'.early ensures Kept(s'.active, x) {
      var p :| 0 <= p < |s.active| && s.active[p].owner == x;
      assert s'.active[if p < i then p else p - 1].owner == x;
    }
  }

  lemma StackedBegin(s: State, e: Event)
    requires Inv(s) && Stacked(s) && e.Begin?
    ensures Stacked(Step(s, e))
  {
    var s' := Step(s, e);
    if e.d !in s.begun {
      forall d | d in s'.early ensures Kept(s'.active, d) {
        var p :| 0 <= p < |s.active| && s.active[p].owner == d;
        assert s'.active[p].owner == d;
      }
      forall k | 0 <= k < |s.stack| ensures s.index[s.stack[k]] < |s.active| {
        assert Placed(s, s.stack[k]);
      }
    }
  }

  lemma {:induction false} NestedInv(es: seq<Event>)
    requires Nested(Init, es)
    ensures Inv(Run(Init, es)) && Stacked(Run(Init, es))
    decreases |es|
  {
    if es != [] {
      var s, e := Run(Init, es[..|es| - 1]), es[|es| - 1];
      NestedInv(es[..|es| - 1]);
      StepInv(s, e);
      match e
      case Begin(_, _, _) => StackedBegin(s, e);
      case ReturnEarly(d) => OrderedEnd(s, e); ExplainedReturn(s, d);
      case Finish(d, session, success) => OrderedEnd(s, e); ExplainedFinish(s, d, session, success);
    }
  }

  /** In well-nested runs, even with inner delegations that return early, every delegation that finishes moves
      its own entry, and the entries left when nothing runs are exactly those of the early returns. */
  lemma NestedMovesOwn(es: seq<Event>, d: nat, session: string, success: bool)
    requires Nested(Init, es + [Finish(d, session, success)])
    ensures var s := Run(Init, es);
            var s' := Step(s, Finish(d, session, success));
            && d in s.index && s.index[d] < |s.active|
            && s'.log == s.log + [Moved(s.active[s.index[d]], session, success)]
            && s.active[s.index[d]].owner == d
            && (s'.stack == [] ==> forall x :: Kept(s'.active, x) <==> x in s'.early)
  {
    var all := es + [Finish(d, session, success)];
    assert all[..|all| - 1] == es;
    NestedInv(es);
    NestedInv(all);
    assert Placed(Run(Init, es), d);
  }

  // ---------------------------------------------------------------- what entries tell

  /** The entry carries the role and the beginning of the task its own delegation was begun with. */
  predicate BegunAs(e: Event, x: Entry) {
    e.Begin? && e.d == x.owner && e.role == x.role && x.task <= e.task && |x.task| == (if |e.task| <= 100 then |e.task| else 100)
  }

  /** The entry carries the session and the success of a delegation that finished. */
  predicate FinishedAs(e: Event, x: Entry) {
    e.Finish? && e.session == x.session && e.success == x.success
  }

  predicate Begun(es: seq<Event>, x: Entry) {
    exists i :: 0 <= i < |es| && BegunAs(es[i], x)
  }

  predicate Finished(es: seq<Event>, x: Entry) {
    x.completed && exists i :: 0 <= i < |es| && FinishedAs(es[i], x)
  }

  predicate Told(es: seq<Event>, s: State) {
    && (forall p :: 0 <= p < |s.active| ==>
          Begun(es, s.active[p]) && !s.active[p].completed && !s.active[p].success && s.active[p].session == "")
    && (forall p :: 0 <= p < |s.log| ==> Begun(es, s.log[p]) && Finished(es, s.log[p]))
  }

  lemma ToldLater(es: seq<Event>, e: Event, x: Entry)
    ensures Begun(es, x) || BegunAs(e, x) ==> Begun(es + [e], x)
    ensures Finished(es, x) || (x.completed && FinishedAs(e, x)) ==> Finished(es + [e], x)
  {
    if Begun(es, x) {
      var i :| 0 <= i < |es| && BegunAs(es[i], x);
      assert BegunAs((es + [e])[i], x);
    } else if BegunAs(e, x) {
      assert BegunAs((es + [e])[|es|], x);
    }
    if Finished(es, x) {
      var i :| 0 <= i < |es| && FinishedAs(es[i], x);
      assert FinishedAs((es + [e])[i], x);
    } else if FinishedAs(e, x) {
      assert FinishedAs((es + [e])[|es|], x);
    }
  }

  lemma MovedTells(es: seq<Event>, e: Event, x: Entry)
    requires e.Finish? && Begun(es, x)
    ensures Begun(es + [e], Moved(x, e.session, e.success)) && Finished(es + [e], Moved(x, e.session, e.success))
  {
    var m := Moved(x, e.session, e.success);
    var i :| 0 <= i < |es| && BegunAs(es[i], x);
    assert BegunAs((es + [e])[i], m) && FinishedAs((es + [e])[|es|], m);
  }

  lemma ToldStep(es: seq<Event>, s: State, e: Event)
    requires Told(es, s)
    ensures Told(es + [e], Step(s, e))
  {
    var s' := Step(s, e);
    forall x ensures (Begun(es, x) || BegunAs(e, x) ==> Begun(es + [e], x))
                  && (Finished(es, x) || (x.completed && FinishedAs(e, x)) ==> Finished(es + [e], x)) {
      ToldLater(es, e, x);
    }
    if e.Begin? {
      assert BegunAs(e, Entry(e.d, e.role, Short(e.task), "", false, false));
    }
    if e.Finish? && e.d in s.index && s.index[e.d] < |s.active| {
      MovedTells(es, e, s.active[s.index[e.d]]);
    }
    hide Begun, Finished, BegunAs, FinishedAs, Short;
  }

  /** In any run, every entry tells the role and the task it was begun with; the active ones nothing more, and each one in
      the history the session and the success of a delegation that finished. */
  lemma {:induction false} EntriesTell(es: seq<Event>)
    ensures Told(es, Run(Init, es))
    decreases |es|
  {
    if es != [] {
      hide Step, Told;
      EntriesTell(es[..|es| - 1]);
      ToldStep(es[..|es| - 1], Run(Init, es[..|es| - 1]), es[|es| - 1]);
      assert es == es[..|es| - 1] + [es[|es| - 1]];
    } else {
      assert Told([], Init);
    }
  }
}

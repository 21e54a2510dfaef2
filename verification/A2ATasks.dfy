/** The lifecycle of agent-to-agent tasks: senders, readers and cancellers interleave on one table. */
module A2ATasks {

  datatype Status = Submitted | Working | InputRequired | Completed | Failed | Cancelled

  datatype Task = Task(status: Status, artifacts: seq<string>)

  /** Where the thread that sent a task stands. */
  datatype Sender = Created | AtWork | Returned(result: string) | Aborted

  datatype State = State(tasks: map<nat, Task>, senders: map<nat, Sender>, writes: map<nat, seq<Status>>)

  const Init := State(map[], map[], map[])

  datatype Event =
    | Create(id: nat)
    | Work(id: nat)
    | Complete(id: nat, result: string)
    | Abort(id: nat)                      // processing raised an exception
    | Cancel(id: nat)

  predicate Terminal(s: Status) {
    s.Completed? || s.Failed? || s.Cancelled?
  }

  function Write(s: State, id: nat, t: Task): State {
    s.(tasks := s.tasks[id := t], writes := s.writes[id := (if id in s.writes then s.writes[id] else []) + [t.status]])
  }

  predicate SenderAt(s: State, id: nat, p: Sender) {
    id in s.senders && s.senders[id] == p
  }

  function Step(s: State, e: Event): State {
    match e
    case Create(id) =>
      if id in s.senders then s else Write(s, id, Task(Submitted, [])).(senders := s.senders[id := Created])
    case Work(id) =>
      if SenderAt(s, id, Created) && id in s.tasks then
        Write(s, id, s.tasks[id].(status := Working)).(senders := s.senders[id := AtWork])
      else s
    case Complete(id, result) =>
      if SenderAt(s, id, AtWork) && id in s.tasks then
        Write(s, id, Task(Completed, [result])).(senders := s.senders[id := Returned(result)])
      else s
    case Abort(id) => if SenderAt(s, id, AtWork) then s.(senders := s.senders[id := Aborted]) else s
    case Cancel(id) =>
      if id in s.tasks && !Terminal(s.tasks[id].status) then Write(s, id, s.tasks[id].(status := Cancelled)) else s
  }

  function Run(s: State, es: seq<Event>): State {
    if es == [] then s else Step(Run(s, es[..|es| - 1]), es[|es| - 1])
  }

  // ---------------------------------------------------------------- the handler's table

  datatype Answer = Error(text: string) | Found(status: Status, artifacts: seq<string>)

  class A2AHandler {
    var tasks: map<nat, Task>
    ghost var run: State

    /** The table is that of a run, and every task in it is as such runs leave it. */
    ghost predicate Valid()
      reads this
    {
      run.tasks == tasks && forall id: nat :: TaskOk(run, id)
    }

    constructor ()
      ensures Valid() && run == Init
    {
      tasks, run := map[], Init;
      forall id: nat ensures TaskOk(Init, id) {
        InitOk(id);
      }
    }

    /** First part of `TaskSend`: a message without text makes no task. */
    method Submit(id: nat, text: string) returns (ok: bool)
      requires Valid() && id !in run.senders
      modifies this
      ensures Valid() && (ok <==> text != "")
      ensures run == if ok then Step(old(run), Create(id)) else old(run)
    {
      ok := text != "";
      if ok {
        tasks := tasks[id := Task(Submitted, [])];
        AllOk(run, Create(id));
        run := Step(run, Create(id));
      }
    }

    method MarkWorking(id: nat)
      requires Valid() && SenderAt(run, id, Created) && id in tasks
      modifies this
      ensures Valid() && run == Step(old(run), Work(id))
    {
      tasks := tasks[id := tasks[id].(status := Working)];
      AllOk(run, Work(id));
      run := Step(run, Work(id));
    }

    /** Last part of `TaskSend`. */
    method FinishTask(id: nat, result: string)
      requires Valid() && SenderAt(run, id, AtWork)
      modifies this
      ensures Valid() && run == Step(old(run), Complete(id, result))
    {
      if id in tasks {
        tasks := tasks[id := Task(Completed, [result])];
      }
      AllOk(run, Complete(id, result));
      run := Step(run, Complete(id, result));
    }

    /** What a reader sees tells where the sender stands: an error exactly if the task was never submitted,
        completion with the sender's own result exactly if the sender has returned it, and otherwise the
        status written last and no artifacts. */
    method TaskGet(id: nat) returns (a: Answer)
      requires Valid()
      ensures a.Error? <==> id !in run.senders
      ensures a.Found? ==> (a.status.Completed? <==> run.senders[id].Returned?)
      ensures a.Found? && a.status.Completed? ==> a.artifacts == [run.senders[id].result]
      ensures a.Found? && !a.status.Completed? ==> a.artifacts == []
      ensures a.Found? ==> id in run.writes && run.writes[id] != [] && a.status == run.writes[id][|run.writes[id]| - 1]
    {
      assert TaskOk(run, id);
      if id in run.senders {
        LastStatus(run, id);
      }
      a := if id in tasks then Found(tasks[id].status, tasks[id].artifacts) else Error("Task not found");
    }

    method TaskCancel(id: nat) returns (a: Answer)
      requires Valid()
      modifies this
      ensures Valid() && run == Step(old(run), Cancel(id))
      ensures a.Found? <==> id in old(tasks) && !Terminal(old(tasks)[id].status)
      ensures a.Error? ==> tasks == old(tasks)
    {
      if id !in tasks {
        a := Error("Task not found");
      } else if Terminal(tasks[id].status) {
        a := Error("Cannot cancel task in terminal state");
      } else {
        tasks := tasks[id := tasks[id].(status := Cancelled)];
        a := Found(Cancelled, tasks[id].artifacts);
      }
      AllOk(run, Cancel(id));
      run := Step(run, Cancel(id));
    }
  }

  // ---------------------------------------------------------------- all interleavings

  function Maybe(cancelled: bool): seq<Status> {
    if cancelled then [Cancelled] else []
  }

  /** Submitted, perhaps cancelled, working, perhaps cancelled again, completed, as far as the sender got. */
  function Shape(p: Sender, first: bool, second: bool): seq<Status> {
    [Submitted] + Maybe(first) + (if p.Created? then [] else [Working] + Maybe(second))
    + (if p.Returned? then [Completed] else [])
  }

  ghost predicate PossibleWrites(p: Sender, w: seq<Status>) {
    exists first, second :: w == Shape(p, first, second)
  }

  ghost predicate TaskOk(s: State, id: nat) {
    && (id in s.senders <==> id in s.tasks)
    && (id in s.senders ==>
          && id in s.writes && PossibleWrites(s.senders[id], s.writes[id])
          && s.tasks[id].status == s.writes[id][|s.writes[id]| - 1]
          && s.tasks[id].artifacts == (if s.senders[id].Returned? then [s.senders[id].result] else []))
    && (id !in s.senders ==> id !in s.writes)
  }

  lemma SenderOk(s: State, e: Event)
    requires TaskOk(s, e.id) && !e.Cancel?
    ensures TaskOk(Step(s, e), e.id)
  {
    var id, s' := e.id, Step(s, e);
    if s' != s {
      if e.Create? {
        assert s'.writes[id] == Shape(Created, false, false);
      } else {
        var p, w := s.senders[id], s.writes[id];
        var first, second :| w == Shape(p, first, second);
        match e
        case Work(_) =>
          assert s'.writes[id] == Shape(AtWork, first, false);
        case Complete(_, result) =>
          assert s'.writes[id] == Shape(Returned(result), first, second);
        case Abort(_) =>
          assert w == Shape(Aborted, first, second);
      }
    }
  }

  lemma CancelOk(s: State, id: nat)
    requires TaskOk(s, id)
    ensures TaskOk(Step(s, Cancel(id)), id)
  {
    var s' := Step(s, Cancel(id));
    if s' != s {
      var p, w := s.senders[id], s.writes[id];
      var first, second :| w == Shape(p, first, second);
      assert s'.writes[id] == w + [Cancelled];
      assert w[|w| - 1] != Cancelled && w[|w| - 1] != Completed;
      if p.Created? {
        assert !first && w + [Cancelled] == Shape(p, true, false);
      } else {
        assert !second && w + [Cancelled] == Shape(p, first, true);
      }
    }
  }

  lemma StepOk(s: State, e: Event, id: nat)
    requires TaskOk(s, id)
    ensures TaskOk(Step(s, e), id)
  {
    if e.id == id {
      hide TaskOk, Step;
      if e.Cancel? {
        CancelOk(s, id);
      } else {
        SenderOk(s, e);
      }
    }
  }

  lemma AllOk(s: State, e: Event)
    requires forall id: nat :: TaskOk(s, id)
    ensures forall id: nat :: TaskOk(Step(s, e), id)
  {
    hide TaskOk, Step;
    forall id: nat ensures TaskOk(Step(s, e), id) {
      StepOk(s, e, id);
    }
  }

  /** The status written last is completion exactly if the sender has returned. */
  lemma LastStatus(s: State, id: nat)
    requires TaskOk(s, id) && id in s.senders
    ensures s.tasks[id].status.Completed? <==> s.senders[id].Returned?
  {
    var p, w := s.senders[id], s.writes[id];
    var first, second :| w == Shape(p, first, second);
    assert p.Returned? ==> w[|w| - 1] == Completed;
    assert !p.Returned? ==> w[|w| - 1] != Completed;
  }

  lemma {:induction false} RunOk(es: seq<Event>, id: nat)
    ensures TaskOk(Run(Init, es), id)
    decreases |es|
  {
    hide Step, TaskOk;
    if es == [] {
      assert TaskOk(Init, id) by { InitOk(id); }
    } else {
      RunOk(es[..|es| - 1], id);
      StepOk(Run(Init, es[..|es| - 1]), es[|es| - 1], id);
    }
  }

  lemma InitOk(id: nat)
    ensures TaskOk(Init, id)
  {
  }

  /** In every interleaving a task's status history has a possible shape for where its sender stands; `InputRequired` and `Failed` never occur. */
  lemma StatusHistory(es: seq<Event>, id: nat)
    requires id in Run(Init, es).senders
    ensures var s := Run(Init, es);
            id in s.writes && PossibleWrites(s.senders[id], s.writes[id])
  {
    RunOk(es, id);
  }

  lemma {:induction false} ReturnedStays(es: seq<Event>, more: seq<Event>, id: nat, result: string)
    requires SenderAt(Run(Init, es), id, Returned(result))
    ensures SenderAt(Run(Run(Init, es), more), id, Returned(result))
    ensures TaskOk(Run(Run(Init, es), more), id)
    decreases |more|
  {
    if more == [] {
      RunOk(es, id);
    } else {
      ReturnedStays(es, more[..|more| - 1], id, result);
      StepOk(Run(Run(Init, es), more[..|more| - 1]), more[|more| - 1], id);
    }
  }

  /** Once `TaskSend` has returned, every later read reports completion with exactly its result, and
      every later cancel is refused, whatever else happens, and even if a cancel had been accepted before. */
  lemma CompletedForGood(es: seq<Event>, more: seq<Event>, id: nat, result: string)
    requires SenderAt(Run(Init, es), id, Returned(result))
    ensures var s := Run(Run(Init, es), more);
            && id in s.tasks && s.tasks[id] == Task(Completed, [result])
            && Step(s, Cancel(id)) == s
  {
    ReturnedStays(es, more, id, result);
  }

  predicate NoCancel(es: seq<Event>, id: nat) {
    forall i :: 0 <= i < |es| ==> es[i] != Cancel(id)
  }

  lemma {:induction false} UncancelledHistory(es: seq<Event>, id: nat)
    requires NoCancel(es, id)
    ensures var s := Run(Init, es);
            id in s.writes ==> Cancelled !in s.writes[id]
    decreases |es|
  {
    if es != [] {
      UncancelledHistory(es[..|es| - 1], id);
      RunOk(es[..|es| - 1], id);
      assert es[|es| - 1] != Cancel(id);
    }
  }

  /** A task no cancel touches is submitted, then working, then completed. */
  lemma UntouchedLifecycle(es: seq<Event>, id: nat)
    requires NoCancel(es, id) && id in Run(Init, es).senders
    ensures var s := Run(Init, es);
            id in s.writes && s.writes[id] <= [Submitted, Working, Completed]
            && (s.senders[id].Returned? ==> s.writes[id] == [Submitted, Working, Completed])
  {
    RunOk(es, id);
    UncancelledHistory(es, id);
    var s := Run(Init, es);
    var first, second :| s.writes[id] == Shape(s.senders[id], first, second);
    ShapeMentions(s.senders[id], first, second);
  }

  lemma ShapeMentions(p: Sender, first: bool, second: bool)
    ensures first || (second && !p.Created?) ==> Cancelled in Shape(p, first, second)
  {
    var w := Shape(p, first, second);
    assert first ==> w[1] == Cancelled;
    assert !first && second && !p.Created? ==> w[2] == Cancelled;
  }

  /** A step of the task's own sender that writes its status. */
  predicate SenderWrites(s: State, e: Event, id: nat) {
    id in s.tasks && ((e == Work(id) && SenderAt(s, id, Created)) || (e.Complete? && e.id == id && SenderAt(s, id, AtWork)))
  }

  predicate SenderEverWrites(s: State, es: seq<Event>, id: nat) {
    es != [] && (SenderEverWrites(s, es[..|es| - 1], id) || SenderWrites(Run(s, es[..|es| - 1]), es[|es| - 1], id))
  }

  predicate StaysCancelled(s: State, es: seq<Event>, id: nat) {
    && id in Run(s, es).tasks && Run(s, es).tasks[id].status.Cancelled?
    && (es != [] ==> StaysCancelled(s, es[..|es| - 1], id))
  }

  /** What a cancel is worth: from a state in which the task is cancelled, it stays so along a continuation exactly
      when the sender writes nothing more in it. The next write of the sender, working or completed, undoes it. */
  lemma {:induction false} CancelStaysIff(s: State, es: seq<Event>, id: nat)
    requires id in s.senders && id in s.tasks && s.tasks[id].status.Cancelled?
    ensures StaysCancelled(s, es, id) <==> !SenderEverWrites(s, es, id)
    ensures id in Run(s, es).senders
    decreases |es|
  {
    if es != [] {
      CancelStaysIff(s, es[..|es| - 1], id);
    }
  }

  /** The same for every run and every accepted cancel. */
  lemma AcceptedCancelStaysIff(es: seq<Event>, id: nat, more: seq<Event>)
    requires var s := Run(Init, es); id in s.tasks && !Terminal(s.tasks[id].status)
    ensures var c := Step(Run(Init, es), Cancel(id));
            c.tasks[id].status == Cancelled && (StaysCancelled(c, more, id) <==> !SenderEverWrites(c, more, id))
  {
    RunOk(es, id);
    CancelStaysIff(Step(Run(Init, es), Cancel(id)), more, id);
  }

  /** A cancel that lands while the sender works is accepted and then overwritten. */
  lemma CancelIsOverwritten(id: nat, result: string)
    ensures var s := Run(Init, [Create(id), Work(id), Cancel(id)]);
            && id in s.tasks && s.tasks[id].status == Cancelled
            && Step(s, Complete(id, result)).tasks[id] == Task(Completed, [result])
  {
    var a, b, c := Create(id), Work(id), Cancel(id);
    assert [a, b, c][..2] == [a, b] && [a, b][..1] == [a] && [a][..0] == [];
    assert Run(Init, [a]) == Step(Init, a);
    assert Run(Init, [a, b]) == Step(Run(Init, [a]), b);
    assert Run(Init, [a, b, c]) == Step(Run(Init, [a, b]), c);
  }

  /** A sender gets on, whatever others do meanwhile: a new task is submitted without artifacts, becomes working at the
      sender's next step, and completed with the sender's result at its last; an exception leaves it as it is. */
  lemma SenderGetsOn(es: seq<Event>, id: nat, result: string)
    ensures var s := Run(Init, es);
            && (id !in s.senders ==>
                  SenderAt(Step(s, Create(id)), id, Created) && Step(s, Create(id)).tasks == s.tasks[id := Task(Submitted, [])])
            && (SenderAt(s, id, Created) ==>
                  SenderAt(Step(s, Work(id)), id, AtWork) && Step(s, Work(id)).tasks == s.tasks[id := Task(Working, [])])
            && (SenderAt(s, id, AtWork) ==>
                  && SenderAt(Step(s, Complete(id, result)), id, Returned(result))
                  && Step(s, Complete(id, result)).tasks == s.tasks[id := Task(Completed, [result])]
                  && Step(s, Abort(id)).tasks == s.tasks && SenderAt(Step(s, Abort(id)), id, Aborted))
  {
    RunOk(es, id);
    hide Run;
  }
}

/** The action bridge: callers register a promise, a worker thread resolves it, and execution results are
    routed back through the table that maps execution ids to request ids. Every step below is one critical
    section or one call into the environment; steps of all threads interleave freely. */
module ActionBridge {

  /** Where a value comes from. `Direct` is what the worker computed while handling request `req`;
      `Executed` is what the action framework reported for execution `exec`. */
  datatype Answer =
    | Direct(req: nat, text: string)
    | Executed(exec: nat, text: string)
    | Stopped

  /** What a caller gets back. */
  datatype Return = Value(a: Answer) | NoObject | NotSent | TimedOut

  /** A caller between fetching its id and returning. */
  datatype Caller = Allocated | Registered | Waiting | Expired | Returned(r: Return)

  /** A response the worker holds in its hands: for which request, and what. */
  datatype Job = Job(req: nat, a: Answer)

  datatype State = State(
    started: bool,
    nextId: nat,
    nextExec: nat,
    pending: set<nat>,          // requests whose promise is in the table
    values: map<nat, Answer>,   // the shared state of each promise that was set
    execs: map<nat, nat>,       // execution id to request id
    callers: map<nat, Caller>,
    jobs: set<Job>,
    origin: map<nat, nat>,      // history: the request that allocated each execution id
    setTwice: bool              // whether some promise was set that was set already
  )

  const Init := State(false, 1, 1, {}, map[], map[], map[], {}, map[], false)

  datatype Event =
    | Start
    | Begin                             // the started check passes and an id is fetched
    | Register(id: nat)
    | CreateFails(id: nat)
    | SendFails(id: nat)
    | Send(id: nat)
    | Expire(id: nat)                   // the wait times out
    | GiveUp(id: nat)                   // and the caller removes its own promise
    | Collect(id: nat)                  // the caller finds its value
    | Handle(id: nat, text: string)     // the worker answers a request directly
    | Execute(id: nat)                  // the worker starts an execution for it
    | ExecuteFails(id: nat, exec: nat, text: string)
    | Report(exec: nat, text: string)   // the framework reports a result, asked for or not
    | Deliver(job: Job)                 // the worker sets the promise and removes it
    | StopFlag
    | StopDrain

  /** Setting a promise: the value is stored, and a second set of the same promise is counted. */
  function Resolve(s: State, id: nat, a: Answer): State {
    if id !in s.pending then s
    else s.(values := s.values[id := a], pending := s.pending - {id},
            setTwice := s.setTwice || id in s.values)
  }

  function Failed(ids: set<nat>): map<nat, Answer> {
    map id | id in ids :: Stopped
  }

  function Drain(s: State): State {
    s.(values := s.values + Failed(s.pending), pending := {},
       setTwice := s.setTwice || exists id :: id in s.pending && id in s.values)
  }

  function Phase(s: State, id: nat, c: Caller): State {
    s.(callers := s.callers[id := c])
  }

  predicate At(s: State, id: nat, c: Caller) {
    id in s.callers && s.callers[id] == c
  }

  /** A request reaches the worker only after its caller sent it; it may be handled late, or twice. */
  predicate WasSent(s: State, id: nat) {
    id in s.callers && !s.callers[id].Allocated? && !s.callers[id].Registered?
  }

  function Step(s: State, e: Event): State {
    match e
    case Start => s.(started := true)
    case Begin =>
      if !s.started then s else Phase(s, s.nextId, Allocated).(nextId := s.nextId + 1)
    case Register(id) =>
      if At(s, id, Allocated) then Phase(s, id, Registered).(pending := s.pending + {id}) else s
    case CreateFails(id) =>
      if At(s, id, Registered) then Phase(s, id, Returned(NoObject)).(pending := s.pending - {id}) else s
    case SendFails(id) =>
      if At(s, id, Registered) then Phase(s, id, Returned(NotSent)).(pending := s.pending - {id}) else s
    case Send(id) =>
      if At(s, id, Registered) then Phase(s, id, Waiting) else s
    case Expire(id) =>
      if At(s, id, Waiting) then Phase(s, id, Expired) else s
    case GiveUp(id) =>
      if At(s, id, Expired) then Phase(s, id, Returned(TimedOut)).(pending := s.pending - {id}) else s
    case Collect(id) =>
      if At(s, id, Waiting) && id in s.values then Phase(s, id, Returned(Value(s.values[id]))) else s
    case Handle(id, text) =>
      if WasSent(s, id) then s.(jobs := s.jobs + {Job(id, Direct(id, text))}) else s
    case Execute(id) =>
      if WasSent(s, id) then
        s.(execs := s.execs[s.nextExec := id], origin := s.origin[s.nextExec := id], nextExec := s.nextExec + 1)
      else s
    case ExecuteFails(id, exec, text) =>
      if exec in s.origin && s.origin[exec] == id then
        s.(execs := s.execs - {exec}, jobs := s.jobs + {Job(id, Direct(id, text))})
      else s
    case Report(exec, text) =>
      if exec in s.execs then
        s.(execs := s.execs - {exec}, jobs := s.jobs + {Job(s.execs[exec], Executed(exec, text))})
      else s
    case Deliver(job) =>
      if job in s.jobs then Resolve(s, job.req, job.a).(jobs := s.jobs - {job}) else s
    case StopFlag => s.(started := false)
    case StopDrain => Drain(s)
  }

  function Run(s: State, es: seq<Event>): State {
    if es == [] then s else Step(Run(s, es[..|es| - 1]), es[|es| - 1])
  }

  // ---------------------------------------------------------------- the bridge object

  class Bridge {
    var started: bool
    var nextId: nat
    var nextExec: nat
    var pending: set<nat>
    var values: map<nat, Answer>
    var execs: map<nat, nat>
    ghost var callers: map<nat, Caller>
    ghost var jobs: set<Job>
    ghost var origin: map<nat, nat>
    ghost var setTwice: bool

    ghost function View(): State
      reads this
    {
      State(started, nextId, nextExec, pending, values, execs, callers, jobs, origin, setTwice)
    }

    constructor ()
      ensures View() == Init
    {
      started, nextId, nextExec, pending, values, execs, setTwice := false, 1, 1, {}, map[], map[], false;
      callers, jobs, origin := map[], {}, map[];
    }

    /** `SendRequest` up to the table entry: refused when the bridge is not started. */
    method Allocate() returns (id: nat)
      modifies this
      ensures View() == Step(old(View()), Begin)
      ensures old(started) ==> id == old(nextId)
    {
      id := 0;
      if started {
        id := nextId;
        nextId := nextId + 1;
        callers := callers[id := Allocated];
      }
    }

    method InsertPromise(id: nat)
      requires At(View(), id, Allocated)
      modifies this
      ensures View() == Step(old(View()), Register(id))
    {
      pending := pending + {id};
      callers := callers[id := Registered];
    }

    /** The caller removes its own entry when the request could not be sent. */
    method EraseUnsent(id: nat, haveObject: bool)
      requires At(View(), id, Registered)
      modifies this
      ensures View() == Step(old(View()), if haveObject then SendFails(id) else CreateFails(id))
    {
      pending := pending - {id};
      callers := callers[id := Returned(if haveObject then NotSent else NoObject)];
    }

    /** The caller removes its own entry after a timeout. */
    method EraseExpired(id: nat)
      requires At(View(), id, Expired)
      modifies this
      ensures View() == Step(old(View()), GiveUp(id))
    {
      pending := pending - {id};
      callers := callers[id := Returned(TimedOut)];
    }

    method SetValue(id: nat, a: Answer)
      modifies this`values, this`setTwice
      ensures values == old(values)[id := a]
      ensures setTwice == (old(setTwice) || id in old(values))
    {
      setTwice := setTwice || id in values;
      values := values[id := a];
    }

    /** `SendResponse`: set the promise if its entry is still there, and remove the entry. */
    method SendResponse(id: nat, a: Answer)
      requires Job(id, a) in jobs
      modifies this
      ensures View() == Step(old(View()), Deliver(Job(id, a)))
    {
      if id in pending {
        SetValue(id, a);
        pending := pending - {id};
      }
      jobs := jobs - {Job(id, a)};
    }

    /** `HandleRequest` for an execution: allocate the execution id and remember whom it serves. */
    method BeginExecution(id: nat) returns (exec: nat)
      requires WasSent(View(), id)
      modifies this
      ensures View() == Step(old(View()), Execute(id))
      ensures exec == old(nextExec)
    {
      exec := nextExec;
      nextExec := nextExec + 1;
      execs := execs[exec := id];
      origin := origin[exec := id];
    }

    /** `OnActionResult`: the request to answer, if the execution id is known. */
    method OnActionResult(exec: nat, text: string) returns (found: bool, req: nat)
      modifies this
      ensures View() == Step(old(View()), Report(exec, text))
      ensures found <==> exec in old(execs)
      ensures found ==> req == old(execs)[exec]
    {
      found, req := exec in execs, 0;
      if found {
        req := execs[exec];
        execs := execs - {exec};
        jobs := jobs + {Job(req, Executed(exec, text))};
      }
    }

    /** The second half of `Stop`: fail every pending request, one after the other, and empty the table. */
    method FailPending()
      modifies this
      ensures View() == Drain(old(View()))
    {
      ghost var before, set0 := values, setTwice;
      var left := pending;
      while left != {}
        invariant left <= pending
        invariant values == before + Failed(pending - left)
        invariant setTwice == (set0 || exists id :: id in pending - left && id in before)
        modifies this`values, this`setTwice
        decreases left
      {
        var id :| id in left;
        ghost var done := pending - left;
        SetValue(id, Stopped);
        left := left - {id};
        assert pending - left == done + {id};
        assert Failed(done + {id}) == Failed(done)[id := Stopped];
      }
      assert pending - left == pending;
      pending := {};
    }
  }

  // ---------------------------------------------------------------- the invariant

  /** Answer `a` belongs to request `id`. */
  predicate Own(s: State, id: nat, a: Answer) {
    match a
    case Direct(r, _) => r == id
    case Executed(x, _) => x in s.origin && s.origin[x] == id
    case Stopped => true
  }

  ghost predicate IdOk(s: State, id: nat) {
    && (id in s.callers ==>
          && id < s.nextId
          && (s.callers[id].Returned? && s.callers[id].r.Value? ==> Own(s, id, s.callers[id].r.a))
          && (s.callers[id].Registered? || s.callers[id].Waiting? ==> id in s.pending || id in s.values))
    && (id in s.pending ==>
          id in s.callers && !s.callers[id].Allocated? && !s.callers[id].Returned? && id !in s.values)
    && (id in s.values ==> id in s.callers && !s.callers[id].Allocated? && Own(s, id, s.values[id]))
  }

  ghost predicate Routed(s: State) {
    && (forall x :: x in s.origin ==> x < s.nextExec)
    && (forall x :: x in s.execs ==> x in s.origin && s.origin[x] == s.execs[x])
    && (forall j :: j in s.jobs ==> Own(s, j.req, j.a))
  }

  ghost predicate Inv(s: State) {
    Routed(s) && !s.setTwice && forall id: nat :: IdOk(s, id)
  }

  /** Steps in which a caller moves. */
  predicate CallerEvent(e: Event) {
    e.Begin? || e.Register? || e.CreateFails? || e.SendFails? || e.Send? || e.Expire? || e.GiveUp? || e.Collect?
  }

  lemma CallerStep(s: State, e: Event)
    requires Inv(s) && CallerEvent(e)
    ensures Inv(Step(s, e))
  {
    forall id: nat ensures IdOk(Step(s, e), id) {
      assert IdOk(s, id);
      assert e.Begin? ==> IdOk(s, s.nextId);
    }
  }

  lemma DeliverStep(s: State, job: Job)
    requires Inv(s)
    ensures Inv(Step(s, Deliver(job)))
  {
    assert IdOk(s, job.req);
    forall id: nat ensures IdOk(Step(s, Deliver(job)), id) {
      assert IdOk(s, id);
    }
  }

  lemma DrainStep(s: State)
    requires Inv(s)
    ensures Inv(Drain(s))
  {
    forall id: nat ensures IdOk(Drain(s), id) && !(id in s.pending && id in s.values) {
      assert IdOk(s, id);
    }
  }

  lemma WorkerStep(s: State, e: Event)
    requires Inv(s) && (e.Start? || e.StopFlag? || e.Handle? || e.Execute? || e.ExecuteFails? || e.Report?)
    ensures Inv(Step(s, e))
  {
    forall id: nat ensures IdOk(Step(s, e), id) {
      assert IdOk(s, id);
    }
  }

  lemma StepInv(s: State, e: Event)
    requires Inv(s)
    ensures Inv(Step(s, e))
  {
    hide Inv;
    if CallerEvent(e) {
      CallerStep(s, e);
    } else {
      match e
      case Deliver(job) => DeliverStep(s, job);
      case StopDrain => DrainStep(s);
      case _ => WorkerStep(s, e);
    }
  }

  /** In every run: no promise is set twice, every promise in the table is still unset, every value a caller
      returns was produced for its own request (or is the fixed stop error), and a registered or waiting
      caller always has its promise in the table or its value at hand. */
  lemma {:induction false} RunInv(es: seq<Event>)
    ensures Inv(Run(Init, es))
    decreases |es|
  {
    hide Step;
    if es == [] {
      assert forall id: nat :: IdOk(Init, id);
    } else {
      hide Inv;
      RunInv(es[..|es| - 1]);
      StepInv(Run(Init, es[..|es| - 1]), es[|es| - 1]);
    }
  }

  /** What the invariant means for callers: in every run, whatever a caller returns is a fixed error or a value
      that the worker computed for this very request, or that was reported for an execution this very request
      started; no promise was ever set twice, and none still in the table is set. */
  lemma ReturnsOwn(es: seq<Event>, id: nat)
    ensures var s := Run(Init, es);
            && !s.setTwice
            && (id in s.pending ==> id !in s.values)
            && (id in s.callers && s.callers[id].Returned? && s.callers[id].r.Value? ==>
                  match s.callers[id].r.a
                  case Direct(r, _) => r == id
                  case Executed(x, _) => x in s.origin && s.origin[x] == id
                  case Stopped => true)
  {
    hide Step;
    RunInv(es);
    assert IdOk(Run(Init, es), id);
  }

  /** Nobody drops a foreign promise unset: an entry leaves the table either with its value set in the same
      step, or by a step of the very caller that registered it. */
  lemma NoForeignDrop(s: State, e: Event, id: nat)
    requires Inv(s) && id in s.pending && id !in Step(s, e).pending
    ensures id in Step(s, e).values || e == CreateFails(id) || e == SendFails(id) || e == GiveUp(id)
  {
    assert IdOk(s, id);
  }

  /** One step neither changes a value that is set nor what a caller got back. */
  lemma FinalStep(s: State, e: Event, id: nat)
    requires Inv(s)
    ensures id in s.values ==> id in Step(s, e).values && Step(s, e).values[id] == s.values[id]
    ensures id in s.callers && s.callers[id].Returned? ==> At(Step(s, e), id, s.callers[id])
  {
    assert IdOk(s, id);
    hide Inv;
    if id in s.values {
      ValueStays(s, e, id);
    }
    if id in s.callers && s.callers[id].Returned? {
      ReturnStays(s, e, id);
    }
  }

  lemma ValueStays(s: State, e: Event, id: nat)
    requires id in s.values && id !in s.pending
    ensures id in Step(s, e).values && Step(s, e).values[id] == s.values[id]
  {
  }

  lemma ReturnStays(s: State, e: Event, id: nat)
    requires id in s.callers && s.callers[id].Returned? && id < s.nextId
    ensures At(Step(s, e), id, s.callers[id])
  {
  }

  /** Over any run: values are set once and for all, and what a caller got back is final. */
  lemma {:induction false} Final(s: State, es: seq<Event>, id: nat)
    requires Inv(s)
    ensures Inv(Run(s, es))
    ensures id in s.values ==> id in Run(s, es).values && Run(s, es).values[id] == s.values[id]
    ensures id in s.callers && s.callers[id].Returned? ==> At(Run(s, es), id, s.callers[id])
    decreases |es|
  {
    hide Inv, Step;
    if es != [] {
      Final(s, es[..|es| - 1], id);
      FinalStep(Run(s, es[..|es| - 1]), es[|es| - 1], id);
      StepInv(Run(s, es[..|es| - 1]), es[|es| - 1]);
    }
  }

  /** Stopping empties the table and answers every waiting caller: with the stop error exactly if its
      promise was still in the table, and otherwise with the value it already had. */
  lemma StopAnswersWaiting(s: State, id: nat)
    requires Inv(s) && At(s, id, Waiting)
    ensures var s' := Step(s, StopDrain);
            && s'.pending == {}
            && id in s'.values && s'.values[id] == (if id in s.pending then Stopped else s.values[id])
            && At(Step(s', Collect(id)), id, Returned(Value(s'.values[id])))
  {
    assert IdOk(s, id);
  }

  /** A second report for one execution, or one for an execution never allocated, changes nothing. */
  lemma StrayReportIgnored(s: State, exec: nat, first: string, again: string)
    requires Inv(s)
    ensures Step(Step(s, Report(exec, first)), Report(exec, again)) == Step(s, Report(exec, first))
    ensures exec !in s.origin ==> Step(s, Report(exec, first)) == s
  {
  }

  /** An answer that comes after the caller gave up reaches nobody. */
  lemma LateAnswerDropped(s: State, job: Job)
    requires Inv(s) && At(s, job.req, Returned(TimedOut))
    ensures Step(s, Deliver(job)) == s.(jobs := s.jobs - {job})
  {
    assert IdOk(s, job.req);
    assert job !in s.jobs ==> s.jobs - {job} == s.jobs;
  }

  // ---------------------------------------------------------------- where every result comes from

  /** The event an answer comes from: the worker's own answer for this request, the failure to start its execution,
      a report for this execution, or a stop. */
  predicate Caused(e: Event, a: Answer) {
    match a
    case Direct(r, text) => e == Handle(r, text) || (e.ExecuteFails? && e.id == r && e.text == text)
    case Executed(x, text) => e == Report(x, text)
    case Stopped => e.StopDrain?
  }

  predicate CausedReturn(e: Event, id: nat, r: Return) {
    match r
    case Value(a) => Caused(e, a)
    case NoObject => e == CreateFails(id)
    case NotSent => e == SendFails(id)
    case TimedOut => e == GiveUp(id)
  }

  predicate Traced(es: seq<Event>, a: Answer) {
    exists i :: 0 <= i < |es| && Caused(es[i], a)
  }

  predicate TracedReturn(es: seq<Event>, id: nat, r: Return) {
    exists i :: 0 <= i < |es| && CausedReturn(es[i], id, r)
  }

  ghost predicate AllTraced(es: seq<Event>, s: State) {
    && (forall id :: id in s.values ==> Traced(es, s.values[id]))
    && (forall j :: j in s.jobs ==> Traced(es, j.a))
    && (forall id :: id in s.callers && s.callers[id].Returned? ==> TracedReturn(es, id, s.callers[id].r))
  }

  lemma TracedLater(es: seq<Event>, e: Event)
    ensures forall a :: Traced(es, a) || Caused(e, a) ==> Traced(es + [e], a)
    ensures forall id, r :: TracedReturn(es, id, r) || CausedReturn(e, id, r) ==> TracedReturn(es + [e], id, r)
  {
    hide Caused, CausedReturn;
    forall a | Traced(es, a) || Caused(e, a) ensures Traced(es + [e], a) {
      if Traced(es, a) {
        var i :| 0 <= i < |es| && Caused(es[i], a);
        assert Caused((es + [e])[i], a);
      } else {
        assert Caused((es + [e])[|es|], a);
      }
    }
    forall id, r | TracedReturn(es, id, r) || CausedReturn(e, id, r) ensures TracedReturn(es + [e], id, r) {
      if TracedReturn(es, id, r) {
        var i :| 0 <= i < |es| && CausedReturn(es[i], id, r);
        assert CausedReturn((es + [e])[i], id, r);
      } else {
        assert CausedReturn((es + [e])[|es|], id, r);
      }
    }
  }

  lemma ValueCause(s: State, e: Event, id: nat)
    requires id in Step(s, e).values
    ensures var a := Step(s, e).values[id];
            Caused(e, a) || (id in s.values && s.values[id] == a) || exists j :: j in s.jobs && j.a == a
  {
  }

  lemma JobCause(s: State, e: Event, j: Job)
    requires j in Step(s, e).jobs
    ensures j in s.jobs || Caused(e, j.a)
  {
  }

  lemma ReturnCause(s: State, e: Event, id: nat)
    requires id in Step(s, e).callers && Step(s, e).callers[id].Returned?
    ensures var r := Step(s, e).callers[id].r;
            || At(s, id, Returned(r)) || CausedReturn(e, id, r) || (id in s.values && r == Value(s.values[id]))
  {
  }

  lemma ReturnOfValue(es: seq<Event>, id: nat, a: Answer)
    requires Traced(es, a)
    ensures TracedReturn(es, id, Value(a))
  {
    var i :| 0 <= i < |es| && Caused(es[i], a);
    assert CausedReturn(es[i], id, Value(a));
  }

  /** In every run, each value and each result returned to a caller comes from an event of that run: the worker's
      answer to this request or a report for this execution with exactly this text, a stop, or the caller's own
      failure or timeout. */
  lemma {:induction false} ResultsTraced(es: seq<Event>)
    ensures AllTraced(es, Run(Init, es))
    decreases |es|
  {
    if es != [] {
      var before, e := es[..|es| - 1], es[|es| - 1];
      assert es == before + [e];
      ResultsTraced(before);
      TracedLater(before, e);
      var s, s' := Run(Init, before), Run(Init, es);
      hide Step, Caused, CausedReturn, Traced, TracedReturn;
      forall id | id in s'.values ensures Traced(es, s'.values[id]) {
        ValueCause(s, e, id);
      }
      forall j | j in s'.jobs ensures Traced(es, j.a) {
        JobCause(s, e, j);
      }
      forall id | id in s'.callers && s'.callers[id].Returned? ensures TracedReturn(es, id, s'.callers[id].r) {
        ReturnCause(s, e, id);
        if id in s.values && s'.callers[id].r == Value(s.values[id]) {
          ReturnOfValue(before, id, s.values[id]);
        }
      }
    }
  }

  /** In particular nobody gets the stop error unless the bridge was stopped. */
  lemma NoStopErrorWithoutStop(es: seq<Event>, id: nat)
    requires StopDrain !in es
    ensures var s := Run(Init, es);
            && (id in s.values ==> s.values[id] != Stopped)
            && (id in s.callers ==> s.callers[id] != Returned(Value(Stopped)))
  {
    ResultsTraced(es);
    hide Run;
    assert !Traced(es, Stopped);
    assert !TracedReturn(es, id, Value(Stopped));
  }

  /** An answer in the worker's hands reaches its caller unchanged, if the caller still waits. */
  lemma JobReachesCaller(s: State, job: Job)
    requires job in s.jobs && At(s, job.req, Waiting) && job.req in s.pending
    ensures At(Run(s, [Deliver(job), Collect(job.req)]), job.req, Returned(Value(job.a)))
  {
    var a, b := Deliver(job), Collect(job.req);
    assert [a, b][..1] == [a] && [a][..0] == [];
    assert Run(s, [a]) == Step(s, a);
  }

  /** A request of a started bridge, from its id to its result: the caller gets what the worker answered. */
  lemma RequestAnswered(s: State, text: string)
    requires Inv(s) && s.started
    ensures var id := s.nextId;
            var sent := Step(Step(Step(s, Begin), Register(id)), Send(id));
            && At(sent, id, Waiting) && id in sent.pending
            && At(Run(Step(sent, Handle(id, text)), [Deliver(Job(id, Direct(id, text))), Collect(id)]), id,
                  Returned(Value(Direct(id, text))))
  {
    var id := s.nextId;
    assert IdOk(s, id);
    var sent := Step(Step(Step(s, Begin), Register(id)), Send(id));
    JobReachesCaller(Step(sent, Handle(id, text)), Job(id, Direct(id, text)));
  }

  /** A waiting request that is executed gets exactly what the framework reports for its own execution, or why the
      execution could not be started. */
  lemma ExecutionAnswered(s: State, id: nat, text: string)
    requires Inv(s) && At(s, id, Waiting) && id in s.pending
    ensures var run, exec := Step(s, Execute(id)), s.nextExec;
            && At(Run(Step(run, Report(exec, text)), [Deliver(Job(id, Executed(exec, text))), Collect(id)]), id,
                  Returned(Value(Executed(exec, text))))
            && At(Run(Step(run, ExecuteFails(id, exec, text)), [Deliver(Job(id, Direct(id, text))), Collect(id)]), id,
                  Returned(Value(Direct(id, text))))
  {
    var run, exec := Step(s, Execute(id)), s.nextExec;
    JobReachesCaller(Step(run, Report(exec, text)), Job(id, Executed(exec, text)));
    JobReachesCaller(Step(run, ExecuteFails(id, exec, text)), Job(id, Direct(id, text)));
  }

  /** A stopped bridge refuses new requests. */
  lemma StoppedRefuses(s: State)
    ensures Step(Step(s, StopFlag), Begin) == Step(s, StopFlag)
  {
  }
}

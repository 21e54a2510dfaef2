/** One MCP client used by several callers at once, as the tools of one round do: their reads interleave, and each
    complete line goes to the caller that happens to take it. */
module McpSharedClient {
  import opened McpFraming
  import opened Options

  datatype Phase = Waiting | Answered(line: nat) | GaveUp

  datatype Caller = Caller(id: nat, phase: Phase)

  datatype State = State(
    buffer: string,
    nextId: nat,
    callers: map<nat, Caller>,
    received: string,       // history: all bytes read
    lines: seq<string>,     // history: all lines taken off the buffer
    takers: seq<nat>        // history: who took each line
  )

  const Init := State("", 1, map[], "", [], [])

  datatype Event =
    | Begin(c: nat)              // a caller fetches its id and sends its request
    | Arrive(chunk: string)      // some caller's poll brings bytes
    | Take(c: nat)               // a waiting caller takes one line off the buffer, if there is one
    | GiveUp(c: nat)             // a caller's time is over

  /** The line is a message with this id. */
  predicate IsFor(parse: Parser, line: string, id: nat) {
    Meaning(parse, line).Msg? && Meaning(parse, line).id == Some(id)
  }

  predicate Waits(s: State, c: nat) {
    c in s.callers && s.callers[c].phase.Waiting?
  }

  /** A caller drops every line that is not its own answer. */
  function TakeLine(parse: Parser, s: State, c: nat): State
    requires Waits(s, c) && !OneLine(s.buffer)
  {
    var pos := IndexOf(s.buffer, 0);
    var line := s.buffer[..pos];
    var phase := if IsFor(parse, line, s.callers[c].id) then Answered(|s.lines|) else Waiting;
    s.(buffer := s.buffer[pos + 1..], lines := s.lines + [line], takers := s.takers + [c],
       callers := s.callers[c := s.callers[c].(phase := phase)])
  }

  function Step(parse: Parser, s: State, e: Event): State {
    match e
    case Begin(c) =>
      if c in s.callers then s else s.(callers := s.callers[c := Caller(s.nextId, Waiting)], nextId := s.nextId + 1)
    case Arrive(chunk) => s.(buffer := s.buffer + chunk, received := s.received + chunk)
    case Take(c) => if Waits(s, c) && !OneLine(s.buffer) then TakeLine(parse, s, c) else s
    case GiveUp(c) => if Waits(s, c) then s.(callers := s.callers[c := s.callers[c].(phase := GaveUp)]) else s
  }

  function Run(parse: Parser, s: State, es: seq<Event>): State {
    if es == [] then s else Step(parse, Run(parse, s, es[..|es| - 1]), es[|es| - 1])
  }

  /** Caller `c` took line `j`, and the line is its answer. */
  predicate TookOwn(parse: Parser, s: State, c: nat, j: nat) {
    c in s.callers && j < |s.lines| && j < |s.takers| && s.takers[j] == c && IsFor(parse, s.lines[j], s.callers[c].id)
  }

  ghost predicate CallerOk(parse: Parser, s: State, c: nat)
    requires c in s.callers
  {
    && s.callers[c].id < s.nextId
    && (forall j :: TookOwn(parse, s, c, j) <==> s.callers[c].phase == Answered(j))
  }

  ghost predicate Inv(parse: Parser, s: State) {
    && Framed(s.lines, s.buffer, s.received)
    && |s.lines| == |s.takers|
    && (forall j :: 0 <= j < |s.takers| ==> s.takers[j] in s.callers)
    && (forall c :: c in s.callers ==> CallerOk(parse, s, c))
    && (forall c, d :: c in s.callers && d in s.callers && c != d ==> s.callers[c].id != s.callers[d].id)
  }

  lemma TakeInv(parse: Parser, s: State, c: nat)
    requires Inv(parse, s) && Waits(s, c) && !OneLine(s.buffer)
    ensures Inv(parse, TakeLine(parse, s, c))
  {
    var s' := TakeLine(parse, s, c);
    FramedTake(s.lines, s.buffer, s.received, IndexOf(s.buffer, 0));
    hide Framed, Meaning, IsFor;
    forall d | d in s'.callers ensures CallerOk(parse, s', d) {
      assert CallerOk(parse, s, d);
      assert forall j :: j != |s.lines| ==> (TookOwn(parse, s', d, j) <==> TookOwn(parse, s, d, j));
      assert !TookOwn(parse, s, d, |s.lines|);
    }
  }

  lemma StepInv(parse: Parser, s: State, e: Event)
    requires Inv(parse, s)
    ensures Inv(parse, Step(parse, s, e))
  {
    var s' := Step(parse, s, e);
    match e
    case Arrive(chunk) =>
      FramedReceive(s.lines, s.buffer, s.received, chunk);
      hide Framed, IsFor;
      forall d | d in s'.callers ensures CallerOk(parse, s', d) {
        assert CallerOk(parse, s, d);
        assert forall j :: TookOwn(parse, s', d, j) <==> TookOwn(parse, s, d, j);
      }
    case Take(c) =>
      if Waits(s, c) && !OneLine(s.buffer) {
        TakeInv(parse, s, c);
      }
    case Begin(c) =>
      if c !in s.callers {
        hide Framed, IsFor;
        assert forall j :: 0 <= j < |s.takers| ==> s.takers[j] != c;
        forall d | d in s'.callers ensures CallerOk(parse, s', d) {
          SameHistory(parse, s, s', d);
        }
      }
    case GiveUp(c) =>
      hide Framed, IsFor;
      forall d | d in s'.callers ensures CallerOk(parse, s', d) {
        SameHistory(parse, s, s', d);
      }
  }

  /** Starting and giving up take no line. */
  lemma SameHistory(parse: Parser, s: State, s': State, d: nat)
    requires d in s'.callers && s'.lines == s.lines && s'.takers == s.takers && s'.nextId >= s.nextId
    requires d in s.callers ==> CallerOk(parse, s, d) && s'.callers[d].id == s.callers[d].id
    requires d in s.callers ==> s'.callers[d].phase == s.callers[d].phase || (Waits(s, d) && s'.callers[d].phase.GaveUp?)
    requires d !in s.callers ==> d !in s.takers && s'.callers[d].phase.Waiting? && s'.callers[d].id < s'.nextId
    ensures CallerOk(parse, s', d)
  {
    hide IsFor;
    forall j ensures TookOwn(parse, s', d, j) <==> s'.callers[d].phase == Answered(j) {
      if d in s.callers {
        assert TookOwn(parse, s', d, j) <==> TookOwn(parse, s, d, j);
      }
    }
  }

  lemma {:induction false} RunInv(parse: Parser, es: seq<Event>)
    ensures Inv(parse, Run(parse, Init, es))
    decreases |es|
  {
    hide Step;
    if es != [] {
      hide Inv;
      RunInv(parse, es[..|es| - 1]);
      StepInv(parse, Run(parse, Init, es[..|es| - 1]), es[|es| - 1]);
    }
  }

  /** However the reads of any number of callers interleave, no byte is lost or reordered, ids are the callers' own,
      and a caller gets an answer exactly when it was its own read that took the line with its id. */
  lemma AnsweredIff(parse: Parser, es: seq<Event>, c: nat)
    requires c in Run(parse, Init, es).callers
    ensures var s := Run(parse, Init, es);
            && Framed(s.lines, s.buffer, s.received)
            && (forall d :: d in s.callers && d != c ==> s.callers[d].id != s.callers[c].id)
            && (s.callers[c].phase.Answered? <==> exists j :: TookOwn(parse, s, c, j))
            && (s.callers[c].phase.Answered? ==> TookOwn(parse, s, c, s.callers[c].phase.line))
  {
    RunInv(parse, es);
    var s := Run(parse, Init, es);
    assert CallerOk(parse, s, c);
  }

  /** The history only grows, and a caller's id is its own for good. */
  lemma {:induction false} RunExtends(parse: Parser, s: State, es: seq<Event>, c: nat)
    requires c in s.callers
    ensures var f := Run(parse, s, es);
            s.lines <= f.lines && s.takers <= f.takers && c in f.callers && f.callers[c].id == s.callers[c].id
    decreases |es|
  {
    if es != [] {
      RunExtends(parse, s, es[..|es| - 1], c);
    }
  }

  /** An answer taken by another caller is lost: if the server answers each request once and somebody else's read
      took the answer, its own caller is never answered, in any continuation. */
  lemma StolenAnswerIsLost(parse: Parser, es: seq<Event>, more: seq<Event>, c: nat, j: nat)
    requires var s := Run(parse, Init, es);
             c in s.callers && j < |s.lines| && j < |s.takers| && s.takers[j] != c && IsFor(parse, s.lines[j], s.callers[c].id)
    requires var s, f := Run(parse, Init, es), Run(parse, Run(parse, Init, es), more);
             c in s.callers && forall k :: 0 <= k < |f.lines| && IsFor(parse, f.lines[k], s.callers[c].id) ==> k == j
    ensures var f := Run(parse, Run(parse, Init, es), more);
            c in f.callers && !f.callers[c].phase.Answered?
  {
    var s, f := Run(parse, Init, es), Run(parse, Run(parse, Init, es), more);
    RunExtends(parse, s, more, c);
    RunConcat(parse, Init, es, more);
    RunInv(parse, es + more);
    assert CallerOk(parse, f, c);
    assert f.takers[j] == s.takers[j];
    assert forall k :: TookOwn(parse, f, c, k) ==> k == j;
    assert !TookOwn(parse, f, c, j);
  }

  lemma {:induction false} RunConcat(parse: Parser, s: State, es: seq<Event>, more: seq<Event>)
    ensures Run(parse, s, es + more) == Run(parse, Run(parse, s, es), more)
    decreases |more|
  {
    if more == [] {
      assert es + more == es;
    } else {
      RunConcat(parse, s, es, more[..|more| - 1]);
      assert (es + more)[..|es + more| - 1] == es + more[..|more| - 1];
    }
  }

  /** A caller that begins waits with an id nobody had before. */
  lemma CallerBegins(parse: Parser, es: seq<Event>, c: nat)
    requires c !in Run(parse, Init, es).callers
    ensures var s := Run(parse, Init, es);
            var s' := Step(parse, s, Begin(c));
            && Waits(s', c) && s'.callers[c].id == s.nextId
            && forall d :: d in s.callers ==> s'.callers[d] == s.callers[d] && s.callers[d].id != s.nextId
  {
    RunInv(parse, es);
    var s := Run(parse, Init, es);
    forall d | d in s.callers ensures s.callers[d].id < s.nextId {
      assert CallerOk(parse, s, d);
    }
  }

  /** What a waiting caller's read does with the first complete line: its own answer ends its wait, any other line is
      dropped, and either way the line is gone for everybody. */
  lemma CallerTakes(parse: Parser, s: State, c: nat)
    requires Waits(s, c) && !OneLine(s.buffer)
    ensures var s' := Step(parse, s, Take(c));
            var line := s.buffer[..IndexOf(s.buffer, 0)];
            && s'.lines == s.lines + [line] && s'.takers == s.takers + [c]
            && line + [NL] + s'.buffer == s.buffer
            && (if IsFor(parse, line, s.callers[c].id) then s'.callers[c].phase == Answered(|s.lines|) else Waits(s', c))
  {
  }
}

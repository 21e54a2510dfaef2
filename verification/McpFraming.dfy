/** Newline framing and request matching of the MCP client over a pipe. */
module McpFraming {
  import opened Options
  import opened Sequences

  /** A parsed message as far as the client looks: its id, if it has one, and whether it names a method. */
  datatype Message = Null | Msg(id: Option<nat>, hasMethod: bool)

  type Parser = string -> Message

  const NL := '\n'

  /** What one removed line yields: blank lines and lines that do not parse yield nothing. */
  function Meaning(parse: Parser, line: string): Message {
    if line == "" || line == "\r" then Null else parse(line)
  }

  predicate OneLine(s: string) {
    NL !in s
  }

  /** Lines, each with its newline. */
  function Join(lines: seq<string>): string {
    if lines == [] then "" else Join(lines[..|lines| - 1]) + (lines[|lines| - 1] + [NL])
  }

  function IndexOf(s: string, from: nat): (r: int)
    requires from <= |s| && forall i :: 0 <= i < from ==> s[i] != NL
    ensures r == -1 <==> OneLine(s)
    ensures r != -1 ==> 0 <= r < |s| && s[r] == NL && forall i :: 0 <= i < r ==> s[i] != NL
    decreases |s| - from
  {
    if from == |s| then -1 else if s[from] == NL then from else IndexOf(s, from + 1)
  }

  /** Nothing is lost or reordered: the removed lines and the buffer are the bytes received. */
  ghost predicate Framed(lines: seq<string>, buffer: string, received: string) {
    Join(lines) + buffer == received && forall i :: 0 <= i < |lines| ==> OneLine(lines[i])
  }

  lemma FramedTake(lines: seq<string>, buffer: string, received: string, pos: nat)
    requires Framed(lines, buffer, received) && pos < |buffer| && buffer[pos] == NL
    requires forall i :: 0 <= i < pos ==> buffer[i] != NL
    ensures Framed(lines + [buffer[..pos]], buffer[pos + 1..], received)
  {
    LineTaken(lines, buffer, pos);
    assert OneLine(buffer[..pos]);
  }

  lemma FramedReceive(lines: seq<string>, buffer: string, received: string, chunk: string)
    requires Framed(lines, buffer, received)
    ensures Framed(lines, buffer + chunk, received + chunk)
  {
    Assoc(Join(lines), buffer, chunk);
  }

  /** Every answer returned was a line with the request's own id; ids and lines were used in order, each at most once. */
  ghost predicate Matched(parse: Parser, lines: seq<string>, answers: seq<(nat, nat)>, nextId: nat) {
    && (forall k :: 0 <= k < |answers| ==>
          && answers[k].0 < nextId && answers[k].1 < |lines|
          && Meaning(parse, lines[answers[k].1]).Msg? && Meaning(parse, lines[answers[k].1]).id == Some(answers[k].0))
    && (forall k, l :: 0 <= k < l < |answers| ==> answers[k].0 < answers[l].0 && answers[k].1 < answers[l].1)
  }

  lemma MatchedAppend(parse: Parser, lines: seq<string>, before: seq<string>, answers: seq<(nat, nat)>, id: nat)
    requires Matched(parse, before, answers, id) && before < lines
    requires Meaning(parse, lines[|lines| - 1]).Msg? && Meaning(parse, lines[|lines| - 1]).id == Some(id)
    ensures Matched(parse, lines, answers + [(id, |lines| - 1)], id + 1)
  {
  }

  lemma MatchedLater(parse: Parser, lines: seq<string>, more: seq<string>, answers: seq<(nat, nat)>, nextId: nat)
    requires Matched(parse, lines, answers, nextId)
    ensures Matched(parse, lines + more, answers, nextId)
  {
  }

  class McpClient {
    var readBuffer: string
    var nextReqId: nat
    ghost var received: string           // all bytes read since the last reset of the history
    ghost var lines: seq<string>         // all lines removed from the buffer
    ghost var parse: Parser
    ghost var answers: seq<(nat, nat)>   // request id and line index of every answer returned

    /** Nothing is lost or reordered: the removed lines and the buffer are the bytes received; and the answers match. */
    ghost predicate Valid()
      reads this
    {
      && Framed(lines, readBuffer, received)
      && Matched(parse, lines, answers, nextReqId)
    }

    constructor (ghost p: Parser)
      ensures Valid() && readBuffer == "" && nextReqId == 1 && received == "" && lines == [] && parse == p && answers == []
    {
      readBuffer, nextReqId, received, lines, parse, answers := "", 1, "", [], p, [];
    }

    /** Take one complete line off the buffer, if there is one. */
    method ParseLine(p: Parser) returns (m: Message)
      requires Valid() && p == parse
      modifies this`readBuffer, this`lines
      ensures Valid()
      ensures (m, readBuffer) == NextLine(parse, old(readBuffer))
      ensures Took(parse, old(lines), lines, m) && |readBuffer| <= |old(readBuffer)|
      ensures m.Msg? ==> |readBuffer| < |old(readBuffer)|
      ensures if OneLine(old(readBuffer)) then lines == old(lines)
              else lines == old(lines) + [old(readBuffer)[..IndexOf(old(readBuffer), 0)]]
    {
      var pos := IndexOf(readBuffer, 0);
      if pos == -1 {
        return Null;
      }
      var line := readBuffer[..pos];
      FramedTake(lines, readBuffer, received, pos);
      MatchedLater(parse, lines, [line], answers, nextReqId);
      TookOne(parse, lines, line);
      hide Framed, Matched, Took;
      readBuffer := readBuffer[pos + 1..];
      lines := lines + [line];
      m := if line == "" || line == "\r" then Null else p(line);
    }

    method Receive(chunk: string)
      requires Valid()
      modifies this`readBuffer, this`received
      ensures Valid() && readBuffer == old(readBuffer) + chunk && received == old(received) + chunk
    {
      FramedReceive(lines, readBuffer, received, chunk);
      readBuffer := readBuffer + chunk;
      received := received + chunk;
    }

    /** `ReadRpcMessage`: `source(k)` is what the `k`-th poll brings, nothing on a timeout; at most `limit` polls. */
    method ReadRpcMessage(p: Parser, source: nat -> Option<string>, k: nat, limit: nat) returns (m: Message, next: nat)
      requires Valid() && p == parse && k <= limit
      modifies this`readBuffer, this`lines, this`received
      ensures Valid() && k <= next <= limit
      ensures (m, readBuffer, next) == ReadLoop(parse, old(readBuffer), source, k, limit)
      ensures received == old(received) + Bytes(source, k, next)
      ensures Took(parse, old(lines), lines, m)
      ensures k < limit && next == k ==> |readBuffer| < |old(readBuffer)|
    {
      hide NextLine, Took, Valid;
      next := k;
      m := ParseLine(p);
      BytesNone(received, source, k);
      while m == Null && next < limit
        invariant Valid() && k <= next <= limit && (k == next && m.Msg? ==> |readBuffer| < |old(readBuffer)|)
        invariant ReadLoop(parse, old(readBuffer), source, k, limit)
               == if m.Msg? then (m, readBuffer, next) else Polled(parse, readBuffer, source, next, limit)
        invariant received == old(received) + Bytes(source, k, next)
        invariant Took(parse, old(lines), lines, m)
        decreases limit - next
      {
        var poll := source(next);
        next := next + 1;
        BytesOne(old(received), source, k, next);
        if poll.None? {
          return;
        }
        Receive(poll.value);
        ghost var before := lines;
        m := ParseLine(p);
        TookThen(parse, old(lines), before, lines, m);
      }
    }

    /** The waiting loop of `SendRequestSync`: read messages until one has this id or the time is over. */
    method AwaitAnswer(p: Parser, source: nat -> Option<string>, limit: nat, id: nat) returns (r: Message)
      requires Valid() && p == parse
      modifies this`readBuffer, this`lines, this`received
      ensures Valid() && old(lines) <= lines
      ensures (r, readBuffer) == Await(parse, old(readBuffer), source, 0, limit, id)
      ensures r.Msg? ==> r.id == Some(id) && |lines| > |old(lines)| && r == Meaning(parse, lines[|lines| - 1])
      ensures Skipped(parse, lines, |old(lines)|, |lines| - (if r.Msg? then 1 else 0), id)
    {
      hide Valid, ReadLoop, Bytes, Took, Skipped, Meaning;
      var k := 0;
      r := Null;
      SkippedNone(parse, lines, id);
      while k < limit
        invariant Valid() && k <= limit && old(lines) <= lines && r == Null
        invariant Skipped(parse, lines, |old(lines)|, |lines|, id)
        invariant Await(parse, old(readBuffer), source, 0, limit, id) == Await(parse, readBuffer, source, k, limit, id)
        decreases limit - k, |readBuffer|
      {
        ghost var seen := lines;
        var m;
        m, k := ReadRpcMessage(p, source, k, limit);
        TookFacts(parse, seen, lines, m);
        SkippedMore(parse, |old(lines)|, seen, lines, m, id);
        if m.Msg? && m.id == Some(id) {
          return m;
        }
      }
    }

    /** `SendRequestSync`, for a caller that has the client to itself: the answer, if any, is a message with
        the id of this very request, and everything removed before it in this call was something else. */
    method SendRequestSync(p: Parser, source: nat -> Option<string>, limit: nat) returns (r: Message)
      requires Valid() && p == parse
      modifies this
      ensures Valid() && parse == old(parse) && nextReqId == old(nextReqId) + 1 && old(lines) <= lines
      ensures (r, readBuffer) == Await(parse, old(readBuffer), source, 0, limit, old(nextReqId))
      ensures r.Msg? ==> r.id == Some(old(nextReqId)) && answers == old(answers) + [(old(nextReqId), |lines| - 1)]
                         && |lines| > |old(lines)| && r == Meaning(parse, lines[|lines| - 1])
      ensures r == Null ==> answers == old(answers)
      ensures Skipped(parse, lines, |old(lines)|, |lines| - (if r.Msg? then 1 else 0), old(nextReqId))
    {
      hide Framed, Skipped, Meaning;
      var id := nextReqId;
      ghost var start := lines;
      nextReqId := nextReqId + 1;
      MatchedMore(parse, start, answers, id);
      hide Matched;
      r := AwaitAnswer(p, source, limit, id);
      if r.Msg? {
        MatchedAppend(parse, lines, start, answers, id);
        answers := answers + [(id, |lines| - 1)];
      }
    }
  }

  lemma MatchedMore(parse: Parser, lines: seq<string>, answers: seq<(nat, nat)>, id: nat)
    requires Matched(parse, lines, answers, id)
    ensures Matched(parse, lines, answers, id + 1)
  {
  }

  /** A call that took the lines from `before` on: all but the last were unusable, and the last one is the
      message, if there is one. */
  ghost predicate Took(parse: Parser, before: seq<string>, lines: seq<string>, m: Message) {
    && before <= lines
    && (m.Msg? ==> |lines| > |before| && m == Meaning(parse, lines[|lines| - 1]))
    && (forall i :: |before| <= i < |lines| - (if m.Msg? then 1 else 0) ==> Meaning(parse, lines[i]) == Null)
  }

  lemma TookOne(parse: Parser, lines: seq<string>, line: string)
    ensures Took(parse, lines, lines + [line], Meaning(parse, line))
  {
  }

  lemma TookThen(parse: Parser, a: seq<string>, b: seq<string>, c: seq<string>, m: Message)
    requires Took(parse, a, b, Null) && Took(parse, b, c, m)
    ensures Took(parse, a, c, m)
  {
  }

  /** None of these lines is a message with this id. */
  ghost predicate Skipped(parse: Parser, lines: seq<string>, from: nat, to: int, id: nat) {
    forall i :: from <= i < to <= |lines| ==> Meaning(parse, lines[i]) == Null || Meaning(parse, lines[i]).id != Some(id)
  }

  lemma SkippedNone(parse: Parser, lines: seq<string>, id: nat)
    ensures Skipped(parse, lines, |lines|, |lines|, id)
  {
  }

  lemma TookFacts(parse: Parser, before: seq<string>, lines: seq<string>, m: Message)
    requires Took(parse, before, lines, m)
    ensures before <= lines && before == lines[..|before|]
    ensures m.Msg? ==> |lines| > |before| && m == Meaning(parse, lines[|lines| - 1])
  {
  }

  lemma SkippedMore(parse: Parser, from: nat, before: seq<string>, lines: seq<string>, m: Message, id: nat)
    requires Skipped(parse, before, from, |before|, id) && Took(parse, before, lines, m)
    ensures Skipped(parse, lines, from, |lines| - (if m.Msg? then 1 else 0), id)
    ensures m.Msg? && m.id != Some(id) ==> Skipped(parse, lines, from, |lines|, id)
  {
    assert forall i :: 0 <= i < |before| ==> before[i] == lines[i];
  }

  /** What taking one line off a buffer yields, and what is left. */
  function NextLine(parse: Parser, buffer: string): (r: (Message, string))
    ensures |r.1| <= |buffer| && (r.0.Msg? ==> |r.1| < |buffer|)
  {
    var pos := IndexOf(buffer, 0);
    if pos == -1 then (Null, buffer) else (Meaning(parse, buffer[..pos]), buffer[pos + 1..])
  }

  /** Reading as a function: the message, what is left in the buffer, and the number of the next poll. */
  function ReadLoop(parse: Parser, buffer: string, source: nat -> Option<string>, k: nat, limit: nat)
    : (r: (Message, string, nat))
    requires k <= limit
    ensures k <= r.2 <= limit && (k < limit && r.2 == k ==> |r.1| < |buffer|)
    decreases limit - k, 1
  {
    var (m, rest) := NextLine(parse, buffer);
    if m.Msg? then (m, rest, k) else Polled(parse, rest, source, k, limit)
  }

  /** The rest of reading once the buffer gave nothing: a poll decides. */
  function Polled(parse: Parser, buffer: string, source: nat -> Option<string>, k: nat, limit: nat)
    : (r: (Message, string, nat))
    requires k <= limit
    ensures k <= r.2 <= limit && (k < limit ==> r.2 > k)
    decreases limit - k, 0
  {
    if k == limit then (Null, buffer, k)
    else match source(k)
         case None => (Null, buffer, k + 1)
         case Some(chunk) => ReadLoop(parse, buffer + chunk, source, k + 1, limit)
  }

  /** Waiting for an answer as a function: read messages until one has this id or the time is over. */
  function Await(parse: Parser, buffer: string, source: nat -> Option<string>, k: nat, limit: nat, id: nat): (Message, string)
    requires k <= limit
    decreases limit - k, |buffer|
  {
    if k == limit then (Null, buffer)
    else
      var (m, rest, next) := ReadLoop(parse, buffer, source, k, limit);
      if m.Msg? && m.id == Some(id) then (m, rest) else Await(parse, rest, source, next, limit, id)
  }

  /** The bytes polls `from` to `to - 1` bring. */
  function Bytes(source: nat -> Option<string>, from: nat, to: nat): string
    requires from <= to
  {
    if from == to then "" else Bytes(source, from, to - 1) + (if source(to - 1).Some? then source(to - 1).value else "")
  }

  lemma BytesNone(r: string, source: nat -> Option<string>, k: nat)
    ensures r == r + Bytes(source, k, k)
  {
  }

  lemma BytesOne(r: string, source: nat -> Option<string>, k: nat, next: nat)
    requires k < next
    ensures r + Bytes(source, k, next)
         == r + Bytes(source, k, next - 1) + (if source(next - 1).Some? then source(next - 1).value else "")
  {
    Assoc(r, Bytes(source, k, next - 1), if source(next - 1).Some? then source(next - 1).value else "");
  }

  lemma LineTaken(lines: seq<string>, buffer: string, pos: nat)
    requires pos < |buffer| && buffer[pos] == NL
    ensures Join(lines + [buffer[..pos]]) + buffer[pos + 1..] == Join(lines) + buffer
  {
    assert (lines + [buffer[..pos]])[..|lines|] == lines;
    Assoc(Join(lines), buffer[..pos] + [NL], buffer[pos + 1..]);
  }

  // ---------------------------------------------------------------- chunking does not matter

  lemma {:induction false} JoinCons(l: string, ls: seq<string>)
    ensures Join([l] + ls) == l + [NL] + Join(ls)
    decreases |ls|
  {
    if ls == [] {
      assert [l] + ls == [l] && [l][..0] == [];
      assert Join([l]) == "" + (l + [NL]);
    } else {
      var p, last := ls[..|ls| - 1], ls[|ls| - 1];
      JoinCons(l, p);
      assert ([l] + ls)[..|ls|] == [l] + p;
      Assoc(l + [NL], Join(p), last + [NL]);
    }
  }

  lemma FirstLineSame(l: string, x: string, m: string, y: string)
    requires OneLine(l) && OneLine(m) && l + [NL] + x == m + [NL] + y
    ensures l == m && x == y
  {
    var s := l + [NL] + x;
    assert s[|l|] == NL && (m + [NL] + y)[|m|] == NL;
    assert forall i :: 0 <= i < |l| ==> s[i] == l[i] && l[i] in l;
    assert forall i :: 0 <= i < |m| ==> s[i] == m[i] && m[i] in m;
    assert |l| == |m|;
    assert s[..|l|] == l && (m + [NL] + y)[..|m|] == m;
    assert s[|l| + 1..] == x && (m + [NL] + y)[|m| + 1..] == y;
  }

  /** However the same bytes were cut into reads: the lines removed so far by one reader and by another are
      each a beginning of the other's, so the k-th line, and the k-th message, is the same for both. */
  lemma {:induction false} ChunkingIrrelevant(a: seq<string>, x: string, b: seq<string>, y: string)
    requires Join(a) + x == Join(b) + y && |a| <= |b|
    requires forall i :: 0 <= i < |a| ==> OneLine(a[i])
    requires forall i :: 0 <= i < |b| ==> OneLine(b[i])
    ensures a <= b
    decreases |a|
  {
    if a != [] {
      assert a == [a[0]] + a[1..] && b == [b[0]] + b[1..];
      JoinCons(a[0], a[1..]);
      JoinCons(b[0], b[1..]);
      Assoc(a[0] + [NL], Join(a[1..]), x);
      Assoc(b[0] + [NL], Join(b[1..]), y);
      FirstLineSame(a[0], Join(a[1..]) + x, b[0], Join(b[1..]) + y);
      ChunkingIrrelevant(a[1..], x, b[1..], y);
    }
  }

  // ---------------------------------------------------------------- reconnecting

  function Split(s: string): seq<string> {
    var pos := IndexOf(s, 0);
    if pos == -1 then [] else [s[..pos]] + Split(s[pos + 1..])
  }

  lemma {:induction false} SplitBehind(left: string, s: string)
    ensures |Split(left + s)| >= |Split(s)|
    ensures !OneLine(left) ==> |Split(left + s)| > |Split(s)|
    decreases |left|
  {
    hide Split;
    SplitUnfold(left + s);
    SplitUnfold(s);
    if OneLine(left) {
      IndexBehind(left, s);
      var q := IndexOf(s, 0);
      if q != -1 {
        assert (left + s)[|left| + q + 1..] == s[q + 1..];
      }
    } else {
      var pos := IndexOf(left, 0);
      IndexInside(left, s);
      SplitBehind(left[pos + 1..], s);
      assert (left + s)[pos + 1..] == left[pos + 1..] + s;
    }
  }

  lemma SplitUnfold(s: string)
    ensures var pos := IndexOf(s, 0);
            Split(s) == if pos == -1 then [] else [s[..pos]] + Split(s[pos + 1..])
  {
  }

  lemma IndexBehind(left: string, s: string)
    requires OneLine(left)
    ensures IndexOf(left + s, 0) == if IndexOf(s, 0) == -1 then -1 else |left| + IndexOf(s, 0)
  {
    var q := IndexOf(s, 0);
    assert forall i :: 0 <= i < |left| ==> left[i] in left && (left + s)[i] == left[i];
    assert forall i :: 0 <= i < |s| ==> (left + s)[|left| + i] == s[i];
    if q == -1 {
      assert OneLine(left + s);
    }
  }

  lemma IndexInside(left: string, s: string)
    requires !OneLine(left)
    ensures IndexOf(left + s, 0) == IndexOf(left, 0)
  {
    assert (left + s)[IndexOf(left, 0)] == NL;
    assert forall i :: 0 <= i < |left| ==> (left + s)[i] == left[i];
  }

  /** The buffer is not cleared when the client reconnects: the new connection's first complete line is read
      right, and so all its lines, exactly when the leftover buffer is empty. */
  lemma FramingAfterReconnectIff(left: string, s: string)
    requires !OneLine(s)
    ensures Split(left + s) == Split(s) <==> left == ""
  {
    if left == "" {
      assert left + s == s;
    } else if OneLine(left) {
      IndexBehind(left, s);
      var q := IndexOf(s, 0);
      assert |Split(left + s)[0]| == |left| + q && |Split(s)[0]| == q;
    } else {
      SplitBehind(left, s);
    }
  }

  // ---------------------------------------------------------------- which answers a read sees

  function Newlines(s: string): nat {
    if s == "" then 0 else (if s[0] == NL then 1 else 0) + Newlines(s[1..])
  }

  /** All bytes a read can see: the buffer and what its polls bring, up to the first poll that brings nothing. */
  function Available(buffer: string, source: nat -> Option<string>, k: nat, limit: nat): string
    requires k <= limit
    decreases limit - k
  {
    if k == limit then buffer
    else match source(k)
         case None => buffer
         case Some(chunk) => Available(buffer + chunk, source, k + 1, limit)
  }

  /** How many lines a read looks at if none of them is a message: with `waiting` complete lines in the buffer it
      looks at one at the start and at one after each poll that brings something, while there are any. What the
      lines say plays no part. */
  function Looked(waiting: nat, source: nat -> Option<string>, k: nat, limit: nat): nat
    requires k <= limit
    decreases limit - k, 1
  {
    if waiting > 0 then 1 + LookedBehind(waiting - 1, source, k, limit) else LookedBehind(0, source, k, limit)
  }

  /** How many of them from the next poll on. */
  function LookedBehind(waiting: nat, source: nat -> Option<string>, k: nat, limit: nat): nat
    requires k <= limit
    decreases limit - k, 0
  {
    if k == limit then 0
    else match source(k)
         case None => 0
         case Some(chunk) => Looked(waiting + Newlines(chunk), source, k + 1, limit)
  }

  lemma {:induction false} NewlinesConcat(a: string, b: string)
    ensures Newlines(a + b) == Newlines(a) + Newlines(b)
    decreases |a|
  {
    if a == "" {
      assert a + b == b;
    } else {
      NewlinesConcat(a[1..], b);
      assert (a + b)[1..] == a[1..] + b;
    }
  }

  lemma {:induction false} NoNewlines(s: string)
    ensures Newlines(s) == 0 <==> OneLine(s)
    decreases |s|
  {
    if s != "" {
      NoNewlines(s[1..]);
      assert s == [s[0]] + s[1..];
      assert OneLine(s) <==> s[0] != NL && OneLine(s[1..]);
    }
  }

  /** Taking a line off the buffer takes off its newline. */
  lemma NewlinesTaken(buffer: string)
    requires !OneLine(buffer)
    ensures var pos := IndexOf(buffer, 0);
            Newlines(buffer) == 1 + Newlines(buffer[pos + 1..])
  {
    var pos := IndexOf(buffer, 0);
    assert buffer == buffer[..pos] + ([NL] + buffer[pos + 1..]);
    NewlinesConcat(buffer[..pos], [NL] + buffer[pos + 1..]);
    NewlinesConcat([NL], buffer[pos + 1..]);
    NoNewlines(buffer[..pos]);
    NoNewlines("");
    assert OneLine(buffer[..pos]);
    assert [NL][1..] == "";
  }

  lemma {:induction false} AvailableExtends(a: string, buffer: string, source: nat -> Option<string>, k: nat, limit: nat)
    requires k <= limit
    ensures Available(a + buffer, source, k, limit) == a + Available(buffer, source, k, limit)
    decreases limit - k
  {
    if k < limit && source(k).Some? {
      AvailableExtends(a, buffer + source(k).value, source, k + 1, limit);
      Assoc(a, buffer, source(k).value);
    }
  }

  lemma {:induction false} AvailableStarts(buffer: string, source: nat -> Option<string>, k: nat, limit: nat)
    requires k <= limit
    ensures buffer <= Available(buffer, source, k, limit)
    decreases limit - k
  {
    if k < limit && source(k).Some? {
      AvailableStarts(buffer + source(k).value, source, k + 1, limit);
    }
  }

  /** The buffer's first line is the first line of all that is available, and the rest follows. */
  lemma SplitAvailable(buffer: string, source: nat -> Option<string>, k: nat, limit: nat)
    requires k <= limit && !OneLine(buffer)
    ensures var pos := IndexOf(buffer, 0);
            Split(Available(buffer, source, k, limit))
            == [buffer[..pos]] + Split(Available(buffer[pos + 1..], source, k, limit))
  {
    var pos := IndexOf(buffer, 0);
    var rest := Available(buffer[pos + 1..], source, k, limit);
    assert buffer == buffer[..pos + 1] + buffer[pos + 1..];
    AvailableExtends(buffer[..pos + 1], buffer[pos + 1..], source, k, limit);
    var all := buffer[..pos + 1] + rest;
    hide Split, Available;
    IndexInside(buffer[..pos + 1], rest);
    IndexCut(buffer, pos);
    SplitUnfold(all);
    assert all[..pos] == buffer[..pos] && all[pos + 1..] == rest;
  }

  lemma IndexCut(buffer: string, pos: nat)
    requires !OneLine(buffer) && pos == IndexOf(buffer, 0)
    ensures !OneLine(buffer[..pos + 1]) && IndexOf(buffer[..pos + 1], 0) == pos
  {
    assert buffer[..pos + 1][pos] == NL;
    assert forall i :: 0 <= i < pos ==> buffer[..pos + 1][i] == buffer[i];
  }

  /** The result of looking at these lines in order: the first one that is a message. */
  function FirstMessage(parse: Parser, lines: seq<string>): (m: Message)
    ensures m.Msg? ==> exists i :: 0 <= i < |lines| && m == Meaning(parse, lines[i])
                                && forall j :: 0 <= j < i ==> Meaning(parse, lines[j]).Null?
    ensures m.Null? ==> forall i :: 0 <= i < |lines| ==> Meaning(parse, lines[i]).Null?
  {
    if lines == [] then Null
    else if Meaning(parse, lines[0]).Msg? then Meaning(parse, lines[0])
    else
      var m := FirstMessage(parse, lines[1..]);
      assert m.Msg? ==> forall i :: 0 <= i < |lines[1..]| ==> lines[1..][i] == lines[i + 1];
      m
  }

  /** A read returns the first message among the lines it looks at, and nothing if there is none there, for every
      way the bytes arrive. */
  lemma {:induction false} ReadFindsFirst(parse: Parser, buffer: string, source: nat -> Option<string>, k: nat, limit: nat)
    requires k <= limit
    ensures var lines, n := Split(Available(buffer, source, k, limit)), Looked(Newlines(buffer), source, k, limit);
            n <= |lines| && ReadLoop(parse, buffer, source, k, limit).0 == FirstMessage(parse, lines[..n])
    decreases limit - k
  {
    NoNewlines(buffer);
    hide Newlines, Split, Available, FirstMessage, Meaning, LookedBehind, Polled;
    if OneLine(buffer) {
      PolledFindsFirst(parse, buffer, source, k, limit);
    } else {
      var rest := buffer[IndexOf(buffer, 0) + 1..];
      NewlinesTaken(buffer);
      SplitAvailable(buffer, source, k, limit);
      PolledFindsFirst(parse, rest, source, k, limit);
      hide OneLine;
      var n := LookedBehind(Newlines(rest), source, k, limit);
      FirstOfCons(parse, buffer[..IndexOf(buffer, 0)], Split(Available(rest, source, k, limit)), n);
    }
  }

  lemma {:induction false} PolledFindsFirst(parse: Parser, buffer: string, source: nat -> Option<string>, k: nat, limit: nat)
    requires k <= limit
    ensures var lines, n := Split(Available(buffer, source, k, limit)), LookedBehind(Newlines(buffer), source, k, limit);
            n <= |lines| && Polled(parse, buffer, source, k, limit).0 == FirstMessage(parse, lines[..n])
    decreases limit - k, 0
  {
    if k < limit && source(k).Some? {
      NewlinesConcat(buffer, source(k).value);
      ReadFindsFirst(parse, buffer + source(k).value, source, k + 1, limit);
    }
  }

  lemma FirstOfCons(parse: Parser, line: string, more: seq<string>, n: nat)
    requires n <= |more|
    ensures ([line] + more)[..1 + n] == [line] + more[..n]
    ensures FirstMessage(parse, ([line] + more)[..1 + n])
         == if Meaning(parse, line).Msg? then Meaning(parse, line) else FirstMessage(parse, more[..n])
  {
    assert ([line] + more)[..1 + n] == [line] + more[..n];
    assert ([line] + more[..n])[1..] == more[..n];
  }

  /** When a read returns a message at all: exactly when, of the lines available to it, the first that is a
      message has an index below the number of lines it looks at. */
  lemma MessageSeenIff(parse: Parser, buffer: string, source: nat -> Option<string>, k: nat, limit: nat, i: nat)
    requires k <= limit
    requires var lines := Split(Available(buffer, source, k, limit));
             && i < |lines| && Meaning(parse, lines[i]).Msg?
             && forall j :: 0 <= j < i ==> Meaning(parse, lines[j]).Null?
    ensures var m, n := ReadLoop(parse, buffer, source, k, limit).0, Looked(Newlines(buffer), source, k, limit);
            && (m.Msg? <==> i < n)
            && (m.Msg? ==> m == Meaning(parse, Split(Available(buffer, source, k, limit))[i]))
  {
    ReadFindsFirst(parse, buffer, source, k, limit);
    hide Split, Available, Looked, ReadLoop, Meaning, Newlines;
    var lines, n := Split(Available(buffer, source, k, limit)), Looked(Newlines(buffer), source, k, limit);
    assert forall j :: 0 <= j < n ==> lines[..n][j] == lines[j];
    var m := FirstMessage(parse, lines[..n]);
    assert i < n ==> Meaning(parse, lines[..n][i]).Msg?;
    if m.Msg? {
      var j :| 0 <= j < n && m == Meaning(parse, lines[..n][j]) && forall l :: 0 <= l < j ==> Meaning(parse, lines[..n][l]).Null?;
      assert m == Meaning(parse, lines[j]);
    }
  }

  /** How many polls bring something before one brings nothing. */
  function Polls(source: nat -> Option<string>, k: nat, limit: nat): nat
    requires k <= limit
    decreases limit - k
  {
    if k == limit || source(k).None? then 0 else 1 + Polls(source, k + 1, limit)
  }

  lemma {:induction false} LookedWaiting(waiting: nat, source: nat -> Option<string>, k: nat, limit: nat)
    requires k <= limit
    ensures Looked(waiting, source, k, limit) <= 1 + Polls(source, k, limit)
    ensures waiting >= 1 + Polls(source, k, limit) ==> Looked(waiting, source, k, limit) == 1 + Polls(source, k, limit)
    ensures Looked(waiting, source, k, limit) >= if waiting <= Polls(source, k, limit) then waiting else 1 + Polls(source, k, limit)
    decreases limit - k
  {
    if k < limit && source(k).Some? {
      var now := if waiting > 0 then 1 else 0;
      LookedWaiting(waiting - now + Newlines(source(k).value), source, k + 1, limit);
    }
  }

  lemma {:induction false} SplitCounts(s: string)
    ensures |Split(s)| == Newlines(s)
    decreases |s|
  {
    NoNewlines(s);
    SplitUnfold(s);
    if !OneLine(s) {
      NewlinesTaken(s);
      SplitCounts(s[IndexOf(s, 0) + 1..]);
    }
  }

  /** An answer that already stands complete in the buffer, behind `i` lines that are no messages, is returned
      exactly when at least `i` polls bring something: each useless line costs one more arrival. */
  lemma BufferedAnswerIff(parse: Parser, buffer: string, source: nat -> Option<string>, limit: nat, i: nat)
    requires i < |Split(buffer)| && Meaning(parse, Split(buffer)[i]).Msg?
    requires forall j :: 0 <= j < i ==> Meaning(parse, Split(buffer)[j]).Null?
    ensures ReadLoop(parse, buffer, source, 0, limit).0.Msg? <==> i <= Polls(source, 0, limit)
  {
    hide Looked, Polls, ReadLoop, Meaning, Newlines;
    SplitPrefix(buffer, Available(buffer, source, 0, limit)) by { AvailableStarts(buffer, source, 0, limit); }
    hide Split, Available;
    assert forall j :: 0 <= j < |Split(buffer)| ==> Split(Available(buffer, source, 0, limit))[j] == Split(buffer)[j];
    MessageSeenIff(parse, buffer, source, 0, limit, i);
    SplitCounts(buffer);
    LookedWaiting(Newlines(buffer), source, 0, limit);
  }

  lemma {:induction false} SplitPrefix(a: string, s: string)
    requires a <= s
    ensures Split(a) <= Split(s)
    decreases |a|
  {
    hide Split;
    SplitUnfold(a);
    if !OneLine(a) {
      var pos := IndexOf(a, 0);
      assert s == a + s[|a|..];
      IndexInside(a, s[|a|..]);
      SplitUnfold(s);
      assert s[..pos] == a[..pos] && s[pos + 1..] == a[pos + 1..] + s[|a|..];
      SplitPrefix(a[pos + 1..], s[pos + 1..]);
    }
  }

  /** How many of these lines are no messages. */
  function Useless(parse: Parser, lines: seq<string>): nat {
    if lines == [] then 0 else (if Meaning(parse, lines[0]).Null? then 1 else 0) + Useless(parse, lines[1..])
  }

  /** Line `i` of the buffer is the first with this id. */
  predicate AnswerAt(parse: Parser, buffer: string, id: nat, i: nat) {
    AnswerIn(parse, Split(buffer), id, i)
  }

  predicate AnswerIn(parse: Parser, lines: seq<string>, id: nat, i: nat) {
    && i < |lines| && Meaning(parse, lines[i]).Msg? && Meaning(parse, lines[i]).id == Some(id)
    && forall j :: 0 <= j < i ==> Meaning(parse, lines[j]).Null? || Meaning(parse, lines[j]).id != Some(id)
  }

  lemma AnswerShift(parse: Parser, lines: seq<string>, rest: seq<string>, id: nat, i: nat)
    requires AnswerIn(parse, lines, id, i) && i > 0 && lines[1..] <= rest
    ensures AnswerIn(parse, rest, id, i - 1)
  {
    hide Meaning;
    assert forall j :: 0 <= j < |lines| - 1 ==> rest[j] == lines[1..][j] == lines[j + 1];
  }

  /** There is time left for the answer: fewer useless lines stand before it than polls remain, or as many, if the
      last one stands right before it and the last poll brings something. */
  predicate InTime(parse: Parser, lines: seq<string>, i: nat, source: nat -> Option<string>, polls: nat, limit: nat)
    requires i <= |lines| && 0 < polls <= limit
  {
    || Useless(parse, lines[..i]) < polls
    || (i > 0 && Useless(parse, lines[..i]) == polls && Meaning(parse, lines[i - 1]).Null? && source(limit - 1).Some?)
  }

  lemma UselessFirst(parse: Parser, lines: seq<string>, i: nat)
    requires 0 < i <= |lines|
    ensures Useless(parse, lines[..i])
         == (if Meaning(parse, lines[0]).Null? then 1 else 0) + Useless(parse, lines[1..][..i - 1])
  {
    assert lines[..i][1..] == lines[1..][..i - 1];
  }

  /** What the caller is due: the answer on line `i`, or nothing. */
  function Due(parse: Parser, lines: seq<string>, i: nat, source: nat -> Option<string>, polls: nat, limit: nat): Message
    requires i < |lines| && 0 < polls <= limit
  {
    if InTime(parse, lines, i, source, polls, limit) then Meaning(parse, lines[i]) else Null
  }

  /** Taking off the first line costs a poll if the line is useless, and nothing otherwise. */
  lemma DueBehind(parse: Parser, lines: seq<string>, i: nat, rest: seq<string>, source: nat -> Option<string>, polls: nat,
                  limit: nat)
    requires 0 < i < |lines| && lines[1..] <= rest && 0 < polls <= limit
    ensures Due(parse, lines, i, source, polls, limit)
         == if Meaning(parse, lines[0]).Msg? then Due(parse, rest, i - 1, source, polls, limit)
            else if polls > 1 then Due(parse, rest, i - 1, source, polls - 1, limit)
            else if i == 1 && source(limit - 1).Some? then Meaning(parse, rest[0]) else Null
  {
    UselessFirst(parse, lines, i);
    assert rest[..i - 1] == lines[1..][..i - 1];
    assert rest[i - 1] == lines[1..][i - 1] == lines[i];
    assert i > 1 ==> rest[i - 2] == lines[1..][i - 2] == lines[i - 1];
    if i > 1 && Meaning(parse, lines[i - 1]).Null? {
      UselessLast(parse, lines[1..][..i - 1]);
    }
  }

  lemma {:induction false} UselessLast(parse: Parser, lines: seq<string>)
    requires lines != [] && Meaning(parse, lines[|lines| - 1]).Null?
    ensures Useless(parse, lines) >= 1
    decreases |lines|
  {
    if |lines| > 1 {
      UselessLast(parse, lines[1..]);
    }
  }

  /** Taking the first line off. */
  lemma AnswerBehind(parse: Parser, buffer: string, id: nat, i: nat, chunk: string)
    requires AnswerAt(parse, buffer, id, i) && i > 0
    ensures !OneLine(buffer)
    ensures var rest := buffer[IndexOf(buffer, 0) + 1..];
            && Split(buffer) == [buffer[..IndexOf(buffer, 0)]] + Split(rest)
            && Split(buffer)[1..] == Split(rest) <= Split(rest + chunk)
            && AnswerAt(parse, rest + chunk, id, i - 1)
  {
    SplitUnfold(buffer);
    hide Split, AnswerIn;
    assert Split(buffer) != [] by { AnswerExists(parse, Split(buffer), id, i); }
    var rest := buffer[IndexOf(buffer, 0) + 1..];
    SplitPrefix(rest, rest + chunk);
    assert Split(buffer)[1..] == Split(rest);
    AnswerShift(parse, Split(buffer), Split(rest + chunk), id, i);
  }

  lemma AnswerExists(parse: Parser, lines: seq<string>, id: nat, i: nat)
    requires AnswerIn(parse, lines, id, i)
    ensures i < |lines|
  {
  }

  /** When the answer to a request is returned: with the answer complete in the buffer, other messages before it cost
      nothing and each useless line costs one poll, whatever the polls bring. */
  lemma {:induction false} AnswerReturnedIff(parse: Parser, buffer: string, source: nat -> Option<string>, k: nat, limit: nat,
                                             id: nat, i: nat)
    requires k < limit && AnswerAt(parse, buffer, id, i)
    ensures i < |Split(buffer)|
    ensures Await(parse, buffer, source, k, limit, id).0 == Due(parse, Split(buffer), i, source, limit - k, limit)
    decreases limit - k, i
  {
    SplitUnfold(buffer);
    if i == 0 {
      assert Await(parse, buffer, source, k, limit, id).0 == Meaning(parse, Split(buffer)[0]);
      assert Split(buffer)[..0] == [];
    } else {
      var rest := buffer[IndexOf(buffer, 0) + 1..];
      AnswerBehind(parse, buffer, id, i, "");
      assert rest + "" == rest;
      hide InTime, Due, Await, Meaning;
      if Meaning(parse, Split(buffer)[0]).Msg? {
        AwaitSkips(parse, buffer, rest, source, k, limit, id);
        hide Split, AnswerAt, IndexOf, OneLine;
        AnswerReturnedIff(parse, rest, source, k, limit, id, i - 1);
        DueBehind(parse, Split(buffer), i, Split(rest), source, limit - k, limit);
      } else {
        hide Split, AnswerAt, IndexOf, OneLine;
        UselessThenPoll(parse, buffer, source, k, limit, id, i);
      }
    }
  }

  /** A message with another id costs no poll. */
  lemma AwaitSkips(parse: Parser, buffer: string, rest: string, source: nat -> Option<string>, k: nat, limit: nat, id: nat)
    requires k < limit && !OneLine(buffer) && rest == buffer[IndexOf(buffer, 0) + 1..]
    requires var m := Meaning(parse, buffer[..IndexOf(buffer, 0)]); m.Msg? && m.id != Some(id)
    ensures Await(parse, buffer, source, k, limit, id) == Await(parse, rest, source, k, limit, id)
  {
  }

  lemma {:induction false} UselessThenPoll(parse: Parser, buffer: string, source: nat -> Option<string>, k: nat, limit: nat,
                                           id: nat, i: nat)
    requires k < limit && AnswerAt(parse, buffer, id, i) && 0 < i < |Split(buffer)| && Meaning(parse, Split(buffer)[0]).Null?
    ensures Await(parse, buffer, source, k, limit, id).0 == Due(parse, Split(buffer), i, source, limit - k, limit)
    decreases limit - k, i, 0
  {
    var rest := buffer[IndexOf(buffer, 0) + 1..];
    AnswerBehind(parse, buffer, id, i, if source(k).Some? then source(k).value else "");
    assert NextLine(parse, buffer) == (Null, rest);
    hide InTime, AnswerAt, Await, Split, Meaning, NextLine, Due, IndexOf, OneLine;
    AwaitPolls(parse, buffer, rest, source, k, limit, id);
    PollThenDue(parse, Split(buffer), rest, source, k, limit, id, i);
  }

  /** What a caller gets from its next poll on. */
  function AfterPoll(parse: Parser, rest: string, source: nat -> Option<string>, k: nat, limit: nat, id: nat): Message
    requires k < limit
  {
    if source(k).None? then Await(parse, rest, source, k + 1, limit, id).0
    else if k + 1 < limit then Await(parse, rest + source(k).value, source, k + 1, limit, id).0
    else Matching(NextLine(parse, rest + source(k).value).0, id)
  }

  lemma {:induction false} PollThenDue(parse: Parser, lines: seq<string>, rest: string, source: nat -> Option<string>, k: nat,
                                       limit: nat, id: nat, i: nat)
    requires k < limit && 0 < i < |lines| && Meaning(parse, lines[0]).Null?
    requires var next := rest + if source(k).Some? then source(k).value else "";
             lines[1..] <= Split(next) && AnswerAt(parse, next, id, i - 1)
    ensures AfterPoll(parse, rest, source, k, limit, id) == Due(parse, lines, i, source, limit - k, limit)
    decreases limit - k, 0, 0
  {
    var next := rest + if source(k).Some? then source(k).value else "";
    assert source(k).None? ==> next == rest;
    hide InTime, AnswerAt, Await, Split, Meaning, NextLine, Due;
    DueBehind(parse, lines, i, Split(next), source, limit - k, limit);
    if k + 1 < limit {
      AnswerReturnedIff(parse, next, source, k + 1, limit, id, i - 1);
    } else if source(k).Some? {
      LastTry(parse, next, id, i - 1);
    } else {
      AwaitOver(parse, rest, source, limit, id);
    }
  }

  lemma AwaitOver(parse: Parser, buffer: string, source: nat -> Option<string>, limit: nat, id: nat)
    ensures Await(parse, buffer, source, limit, limit, id) == (Null, buffer)
  {
  }

  /** A useless line costs a poll; with the last poll, one line more is looked at if it brought something. */
  lemma AwaitPolls(parse: Parser, buffer: string, rest: string, source: nat -> Option<string>, k: nat, limit: nat, id: nat)
    requires k < limit && NextLine(parse, buffer) == (Null, rest)
    ensures Await(parse, buffer, source, k, limit, id).0 == AfterPoll(parse, rest, source, k, limit, id)
  {
    hide NextLine, Meaning;
    assert ReadLoop(parse, buffer, source, k, limit) == Polled(parse, rest, source, k, limit);
    if source(k).Some? {
      var chunk := source(k).value;
      assert Polled(parse, rest, source, k, limit) == ReadLoop(parse, rest + chunk, source, k + 1, limit);
      if k + 1 == limit {
        LastRead(parse, rest + chunk, source, limit);
        hide ReadLoop, Polled;
      }
    }
  }

  lemma LastRead(parse: Parser, buffer: string, source: nat -> Option<string>, limit: nat)
    ensures ReadLoop(parse, buffer, source, limit, limit).0 == NextLine(parse, buffer).0
    ensures ReadLoop(parse, buffer, source, limit, limit).2 == limit
  {
    hide NextLine;
    var (m, rest) := NextLine(parse, buffer);
    assert Polled(parse, rest, source, limit, limit) == (Null, rest, limit);
  }

  function Matching(m: Message, id: nat): Message {
    if m.Msg? && m.id == Some(id) then m else Null
  }

  lemma LastTry(parse: Parser, buffer: string, id: nat, i: nat)
    requires AnswerAt(parse, buffer, id, i)
    ensures Matching(NextLine(parse, buffer).0, id) == if i == 0 then Meaning(parse, Split(buffer)[0]) else Null
  {
    SplitUnfold(buffer);
    assert i > 0 ==> Meaning(parse, Split(buffer)[0]).Null? || Meaning(parse, Split(buffer)[0]).id != Some(id);
  }

  // ---------------------------------------------------------------- a complete answer that is not seen

  /** A blank line in the same read as the answer hides it: the blank line is taken, the client polls again,
      and when nothing more arrives it reports a timeout with the complete answer in its buffer. */
  lemma BlankLineHidesAnswer(parse: Parser, answer: string, source: nat -> Option<string>, limit: nat)
    requires OneLine(answer) && limit >= 1
    requires source(0) == Some([NL] + answer + [NL]) && source(1) == None
    ensures ReadLoop(parse, "", source, 0, limit) .0 == Null
    ensures ReadLoop(parse, "", source, 0, limit).1 == answer + [NL]
  {
    var chunk := [NL] + answer + [NL];
    BlankFirst(parse, chunk, answer + [NL]);
    assert NextLine(parse, "") == (Null, "") && "" + chunk == chunk;
    hide NextLine;
    assert Polled(parse, "", source, 0, limit) == ReadLoop(parse, chunk, source, 1, limit);
    assert ReadLoop(parse, chunk, source, 1, limit) == Polled(parse, answer + [NL], source, 1, limit);
  }

  lemma BlankFirst(parse: Parser, chunk: string, rest: string)
    requires chunk == [NL] + rest
    ensures NextLine(parse, chunk) == (Null, rest)
  {
    assert chunk[0] == NL && IndexOf(chunk, 0) == 0 && chunk[..0] == "" && chunk[1..] == rest;
  }
}

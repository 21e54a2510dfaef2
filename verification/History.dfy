/** Session histories: what it means for tool calls and tool results to be paired, the repair that is
    applied before a history is sent to a language model, and the cut that history compaction chooses. */
module History {
  import opened Sequences

  datatype Role = User | Assistant | Tool

  datatype ToolCall = ToolCall(id: string, name: string, args: string)

  datatype Message = Message(role: Role, text: string, toolCalls: seq<ToolCall>,
                             toolName: string, toolCallId: string, toolResult: string)

  const MAX_HISTORY_SIZE: nat := 30
  const COMPACTION_THRESHOLD: nat := 15
  const COMPACTION_COUNT: nat := 10

  function TextMessage(role: Role, text: string): Message {
    Message(role, text, [], "", "", "")
  }

  predicate IsCaller(m: Message) {
    m.role.Assistant? && m.toolCalls != []
  }

  /** The results `rs` answer `calls` one for one: same number, same order, same ids. */
  predicate Answers(rs: seq<Message>, calls: seq<ToolCall>) {
    && |rs| == |calls|
    && forall i :: 0 <= i < |rs| ==> rs[i].role.Tool? && rs[i].toolCallId == calls[i].id
  }

  predicate AllTool(rs: seq<Message>) {
    forall i :: 0 <= i < |rs| ==> rs[i].role.Tool?
  }

  /** A message together with the results it must be followed by. */
  function BlockSize(m: Message): (n: nat)
    ensures n >= 1
  {
    if IsCaller(m) then 1 + |m.toolCalls| else 1
  }

  predicate GoodBlock(h: seq<Message>)
    requires h != []
  {
    && BlockSize(h[0]) <= |h|
    && (IsCaller(h[0]) ==> Answers(h[1..BlockSize(h[0])], h[0].toolCalls))
  }

  /** Every assistant message with calls is followed at once by its results, and there are no other results. */
  predicate Closed(h: seq<Message>)
    decreases |h|
  {
    h == [] || (!h[0].role.Tool? && GoodBlock(h) && Closed(h[BlockSize(h[0])..]))
  }

  /** As `Closed`, but results that belong to no call (strays) may stand between the groups. */
  predicate Complete(h: seq<Message>)
    decreases |h|
  {
    h == [] || (GoodBlock(h) && Complete(h[BlockSize(h[0])..]))
  }

  function HeadStrays(m: Message): seq<Message> {
    if m.role.Tool? then [m] else []
  }

  function Strays(h: seq<Message>): seq<Message>
    requires Complete(h)
    decreases |h|
  {
    if h == [] then [] else HeadStrays(h[0]) + Strays(h[BlockSize(h[0])..])
  }

  function CallIds(calls: seq<ToolCall>): (ids: seq<string>)
    ensures |ids| == |calls|
    ensures forall i :: 0 <= i < |ids| ==> ids[i] == calls[i].id
  {
    seq(|calls|, i requires 0 <= i < |calls| => calls[i].id)
  }

  function HeadLabels(m: Message): seq<string> {
    if IsCaller(m) then CallIds(m.toolCalls) else if m.role.Tool? then [m.toolCallId] else []
  }

  /** The call ids a complete history mentions, one per group member and one per stray, in order. */
  function Labels(h: seq<Message>): seq<string>
    requires Complete(h)
    decreases |h|
  {
    if h == [] then [] else HeadLabels(h[0]) + Labels(h[BlockSize(h[0])..])
  }

  predicate Distinct(s: seq<string>) {
    forall i, j :: 0 <= i < j < |s| ==> s[i] != s[j]
  }

  lemma DistinctConcat(a: seq<string>, b: seq<string>)
    ensures Distinct(a + b) <==> Distinct(a) && Distinct(b) && forall x :: x in a ==> x !in b
  {
    var c := a + b;
    if Distinct(c) {
      assert forall i :: 0 <= i < |a| ==> c[i] == a[i];
      assert forall i :: 0 <= i < |b| ==> c[|a| + i] == b[i];
      assert Distinct(b) by {
        forall i, j | 0 <= i < j < |b| ensures b[i] != b[j] {
          assert c[|a| + i] != c[|a| + j];
        }
      }
    } else if Distinct(a) && Distinct(b) {
      var i, j :| 0 <= i < j < |c| && c[i] == c[j];
      assert c[i] in a;
    }
  }

  /** The invariant of a session whose prompts run one at a time: complete, and no id used twice or left blank. */
  predicate Sound(h: seq<Message>) {
    Complete(h) && Distinct(Labels(h)) && "" !in Labels(h)
  }

  // ---------------------------------------------------------------- structure of complete histories

  /** Behind the head of a good block stand results only. */
  lemma BlockTools(h: seq<Message>)
    requires h != [] && GoodBlock(h)
    ensures forall k :: 1 <= k < BlockSize(h[0]) ==> h[k].role.Tool?
  {
    forall k | 1 <= k < BlockSize(h[0]) ensures h[k].role.Tool? {
      assert h[k] == h[1..BlockSize(h[0])][k - 1];
    }
  }

  /** What follows the first block does not change whether the first block is good. */
  lemma BlockOfConcat(a: seq<Message>, b: seq<Message>)
    requires a != [] && BlockSize(a[0]) <= |a|
    ensures (a + b)[0] == a[0] && GoodBlock(a + b) == GoodBlock(a)
    ensures (a + b)[BlockSize(a[0])..] == a[BlockSize(a[0])..] + b
  {
    assert (a + b)[1..BlockSize(a[0])] == a[1..BlockSize(a[0])];
  }

  lemma {:induction false} ClosedIffNoStrays(h: seq<Message>)
    ensures Closed(h) <==> Complete(h) && Strays(h) == []
    decreases |h|
  {
    if h != [] && GoodBlock(h) {
      ClosedIffNoStrays(h[BlockSize(h[0])..]);
    }
  }

  /** A closed history may be cut exactly in front of a message that is not a result. */
  lemma {:induction false} ClosedSplit(h: seq<Message>, c: nat)
    requires Closed(h) && c < |h|
    ensures Closed(h[c..]) <==> !h[c].role.Tool?
    ensures Closed(h[..c]) <==> !h[c].role.Tool?
    decreases |h|
  {
    var b := BlockSize(h[0]);
    if 0 < c < b {
      assert h[c] == h[1..b][c - 1];
      assert h[..c][0] == h[0];
    } else if c >= b {
      ClosedSplit(h[b..], c - b);
      assert h[b..][c - b..] == h[c..];
      assert h[..c][b..] == h[b..][..c - b];
      assert h[..c][1..b] == h[1..b];
    }
  }

  lemma ConcatStep(a: seq<Message>, b: seq<Message>)
    requires a != [] && GoodBlock(a) && Complete(a[BlockSize(a[0])..] + b)
    ensures Complete(a + b)
    ensures Labels(a + b) == HeadLabels(a[0]) + Labels(a[BlockSize(a[0])..] + b)
    ensures Strays(a + b) == HeadStrays(a[0]) + Strays(a[BlockSize(a[0])..] + b)
  {
    BlockOfConcat(a, b);
  }

  lemma {:induction false} CompleteConcat(a: seq<Message>, b: seq<Message>)
    requires Complete(a) && Complete(b)
    ensures Complete(a + b)
    ensures Labels(a + b) == Labels(a) + Labels(b)
    ensures Strays(a + b) == Strays(a) + Strays(b)
    decreases |a|
  {
    if a == [] {
      assert a + b == b;
    } else {
      var rest := a[BlockSize(a[0])..];
      CompleteConcat(rest, b);
      ConcatStep(a, b);
      Assoc(HeadLabels(a[0]), Labels(rest), Labels(b));
      Assoc(HeadStrays(a[0]), Strays(rest), Strays(b));
    }
  }

  /** Appending a closed piece neither repairs nor breaks what stands before it. */
  lemma {:induction false} ClosedAppendIff(a: seq<Message>, b: seq<Message>)
    requires Closed(b)
    ensures Closed(a + b) <==> Closed(a)
    decreases |a|
  {
    if a == [] {
      assert a + b == b;
    } else {
      assert (a + b)[0] == a[0];
      var n := BlockSize(a[0]);
      if n <= |a| {
        BlockOfConcat(a, b);
        ClosedAppendIff(a[n..], b);
      } else if b == [] {
        assert a + b == a;
      } else if n <= |a + b| {
        assert (a + b)[1..n][|a| - 1] == b[0];
      }
    }
  }

  function ResultIds(rs: seq<Message>): seq<string> {
    seq(|rs|, i requires 0 <= i < |rs| => rs[i].toolCallId)
  }

  lemma {:induction false} ToolRunComplete(rs: seq<Message>, rest: seq<Message>)
    requires AllTool(rs) && Complete(rest)
    ensures Complete(rs + rest) && Labels(rs + rest) == ResultIds(rs) + Labels(rest)
  {
    if rs == [] {
      assert rs + rest == rest;
    } else {
      ToolRunComplete(rs[1..], rest);
      ConcatStep(rs, rest);
      assert ResultIds(rs) == [rs[0].toolCallId] + ResultIds(rs[1..]);
      Assoc([rs[0].toolCallId], ResultIds(rs[1..]), Labels(rest));
    }
  }

  /** Forgetting the oldest message turns the results of a forgotten call into strays and changes no label before them. */
  lemma {:induction false} DropOldest(h: seq<Message>)
    requires Complete(h) && h != []
    ensures Complete(h[1..])
    ensures Labels(h[1..]) == if h[0].role.Tool? then Labels(h)[1..] else Labels(h)
  {
    if IsCaller(h[0]) {
      var rs, rest := h[1..BlockSize(h[0])], h[BlockSize(h[0])..];
      ToolRunComplete(rs, rest);
      assert ResultIds(rs) == HeadLabels(h[0]);
      assert h[1..] == rs + rest;
    } else if h[0].role.Tool? {
      assert ([h[0].toolCallId] + Labels(h[1..]))[1..] == Labels(h[1..]);
    } else {
      assert [] + Labels(h[1..]) == Labels(h[1..]);
    }
  }

  lemma {:induction false} DropMany(h: seq<Message>, k: nat)
    requires Complete(h) && k <= |h|
    ensures Complete(h[k..])
    ensures exists p :: 0 <= p <= |Labels(h)| && Labels(h[k..]) == Labels(h)[p..]
    decreases k
  {
    if k == 0 {
      assert h[0..] == h;
      assert Labels(h[k..]) == Labels(h)[0..];
    } else {
      DropMany(h, k - 1);
      var p :| 0 <= p <= |Labels(h)| && Labels(h[k - 1..]) == Labels(h)[p..];
      DropOldest(h[k - 1..]);
      assert h[k - 1..][1..] == h[k..];
      var q := if h[k - 1].role.Tool? then p + 1 else p;
      assert Labels(h[k..]) == Labels(h)[q..];
    }
  }

  lemma SoundDrop(h: seq<Message>, k: nat)
    requires Sound(h) && k <= |h|
    ensures Sound(h[k..])
    ensures forall x :: x in Labels(h[k..]) ==> x in Labels(h)
  {
    DropMany(h, k);
    var p :| 0 <= p <= |Labels(h)| && Labels(h[k..]) == Labels(h)[p..];
  }

  /** Appending a sound piece with ids not seen before keeps a session sound. */
  lemma SoundConcat(a: seq<Message>, b: seq<Message>)
    requires Sound(a) && Sound(b)
    requires forall x :: x in Labels(a) ==> x !in Labels(b)
    ensures Sound(a + b)
    ensures Labels(a + b) == Labels(a) + Labels(b)
  {
    CompleteConcat(a, b);
    DistinctConcat(Labels(a), Labels(b));
  }

  lemma PlainSound(m: Message)
    requires !IsCaller(m) && !m.role.Tool?
    ensures Closed([m]) && Sound([m]) && Labels([m]) == []
  {
  }

  lemma GroupSound(c: Message, rs: seq<Message>)
    requires IsCaller(c) && Answers(rs, c.toolCalls)
    ensures Closed([c] + rs) && Complete([c] + rs) && Labels([c] + rs) == CallIds(c.toolCalls)
  {
    var g := [c] + rs;
    assert g[1..BlockSize(c)] == rs;
    assert g[BlockSize(c)..] == [];
    ClosedIffNoStrays(g);
  }

  // ---------------------------------------------------------------- repair before sending

  function AssistantIds(m: Message): set<string> {
    if m.role.Assistant? then set i | 0 <= i < |m.toolCalls| && m.toolCalls[i].id != "" :: m.toolCalls[i].id else {}
  }

  function ValidIds(h: seq<Message>): set<string> {
    if h == [] then {} else ValidIds(h[..|h| - 1]) + AssistantIds(h[|h| - 1])
  }

  predicate Kept(m: Message, ids: set<string>) {
    m.role.Tool? ==> m.toolCallId != "" && m.toolCallId in ids
  }

  function Keep(h: seq<Message>, ids: set<string>): seq<Message> {
    if h == [] then []
    else Keep(h[..|h| - 1], ids) + (if Kept(h[|h| - 1], ids) then [h[|h| - 1]] else [])
  }

  function Sanitize(h: seq<Message>): seq<Message> {
    Keep(h, ValidIds(h))
  }

  /** Two passes over the vector: collect the ids of all calls, then remove the results with no such id. */
  method SanitizeHistory(history: seq<Message>) returns (r: seq<Message>)
    ensures r == Sanitize(history)
  {
    var ids: set<string> := {};
    for i := 0 to |history|
      invariant ids == ValidIds(history[..i])
    {
      var m := history[i];
      if m.role.Assistant? {
        var added: set<string> := {};
        for j := 0 to |m.toolCalls|
          invariant added == set k | 0 <= k < j && m.toolCalls[k].id != "" :: m.toolCalls[k].id
        {
          if m.toolCalls[j].id != "" {
            added := added + {m.toolCalls[j].id};
          }
        }
        ids := ids + added;
      }
      assert history[..i + 1][..i] == history[..i];
    }
    assert history[..|history|] == history;
    r := [];
    for i := 0 to |history|
      invariant r == Keep(history[..i], ids)
    {
      if Kept(history[i], ids) {
        r := r + [history[i]];
      }
      assert history[..i + 1][..i] == history[..i];
    }
  }

  lemma {:induction false} KeepConcat(a: seq<Message>, b: seq<Message>, ids: set<string>)
    ensures Keep(a + b, ids) == Keep(a, ids) + Keep(b, ids)
    decreases |b|
  {
    if b == [] {
      assert a + b == a;
    } else {
      KeepConcat(a, b[..|b| - 1], ids);
      assert (a + b)[..|a + b| - 1] == a + b[..|b| - 1];
    }
  }

  lemma {:induction false} ValidIdsContains(h: seq<Message>, i: nat, j: nat)
    requires i < |h| && h[i].role.Assistant? && j < |h[i].toolCalls| && h[i].toolCalls[j].id != ""
    ensures h[i].toolCalls[j].id in ValidIds(h)
    decreases |h|
  {
    if i < |h| - 1 {
      ValidIdsContains(h[..|h| - 1], i, j);
    }
  }

  lemma {:induction false} KeptShape(h: seq<Message>, ids: set<string>)
    ensures forall i :: 0 <= i < |Keep(h, ids)| ==> Kept(Keep(h, ids)[i], ids)
    ensures AllTool(h) ==> AllTool(Keep(h, ids)) && |Keep(h, ids)| <= |h|
    ensures h != [] && !h[0].role.Tool? ==> Keep(h, ids) != [] && Keep(h, ids)[0] == h[0]
    ensures (forall i :: 0 <= i < |h| ==> Kept(h[i], ids)) ==> Keep(h, ids) == h
    decreases |h|
  {
    if h != [] {
      KeptShape(h[..|h| - 1], ids);
    }
  }

  predicate CallsNamed(m: Message) {
    IsCaller(m) ==> forall j :: 0 <= j < |m.toolCalls| ==> m.toolCalls[j].id != ""
  }

  predicate CallsKnown(m: Message, ids: set<string>) {
    IsCaller(m) ==> forall j :: 0 <= j < |m.toolCalls| && m.toolCalls[j].id != "" ==> m.toolCalls[j].id in ids
  }

  predicate NoBlankCalls(h: seq<Message>) {
    forall i :: 0 <= i < |h| ==> CallsNamed(h[i])
  }

  predicate Orphans(ms: seq<Message>, ids: set<string>) {
    forall i :: 0 <= i < |ms| ==> ms[i].toolCallId == "" || ms[i].toolCallId !in ids
  }

  lemma KeepGroup(h: seq<Message>, ids: set<string>)
    requires h != [] && GoodBlock(h) && IsCaller(h[0]) && CallsKnown(h[0], ids)
    ensures Closed(Keep(h, ids)) <==> Closed(Keep(h[BlockSize(h[0])..], ids)) && CallsNamed(h[0])
  {
    var c, rs, rest := h[0], h[1..BlockSize(h[0])], h[BlockSize(h[0])..];
    assert h == [c] + rs + rest;
    KeepBehind(c, rs, rest, ids);
    if CallsNamed(c) {
      KeepAnswers(c, rs, ids);
      ClosedBehindGroup(c, rs, Keep(rest, ids));
    } else {
      KeepConcat(rs, rest, ids);
      KeptShape(rs + rest, ids);
      KeepLosesBlank(c, Keep(rs + rest, ids), ids);
      Assoc([c], Keep(rs, ids), Keep(rest, ids));
    }
  }

  lemma KeepAnswers(c: Message, rs: seq<Message>, ids: set<string>)
    requires IsCaller(c) && Answers(rs, c.toolCalls) && CallsKnown(c, ids) && CallsNamed(c)
    ensures Keep(rs, ids) == rs
  {
    forall i | 0 <= i < |rs| ensures Kept(rs[i], ids) {
      assert c.toolCalls[i].id == rs[i].toolCallId;
    }
    KeptShape(rs, ids);
  }

  lemma KeepBehind(c: Message, rs: seq<Message>, rest: seq<Message>, ids: set<string>)
    requires IsCaller(c)
    ensures Keep([c] + rs + rest, ids) == [c] + Keep(rs, ids) + Keep(rest, ids)
  {
    KeepConcat([c] + rs, rest, ids);
    KeepConcat([c], rs, ids);
    assert Keep([c], ids) == [c] by { assert [c][..0] == []; }
  }

  lemma ClosedBehindGroup(c: Message, rs: seq<Message>, x: seq<Message>)
    requires IsCaller(c) && Answers(rs, c.toolCalls)
    ensures Closed([c] + rs + x) <==> Closed(x)
  {
    var k := [c] + rs + x;
    assert k[BlockSize(c)..] == x;
    assert k[1..BlockSize(c)] == rs;
  }

  /** A call with a blank id cannot be answered by results that survived the repair. */
  lemma KeepLosesBlank(c: Message, k: seq<Message>, ids: set<string>)
    requires IsCaller(c) && !CallsNamed(c)
    requires forall i :: 0 <= i < |k| ==> Kept(k[i], ids)
    ensures !Closed([c] + k)
  {
    var j :| 0 <= j < |c.toolCalls| && c.toolCalls[j].id == "";
    var b := BlockSize(c);
    var h := [c] + k;
    if b <= |h| {
      BlankUnanswered(c, k[..b - 1], j) by { assert Kept(k[j], ids); }
      assert h[1..b] == k[..b - 1];
    }
  }

  lemma BlankUnanswered(c: Message, rs: seq<Message>, j: nat)
    requires j < |c.toolCalls| == |rs| && c.toolCalls[j].id == "" && (rs[j].role.Tool? ==> rs[j].toolCallId != "")
    ensures !Answers(rs, c.toolCalls)
  {
  }

  lemma {:induction false} KeepClosedIff(h: seq<Message>, ids: set<string>)
    requires Complete(h)
    requires forall i :: 0 <= i < |h| ==> CallsKnown(h[i], ids)
    ensures Closed(Keep(h, ids)) <==> NoBlankCalls(h) && Orphans(Strays(h), ids)
    decreases |h|
  {
    if h != [] {
      var b := BlockSize(h[0]);
      var rest := h[b..];
      KeepClosedIff(rest, ids);
      NamedBlocks(h);
      if IsCaller(h[0]) {
        KeepGroup(h, ids);
      } else {
        KeepSingle(h, ids);
      }
      StraysSplit(h, ids);
    }
  }

  lemma NamedBlocks(h: seq<Message>)
    requires h != [] && GoodBlock(h)
    ensures NoBlankCalls(h) <==> CallsNamed(h[0]) && NoBlankCalls(h[BlockSize(h[0])..])
  {
    var b := BlockSize(h[0]);
    var rest := h[b..];
    BlockTools(h);
    assert forall i :: b <= i < |h| ==> h[i] == rest[i - b];
    assert forall i :: 0 <= i < |rest| ==> rest[i] == h[i + b];
  }

  lemma KeepSingle(h: seq<Message>, ids: set<string>)
    requires h != [] && !IsCaller(h[0])
    ensures Closed(Keep(h, ids)) <==> Closed(Keep(h[1..], ids)) && Orphans(HeadStrays(h[0]), ids)
  {
    KeepOther(h, ids);
    assert h[0].role.Tool? ==> HeadStrays(h[0])[0] == h[0];
  }

  lemma StraysSplit(h: seq<Message>, ids: set<string>)
    requires Complete(h) && h != []
    ensures Orphans(Strays(h), ids) <==> Orphans(HeadStrays(h[0]), ids) && Orphans(Strays(h[BlockSize(h[0])..]), ids)
  {
    var a, b := HeadStrays(h[0]), Strays(h[BlockSize(h[0])..]);
    assert Strays(h) == a + b;
    assert forall i :: 0 <= i < |a| ==> a[i] == (a + b)[i];
    assert forall i :: 0 <= i < |b| ==> b[i] == (a + b)[|a| + i];
  }

  /** For complete histories: the repair closes them exactly when no call has a blank id and every stray is
      either blank or names no call of the history. */
  lemma CompleteSanitizeClosedIff(h: seq<Message>)
    requires Complete(h)
    ensures Closed(Sanitize(h)) <==> NoBlankCalls(h) && Orphans(Strays(h), ValidIds(h))
  {
    forall i | 0 <= i < |h| && IsCaller(h[i]) ensures CallsKnown(h[i], ValidIds(h)) {
      forall j | 0 <= j < |h[i].toolCalls| && h[i].toolCalls[j].id != "" ensures h[i].toolCalls[j].id in ValidIds(h) {
        ValidIdsContains(h, i, j);
      }
    }
    KeepClosedIff(h, ValidIds(h));
  }

  // ---------------------------------------------------------------- repair of any history

  /** How many results stand at the front. */
  function RunLength(h: seq<Message>): (n: nat)
    ensures n <= |h| && AllTool(h[..n]) && (n < |h| ==> !h[n].role.Tool?)
  {
    if h == [] || !h[0].role.Tool? then 0 else 1 + RunLength(h[1..])
  }

  /** What a history must look like for the repair to close it: behind each call, the results of the run that
      follows at once answer it once those without a known id are taken out; no other result has a known id. */
  predicate Repairable(h: seq<Message>, ids: set<string>)
    decreases |h|
  {
    if h == [] then true
    else if IsCaller(h[0]) then
      var n := RunLength(h[1..]);
      Answers(Keep(h[1..][..n], ids), h[0].toolCalls) && Repairable(h[1..][n..], ids)
    else !(h[0].role.Tool? && Kept(h[0], ids)) && Repairable(h[1..], ids)
  }

  /** Between a call and the next message that is no result: the group is closed exactly when it answers the call. */
  lemma ClosedGroupIff(c: Message, k: seq<Message>, rest: seq<Message>)
    requires IsCaller(c) && AllTool(k) && (rest == [] || !rest[0].role.Tool?)
    ensures Closed([c] + k + rest) <==> Answers(k, c.toolCalls) && Closed(rest)
  {
    var h, b := [c] + k + rest, BlockSize(c);
    if Answers(k, c.toolCalls) {
      ClosedBehindGroup(c, k, rest);
    } else if b <= |h| {
      if |k| < b - 1 {
        assert h[1..b][|k|] == rest[0];
      } else if |k| == b - 1 {
        assert h[1..b] == k;
      } else {
        assert h[b..][0] == k[b - 1];
      }
    }
  }

  lemma KeepRun(c: Message, run: seq<Message>, rest: seq<Message>, ids: set<string>)
    requires IsCaller(c) && AllTool(run) && (rest == [] || !rest[0].role.Tool?)
    ensures Closed(Keep([c] + run + rest, ids)) <==> Answers(Keep(run, ids), c.toolCalls) && Closed(Keep(rest, ids))
  {
    KeepBehind(c, run, rest, ids);
    KeptShape(run, ids);
    KeptShape(rest, ids);
    ClosedGroupIff(c, Keep(run, ids), Keep(rest, ids));
  }

  lemma {:induction false} KeepRepairableIff(h: seq<Message>, ids: set<string>)
    ensures Closed(Keep(h, ids)) <==> Repairable(h, ids)
    decreases |h|
  {
    if h != [] {
      if IsCaller(h[0]) {
        var n := RunLength(h[1..]);
        var run, rest := h[1..][..n], h[1..][n..];
        assert h == [h[0]] + run + rest;
        hide Closed, Keep, Answers, AllTool, RunLength;
        KeepRun(h[0], run, rest, ids);
        KeepRepairableIff(rest, ids);
      } else {
        KeepOther(h, ids);
        KeepRepairableIff(h[1..], ids);
      }
    }
  }

  lemma KeepOther(h: seq<Message>, ids: set<string>)
    requires h != [] && !IsCaller(h[0])
    ensures Closed(Keep(h, ids)) <==> !(h[0].role.Tool? && Kept(h[0], ids)) && Closed(Keep(h[1..], ids))
  {
    var m, rest := h[0], h[1..];
    assert h == [m] + rest;
    KeepConcat([m], rest, ids);
    assert Keep([m], ids) == if Kept(m, ids) then [m] else [] by { assert [m][..0] == []; }
    if Kept(m, ids) {
      assert ([m] + Keep(rest, ids))[1..] == Keep(rest, ids);
    } else {
      assert [] + Keep(rest, ids) == Keep(rest, ids);
    }
  }

  /** What the repair achieves, for any history: it comes out closed exactly when behind each call the results
      that follow at once and carry an id of some call are the call's own, one for one and in order, and no
      result elsewhere carries such an id. */
  lemma SanitizeClosedIff(h: seq<Message>)
    ensures Closed(Sanitize(h)) <==> Repairable(h, ValidIds(h))
  {
    KeepRepairableIff(h, ValidIds(h));
  }

  lemma {:induction false} MismatchNotClosed(a: seq<Message>, c: Message, rs: seq<Message>, b: seq<Message>)
    requires IsCaller(c) && AllTool(rs) && !Answers(rs, c.toolCalls)
    requires b == [] || !b[0].role.Tool?
    ensures !Closed(a + ([c] + rs + b))
    decreases |a|
  {
    var h := a + ([c] + rs + b);
    if a == [] {
      assert h == [c] + rs + b;
      ClosedGroupIff(c, rs, b);
    } else {
      var n := BlockSize(a[0]);
      if n <= |a| {
        MismatchNotClosed(a[n..], c, rs, b);
        assert h[n..] == a[n..] + ([c] + rs + b);
      } else if n <= |h| {
        assert h[1..n][|a| - 1] == c;
      }
    }
  }

  /** The repair never helps a call whose surviving results do not answer it, be they too few, too many,
      foreign or in another order: the history stays open whatever surrounds it. */
  lemma MismatchStaysOpen(a: seq<Message>, c: Message, rs: seq<Message>, b: seq<Message>)
    requires IsCaller(c) && AllTool(rs) && !Answers(Keep(rs, ValidIds(a + [c] + rs + b)), c.toolCalls)
    requires b == [] || !b[0].role.Tool?
    ensures !Closed(Sanitize(a + [c] + rs + b))
  {
    var ids := ValidIds(a + [c] + rs + b);
    assert a + [c] + rs + b == a + ([c] + rs + b);
    KeepConcat(a, [c] + rs + b, ids);
    KeepBehind(c, rs, b, ids);
    KeptShape(rs, ids);
    KeptShape(b, ids);
    MismatchNotClosed(Keep(a, ids), c, Keep(rs, ids), Keep(b, ids));
  }

  /** In particular a call that misses results stays open. */
  lemma OpenCallStaysOpen(a: seq<Message>, c: Message, rs: seq<Message>, b: seq<Message>)
    requires IsCaller(c) && AllTool(rs) && |rs| < |c.toolCalls|
    requires b == [] || !b[0].role.Tool?
    ensures !Closed(Sanitize(a + [c] + rs + b))
  {
    KeptShape(rs, ValidIds(a + [c] + rs + b));
    MismatchStaysOpen(a, c, rs, b);
  }

  lemma {:induction false} LabelsOfCalls(h: seq<Message>, i: nat, j: nat)
    requires Complete(h) && i < |h| && IsCaller(h[i]) && j < |h[i].toolCalls|
    ensures h[i].toolCalls[j].id in Labels(h)
    decreases |h|
  {
    var b := BlockSize(h[0]);
    BlockTools(h);
    if i == 0 {
      assert CallIds(h[0].toolCalls)[j] == Labels(h)[j];
    } else {
      LabelsOfCalls(h[b..], i - b, j);
    }
  }

  lemma LabelsSplit(h: seq<Message>)
    requires Complete(h) && h != [] && Distinct(Labels(h))
    ensures var rest := h[BlockSize(h[0])..];
            && Distinct(Labels(rest))
            && forall x :: x in HeadLabels(h[0]) ==> x !in Labels(rest)
  {
    DistinctConcat(HeadLabels(h[0]), Labels(h[BlockSize(h[0])..]));
  }

  lemma StraysStep(h: seq<Message>, s: nat)
    requires Complete(h) && s < |Strays(h)|
    ensures if h[0].role.Tool? && s == 0 then Strays(h)[s] == h[0]
            else var s' := if h[0].role.Tool? then s - 1 else s;
                 s' < |Strays(h[BlockSize(h[0])..])| && Strays(h)[s] == Strays(h[BlockSize(h[0])..])[s']
  {
  }

  lemma {:induction false} StrayNamesNoCall(h: seq<Message>, s: nat, i: nat, j: nat)
    requires Complete(h) && Distinct(Labels(h))
    requires s < |Strays(h)| && i < |h| && IsCaller(h[i]) && j < |h[i].toolCalls|
    ensures Strays(h)[s].toolCallId != h[i].toolCalls[j].id
    decreases |h|
  {
    var b := BlockSize(h[0]);
    var rest := h[b..];
    LabelsSplit(h);
    StraysStep(h, s);
    BlockTools(h);
    if h[0].role.Tool? && s == 0 {
      LabelsOfCalls(rest, i - 1, j);
      assert h[0].toolCallId == HeadLabels(h[0])[0];
    } else {
      var s' := if h[0].role.Tool? then s - 1 else s;
      if i == 0 {
        assert h[0].toolCalls[j].id == HeadLabels(h[0])[j];
        StrayLabelled(rest, s');
      } else {
        StrayNamesNoCall(rest, s', i - b, j);
      }
    }
  }

  lemma {:induction false} StrayLabelled(h: seq<Message>, s: nat)
    requires Complete(h) && s < |Strays(h)|
    ensures Strays(h)[s].toolCallId in Labels(h)
    decreases |h|
  {
    if h[0].role.Tool? {
      assert Labels(h)[0] == h[0].toolCallId;
      if s > 0 {
        StrayLabelled(h[1..], s - 1);
      }
    } else {
      StrayLabelled(h[BlockSize(h[0])..], s);
    }
  }

  lemma {:induction false} ValidIdsWitness(h: seq<Message>, id: string)
    requires id in ValidIds(h)
    ensures exists i, j :: 0 <= i < |h| && IsCaller(h[i]) && 0 <= j < |h[i].toolCalls| && h[i].toolCalls[j].id == id
    decreases |h|
  {
    if id in AssistantIds(h[|h| - 1]) {
      var j :| 0 <= j < |h[|h| - 1].toolCalls| && h[|h| - 1].toolCalls[j].id == id;
      assert IsCaller(h[|h| - 1]);
    } else {
      ValidIdsWitness(h[..|h| - 1], id);
      var i, j :| 0 <= i < |h| - 1 && IsCaller(h[..|h| - 1][i]) && 0 <= j < |h[..|h| - 1][i].toolCalls|
        && h[..|h| - 1][i].toolCalls[j].id == id;
      assert IsCaller(h[i]) && h[i].toolCalls[j].id == id;
    }
  }

  /** A sound session is always repaired completely. */
  lemma SoundSanitizesClosed(h: seq<Message>)
    requires Sound(h)
    ensures Closed(Sanitize(h))
  {
    CompleteSanitizeClosedIff(h);
    forall i | 0 <= i < |h| && IsCaller(h[i]) ensures CallsNamed(h[i]) {
      forall j | 0 <= j < |h[i].toolCalls| ensures h[i].toolCalls[j].id != "" {
        LabelsOfCalls(h, i, j);
      }
    }
    forall s | 0 <= s < |Strays(h)| ensures Strays(h)[s].toolCallId !in ValidIds(h) {
      if Strays(h)[s].toolCallId in ValidIds(h) {
        ValidIdsWitness(h, Strays(h)[s].toolCallId);
        var i, j :| 0 <= i < |h| && IsCaller(h[i]) && 0 <= j < |h[i].toolCalls|
          && h[i].toolCalls[j].id == Strays(h)[s].toolCallId;
        StrayNamesNoCall(h, s, i, j);
      }
    }
  }

  // ---------------------------------------------------------------- the compaction cut

  function SkipTools(h: seq<Message>, c: nat): (r: nat)
    requires c + 2 <= |h|
    ensures c <= r <= |h| - 2
    ensures forall i :: c <= i < r ==> h[i].role.Tool?
    ensures r < |h| - 2 ==> !h[r].role.Tool?
    decreases |h| - c
  {
    if c < |h| - 2 && h[c].role.Tool? then SkipTools(h, c + 1) else c
  }

  /** How far the cut moves from `c`: over the rest of a group, and over one whole further group if it
      starts right behind a result; never past the second last message. */
  function Cut(h: seq<Message>, c: nat): (r: nat)
    requires 1 <= c && c + 2 <= |h|
    ensures c <= r <= |h| - 2
    decreases |h| - c
  {
    if c == |h| - 2 then c
    else if IsCaller(h[c - 1]) then SkipTools(h, c)
    else if h[c - 1].role.Tool? then Cut(h, c + 1)
    else c
  }

  function Min(a: nat, b: nat): nat {
    if a < b then a else b
  }

  method CompactionCut(history: seq<Message>) returns (count: nat)
    requires |history| > COMPACTION_THRESHOLD
    ensures count == Cut(history, COMPACTION_COUNT)
  {
    count := Min(COMPACTION_COUNT, |history| - 2);
    while count < |history| - 2
      invariant COMPACTION_COUNT <= count <= |history| - 2
      invariant Cut(history, count) == Cut(history, COMPACTION_COUNT)
    {
      var last := history[count - 1];
      if last.role.Assistant? && last.toolCalls != [] {
        ghost var goal := SkipTools(history, count);
        while count < |history| - 2 && history[count].role.Tool?
          invariant COMPACTION_COUNT <= count <= |history| - 2
          invariant SkipTools(history, count) == goal
        {
          count := count + 1;
        }
        break;
      }
      if last.role.Tool? {
        count := count + 1;
      } else {
        break;
      }
    }
  }

  /** Where the cut may stop: at the cap, behind a plain message, or in front of a message that is no result once
      the way there has met a call. */
  predicate StopsAt(h: seq<Message>, c: nat, r: nat)
    requires 1 <= c <= r && r + 2 <= |h|
  {
    || r == |h| - 2
    || (!IsCaller(h[r - 1]) && !h[r - 1].role.Tool?)
    || (!h[r].role.Tool? && exists k :: c - 1 <= k < r && IsCaller(h[k]))
  }

  /** The cut moves no further than it must: it is the first place from `c` on where it may stop. */
  lemma {:induction false} CutIsFirstStop(h: seq<Message>, c: nat)
    requires 1 <= c && c + 2 <= |h|
    ensures StopsAt(h, c, Cut(h, c)) && forall r :: c <= r < Cut(h, c) ==> !StopsAt(h, c, r)
    decreases |h| - c
  {
    if c < |h| - 2 && !IsCaller(h[c - 1]) && h[c - 1].role.Tool? {
      CutIsFirstStop(h, c + 1);
      forall r | c + 1 <= r <= Cut(h, c) ensures StopsAt(h, c, r) <==> StopsAt(h, c + 1, r) {
        assert forall k :: c - 1 <= k < r && IsCaller(h[k]) ==> c <= k;
      }
    }
  }

  /** In a conversation without tools the ten oldest messages are taken, and never more. */
  lemma PlainHistoryCut(h: seq<Message>)
    requires |h| > COMPACTION_THRESHOLD && !h[COMPACTION_COUNT - 1].role.Tool? && !IsCaller(h[COMPACTION_COUNT - 1])
    ensures Cut(h, COMPACTION_COUNT) == 10
  {
  }

  /** Each result follows a result or a call. */
  predicate Adjacent(h: seq<Message>) {
    forall i :: 0 <= i < |h| && h[i].role.Tool? ==> i > 0 && (h[i - 1].role.Tool? || IsCaller(h[i - 1]))
  }

  lemma {:induction false} ClosedAdjacent(h: seq<Message>)
    requires Closed(h)
    ensures Adjacent(h)
    decreases |h|
  {
    if h != [] {
      var b := BlockSize(h[0]);
      ClosedAdjacent(h[b..]);
      forall i | 0 <= i < |h| && h[i].role.Tool? ensures i > 0 && (h[i - 1].role.Tool? || IsCaller(h[i - 1])) {
        if 1 < i < b {
          assert h[i - 1] == h[1..b][i - 2];
        } else if i >= b {
          assert h[i] == h[b..][i - b];
          assert h[i - 1] == h[b..][i - b - 1];
        }
      }
    }
  }

  /** From message `c - 1` up to the third last there is no plain message and at most one call, and the
      second last message is a result: the group that the cap would have to split. */
  predicate CapSplitsGroup(h: seq<Message>, c: nat)
    requires 1 <= c && c + 2 <= |h|
  {
    var n := |h| - 2;
    && h[n].role.Tool?
    && (forall i :: c - 1 <= i < n ==> h[i].role.Tool? || IsCaller(h[i]))
    && (forall i, j :: c - 1 <= i < j < n ==> !(IsCaller(h[i]) && IsCaller(h[j])))
  }

  lemma {:induction false} CutSplitsIff(h: seq<Message>, c: nat)
    requires 1 <= c && c + 2 <= |h| && Adjacent(h)
    ensures h[Cut(h, c)].role.Tool? <==> CapSplitsGroup(h, c)
    ensures h[Cut(h, c)].role.Tool? ==> Cut(h, c) == |h| - 2
    decreases |h| - c
  {
    var n := |h| - 2;
    if c < n && h[c - 1].role.Tool? {
      CutSplitsIff(h, c + 1);
    } else if c < n && IsCaller(h[c - 1]) {
      var r := SkipTools(h, c);
      if r == n && h[n].role.Tool? {
        assert forall i :: c <= i < n ==> !IsCaller(h[i]);
      }
    }
  }

  function Compressed(text: string): Message {
    TextMessage(Assistant, "[compressed] " + text)
  }

  /** Compaction of a closed history keeps it closed exactly when the cap of two kept messages does not
      fall inside a tool group; it then replaces at least ten messages, and at most all but two. */
  lemma CompactionClosedIff(h: seq<Message>, summary: string)
    requires Closed(h) && |h| > COMPACTION_THRESHOLD
    ensures COMPACTION_COUNT <= Cut(h, COMPACTION_COUNT) <= |h| - 2
    ensures Closed([Compressed(summary)] + h[Cut(h, COMPACTION_COUNT)..]) <==> !CapSplitsGroup(h, COMPACTION_COUNT)
    ensures Closed(h[..Cut(h, COMPACTION_COUNT)]) <==> !CapSplitsGroup(h, COMPACTION_COUNT)
  {
    var c := Cut(h, COMPACTION_COUNT);
    ClosedAdjacent(h);
    CutSplitsIff(h, COMPACTION_COUNT);
    ClosedSplit(h, c);
    PlainSound(Compressed(summary));
    var r := [Compressed(summary)] + h[c..];
    assert r[1..] == h[c..];
  }

  /** The cap does split groups: nine messages followed by one round of six or more parallel calls. */
  lemma WideRoundIsSplit(a: seq<Message>, c: Message, rs: seq<Message>, summary: string)
    requires Closed(a) && |a| == 9
    requires IsCaller(c) && Answers(rs, c.toolCalls) && |rs| >= 6
    ensures var h := a + ([c] + rs);
            Closed(h) && |h| > COMPACTION_THRESHOLD && !Closed([Compressed(summary)] + h[Cut(h, COMPACTION_COUNT)..])
  {
    var h := a + ([c] + rs);
    GroupSound(c, rs);
    ClosedAppendIff(a, [c] + rs);
    hide Closed, Cut;
    WideGroupSplit(a, c, rs);
    hide CapSplitsGroup, Answers;
    CompactionClosedIff(h, summary);
  }

  lemma WideGroupSplit(a: seq<Message>, c: Message, rs: seq<Message>)
    requires |a| == 9 && IsCaller(c) && AllTool(rs) && |rs| >= 6
    ensures CapSplitsGroup(a + ([c] + rs), COMPACTION_COUNT)
  {
    var h := a + ([c] + rs);
    assert h[9] == c;
    forall i | 10 <= i < |h| ensures h[i].role.Tool? && !IsCaller(h[i]) {
      assert h[i] == rs[i - 10];
    }
  }

  /** For any history, closed or not: below the cap, the kept part starts with a result only if that
      result already stood behind a message that is neither a call nor a result. */
  lemma {:induction false} CutNeverSplitsPair(h: seq<Message>, c: nat)
    requires 1 <= c && c + 2 <= |h|
    ensures var r := Cut(h, c); r < |h| - 2 && h[r].role.Tool? ==> !h[r - 1].role.Tool? && !IsCaller(h[r - 1])
    decreases |h| - c
  {
    if c < |h| - 2 && !IsCaller(h[c - 1]) && h[c - 1].role.Tool? {
      CutNeverSplitsPair(h, c + 1);
    }
  }

  /** Compaction of a sound session keeps it sound, even when the cap splits a group. */
  lemma CompactionSound(h: seq<Message>, c: nat, summary: string)
    requires Sound(h) && c <= |h|
    ensures Sound([Compressed(summary)] + h[c..])
    ensures forall x :: x in Labels([Compressed(summary)] + h[c..]) ==> x in Labels(h)
  {
    SoundDrop(h, c);
    PlainSound(Compressed(summary));
    SoundConcat([Compressed(summary)], h[c..]);
  }
}

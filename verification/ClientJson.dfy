/** The client library's hand-written JSON: escaping strings, and extracting string values by search. */
module ClientJson {
  import opened Options
  import opened Sequences
  import opened Strings

  const QUOTE := '"'
  const BACKSLASH := '\\'

  function EscapedChar(c: char): (e: string)
    ensures 1 <= |e| <= 2
  {
    if c == QUOTE then [BACKSLASH, QUOTE]
    else if c == BACKSLASH then [BACKSLASH, BACKSLASH]
    else if c == '\n' then [BACKSLASH, 'n']
    else if c == '\r' then [BACKSLASH, 'r']
    else if c == '\t' then [BACKSLASH, 't']
    else [c]
  }

  function Escaped(s: string): string {
    if s == "" then "" else EscapedChar(s[0]) + Escaped(s[1..])
  }

  method JsonEscape(s: string) returns (out: string)
    ensures out == Escaped(s)
  {
    out := "";
    for i := 0 to |s|
      invariant out + Escaped(s[i..]) == Escaped(s)
    {
      assert s[i..][0] == s[i] && s[i..][1..] == s[i + 1..];
      Assoc(out, EscapedChar(s[i]), Escaped(s[i + 1..]));
      out := out + EscapedChar(s[i]);
    }
    assert s[|s|..] == "";
    assert out + "" == out;
  }

  // ---------------------------------------------------------------- decoding undoes escaping

  /** What a two-character escape stands for (section 7 of RFC 8259). */
  function Unescaped(c: char): Option<char> {
    if c == QUOTE || c == BACKSLASH || c == '/' then Some(c)
    else if c == 'b' then Some(8 as char)
    else if c == 'f' then Some(12 as char)
    else if c == 'n' then Some('\n')
    else if c == 'r' then Some('\r')
    else if c == 't' then Some('\t')
    else None
  }

  predicate Control(c: char) {
    c < ' '
  }

  /** The value of a lower-case hexadecimal digit. */
  function Digit(c: char): Option<nat> {
    if '0' <= c <= '9' then Some(c as int - '0' as int)
    else if 'a' <= c <= 'f' then Some(c as int - 'a' as int + 10)
    else None
  }

  /** The four-digit escape of a character below 256. */
  function FourDigits(s: string): Option<char> {
    if |s| < 6 || s[2] != '0' || s[3] != '0' then None
    else match (Digit(s[4]), Digit(s[5]))
         case (Some(h), Some(l)) => Some((16 * h + l) as char)
         case _ => None
  }

  /** The content of a JSON string between its quotes; raw quotes and raw control characters are not allowed. */
  function Decode(s: string): Option<string> {
    if s == "" then Some("")
    else if s[0] == BACKSLASH then
      if |s| == 1 then None
      else if s[1] == 'u' then
        if |s| < 6 then None
        else match (FourDigits(s), Decode(s[6..]))
             case (Some(c), Some(r)) => Some([c] + r)
             case _ => None
      else match (Unescaped(s[1]), Decode(s[2..]))
           case (Some(c), Some(r)) => Some([c] + r)
           case _ => None
    else if s[0] == QUOTE || Control(s[0]) then None
    else match Decode(s[1..])
         case Some(r) => Some([s[0]] + r)
         case None => None
  }

  predicate Printable(v: string) {
    forall i :: 0 <= i < |v| ==> !Control(v[i]) || v[i] in "\n\r\t"
  }

  /** Decoding the escaped string gives the string back exactly when it has no control characters other than
      newline, carriage return and tab. */
  lemma {:induction false} DecodeEscapedIff(v: string)
    ensures Decode(Escaped(v)) == Some(v) <==> Printable(v)
    ensures Decode(Escaped(v)).None? <==> !Printable(v)
    decreases |v|
  {
    if v != "" {
      var c, t := v[0], Escaped(v[1..]);
      DecodeEscapedIff(v[1..]);
      DecodeChar(c, t);
      assert Printable(v) <==> (!Control(c) || c in "\n\r\t") && Printable(v[1..]) by {
        assert forall i :: 0 < i < |v| ==> v[i] == v[1..][i - 1];
      }
      hide Printable, Decode;
      assert [c] + v[1..] == v;
    }
  }

  predicate NeedsEscape(c: char) {
    c == QUOTE || c == BACKSLASH || Control(c)
  }

  /** One character in front of decodable or undecodable text. */
  function InFront(c: char, r: Option<string>): Option<string> {
    if r.None? then None else Some([c] + r.value)
  }

  lemma DecodePlain(c: char, t: string)
    ensures !NeedsEscape(c) ==> Decode([c] + t) == InFront(c, Decode(t))
    ensures Control(c) ==> Decode([c] + t).None?
  {
    assert ([c] + t)[1..] == t;
  }

  lemma DecodeShort(x: char, t: string)
    requires x != 'u' && Unescaped(x).Some?
    ensures Decode([BACKSLASH, x] + t) == InFront(Unescaped(x).value, Decode(t))
  {
    assert ([BACKSLASH, x] + t)[2..] == t;
  }

  /** Decoding the escape of one character gives that character, or fails if it is a raw control character. */
  lemma DecodeChar(c: char, t: string)
    ensures Decode(EscapedChar(c) + t) == if Control(c) && c !in "\n\r\t" then None else InFront(c, Decode(t))
  {
    if |EscapedChar(c)| == 2 {
      DecodeShort(EscapedChar(c)[1], t);
    } else {
      DecodePlain(c, t);
    }
  }

  // ---------------------------------------------------------------- extracting a value

  function Needle(key: string): string {
    [QUOTE] + key + "\":\""
  }

  /** From `i` up to the first quote that no backslash precedes, or to the end. */
  function Value(json: string, i: nat): string
    requires i <= |json|
    decreases |json| - i
  {
    if i == |json| || (json[i] == QUOTE && (i == 0 || json[i - 1] != BACKSLASH)) then ""
    else [json[i]] + Value(json, i + 1)
  }

  function Extracted(json: string, key: string): string {
    var p := Find(json, Needle(key), 0);
    if p == -1 then "" else Value(json, p + |Needle(key)|)
  }

  method ExtractJsonValue(json: string, key: string) returns (val: string)
    ensures val == Extracted(json, key)
  {
    var needle := Needle(key);
    var pos := Find(json, needle, 0);
    if pos == -1 {
      return "";
    }
    var start := pos + |needle|;
    val := "";
    var i := start;
    while i < |json|
      invariant start <= i <= |json|
      invariant val + Value(json, i) == Value(json, start)
    {
      if json[i] == QUOTE && (i == 0 || json[i - 1] != BACKSLASH) {
        break;
      }
      Assoc(val, [json[i]], Value(json, i + 1));
      val := val + [json[i]];
      i := i + 1;
    }
    assert val + "" == val;
  }

  /** Every quote stands behind a backslash. */
  predicate Guarded(e: string) {
    forall k :: 0 <= k < |e| && e[k] == QUOTE ==> k > 0 && e[k - 1] == BACKSLASH
  }

  predicate EndsInBackslash(s: string) {
    s != "" && s[|s| - 1] == BACKSLASH
  }

  lemma {:induction false} EscapedShape(v: string)
    ensures Guarded(Escaped(v))
    ensures EndsInBackslash(Escaped(v)) <==> EndsInBackslash(v)
    decreases |v|
  {
    if v != "" {
      EscapedShape(v[1..]);
      var a, b := EscapedChar(v[0]), Escaped(v[1..]);
      assert v[1..] == "" ==> b == "";
      assert v[1..] != "" ==> b != "" && v[|v| - 1] == v[1..][|v| - 2];
      forall k | 0 <= k < |a + b| && (a + b)[k] == QUOTE ensures k > 0 && (a + b)[k - 1] == BACKSLASH {
        if k >= |a| {
          assert b[k - |a|] == QUOTE;
        }
      }
    }
  }

  /** The search needle never occurs inside escaped text, for whatever key. */
  lemma NeedleNotInEscaped(v: string, key: string, p: nat)
    ensures !OccursAt(Escaped(v), Needle(key), p)
  {
    EscapedShape(v);
    if OccursAt(Escaped(v), Needle(key), p) {
      NeedleEnds(Escaped(v), key, p);
    }
  }

  /** An occurrence of the needle ends in a colon and a quote. */
  lemma NeedleEnds(s: string, key: string, p: nat)
    requires OccursAt(s, Needle(key), p)
    ensures var q := p + |Needle(key)|; 2 <= q <= |s| && s[q - 2] == ':' && s[q - 1] == QUOTE
  {
    var n := Needle(key);
    assert s[p..p + |n|][|n| - 2] == n[|n| - 2] && s[p..p + |n|][|n| - 1] == n[|n| - 1];
  }

  lemma {:induction false} ValueThrough(json: string, i: nat, e: string)
    requires 0 < i && i + |e| <= |json| && json[i..i + |e|] == e
    requires forall k :: 0 <= k < |e| && e[k] == QUOTE ==> json[i + k - 1] == BACKSLASH
    ensures Value(json, i) == e + Value(json, i + |e|)
    decreases |e|
  {
    if e != "" {
      assert json[i] == e[0];
      assert json[i + 1..i + |e|] == e[1..];
      assert forall k :: 0 <= k < |e[1..]| ==> e[1..][k] == e[k + 1];
      ValueThrough(json, i + 1, e[1..]);
      Assoc([e[0]], e[1..], Value(json, i + |e|));
      assert [e[0]] + e[1..] == e;
    } else {
      assert "" + Value(json, i) == Value(json, i);
    }
  }

  /** From behind a quote, the copy loop returns a text whose quotes stand behind backslashes, and whose closing
      quote follows, exactly when the text does not end in a backslash. */
  lemma ValueIff(json: string, i: nat, e: string)
    requires 0 < i && i + |e| < |json| && json[i - 1] == QUOTE && json[i..i + |e|] == e && json[i + |e|] == QUOTE && Guarded(e)
    ensures Value(json, i) == e <==> !EndsInBackslash(e)
    ensures |Value(json, i)| >= |e|
  {
    hide Value;
    assert forall k :: 0 <= k < |e| ==> json[i + k] == e[k];
    forall k | 0 <= k < |e| && e[k] == QUOTE ensures json[i + k - 1] == BACKSLASH {
      assert json[i + (k - 1)] == e[k - 1];
    }
    ValueThrough(json, i, e);
    ValueAtQuote(json, i + |e|);
    assert e != "" ==> json[i + (|e| - 1)] == e[|e| - 1];
    assert |e + Value(json, i + |e|)| == |e| + |Value(json, i + |e|)|;
    assert Value(json, i + |e|) == "" ==> e + Value(json, i + |e|) == e;
  }

  /** Where the key's first occurrence is followed by such a text and its closing quote, the search returns exactly
      that text if and only if it does not end in a backslash. */
  lemma ExtractGuardedIff(pre: string, key: string, e: string, post: string)
    requires Guarded(e)
    requires Find(pre + Needle(key) + e + [QUOTE] + post, Needle(key), 0) == |pre|
    ensures Extracted(pre + Needle(key) + e + [QUOTE] + post, key) == e <==> !EndsInBackslash(e)
    ensures |Extracted(pre + Needle(key) + e + [QUOTE] + post, key)| >= |e|
  {
    var json := pre + Needle(key) + e + [QUOTE] + post;
    var i := |pre| + |Needle(key)|;
    hide Find, Value, Guarded, EndsInBackslash;
    assert json[i - 1] == QUOTE && json[i..i + |e|] == e && json[i + |e|] == QUOTE;
    ValueIff(json, i, e);
  }

  /** So an escaped value comes back exactly when the value does not end in a backslash. */
  lemma ExtractIff(pre: string, key: string, v: string, post: string)
    requires Find(pre + Needle(key) + Escaped(v) + [QUOTE] + post, Needle(key), 0) == |pre|
    ensures Extracted(pre + Needle(key) + Escaped(v) + [QUOTE] + post, key) == Escaped(v) <==> !EndsInBackslash(v)
  {
    EscapedShape(v);
    hide Escaped, Find, Extracted;
    ExtractGuardedIff(pre, key, Escaped(v), post);
  }

  lemma ValueAtQuote(json: string, i: nat)
    requires 0 < i < |json| && json[i] == QUOTE
    ensures Value(json, i) == "" <==> json[i - 1] != BACKSLASH
  {
  }

  // ---------------------------------------------------------------- the daemon's frames

  function HexDigit(n: nat): (c: char)
    requires n < 16
    ensures c != QUOTE && c != BACKSLASH && Digit(c) == Some(n)
  {
    if n < 10 then '0' + n as char else 'a' + (n - 10) as char
  }

  /** What the daemon's JSON library prints for one character of a string. */
  function DumpedChar(c: char): (e: string)
    ensures e != ""
  {
    if c == QUOTE || c == BACKSLASH then [BACKSLASH, c]
    else if c == 8 as char then [BACKSLASH, 'b']
    else if c == 12 as char then [BACKSLASH, 'f']
    else if c == '\n' then [BACKSLASH, 'n']
    else if c == '\r' then [BACKSLASH, 'r']
    else if c == '\t' then [BACKSLASH, 't']
    else if Control(c) then [BACKSLASH, 'u', '0', '0', HexDigit(c as int / 16), HexDigit(c as int % 16)]
    else [c]
  }

  function Dumped(s: string): string {
    if s == "" then "" else DumpedChar(s[0]) + Dumped(s[1..])
  }

  lemma {:induction false} DumpedShape(v: string)
    ensures Guarded(Dumped(v))
    ensures EndsInBackslash(Dumped(v)) <==> EndsInBackslash(v)
    ensures |Dumped(v)| >= |v|
    ensures Dumped(v) == v <==> forall i :: 0 <= i < |v| ==> !NeedsEscape(v[i])
    ensures |Dumped(v)| == |v| ==> Dumped(v) == v
    decreases |v|
  {
    if v != "" {
      DumpedShape(v[1..]);
      var a, b := DumpedChar(v[0]), Dumped(v[1..]);
      CharShape(v[0]);
      hide Dumped, DumpedChar;
      DumpedUnfold(v);
      GuardedConcat(a, b);
      assert v == [v[0]] + v[1..];
      assert v[1..] == "" ==> b == "" by { DumpedUnfold(v[1..]); }
      assert v[1..] != "" ==> b != "" && v[|v| - 1] == v[1..][|v| - 2];
      assert forall i :: 0 < i < |v| ==> v[i] == v[1..][i - 1];
    }
  }

  lemma DumpedUnfold(v: string)
    ensures Dumped(v) == if v == "" then "" else DumpedChar(v[0]) + Dumped(v[1..])
  {
  }

  lemma CharShape(c: char)
    ensures var e := DumpedChar(c);
            && Guarded(e) && (EndsInBackslash(e) <==> c == BACKSLASH)
            && (if NeedsEscape(c) then |e| > 1 else e == [c])
  {
  }

  lemma GuardedConcat(a: string, b: string)
    requires Guarded(a) && Guarded(b)
    ensures Guarded(a + b)
  {
    forall k | 0 <= k < |a + b| && (a + b)[k] == QUOTE ensures k > 0 && (a + b)[k - 1] == BACKSLASH {
      if k >= |a| {
        assert b[k - |a|] == QUOTE;
      }
    }
  }

  /** What the library prints decodes to the string it was given, for every string. */
  lemma {:induction false} DecodeDumped(v: string)
    ensures Decode(Dumped(v)) == Some(v)
    decreases |v|
  {
    if v != "" {
      DecodeDumped(v[1..]);
      DecodeDumpedChar(v[0], Dumped(v[1..]));
      assert [v[0]] + v[1..] == v;
    }
  }

  lemma DecodeDumpedChar(c: char, t: string)
    requires Decode(t).Some?
    ensures Decode(DumpedChar(c) + t) == Some([c] + Decode(t).value)
  {
    if !NeedsEscape(c) {
      DecodePlain(c, t);
    } else if |DumpedChar(c)| == 2 {
      DecodeShort(DumpedChar(c)[1], t);
    } else {
      DecodeLong(c, t);
    }
  }

  lemma DecodeLong(c: char, t: string)
    requires Control(c) && Decode(t).Some?
    ensures Decode([BACKSLASH, 'u', '0', '0', HexDigit(c as int / 16), HexDigit(c as int % 16)] + t) == Some([c] + Decode(t).value)
  {
    var e := [BACKSLASH, 'u', '0', '0', HexDigit(c as int / 16), HexDigit(c as int % 16)] + t;
    hide HexDigit, Digit;
    assert e[6..] == t;
    assert FourDigits(e) == Some(c);
  }

  const VERSION := "{\"jsonrpc\":\"2.0\","
  const PARAMS := ",\"params\":{"
  const ID := "{\"id\":1,\"jsonrpc\":\"2.0\","
  const RESULT_KEY := "\"result\":"
  const ERROR_KEY := "\"error\":"
  const RESULT := ID + RESULT_KEY + "{"

  /** A frame with a piece of a streamed answer. */
  function ChunkFrame(chunk: string): string {
    VERSION + Needle("method") + "stream_chunk" + [QUOTE] + (PARAMS + Needle("text") + Dumped(chunk) + [QUOTE] + "}}")
  }

  /** The frame with the whole answer. */
  function ResultFrame(answer: string): string {
    RESULT + Needle("text") + Dumped(answer) + [QUOTE] + "}}"
  }

  /** What the client does with a frame of a streamed answer: the text for the callback, and whether it was the last. */
  datatype Delivery = Delivery(text: string, last: bool)

  method DeliverFrame(frame: string) returns (d: Delivery)
    ensures d == Delivered(frame)
  {
    var name := ExtractJsonValue(frame, "method");
    var text := ExtractJsonValue(frame, "text");
    if name == "stream_chunk" {
      d := Delivery(text, false);
    } else if Find(frame, RESULT_KEY, 0) != -1 || Find(frame, ERROR_KEY, 0) != -1 {
      d := Delivery(text, true);
    } else {
      d := Delivery(frame, true);
    }
  }

  function Delivered(frame: string): Delivery {
    if Extracted(frame, "method") == "stream_chunk" then Delivery(Extracted(frame, "text"), false)
    else if Find(frame, RESULT_KEY, 0) != -1 || Find(frame, ERROR_KEY, 0) != -1
    then Delivery(Extracted(frame, "text"), true)
    else Delivery(frame, true)
  }

  predicate Lacks(s: string, c: char) {
    forall i :: 0 <= i < |s| ==> s[i] != c
  }

  lemma LacksIn(s: string, c: char)
    requires c !in s
    ensures Lacks(s, c)
  {
  }

  lemma LacksConcat(a: string, b: string, c: char)
    requires Lacks(a, c) && Lacks(b, c)
    ensures Lacks(a + b, c)
  {
  }

  /** Where one character differs there is no occurrence. */
  lemma NeedleMiss(s: string, key: string, p: nat, k: nat)
    requires k < |Needle(key)| && p + k < |s| && s[p + k] != Needle(key)[k]
    ensures !OccursAt(s, Needle(key), p)
  {
    var n := Needle(key);
    assert p + |n| <= |s| ==> s[p..p + |n|][k] == s[p + k];
  }

  lemma FirstAt(pre: string, n: string, rest: string)
    requires forall p: nat :: p < |pre| ==> !OccursAt(pre + n + rest, n, p)
    ensures Find(pre + n + rest, n, 0) == |pre|
  {
    assert (pre + n + rest)[|pre|..|pre| + |n|] == n;
    FoundFirst(pre + n + rest, n, 0, |pre|);
  }

  /** The needle cannot begin at `p`, so close to the end. */
  predicate CannotBegin(pre: string, key: string, p: nat)
    requires p < |pre|
  {
    pre[p] != QUOTE || (p + 1 < |pre| && pre[p + 1] != Needle(key)[1])
  }

  /** Behind a text that lacks a letter of the key and has no quote right where the needle would have to begin, the
      needle's first occurrence is the one that follows. */
  lemma NeedleFirst(pre: string, key: string, k: nat, rest: string)
    requires k < |Needle(key)| && Lacks(pre, Needle(key)[k])
    requires forall p :: 0 <= p < |pre| && p + k >= |pre| ==> CannotBegin(pre, key, p)
    ensures Find(pre + Needle(key) + rest, Needle(key), 0) == |pre|
  {
    var json := pre + Needle(key) + rest;
    forall p: nat | p < |pre| ensures !OccursAt(json, Needle(key), p) {
      if p + k < |pre| {
        assert json[p + k] == pre[p + k];
        NeedleMiss(json, key, p, k);
      } else if pre[p] != QUOTE {
        assert json[p] == pre[p];
        NeedleMiss(json, key, p, 0);
      } else {
        assert CannotBegin(pre, key, p);
        assert json[p + 1] == pre[p + 1];
        NeedleMiss(json, key, p, 1);
      }
    }
    FirstAt(pre, Needle(key), rest);
  }

  /** The front of a chunk frame, up to the needle for the text. */
  function ChunkFront(): string {
    VERSION + Needle("method") + "stream_chunk" + [QUOTE] + PARAMS
  }

  lemma ChunkFrontLacks()
    ensures Lacks(ChunkFront(), 'x')
  {
    assert Lacks(VERSION, 'x') && Lacks(Needle("method"), 'x') && Lacks("stream_chunk", 'x') && Lacks([QUOTE], 'x') && Lacks(PARAMS, 'x');
    hide Lacks, Needle;
    LacksConcat(VERSION, Needle("method"), 'x');
    LacksConcat(VERSION + Needle("method"), "stream_chunk", 'x');
    LacksConcat(VERSION + Needle("method") + "stream_chunk", [QUOTE], 'x');
    LacksConcat(VERSION + Needle("method") + "stream_chunk" + [QUOTE], PARAMS, 'x');
  }

  /** The front ends in a key, a colon and a brace, so no needle begins there. */
  lemma ChunkFrontEnd(p: nat)
    requires p < |ChunkFront()| <= p + 3
    ensures CannotBegin(ChunkFront(), "text", p)
  {
    var front, n := ChunkFront(), |ChunkFront()|;
    assert front[n - 3] == PARAMS[|PARAMS| - 3] && front[n - 2] == PARAMS[|PARAMS| - 2] && front[n - 1] == PARAMS[|PARAMS| - 1];
  }

  /** A chunk frame is recognised as one, whatever the chunk says. */
  lemma ChunkFrameMethod(chunk: string)
    ensures Extracted(ChunkFrame(chunk), "method") == "stream_chunk"
  {
    hide Find, Extracted, Dumped, Needle;
    NameExtracted(PARAMS + Needle("text") + Dumped(chunk) + [QUOTE] + "}}");
  }

  lemma NameExtracted(post: string)
    ensures Extracted(VERSION + Needle("method") + "stream_chunk" + [QUOTE] + post, "method") == "stream_chunk"
  {
    assert Guarded("stream_chunk") && !EndsInBackslash("stream_chunk");
    hide Find, Guarded, Extracted, EndsInBackslash, Needle;
    MethodFirst("stream_chunk" + [QUOTE] + post);
    NameParts(post);
    ExtractGuardedIff(VERSION, "method", "stream_chunk", post);
  }

  lemma NameParts(post: string)
    ensures VERSION + Needle("method") + ("stream_chunk" + [QUOTE] + post)
         == VERSION + Needle("method") + "stream_chunk" + [QUOTE] + post
  {
    hide Needle;
    Assoc(VERSION + Needle("method"), "stream_chunk" + [QUOTE], post);
    Assoc(VERSION + Needle("method"), "stream_chunk", [QUOTE]);
  }

  lemma MethodFirst(rest: string)
    ensures Find(VERSION + Needle("method") + rest, Needle("method"), 0) == |VERSION|
  {
    hide Find;
    assert VERSION[|VERSION| - 1] == ',' && Lacks(VERSION, 'm') && Needle("method")[1] == 'm';
    NeedleFirst(VERSION, "method", 1, rest);
  }

  lemma ChunkFrameText(chunk: string)
    ensures Extracted(ChunkFrame(chunk), "text") == Dumped(chunk) <==> !EndsInBackslash(chunk)
    ensures |Extracted(ChunkFrame(chunk), "text")| >= |Dumped(chunk)|
  {
    DumpedShape(chunk);
    ChunkFrontLacks();
    hide Dumped, Find, Guarded, Extracted, ChunkFront, CannotBegin, Lacks;
    forall p | 0 <= p < |ChunkFront()| && p + 3 >= |ChunkFront()| ensures CannotBegin(ChunkFront(), "text", p) {
      ChunkFrontEnd(p);
    }
    var rest := Dumped(chunk) + [QUOTE] + "}}";
    assert Needle("text")[3] == 'x' && Needle("text")[1] == 't';
    NeedleFirst(ChunkFront(), "text", 3, rest);
    ChunkFrameParts(chunk);
    assert ChunkFront() + Needle("text") + rest == ChunkFront() + Needle("text") + Dumped(chunk) + [QUOTE] + "}}";
    ExtractGuardedIff(ChunkFront(), "text", Dumped(chunk), "}}");
  }

  lemma ChunkFrameParts(chunk: string)
    ensures ChunkFrame(chunk) == ChunkFront() + Needle("text") + Dumped(chunk) + [QUOTE] + "}}"
  {
  }

  /** A chunk frame is delivered as one, but its text still escaped: the callback gets what the library printed
      exactly when the chunk does not end in a backslash, and the chunk itself exactly when nothing in it needs
      escaping. */
  lemma ChunkDeliveredIff(chunk: string)
    ensures var d := Delivered(ChunkFrame(chunk));
            && !d.last
            && (d.text == Dumped(chunk) <==> !EndsInBackslash(chunk))
            && (d.text == chunk <==> forall i :: 0 <= i < |chunk| ==> !NeedsEscape(chunk[i]))
  {
    ChunkFrameMethod(chunk);
    ChunkFrameText(chunk);
    DumpedShape(chunk);
    hide Dumped, Extracted, ChunkFrame;
  }

  lemma ResultShape()
    ensures Lacks(RESULT, 'x') && Lacks(RESULT + Needle("text"), 'm') && (RESULT + Needle("text"))[|RESULT| + 7] == QUOTE
  {
    assert Lacks(RESULT, 'm') && Lacks(Needle("text"), 'm');
    LacksConcat(RESULT, Needle("text"), 'm');
  }

  /** Nothing an answer says makes its frame look like a chunk. */
  lemma ResultFrameMethod(answer: string)
    ensures Extracted(ResultFrame(answer), "method") == ""
  {
    DumpedShape(answer);
    ResultShape();
    hide Dumped, Lacks;
    var a, e := RESULT + Needle("text"), Dumped(answer);
    var json := ResultFrame(answer);
    assert json == a + e + "\"}}";
    assert Lacks("\"}}", 'h') by { LacksIn("\"}}", 'h'); }
    assert Needle("method")[1] == 'm' && Needle("method")[4] == 'h';
    forall p | 0 <= p <= |json| ensures !OccursAt(json, Needle("method"), p) {
      NoNeedleAt(a, e, "\"}}", "method", 1, 4, p);
    }
  }

  /** A needle cannot stand anywhere in a frame of a front, a guarded text and an end: a letter of the key is missing from
      the front, and another one from the end, unless a quote of the needle falls right behind the text. */
  lemma NoNeedleAt(a: string, e: string, end: string, key: string, k: nat, m: nat, p: nat)
    requires a != "" && Guarded(e) && key != "" && key[|key| - 1] != BACKSLASH
    requires k < |Needle(key)| && Lacks(a, Needle(key)[k])
    requires forall r :: 0 <= r < |a| - 1 && r + k >= |a| ==> CannotBegin(a, key, r)
    requires |end| >= 2 && end[0] == QUOTE && end[1] != ':'
    requires m <= |key| && Lacks(end, Needle(key)[m]) && forall i :: 1 <= i <= |key| - m && i < |end| ==> end[i] != QUOTE
    ensures !OccursAt(a + e + end, Needle(key), p)
  {
    var json, b, q := a + e + end, |a| + |e|, p + |key| + 1;
    if p + 1 < |a| {
      BeginsInFront(a, e + end, key, k, p);
      assert json == a + (e + end);
    } else if q < b {
      if json[q] == QUOTE {
        GuardedInside(a, e, end, q);
        NeedleMiss(json, key, p, |key|);
      } else {
        NeedleMiss(json, key, p, |key| + 1);
      }
    } else if p + |Needle(key)| <= |json| {
      hide Guarded;
      assert json[q] == end[q - b] && json[q + 1] == end[q + 1 - b];
      if q == b {
        NeedleMiss(json, key, p, |key| + 2);
      } else if end[q - b] != QUOTE {
        NeedleMiss(json, key, p, |key| + 1);
      } else {
        assert json[p + m] == end[p + m - b];
        NeedleMiss(json, key, p, m);
      }
    }
  }

  lemma BeginsInFront(a: string, rest: string, key: string, k: nat, p: nat)
    requires p + 1 < |a| && k < |Needle(key)| && Lacks(a, Needle(key)[k])
    requires p + k >= |a| ==> CannotBegin(a, key, p)
    requires key != ""
    ensures !OccursAt(a + rest, Needle(key), p)
  {
    var json := a + rest;
    assert json[p] == a[p] && json[p + 1] == a[p + 1];
    if p + k < |a| {
      assert json[p + k] == a[p + k];
      NeedleMiss(json, key, p, k);
    } else if a[p] != QUOTE {
      NeedleMiss(json, key, p, 0);
    } else {
      NeedleMiss(json, key, p, 1);
    }
  }

  /** In escaped text embedded at `a`, every quote stands behind a backslash. */
  lemma GuardedInside(a: string, e: string, rest: string, k: nat)
    requires Guarded(e) && |a| <= k < |a| + |e| && (a + e + rest)[k] == QUOTE
    ensures k > |a| && (a + e + rest)[k - 1] == BACKSLASH
  {
    assert e[k - |a|] == QUOTE;
  }

  lemma ResultFrameText(answer: string)
    ensures Extracted(ResultFrame(answer), "text") == Dumped(answer) <==> !EndsInBackslash(answer)
    ensures |Extracted(ResultFrame(answer), "text")| >= |Dumped(answer)|
  {
    DumpedShape(answer);
    ResultShape();
    hide Dumped, Find, Guarded;
    var rest := Dumped(answer) + [QUOTE] + "}}";
    assert Needle("text")[3] == 'x' && Needle("text")[1] == 't';
    NeedleFirst(RESULT, "text", 3, rest);
    assert RESULT + Needle("text") + rest == ResultFrame(answer);
    ExtractGuardedIff(RESULT, "text", Dumped(answer), "}}");
  }

  /** The frame with the whole answer is delivered as the last one, under the same conditions on its text. */
  lemma ResultDeliveredIff(answer: string)
    ensures var d := Delivered(ResultFrame(answer));
            && d.last
            && (d.text == Dumped(answer) <==> !EndsInBackslash(answer))
            && (d.text == answer <==> forall i :: 0 <= i < |answer| ==> !NeedsEscape(answer[i]))
  {
    ResultFrameMethod(answer);
    ResultFrameText(answer);
    DumpedShape(answer);
    ResultFound(answer);
    hide Dumped, Extracted, ResultFrame, Find;
  }

  lemma ResultFound(answer: string)
    ensures Find(ResultFrame(answer), RESULT_KEY, 0) != -1
  {
    hide Find, Dumped;
    var json := ResultFrame(answer);
    assert json == ID + RESULT_KEY + ("{" + Needle("text") + Dumped(answer) + [QUOTE] + "}}");
    assert json[|ID|..|ID| + |RESULT_KEY|] == RESULT_KEY;
    assert OccursAt(json, RESULT_KEY, |ID|);
  }

  const END := "\"},\"id\":1,\"jsonrpc\":\"2.0\"}"

  function ErrorFront(code: string): string {
    "{" + ERROR_KEY + "{\"code\":" + code + ",\"message\":\""
  }

  /** The frame with an error. */
  function ErrorFrame(code: string, message: string): string {
    ErrorFront(code) + Dumped(message) + END
  }

  /** An error code: a sign and digits. */
  predicate IsCode(code: string) {
    forall i :: 0 <= i < |code| ==> code[i] == '-' || '0' <= code[i] <= '9'
  }

  lemma ErrorFrontShape(code: string)
    requires IsCode(code)
    ensures var a := ErrorFront(code);
            && Lacks(a, 't') && |a| > 3
            && a[|a| - 3] == QUOTE && a[|a| - 2] == ':'
  {
    assert Lacks("{" + ERROR_KEY + "{\"code\":", 't') && Lacks(code, 't') && Lacks(",\"message\":\"", 't');
    hide IsCode;
    LacksConcat("{" + ERROR_KEY + "{\"code\":", code, 't');
    LacksConcat("{" + ERROR_KEY + "{\"code\":" + code, ",\"message\":\"", 't');
    var a, n := ErrorFront(code), |ErrorFront(code)|;
    assert a[n - 3] == ",\"message\":\""[|",\"message\":\""| - 3] && a[n - 2] == ",\"message\":\""[|",\"message\":\""| - 2];
  }

  lemma EndShape()
    ensures Lacks(END, 'h') && Lacks(END, 'x') && |END| > 3 && END[0] == QUOTE && END[1] == '}' && END[2] == ','
  {
  }

  /** An error frame has neither of the two values the client looks for, whatever the error says. */
  lemma ErrorFrameEmpty(code: string, message: string, key: string)
    requires IsCode(code) && (key == "method" || key == "text")
    ensures Extracted(ErrorFrame(code, message), key) == ""
  {
    var a, e, json := ErrorFront(code), Dumped(message), ErrorFrame(code, message);
    DumpedShape(message);
    ErrorFrontShape(code);
    EndShape();
    assert Needle("method")[3] == 't' && Needle("method")[4] == 'h' && Needle("method")[1] == 'm';
    assert Needle("text")[1] == 't' && Needle("text")[3] == 'x';
    hide Dumped, Lacks, ErrorFront, Guarded, Extracted;
    forall p | 0 <= p <= |json| ensures !OccursAt(json, Needle(key), p) {
      if key == "method" {
        NoNeedleAt(a, e, END, "method", 3, 4, p);
      } else {
        NoNeedleAt(a, e, END, "text", 1, 3, p);
      }
    }
    NotExtracted(json, key);
  }

  lemma NotExtracted(json: string, key: string)
    requires forall p :: 0 <= p <= |json| ==> !OccursAt(json, Needle(key), p)
    ensures Extracted(json, key) == ""
  {
  }

  /** An error frame is delivered as the last one, with an empty text: the callback never learns what went wrong. */
  lemma ErrorDelivered(code: string, message: string)
    requires IsCode(code)
    ensures Delivered(ErrorFrame(code, message)) == Delivery("", true)
  {
    ErrorFrameEmpty(code, message, "method");
    ErrorFrameEmpty(code, message, "text");
    ErrorFound(code, message);
    hide Extracted, ErrorFrame, Find;
  }

  lemma ErrorFound(code: string, message: string)
    ensures Find(ErrorFrame(code, message), ERROR_KEY, 0) != -1
  {
    hide Find, Dumped;
    var rest := "{\"code\":" + code + ",\"message\":\"" + Dumped(message) + END;
    assert ErrorFrame(code, message) == "{" + ERROR_KEY + rest;
    assert ("{" + ERROR_KEY + rest)[1..1 + |ERROR_KEY|] == ERROR_KEY;
    assert OccursAt(ErrorFrame(code, message), ERROR_KEY, 1);
  }

  /** A frame with none of these marks is handed on whole, as the last one. */
  lemma UnknownDelivered(frame: string)
    requires forall p :: 0 <= p <= |frame| ==> !OccursAt(frame, Needle("method"), p)
    requires forall p :: 0 <= p <= |frame| ==> !OccursAt(frame, RESULT_KEY, p) && !OccursAt(frame, ERROR_KEY, p)
    ensures Delivered(frame) == Delivery(frame, true)
  {
    NotExtracted(frame, "method");
  }
}

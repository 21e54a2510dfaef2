/** Quoting of command arguments, read back with the quoting rules of the POSIX shell (sections 2.2.1 to 2.2.3
    of the Shell Command Language, POSIX.1-2017). */
module ShellQuoting {
  import opened Options
  import opened Sequences

  const QUOTE := '\''
  const BACKSLASH := '\\'

  /** What `EscapeShellArg` puts for one character. */
  function Quoted(c: char): string {
    if c == QUOTE then [QUOTE, BACKSLASH, QUOTE, QUOTE] else [c]
  }

  function Body(s: string): string {
    if s == "" then "" else Body(s[..|s| - 1]) + Quoted(s[|s| - 1])
  }

  function Escaped(s: string): string {
    [QUOTE] + Body(s) + [QUOTE]
  }

  method EscapeShellArg(s: string) returns (out: string)
    ensures out == Escaped(s)
  {
    out := [QUOTE];
    for i := 0 to |s|
      invariant out == [QUOTE] + Body(s[..i])
    {
      assert s[..i + 1][..i] == s[..i];
      if s[i] == QUOTE {
        out := out + [QUOTE, BACKSLASH, QUOTE, QUOTE];
      } else {
        out := out + [s[i]];
      }
    }
    assert s[..|s|] == s;
    out := out + [QUOTE];
  }

  // ---------------------------------------------------------------- the shell's reading

  datatype Mode = Plain | Single | Double | Escape | DoubleEscape

  /** The words of a simple command, or that the shell does something else with it (an operator, an expansion,
      a comment, or a quote that never ends). */
  datatype Reading = Words(words: seq<string>) | Special

  /** Characters that mean something to the shell outside quotes. */
  predicate Active(c: char) {
    c in "|&;<>()$`\n*?[]#~{}!"
  }

  /** Reads `input` from a mode, with the word begun so far (if any) and the words finished so far. */
  function Read(m: Mode, word: Option<string>, done: seq<string>, input: string): Reading
    decreases |input|
  {
    var w := if word.Some? then word.value else "";
    if input == "" then
      if m.Plain? then Words(if word.Some? then done + [word.value] else done) else Special
    else
      var c, rest := input[0], input[1..];
      match m
      case Plain =>
        if c == QUOTE then Read(Single, Some(w), done, rest)
        else if c == '"' then Read(Double, Some(w), done, rest)
        else if c == BACKSLASH then Read(Escape, word, done, rest)
        else if c == ' ' || c == '\t' then Read(Plain, None, if word.Some? then done + [word.value] else done, rest)
        else if Active(c) then Special
        else Read(Plain, Some(w + [c]), done, rest)
      case Single =>
        if c == QUOTE then Read(Plain, word, done, rest) else Read(Single, Some(w + [c]), done, rest)
      case Escape =>
        if c == '\n' then Read(Plain, word, done, rest) else Read(Plain, Some(w + [c]), done, rest)
      case Double =>
        if c == '"' then Read(Plain, word, done, rest)
        else if c == BACKSLASH then Read(DoubleEscape, word, done, rest)
        else if c == '$' || c == '`' then Special
        else Read(Double, Some(w + [c]), done, rest)
      case DoubleEscape =>
        if c == '\n' then Read(Double, word, done, rest)
        else if c in "$`\"\\" then Read(Double, Some(w + [c]), done, rest)
        else Read(Double, Some(w + [BACKSLASH, c]), done, rest)
  }

  /** Inside the quotes the body adds exactly the characters of `s`, whatever follows. */
  lemma {:induction false} BodyReads(s: string, w: string, done: seq<string>, rest: string)
    ensures Read(Single, Some(w), done, Body(s) + rest) == Read(Single, Some(w + s), done, rest)
    decreases |s|
  {
    if s == "" {
      assert Body(s) + rest == rest && w + s == w;
    } else {
      var p, c := s[..|s| - 1], s[|s| - 1];
      BodyReads(p, w, done, Quoted(c) + rest);
      assert Body(s) + rest == Body(p) + (Quoted(c) + rest);
      assert w + s == (w + p) + [c];
      CharReads(c, w + p, done, rest);
    }
  }

  lemma CharReads(c: char, w: string, done: seq<string>, rest: string)
    ensures Read(Single, Some(w), done, Quoted(c) + rest) == Read(Single, Some(w + [c]), done, rest)
  {
    if c == QUOTE {
      var a := [QUOTE, BACKSLASH, QUOTE, QUOTE] + rest;
      assert a[1..] == [BACKSLASH, QUOTE, QUOTE] + rest && a[1..][1..] == [QUOTE, QUOTE] + rest;
      assert a[1..][1..][1..] == [QUOTE] + rest && a[1..][1..][1..][1..] == rest;
      assert Read(Single, Some(w), done, a) == Read(Plain, Some(w), done, a[1..]);
      assert Read(Plain, Some(w), done, a[1..]) == Read(Escape, Some(w), done, a[1..][1..]);
      assert Read(Escape, Some(w), done, a[1..][1..]) == Read(Plain, Some(w + [QUOTE]), done, a[1..][1..][1..]);
    } else {
      assert ([c] + rest)[1..] == rest;
    }
  }

  /** Read from the unquoted state, an escaped argument adds exactly the characters of `s` to the current word,
      breaks no word, means nothing else to the shell, and ends unquoted, whatever follows. */
  lemma EscapedReads(s: string, word: Option<string>, done: seq<string>, rest: string)
    ensures Read(Plain, word, done, Escaped(s) + rest)
         == Read(Plain, Some((if word.Some? then word.value else "") + s), done, rest)
  {
    var w := if word.Some? then word.value else "";
    var a := Escaped(s) + rest;
    assert a[0] == QUOTE && a[1..] == Body(s) + ([QUOTE] + rest);
    BodyReads(s, w, done, [QUOTE] + rest);
    assert ([QUOTE] + rest)[1..] == rest;
  }

  // ---------------------------------------------------------------- the command line of a tool

  const ASSIGN := "CLAW_ARGS="

  predicate Harmless(s: string) {
    forall i :: 0 <= i < |s| ==> !Active(s[i]) && s[i] !in "'\"\\ \t"
  }

  lemma {:induction false} HarmlessReads(s: string, w: string, done: seq<string>, rest: string)
    requires Harmless(s)
    ensures Read(Plain, Some(w), done, s + rest) == Read(Plain, Some(w + s), done, rest)
    decreases |s|
  {
    if s == "" {
      assert s + rest == rest && w + s == w;
    } else {
      HarmlessReads(s[1..], w + [s[0]], done, rest);
      assert (s + rest)[1..] == s[1..] + rest;
      assert w + [s[0]] + s[1..] == w + s;
    }
  }

  /** The command: the arguments as an assignment, the interpreter if the runtime has one, and the script. */
  function Command(args: string, interpreter: string, script: string): string {
    ASSIGN + Escaped(args) + (if interpreter == "" then "" else " " + interpreter) + " " + Escaped(script)
  }

  /** What the shell receives: a C string ends at its first NUL. */
  function CString(s: string): string {
    if s == "" || s[0] == '\0' then "" else [s[0]] + CString(s[1..])
  }

  predicate NoNul(s: string) {
    '\0' !in s
  }

  lemma {:induction false} CStringWhole(s: string)
    requires NoNul(s)
    ensures CString(s) == s
    decreases |s|
  {
    if s != "" {
      assert NoNul(s[1..]) by { assert forall c :: c in s[1..] ==> c in s; }
      CStringWhole(s[1..]);
    }
  }

  lemma {:induction false} BodyNoNul(s: string)
    requires NoNul(s)
    ensures NoNul(Body(s))
    decreases |s|
  {
    if s != "" {
      assert forall c :: c in s[..|s| - 1] ==> c in s;
      assert s[|s| - 1] in s;
      BodyNoNul(s[..|s| - 1]);
    }
  }

  /** Without NUL the shell splits the command into the assignment, the interpreter if any, and the script path. */
  lemma CommandReads(args: string, interpreter: string, script: string)
    requires Harmless(interpreter)
    ensures Read(Plain, None, [], Command(args, interpreter, script))
         == Words([ASSIGN + args] + (if interpreter == "" then [] else [interpreter]) + [script])
  {
    hide Read, Escaped;
    var first, mid := ASSIGN + args, Behind(interpreter, Escaped(script));
    CommandParts(args, interpreter, script);
    AssignReads(Escaped(args) + mid);
    EscapedReads(args, Some(ASSIGN), [], mid);
    BehindReads(first, interpreter, Escaped(script));
    if interpreter == "" {
      ScriptReads(first, [], script);
      assert [] + [first] + [script] == [first] + [] + [script];
    } else {
      ScriptReads(interpreter, [first], script);
    }
  }

  /** What stands between the arguments and the script, and the script. */
  function Behind(interpreter: string, script: string): string {
    (if interpreter == "" then "" else " " + interpreter) + (" " + script)
  }

  lemma CommandParts(args: string, interpreter: string, script: string)
    ensures Command(args, interpreter, script) == ASSIGN + (Escaped(args) + Behind(interpreter, Escaped(script)))
  {
  }

  /** After the first word, the interpreter becomes a word of its own; then comes the script. */
  lemma BehindReads(first: string, interpreter: string, script: string)
    requires Harmless(interpreter)
    ensures Read(Plain, Some(first), [], Behind(interpreter, script))
         == (if interpreter == "" then Read(Plain, Some(first), [], " " + script)
             else Read(Plain, Some(interpreter), [first], " " + script))
  {
    if interpreter == "" {
      assert Behind(interpreter, script) == " " + script;
    } else {
      var rest := interpreter + (" " + script);
      assert Behind(interpreter, script) == " " + rest;
      assert Behind(interpreter, script)[1..] == rest && [] + [first] == [first];
      InterpreterReads(interpreter, [first], " " + script);
    }
  }

  lemma {:induction false} BodyConcat(a: string, b: string)
    ensures Body(a + b) == Body(a) + Body(b)
    decreases |b|
  {
    hide Body;
    if b == "" {
      BodyEmpty();
      assert a + b == a && Body(a) + "" == Body(a);
    } else {
      var p, c := b[..|b| - 1], b[|b| - 1];
      BodyConcat(a, p);
      BodySnoc(p, c);
      BodySnoc(a + p, c);
      assert b == p + [c];
      Assoc(a, p, [c]);
      Assoc(Body(a), Body(p), Quoted(c));
    }
  }

  lemma BodyEmpty()
    ensures Body("") == ""
  {
  }

  lemma BodySnoc(s: string, c: char)
    ensures Body(s + [c]) == Body(s) + Quoted(c)
  {
    assert (s + [c])[..|s|] == s;
  }

  lemma {:induction false} CStringCut(s: string, rest: string)
    requires NoNul(s)
    ensures CString(s + ['\0'] + rest) == s
    decreases |s|
  {
    var t := s + ['\0'] + rest;
    if s != "" {
      assert NoNul(s[1..]) by { assert forall c :: c in s[1..] ==> c in s; }
      CStringCut(s[1..], rest);
      assert t[1..] == s[1..] + ['\0'] + rest;
    }
  }

  /** An argument with a NUL: the quote it opens never ends in what the shell receives. */
  lemma NulLeavesQuoteOpen(s: string, rest: string) returns (p: string, tail: string)
    requires !NoNul(s)
    ensures NoNul(p) && Escaped(s) + rest == [QUOTE] + Body(p) + ['\0'] + tail
  {
    FirstNul(s);
    var i :| 0 <= i < |s| && s[i] == '\0' && NoNul(s[..i]);
    hide Body;
    p := s[..i];
    BodyAtNul(s, i);
    tail := Body(s[i + 1..]) + [QUOTE] + rest;
    QuoteParts(Body(p), Body(s[i + 1..]), rest);
  }

  lemma BodyAtNul(s: string, i: nat)
    requires i < |s| && s[i] == '\0'
    ensures Body(s) == Body(s[..i]) + ['\0'] + Body(s[i + 1..])
  {
    hide Body;
    var p, q := s[..i], s[i + 1..];
    assert s == p + ['\0'] + q;
    BodySnoc(p, '\0');
    BodyConcat(p + ['\0'], q);
  }

  lemma QuoteParts(a: string, b: string, rest: string)
    ensures [QUOTE] + (a + ['\0'] + b) + [QUOTE] + rest == [QUOTE] + a + ['\0'] + (b + [QUOTE] + rest)
  {
  }

  lemma {:induction false} FirstNul(s: string)
    requires !NoNul(s)
    ensures exists i :: 0 <= i < |s| && s[i] == '\0' && NoNul(s[..i])
    decreases |s|
  {
    var p := s[..|s| - 1];
    if NoNul(p) {
      assert s == p + [s[|s| - 1]];
      assert s[|s| - 1] == '\0';
    } else {
      FirstNul(p);
      var i :| 0 <= i < |p| && p[i] == '\0' && NoNul(p[..i]);
      assert p[..i] == s[..i];
    }
  }

  lemma OpenQuoteReads(p: string, word: Option<string>, done: seq<string>)
    ensures Read(Plain, word, done, [QUOTE] + Body(p)) == Special
  {
    var w := if word.Some? then word.value else "";
    BodyReads(p, w, done, "");
    assert ([QUOTE] + Body(p))[1..] == Body(p) + "";
  }

  lemma NulInArgs(args: string, interpreter: string, script: string)
    requires !NoNul(args)
    ensures Read(Plain, None, [], CString(Command(args, interpreter, script))) == Special
  {
    CommandParts(args, interpreter, script);
    hide Read, Command, Escaped;
    var p, tail := NulLeavesQuoteOpen(args, Behind(interpreter, Escaped(script)));
    var open := [QUOTE] + Body(p);
    BodyNoNul(p);
    assert ASSIGN + (open + ['\0'] + tail) == ASSIGN + open + ['\0'] + tail;
    assert NoNul(ASSIGN + open);
    CStringCut(ASSIGN + open, tail);
    AssignReads(open);
    OpenQuoteReads(p, Some(ASSIGN), []);
  }

  lemma NulInScript(args: string, interpreter: string, script: string)
    requires NoNul(args) && NoNul(interpreter) && Harmless(interpreter) && !NoNul(script)
    ensures Read(Plain, None, [], CString(Command(args, interpreter, script))) == Special
  {
    CommandParts(args, interpreter, script);
    hide Read, Command;
    var p, tail := NulLeavesQuoteOpen(script, "");
    var open := [QUOTE] + Body(p);
    BodyNoNul(args);
    BodyNoNul(p);
    var front := ASSIGN + (Escaped(args) + Behind(interpreter, open));
    assert Escaped(script) + "" == Escaped(script);
    assert Command(args, interpreter, script) == front + ['\0'] + tail;
    assert NoNul(front);
    CStringCut(front, tail);
    var first := ASSIGN + args;
    AssignReads(Escaped(args) + Behind(interpreter, open));
    EscapedReads(args, Some(ASSIGN), [], Behind(interpreter, open));
    BehindReads(first, interpreter, open);
    OpenAfterSpace(if interpreter == "" then first else interpreter, if interpreter == "" then [] else [first], p);
  }

  lemma OpenAfterSpace(word: string, done: seq<string>, p: string)
    ensures Read(Plain, Some(word), done, " " + ([QUOTE] + Body(p))) == Special
  {
    assert (" " + ([QUOTE] + Body(p)))[1..] == [QUOTE] + Body(p);
    OpenQuoteReads(p, None, done + [word]);
  }

  /** What the shell makes of the command it receives: exactly the assignment, the interpreter if any and the
      script path, if and only if neither the arguments nor the script path contain a NUL. */
  lemma CommandReadsIff(args: string, interpreter: string, script: string)
    requires NoNul(interpreter) && Harmless(interpreter)
    ensures Read(Plain, None, [], CString(Command(args, interpreter, script)))
         == Words([ASSIGN + args] + (if interpreter == "" then [] else [interpreter]) + [script])
         <==> NoNul(args) && NoNul(script)
  {
    hide Read, Command, CString;
    if !NoNul(args) {
      NulInArgs(args, interpreter, script);
    } else if !NoNul(script) {
      NulInScript(args, interpreter, script);
    } else {
      CommandNoNul(args, interpreter, script);
      CStringWhole(Command(args, interpreter, script));
      CommandReads(args, interpreter, script);
    }
  }

  lemma CommandNoNul(args: string, interpreter: string, script: string)
    requires NoNul(args) && NoNul(interpreter) && NoNul(script)
    ensures NoNul(Command(args, interpreter, script))
  {
    BodyNoNul(args);
    BodyNoNul(script);
  }

  lemma AssignReads(rest: string)
    ensures Read(Plain, None, [], ASSIGN + rest) == Read(Plain, Some(ASSIGN), [], rest)
  {
    InterpreterReads(ASSIGN, [], rest);
  }

  lemma InterpreterReads(interpreter: string, done: seq<string>, rest: string)
    requires interpreter != "" && Harmless(interpreter)
    ensures Read(Plain, None, done, interpreter + rest) == Read(Plain, Some(interpreter), done, rest)
  {
    assert (interpreter + rest)[1..] == interpreter[1..] + rest;
    assert "" + [interpreter[0]] == [interpreter[0]];
    HarmlessReads(interpreter[1..], [interpreter[0]], done, rest);
    assert [interpreter[0]] + interpreter[1..] == interpreter;
  }

  lemma ScriptReads(word: string, done: seq<string>, script: string)
    ensures Read(Plain, Some(word), done, " " + Escaped(script)) == Words(done + [word] + [script])
  {
    assert (" " + Escaped(script))[1..] == Escaped(script) + "";
    EscapedReads(script, None, done + [word], "");
    assert "" + script == script;
  }
}

/** The directory of action schema files, against the list of actions the framework reports. */
module ActionStore {
  import opened Options
  import opened Strings

  datatype Param = Param(name: string, kind: string, description: string)

  /** What the printer uses of a schema; `dump` is the schema's JSON text. A schema does not render if it is no
      object, if a field the printer reads has another type, or if a text in it is not valid UTF-8: then the
      printer raises an exception, and the other fields mean nothing. */
  datatype Schema = Schema(description: string, category: string, params: Option<seq<Param>>, required: seq<string>,
                           privileges: seq<string>, dump: string, renders: bool)

  datatype Action = Action(name: string, schema: Schema)

  const FENCE := "```json\n"
  const CLOSE := "\n```"
  const EXTENSION := ".md"

  // ---------------------------------------------------------------- printing and extracting

  function RowText(p: Param, word: string): string {
    "| " + p.name + " | " + p.kind + " | " + word + " | " + p.description + " |\n"
  }

  function Rows(ps: seq<Param>, required: seq<string>): string {
    if ps == [] then ""
    else
      var p := ps[|ps| - 1];
      Rows(ps[..|ps| - 1], required) + RowText(p, if p.name in required then "yes" else "no")
  }

  function Bullets(ps: seq<string>): string {
    if ps == [] then "" else Bullets(ps[..|ps| - 1]) + "- " + ps[|ps| - 1] + "\n"
  }

  /** Everything above the JSON block. */
  function Intro(name: string, s: Schema): string {
    "# " + name + "\n\n"
    + (if s.description == "" then "" else s.description + "\n\n")
    + (if s.category == "" then "" else "**Category**: " + s.category + "\n\n")
    + (if s.params.None? then ""
       else "## Parameters\n\n| Name | Type | Required | Description |\n|------|------|----------|-------------|\n"
            + Rows(s.params.value, s.required) + "\n")
    + (if s.privileges == [] then "" else "## Privileges\n\n" + Bullets(s.privileges) + "\n")
  }

  function Header(name: string, s: Schema): string {
    Intro(name, s) + "## Schema\n\n"
  }

  function Content(name: string, s: Schema): string {
    Header(name, s) + FENCE + s.dump + (CLOSE + "\n")
  }

  /** `LoadCachedActions` on one file: from the first opening fence to the last closing one. */
  function Extract(content: string): Option<string> {
    var a := Find(content, FENCE, 0);
    var b := RFind(content, CLOSE, |content| + 1);
    if a == -1 || b == -1 || a + |FENCE| >= b then None else Some(content[a + |FENCE|..b])
  }

  /** What `LoadCachedActions` takes from one file: the text of its block, if that parses as JSON. */
  function Readable(content: string, parses: string -> bool): Option<string> {
    match Extract(content)
    case Some(text) => if parses(text) then Some(text) else None
    case None => None
  }

  predicate Mentions(s: string, needle: string) {
    exists p :: 0 <= p <= |s| && OccursAt(s, needle, p)
  }

  /** In a text that ends in a line break an occurrence of the fence lies inside or behind, never across. */
  lemma FenceAt(h: string, rest: string, p: nat)
    requires h != "" && h[|h| - 1] == '\n' && p < |h|
    ensures OccursAt(h + rest, FENCE, p) <==> OccursAt(h, FENCE, p)
  {
    if p + |FENCE| <= |h| {
      OccursInPart(h, rest, FENCE, p);
    } else {
      var k := |h| - 1 - p;
      assert FENCE[k] != '\n';
      assert p + |FENCE| <= |h + rest| ==> (h + rest)[p..p + |FENCE|][k] == '\n';
    }
  }

  /** The closing fence found from the end is the one the printer wrote last. */
  lemma LastClose(front: string)
    ensures var s := front + (CLOSE + "\n"); RFind(s, CLOSE, |s| + 1) == |front|
  {
    var s := front + (CLOSE + "\n");
    assert s[|front|..|front| + 4] == CLOSE;
    assert s[|front| + 1] == '`' && CLOSE[0] == '\n';
    assert OccursAt(s, CLOSE, |front|);
    forall p | |front| < p < |s| + 1 ensures !OccursAt(s, CLOSE, p) {
      assert p + 4 <= |s| ==> p == |front| + 1 && s[p..p + 4][0] == '`';
    }
  }

  /** A header, a fence, a text and a closing fence: extraction returns the text, whatever it contains, exactly
      when the header mentions no opening fence. */
  lemma ExtractBlock(h: string, text: string)
    requires h != "" && h[|h| - 1] == '\n' && text != ""
    ensures Extract(h + FENCE + text + (CLOSE + "\n")) == Some(text) <==> !Mentions(h, FENCE)
  {
    var s, rest := h + FENCE + text + (CLOSE + "\n"), FENCE + text + (CLOSE + "\n");
    assert s == h + rest;
    LastClose(h + FENCE + text);
    hide Find, RFind;
    if Mentions(h, FENCE) {
      var p :| 0 <= p <= |h| && OccursAt(h, FENCE, p);
      OccursInPart(h, rest, FENCE, p);
      assert Find(s, FENCE, 0) <= p;
      assert Extract(s).Some? ==> |Extract(s).value| > |text|;
    } else {
      forall p: nat | p < |h| ensures !OccursAt(s, FENCE, p) {
        FenceAt(h, rest, p);
      }
      assert s[|h|..|h| + |FENCE|] == FENCE;
      FoundFirst(s, FENCE, 0, |h|);
      assert s[|h| + |FENCE|..|h| + |FENCE| + |text|] == text;
    }
  }

  /** Reading back a written file gives the schema's JSON text, whatever that text contains, exactly when the
      rendered header does not contain the opening fence. */
  lemma ExtractContentIff(name: string, s: Schema)
    requires s.dump != ""
    ensures Extract(Content(name, s)) == Some(s.dump) <==> !Mentions(Header(name, s), FENCE)
  {
    assert Header(name, s)[|Header(name, s)| - 1] == '\n';
    hide Extract, Mentions, Intro;
    ExtractBlock(Header(name, s), s.dump);
  }

  // ---------------------------------------------------------------- the directory

  function FileName(name: string): string {
    name + EXTENSION
  }

  /** Files the directory scan takes: regular names with the extension and something before it. */
  predicate Listed(f: string) {
    '/' !in f && |f| > |EXTENSION| && f[|f| - |EXTENSION|..] == EXTENSION
  }

  function Stem(f: string): string
    requires Listed(f)
  {
    f[..|f| - |EXTENSION|]
  }

  /** Names that make a file of this directory. */
  predicate Usable(name: string) {
    name != "" && '/' !in name
  }

  lemma StemOf(name: string)
    ensures Listed(FileName(name)) <==> Usable(name)
    ensures Usable(name) ==> Stem(FileName(name)) == name
  {
    var f := FileName(name);
    assert f[..|name|] == name && f[|name|..] == EXTENSION;
    assert forall c :: c in name ==> c in f by {
      assert forall i :: 0 <= i < |name| ==> name[i] == f[i];
    }
    assert '/' in f ==> '/' in name by {
      assert forall i :: 0 <= i < |f| && f[i] == '/' ==> i < |name|;
    }
  }

  lemma StemBack(f: string)
    requires Listed(f)
    ensures FileName(Stem(f)) == f && Usable(Stem(f))
  {
    assert forall c :: c in Stem(f) ==> c in f;
  }

  /** The file of this directory that the path made from a name denotes: empty and `.` components vanish, and
      with any other component the path leads to a directory that is not there or elsewhere. */
  function Target(name: string): Option<string> {
    if '/' !in name then Some(FileName(name))
    else if name[0] == '/' then Target(name[1..])
    else if name[0] == '.' && name[1] == '/' then Target(name[2..])
    else None
  }

  lemma {:induction false} TargetShort(name: string)
    ensures Target(name).Some? ==> |Target(name).value| <= |name| + |EXTENSION|
    decreases |name|
  {
    if '/' in name {
      if name[0] == '/' {
        TargetShort(name[1..]);
      } else if name[0] == '.' && name[1] == '/' {
        TargetShort(name[2..]);
      }
    }
  }

  /** A schema that does not render raises before the file is opened; a path that leads elsewhere cannot be opened. */
  function Wrote(files: map<string, string>, a: Action): map<string, string> {
    if !a.schema.renders || Target(a.name).None? then files
    else files[Target(a.name).value := Content(a.name, a.schema)]
  }

  /** The directory after the action `name` was removed. */
  function Removed(files: map<string, string>, name: string): map<string, string> {
    if Target(name).None? then files else files - {Target(name).value}
  }

  /** Writing actions in order, up to the first whose schema does not render; and whether there is none. */
  function WroteAll(files: map<string, string>, actions: seq<Action>): (map<string, string>, bool) {
    if actions == [] then (files, true)
    else
      var (before, ok) := WroteAll(files, actions[..|actions| - 1]);
      if !ok || !actions[|actions| - 1].schema.renders then (before, false)
      else (Wrote(before, actions[|actions| - 1]), true)
  }

  predicate AllRender(actions: seq<Action>) {
    forall i :: 0 <= i < |actions| ==> actions[i].schema.renders
  }

  lemma {:induction false} WroteAllRender(files: map<string, string>, actions: seq<Action>)
    ensures WroteAll(files, actions).1 <==> AllRender(actions)
    decreases |actions|
  {
    if actions != [] {
      WroteAllRender(files, actions[..|actions| - 1]);
    }
  }

  /** Behind a schema that does not render nothing more is written. */
  lemma {:induction false} WroteAllStops(files: map<string, string>, actions: seq<Action>, i: nat)
    requires i <= |actions| && !WroteAll(files, actions[..i]).1
    ensures WroteAll(files, actions) == WroteAll(files, actions[..i])
    decreases |actions|
  {
    if i < |actions| {
      assert actions[..|actions| - 1][..i] == actions[..i];
      WroteAllStops(files, actions[..|actions| - 1], i);
    } else {
      assert actions[..i] == actions;
    }
  }

  function Kept(w: map<string, string>, unseen: set<string>, names: set<string>): map<string, string> {
    map f | f in w && (f in unseen || (Listed(f) ==> Stem(f) in names)) :: w[f]
  }

  lemma KeptAll(w: map<string, string>, names: set<string>)
    ensures Kept(w, w.Keys, names) == w
  {
  }

  lemma KeptStep(w: map<string, string>, unseen: set<string>, f: string, names: set<string>)
    ensures Kept(w, unseen - {f}, names)
         == (if Listed(f) && Stem(f) !in names then Kept(w, unseen, names) - {f} else Kept(w, unseen, names))
         || f !in unseen
  {
  }

  function Names(actions: seq<Action>): set<string> {
    set i | 0 <= i < |actions| :: actions[i].name
  }

  /** A sync that meets a schema it cannot render ends there, and removes nothing. */
  function Synced(files: map<string, string>, actions: seq<Action>): map<string, string> {
    var (written, ok) := WroteAll(files, actions);
    if ok then Kept(written, {}, Names(actions)) else written
  }

  /** An event: an action is gone, or was installed or updated. `a` is what a sync would store for the action;
      `readable` says that its schema could be fetched and parsed when the event came. */
  datatype ActionEvent = Uninstalled(name: string) | Changed(a: Action, readable: bool)

  /** An action that cannot be read when its event comes leaves the directory as it is. */
  function Evented(files: map<string, string>, e: ActionEvent): map<string, string> {
    match e
    case Uninstalled(name) => Removed(files, name)
    case Changed(a, readable) => if readable then Wrote(files, a) else files
  }

  class Store {
    var files: map<string, string>

    constructor (fs: map<string, string>)
      ensures files == fs
    {
      files := fs;
    }

    /** `ok` is false when printing the schema raises an exception. */
    method WriteActionMd(a: Action) returns (ok: bool)
      modifies this
      ensures ok == a.schema.renders
      ensures files == Wrote(old(files), a)
    {
      ok := a.schema.renders;
      if ok && Target(a.name).Some? {
        files := files[Target(a.name).value := Content(a.name, a.schema)];
      }
    }

    method RemoveActionMd(name: string)
      modifies this
      ensures files == Removed(old(files), name)
    {
      if Target(name).Some? {
        files := files - {Target(name).value};
      }
    }

    method IsCurrent(actions: seq<Action>, stem: string) returns (found: bool)
      ensures found <==> stem in Names(actions)
    {
      found := false;
      for i := 0 to |actions|
        invariant found <==> exists k :: 0 <= k < i && actions[k].name == stem
      {
        if actions[i].name == stem {
          found := true;
          break;
        }
      }
    }

    /** Write all current actions, then remove every listed file whose stem is no current action. A schema that
        does not render ends the sync on the spot, and its request is never answered. */
    method DoSync(actions: seq<Action>) returns (answered: bool)
      modifies this
      ensures answered <==> AllRender(actions)
      ensures files == Synced(old(files), actions)
    {
      for i := 0 to |actions|
        invariant WroteAll(old(files), actions[..i]) == (files, true)
      {
        assert actions[..i + 1][..i] == actions[..i];
        var ok := WriteActionMd(actions[i]);
        if !ok {
          WroteAllStops(old(files), actions, i + 1);
          WroteAllRender(old(files), actions);
          return false;
        }
      }
      assert actions[..|actions|] == actions;
      WroteAllRender(old(files), actions);
      RemoveStale(actions);
      answered := true;
    }

    method RemoveStale(actions: seq<Action>)
      modifies this
      ensures files == Kept(old(files), {}, Names(actions))
    {
      hide Names;
      ghost var names := Names(actions);
      KeptAll(files, names);
      var entries := files.Keys;
      while entries != {}
        invariant entries <= old(files).Keys
        invariant files == Kept(old(files), entries, names)
        decreases entries
      {
        var f :| f in entries;
        KeptStep(old(files), entries, f, names);
        hide Kept, Listed, Stem;
        if Listed(f) {
          var found := IsCurrent(actions, Stem(f));
          if !found {
            files := files - {f};
          }
        }
        entries := entries - {f};
      }
    }

    /** The schema texts of all listed files whose block parses, in the order of the scan. */
    method LoadCachedActions(parses: string -> bool) returns (result: seq<string>, order: seq<string>)
      ensures |order| == |result|
      ensures forall i, j :: 0 <= i < j < |order| ==> order[i] != order[j]
      ensures forall i :: 0 <= i < |order| ==>
        order[i] in files && Listed(order[i]) && Readable(files[order[i]], parses) == Some(result[i])
      ensures forall f :: f in files && Listed(f) && Readable(files[f], parses).Some? ==> f in order
    {
      hide Readable;
      result, order := [], [];
      var entries := files.Keys;
      while entries != {}
        invariant entries <= files.Keys && |order| == |result|
        invariant forall i :: 0 <= i < |order| ==> order[i] !in entries
        invariant forall i, j :: 0 <= i < j < |order| ==> order[i] != order[j]
        invariant forall i :: 0 <= i < |order| ==>
          order[i] in files && Listed(order[i]) && Readable(files[order[i]], parses) == Some(result[i])
        invariant forall f :: f in files && f !in entries && Listed(f) && Readable(files[f], parses).Some? ==> f in order
        decreases entries
      {
        var f :| f in entries;
        entries := entries - {f};
        if Listed(f) {
          match Readable(files[f], parses)
          case Some(text) =>
            result, order := result + [text], order + [f];
          case None =>
        }
      }
    }

    /** An event of the action framework. */
    method OnActionEvent(e: ActionEvent)
      modifies this
      ensures files == Evented(old(files), e)
    {
      match e
      case Uninstalled(name) => RemoveActionMd(name);
      case Changed(a, readable) =>
        if readable {
          var ok := WriteActionMd(a);
        }
    }
  }

  // ---------------------------------------------------------------- agreement with the live actions

  /** The actions by name; of two with one name the later one counts. */
  function Live(actions: seq<Action>): map<string, Schema> {
    if actions == [] then map[] else Live(actions[..|actions| - 1])[actions[|actions| - 1].name := actions[|actions| - 1].schema]
  }

  /** The listed files are exactly the live actions' files, with their current contents; an action whose schema
      does not render has none. */
  predicate Agrees(files: map<string, string>, live: map<string, Schema>) {
    NoStale(files, live) && AllStored(files, live)
  }

  predicate NoStale(files: map<string, string>, live: map<string, Schema>) {
    forall f :: f in files && Listed(f) ==> Stem(f) in live
  }

  predicate AllStored(files: map<string, string>, live: map<string, Schema>) {
    forall n :: n in live ==> Stored(files, n, live[n])
  }

  predicate Stored(files: map<string, string>, name: string, s: Schema) {
    s.renders && Listed(FileName(name)) && FileName(name) in files && files[FileName(name)] == Content(name, s)
  }

  predicate AllUsable(actions: seq<Action>) {
    forall i :: 0 <= i < |actions| ==> Usable(actions[i].name)
  }

  lemma FileFacts()
    ensures forall n: string :: Listed(FileName(n)) <==> Usable(n)
    ensures forall n: string :: Usable(n) ==> Stem(FileName(n)) == n
    ensures forall f :: Listed(f) ==> FileName(Stem(f)) == f && Usable(Stem(f))
  {
    forall n: string ensures (Listed(FileName(n)) <==> Usable(n)) && (Usable(n) ==> Stem(FileName(n)) == n) {
      StemOf(n);
    }
    forall f | Listed(f) ensures FileName(Stem(f)) == f && Usable(Stem(f)) {
      StemBack(f);
    }
  }

  /** Every live action has its file, with its current content. */
  predicate Holds(files: map<string, string>, live: map<string, Schema>) {
    forall n :: n in live ==>
      live[n].renders && Usable(n) && FileName(n) in files && files[FileName(n)] == Content(n, live[n])
  }

  lemma HoldsStep(files: map<string, string>, live: map<string, Schema>, a: Action)
    requires Holds(files, live) && Usable(a.name) && a.schema.renders
    ensures Holds(Wrote(files, a), live[a.name := a.schema])
  {
    FileFacts();
    hide Content, FileName, Listed, Stem;
  }

  lemma {:induction false} WroteLive(files: map<string, string>, actions: seq<Action>)
    requires AllUsable(actions) && AllRender(actions)
    ensures WroteAll(files, actions).1 && Holds(WroteAll(files, actions).0, Live(actions))
    decreases |actions|
  {
    if actions != [] {
      WroteLive(files, actions[..|actions| - 1]);
      HoldsStep(WroteAll(files, actions[..|actions| - 1]).0, Live(actions[..|actions| - 1]), actions[|actions| - 1]);
    }
  }

  lemma {:induction false} LiveNames(actions: seq<Action>)
    ensures Live(actions).Keys == Names(actions)
    decreases |actions|
  {
    if actions != [] {
      var n := |actions| - 1;
      LiveNames(actions[..n]);
      assert Names(actions) == Names(actions[..n]) + {actions[n].name};
    }
  }

  predicate NamesOnce(actions: seq<Action>) {
    forall i, j :: 0 <= i < j < |actions| ==> actions[i].name != actions[j].name
  }

  lemma {:induction false} LiveAt(actions: seq<Action>, i: nat)
    requires NamesOnce(actions) && i < |actions|
    ensures actions[i].name in Live(actions) && Live(actions)[actions[i].name] == actions[i].schema
    decreases |actions|
  {
    if i < |actions| - 1 {
      LiveAt(actions[..|actions| - 1], i);
    }
  }

  /** After a sync the directory agrees with the live actions, whatever it held before, exactly when every
      action's name can be a file name of this directory and every schema renders. The framework lists each name
      once; with every schema rendering that is not needed. */
  lemma SyncAgreesIff(files: map<string, string>, actions: seq<Action>)
    requires NamesOnce(actions) || AllRender(actions)
    ensures Agrees(Synced(files, actions), Live(actions)) <==> AllUsable(actions) && AllRender(actions)
  {
    LiveNames(actions);
    FileFacts();
    WroteAllRender(files, actions);
    hide Content, Live, Names, FileName, Listed, Stem, WroteAll;
    if !AllRender(actions) {
      var i :| 0 <= i < |actions| && !actions[i].schema.renders;
      LiveAt(actions, i);
    } else if AllUsable(actions) {
      WroteLive(files, actions);
    } else {
      var i :| 0 <= i < |actions| && !Usable(actions[i].name);
      assert actions[i].name in Names(actions) by { NameIn(actions, i); }
    }
  }

  /** Even for a list that repeats names: a sync brings every directory into agreement exactly under that condition. */
  lemma SyncAlwaysAgreesIff(actions: seq<Action>)
    ensures (forall files :: Agrees(Synced(files, actions), Live(actions))) <==> AllUsable(actions) && AllRender(actions)
  {
    if AllRender(actions) {
      forall files ensures Agrees(Synced(files, actions), Live(actions)) <==> AllUsable(actions) {
        SyncAgreesIff(files, actions);
      }
      assert Agrees(Synced(map[], actions), Live(actions)) <==> AllUsable(actions);
    } else {
      var stale := Longer(actions);
      var files := map[FileName(stale) := ""];
      StaleStays(files, actions, stale);
      WroteAllRender(files, actions);
      LiveNames(actions);
      StemOf(stale);
      assert !Agrees(Synced(files, actions), Live(actions));
    }
  }

  /** A usable name longer than all these actions' names. */
  function Longer(actions: seq<Action>): (name: string)
    ensures Usable(name) && forall i :: 0 <= i < |actions| ==> |actions[i].name| < |name|
  {
    if actions == [] then "a"
    else
      var n := Longer(actions[..|actions| - 1]);
      if |actions[|actions| - 1].name| < |n| then n
      else seq(|actions[|actions| - 1].name| + 1, i => 'a')
  }

  lemma {:induction false} StaleStays(files: map<string, string>, actions: seq<Action>, stale: string)
    requires FileName(stale) in files && forall i :: 0 <= i < |actions| ==> |actions[i].name| < |stale|
    ensures FileName(stale) in WroteAll(files, actions).0 && stale !in Names(actions)
    decreases |actions|
  {
    if actions != [] {
      StaleStays(files, actions[..|actions| - 1], stale);
    }
  }

  lemma NameIn(actions: seq<Action>, i: nat)
    requires i < |actions|
    ensures actions[i].name in Names(actions)
  {
  }

  /** The live actions after an event. */
  function LiveAfter(live: map<string, Schema>, e: ActionEvent): map<string, Schema> {
    match e
    case Uninstalled(name) => live - {name}
    case Changed(a, _) => live[a.name := a.schema]
  }

  predicate Current(files: map<string, string>, a: Action) {
    FileName(a.name) in files && files[FileName(a.name)] == Content(a.name, a.schema)
  }

  /** No other live action's file is what the path of `name` denotes. */
  predicate HitsNoOther(live: map<string, Schema>, name: string) {
    forall n :: n in live && n != name ==> Target(name) != Some(FileName(n))
  }

  lemma UsableHitsNoOther(live: map<string, Schema>, name: string)
    requires Usable(name)
    ensures HitsNoOther(live, name)
  {
    assert forall n: string :: FileName(n)[..|FileName(n)| - |EXTENSION|] == n;
  }

  /** An uninstall event keeps the agreement exactly when its path does not denote another action's file, as that
      of `./y` denotes the file of `y`; that never happens to a name that can be a file name. An install or update
      event keeps it exactly when the name can be a file name, the schema renders, and the action could be read
      or its file held the current content already. */
  lemma EventsKeepAgreementIff(files: map<string, string>, live: map<string, Schema>, e: ActionEvent)
    requires Agrees(files, live)
    ensures Agrees(Evented(files, e), LiveAfter(live, e))
       <==> match e
            case Uninstalled(name) => HitsNoOther(live, name)
            case Changed(a, readable) => Usable(a.name) && a.schema.renders && (readable || Current(files, a))
    ensures e.Uninstalled? && Usable(e.name) ==> HitsNoOther(live, e.name)
  {
    match e
    case Uninstalled(name) =>
      hide Content, FileName, Listed, Stem, Target;
      if Usable(name) {
        UsableHitsNoOther(live, name);
      }
      RemovedAgreesIff(files, live, name);
    case Changed(a, readable) =>
      ChangedAgreesIff(files, live, a, readable);
  }

  lemma ChangedAgreesIff(files: map<string, string>, live: map<string, Schema>, a: Action, readable: bool)
    requires Agrees(files, live)
    ensures Agrees(if readable then Wrote(files, a) else files, live[a.name := a.schema])
       <==> Usable(a.name) && a.schema.renders && (readable || Current(files, a))
  {
    hide Current, Usable, Wrote, AllStored, NoStale;
    if Usable(a.name) && a.schema.renders && (readable || Current(files, a)) {
      ChangedNoStale(files, live, a, readable);
      ChangedAllStored(files, live, a, readable);
    } else {
      ChangedNotStored(files, live, a, readable);
    }
  }

  lemma ChangedAllStored(files: map<string, string>, live: map<string, Schema>, a: Action, readable: bool)
    requires AllStored(files, live)
    requires Usable(a.name) && a.schema.renders && (readable || Current(files, a))
    ensures AllStored(if readable then Wrote(files, a) else files, live[a.name := a.schema])
  {
    var after, d := live[a.name := a.schema], if readable then Wrote(files, a) else files;
    hide Stored, Usable, Wrote, Current;
    ChangedStored(files, a, readable);
    forall n | n in after ensures Stored(d, n, after[n]) {
      if n != a.name {
        assert Stored(files, n, live[n]);
        OtherStored(files, a, readable, n, live[n]);
      }
    }
  }

  lemma ChangedNotStored(files: map<string, string>, live: map<string, Schema>, a: Action, readable: bool)
    requires !(Usable(a.name) && a.schema.renders && (readable || Current(files, a)))
    ensures !AllStored(if readable then Wrote(files, a) else files, live[a.name := a.schema])
  {
    hide Stored, Usable, Wrote, Current;
    NotReadable(files, a, readable);
    assert a.name in live[a.name := a.schema];
  }

  lemma NotReadable(files: map<string, string>, a: Action, readable: bool)
    requires !(Usable(a.name) && a.schema.renders && (readable || Current(files, a)))
    ensures !Stored(if readable then Wrote(files, a) else files, a.name, a.schema)
  {
    StemOf(a.name);
    hide Content, Listed;
  }

  lemma ChangedNoStale(files: map<string, string>, live: map<string, Schema>, a: Action, readable: bool)
    requires NoStale(files, live) && Usable(a.name)
    ensures NoStale(if readable then Wrote(files, a) else files, live[a.name := a.schema])
  {
    StemOf(a.name);
    TargetOf(a.name);
    hide Content, Listed, Stem, FileName, Target, Usable;
  }

  lemma ChangedStored(files: map<string, string>, a: Action, readable: bool)
    requires Usable(a.name) && a.schema.renders && (readable || Current(files, a))
    ensures Stored(if readable then Wrote(files, a) else files, a.name, a.schema)
  {
    StemOf(a.name);
    hide Content, Listed;
  }

  lemma OtherStored(files: map<string, string>, a: Action, readable: bool, n: string, s: Schema)
    requires Usable(a.name) && n != a.name && Stored(files, n, s)
    ensures Stored(if readable then Wrote(files, a) else files, n, s)
  {
    hide Content, Listed;
    assert FileName(n)[..|FileName(n)| - |EXTENSION|] == n && FileName(a.name)[..|FileName(a.name)| - |EXTENSION|] == a.name;
  }

  lemma TargetOf(name: string)
    ensures Usable(name) ==> Target(name) == Some(FileName(name))
  {
  }

  lemma RemovedAgreesIff(files: map<string, string>, live: map<string, Schema>, name: string)
    requires Agrees(files, live)
    ensures Agrees(Removed(files, name), live - {name}) <==> HitsNoOther(live, name)
  {
    RemovedNoStale(files, live, name);
    RemovedStoredIff(files, live, name);
    hide NoStale, AllStored, HitsNoOther, Removed;
  }

  lemma RemovedNoStale(files: map<string, string>, live: map<string, Schema>, name: string)
    requires NoStale(files, live)
    ensures NoStale(Removed(files, name), live - {name})
  {
    TargetOf(name);
    hide Listed, Stem, Target, FileName;
    forall f | f in Removed(files, name) && Listed(f) ensures Stem(f) in live - {name} {
      StemBack(f);
    }
  }

  lemma RemovedStoredIff(files: map<string, string>, live: map<string, Schema>, name: string)
    requires AllStored(files, live)
    ensures AllStored(Removed(files, name), live - {name}) <==> HitsNoOther(live, name)
  {
    var rest := live - {name};
    hide Listed, Target, FileName, Content;
    if HitsNoOther(live, name) {
      forall n | n in rest ensures Stored(Removed(files, name), n, rest[n]) {
        assert Stored(files, n, live[n]);
      }
    } else {
      var n :| n in live && n != name && Target(name) == Some(FileName(n));
      assert n in rest && !Stored(Removed(files, name), n, rest[n]);
    }
  }

  /** What the JSON library prints is never empty. */
  predicate Dumped(live: map<string, Schema>) {
    forall n :: n in live ==> live[n].dump != ""
  }

  /** With agreement, each listed file belongs to a live action and yields that action's current schema text
      exactly when the action's header does not mention the fence and the text parses. */
  lemma AgreementLoadsIff(files: map<string, string>, live: map<string, Schema>, f: string, parses: string -> bool)
    requires Agrees(files, live) && Dumped(live)
    requires f in files && Listed(f)
    ensures Stem(f) in live
    ensures Readable(files[f], parses) == Some(live[Stem(f)].dump)
       <==> !Mentions(Header(Stem(f), live[Stem(f)]), FENCE) && parses(live[Stem(f)].dump)
  {
    FileHolds(files, live, f);
    hide Header, Mentions, Content, Stem, Listed, Readable, Agrees;
    ReadableIff(Stem(f), live[Stem(f)], parses);
  }

  lemma FileHolds(files: map<string, string>, live: map<string, Schema>, f: string)
    requires Agrees(files, live) && f in files && Listed(f)
    ensures Stem(f) in live && files[f] == Content(Stem(f), live[Stem(f)])
  {
    hide Content;
    StemBack(f);
  }

  lemma ReadableIff(name: string, s: Schema, parses: string -> bool)
    requires s.dump != ""
    ensures Readable(Content(name, s), parses) == Some(s.dump) <==> !Mentions(Header(name, s), FENCE) && parses(s.dump)
  {
    hide Extract, Header, Mentions, Content;
    ExtractContentIff(name, s);
  }

  /** A sync followed by a load: whatever the directory held before, the listed files and the live actions
      correspond one to one, and each file yields its action's current schema text exactly when the action's
      header does not mention the fence and the text parses. */
  lemma SyncThenLoad(files: map<string, string>, actions: seq<Action>, parses: string -> bool)
    requires AllUsable(actions) && AllRender(actions) && Dumped(Live(actions))
    ensures var d, live := Synced(files, actions), Live(actions);
            && (forall n :: n in live ==> Listed(FileName(n)) && FileName(n) in d && Stem(FileName(n)) == n)
            && (forall f :: f in d && Listed(f) ==>
                  && Stem(f) in live && FileName(Stem(f)) == f
                  && (Readable(d[f], parses) == Some(live[Stem(f)].dump)
                      <==> !Mentions(Header(Stem(f), live[Stem(f)]), FENCE) && parses(live[Stem(f)].dump)))
  {
    SyncAgreesIff(files, actions);
    FileFacts();
    var d, live := Synced(files, actions), Live(actions);
    assert Agrees(d, live);
    hide Synced, Live, Readable, FileName, Listed, Stem, Mentions, Header, Dumped;
    forall f | f in d && Listed(f)
      ensures Stem(f) in live
      ensures Readable(d[f], parses) == Some(live[Stem(f)].dump)
         <==> !Mentions(Header(Stem(f), live[Stem(f)]), FENCE) && parses(live[Stem(f)].dump)
    {
      AgreementLoadsIff(d, live, f, parses);
    }
  }

  /** A sync leaves every other file of the directory alone: whatever has another extension and is written by no action. */
  lemma SyncKeepsOthers(files: map<string, string>, actions: seq<Action>, f: string)
    requires f in files && !Listed(f) && forall i :: 0 <= i < |actions| ==> Target(actions[i].name) != Some(f)
    ensures f in Synced(files, actions) && Synced(files, actions)[f] == files[f]
  {
    WritesOthersKept(files, actions, f);
  }

  lemma {:induction false} WritesOthersKept(files: map<string, string>, actions: seq<Action>, f: string)
    requires f in files && forall i :: 0 <= i < |actions| ==> Target(actions[i].name) != Some(f)
    ensures f in WroteAll(files, actions).0 && WroteAll(files, actions).0[f] == files[f]
    decreases |actions|
  {
    if actions != [] {
      assert Target(actions[|actions| - 1].name) != Some(f);
      WritesOthersKept(files, actions[..|actions| - 1], f);
    }
  }

  predicate Requires(required: seq<string>, name: string) {
    exists i :: 0 <= i < |required| && required[i] == name
  }

  /** The table has a row for every parameter, in order, and says "yes" for the required ones and "no" for the others. */
  lemma {:induction false} RowsSay(ps: seq<Param>, required: seq<string>, k: nat)
    requires k < |ps|
    ensures Rows(ps[..k], required) + RowText(ps[k], if Requires(required, ps[k].name) then "yes" else "no") <= Rows(ps, required)
    ensures k == |ps| - 1 ==>
      Rows(ps[..k], required) + RowText(ps[k], if Requires(required, ps[k].name) then "yes" else "no") == Rows(ps, required)
    decreases |ps|
  {
    LastRow(ps, required);
    if k < |ps| - 1 {
      RowsSay(ps[..|ps| - 1], required, k);
      assert ps[..|ps| - 1][..k] == ps[..k];
    }
  }

  lemma LastRow(ps: seq<Param>, required: seq<string>)
    requires ps != []
    ensures var p := ps[|ps| - 1];
            Rows(ps, required)
            == Rows(ps[..|ps| - 1], required) + RowText(p, if Requires(required, p.name) then "yes" else "no")
  {
    var p := ps[|ps| - 1];
    assert p.name in required <==> Requires(required, p.name);
  }

  lemma MentionsLeft(a: string, b: string, n: string)
    requires Mentions(a, n)
    ensures Mentions(a + b, n)
  {
    var p :| 0 <= p <= |a| && OccursAt(a, n, p);
    OccursInPart(a, b, n, p);
  }

  lemma MentionsRight(a: string, b: string, n: string)
    requires Mentions(b, n)
    ensures Mentions(a + b, n)
  {
    var p :| 0 <= p <= |b| && OccursAt(b, n, p);
    assert (a + b)[|a| + p..|a| + p + |n|] == b[p..p + |n|];
    assert OccursAt(a + b, n, |a| + p);
  }

  lemma MentionsSelf(a: string, b: string)
    ensures Mentions(a + b, a)
  {
    assert (a + b)[0..|a|] == a;
    assert OccursAt(a + b, a, 0);
  }

  lemma {:induction false} BulletsMention(ps: seq<string>, k: nat)
    requires k < |ps|
    ensures Mentions(Bullets(ps), ps[k])
    decreases |ps|
  {
    var front, last := Bullets(ps[..|ps| - 1]), ps[|ps| - 1];
    if k == |ps| - 1 {
      MentionsSelf(last, "\n");
      MentionsRight(front + "- ", last + "\n", last);
      assert front + "- " + (last + "\n") == Bullets(ps);
    } else {
      BulletsMention(ps[..|ps| - 1], k);
      MentionsLeft(front, "- " + last + "\n", ps[k]);
      assert front + ("- " + last + "\n") == Bullets(ps);
    }
  }

  /** The five parts above the JSON block. */
  function Part(name: string, s: Schema, i: nat): string {
    if i == 0 then "# " + name + "\n\n"
    else if i == 1 then (if s.description == "" then "" else s.description + "\n\n")
    else if i == 2 then (if s.category == "" then "" else "**Category**: " + s.category + "\n\n")
    else if i == 3 then
      (if s.params.None? then ""
       else "## Parameters\n\n| Name | Type | Required | Description |\n|------|------|----------|-------------|\n"
            + Rows(s.params.value, s.required) + "\n")
    else (if s.privileges == [] then "" else "## Privileges\n\n" + Bullets(s.privileges) + "\n")
  }

  lemma PartsMentioned(name: string, s: Schema, i: nat, n: string)
    requires i <= 4 && Mentions(Part(name, s, i), n)
    ensures Mentions(Header(name, s), n)
  {
    hide Mentions, Rows, Bullets;
    var a, b, c, d, e := Part(name, s, 0), Part(name, s, 1), Part(name, s, 2), Part(name, s, 3), Part(name, s, 4);
    assert Intro(name, s) == a + b + c + d + e;
    hide Part, Intro;
    if i == 0 {
      MentionsLeft(a, b, n);
    } else if i == 1 {
      MentionsRight(a, b, n);
    }
    if i <= 1 {
      MentionsLeft(a + b, c, n);
    } else if i == 2 {
      MentionsRight(a + b, c, n);
    }
    if i <= 2 {
      MentionsLeft(a + b + c, d, n);
    } else if i == 3 {
      MentionsRight(a + b + c, d, n);
    }
    if i <= 3 {
      MentionsLeft(a + b + c + d, e, n);
    } else {
      MentionsRight(a + b + c + d, e, n);
    }
    MentionsLeft(Intro(name, s), "## Schema\n\n", n);
  }

  /** A schema file tells its reader the description and the category above the JSON block. */
  lemma HeaderTells(name: string, s: Schema)
    ensures s.description != "" ==> Mentions(Header(name, s), s.description)
    ensures s.category != "" ==> Mentions(Header(name, s), s.category)
  {
    hide Header, Mentions, Bullets, Rows;
    if s.description != "" {
      MentionsSelf(s.description, "\n\n");
      PartsMentioned(name, s, 1, s.description);
    }
    if s.category != "" {
      MentionsSelf(s.category, "\n\n");
      MentionsRight("**Category**: ", s.category + "\n\n", s.category);
      assert "**Category**: " + (s.category + "\n\n") == Part(name, s, 2);
      PartsMentioned(name, s, 2, s.category);
    }
  }

  /** It names every privilege. */
  lemma PrivilegeTold(name: string, s: Schema, k: nat)
    requires k < |s.privileges|
    ensures Mentions(Header(name, s), s.privileges[k])
  {
    hide Header, Mentions, Bullets, Rows;
    BulletsMention(s.privileges, k);
    MentionsRight("## Privileges\n\n", Bullets(s.privileges), s.privileges[k]);
    MentionsLeft("## Privileges\n\n" + Bullets(s.privileges), "\n", s.privileges[k]);
    PartsMentioned(name, s, 4, s.privileges[k]);
  }

  /** It has every parameter's row, with whether the parameter is required. */
  lemma ParamTold(name: string, s: Schema, k: nat)
    requires s.params.Some? && k < |s.params.value|
    ensures var p := s.params.value[k]; Mentions(Header(name, s), RowText(p, if Requires(s.required, p.name) then "yes" else "no"))
  {
    hide Header, Mentions, Rows, RowText, Requires;
    var ps := s.params.value;
    var row, all := RowText(ps[k], if Requires(s.required, ps[k].name) then "yes" else "no"), Rows(ps, s.required);
    RowsSay(ps, s.required, k);
    MentionsInside(Rows(ps[..k], s.required), row, all);
    TableMentions(name, s, row);
    PartsMentioned(name, s, 3, row);
  }

  lemma MentionsInside(before: string, n: string, all: string)
    requires before + n <= all
    ensures Mentions(all, n)
  {
    assert all[|before|..|before| + |n|] == n;
    assert OccursAt(all, n, |before|);
  }

  lemma TableMentions(name: string, s: Schema, n: string)
    requires s.params.Some? && Mentions(Rows(s.params.value, s.required), n)
    ensures Mentions(Part(name, s, 3), n)
  {
    hide Mentions, Rows;
    var all := Rows(s.params.value, s.required);
    var title := "## Parameters\n\n| Name | Type | Required | Description |\n|------|------|----------|-------------|\n";
    MentionsRight(title, all, n);
    MentionsLeft(title + all, "\n", n);
  }
}

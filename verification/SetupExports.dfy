/**
 The managed export lines of the workspace env file: `syncSetupExportLines` and the refresh of
 `cmd/promptlock/setup.go`, and the loading of `cmd/promptlock/workspace_setup_autodetect.go`.
 */
module SetupExports {
  import opened Prelude
  import opened ShellQuote
  import opened Text

  datatype Export = Export(name: string, value: string) {
    function Line(): string { ExportLine(name, value) }
  }

  const MANAGED_NAMES: set<string> := {
    "PROMPTLOCK_SETUP_SOCKET_DIR",
    "PROMPTLOCK_CONFIG",
    "PROMPTLOCK_AGENT_UNIX_SOCKET",
    "PROMPTLOCK_OPERATOR_UNIX_SOCKET",
    "PROMPTLOCK_AGENT_BRIDGE_ADDRESS",
    "PROMPTLOCK_DOCKER_HOST_ALIAS",
    "PROMPTLOCK_DOCKER_AGENT_BRIDGE_URL"
  }

  /** The managed variable that a line sets, if it sets one. */
  function ManagedName(line: string, managed: set<string>): Option<string> {
    match SetupExportName(TrimSpace(line))
    case None => None
    case Some(name) => if name in managed then Some(name) else None
  }

  /** A reading of lines: which managed variable each one sets. */
  type Naming = string -> Option<string>

  function NamingOf(managed: set<string>): Naming {
    line => ManagedName(line, managed)
  }

  function DesiredByName(exports: seq<Export>): (m: map<string, Export>)
    ensures forall n | n in m :: m[n].name == n && m[n] in exports
    ensures forall e | e in exports :: e.name in m
  {
    if exports == [] then map[]
    else
      var last := exports[|exports| - 1];
      DesiredByName(exports[..|exports| - 1])[last.name := last]
  }

  /** What a line is replaced with: itself, the wanted text, or nothing. */
  function Kept(line: string, desired: map<string, Export>, naming: Naming): seq<string> {
    match naming(line)
    case None => [line]
    case Some(name) => if name in desired then [desired[name].Line()] else []
  }

  function Filtered(lines: seq<string>, desired: map<string, Export>, naming: Naming): seq<string> {
    if lines == [] then []
    else
      Filtered(lines[..|lines| - 1], desired, naming) + Kept(lines[|lines| - 1], desired, naming)
  }

  /** The managed names that some line sets. */
  function Found(lines: seq<string>, naming: Naming): set<string> {
    set line | line in lines && naming(line).Some? :: naming(line).value
  }

  function Missing(exports: seq<Export>, found: set<string>): seq<string> {
    if exports == [] then []
    else
      var last := exports[|exports| - 1];
      Missing(exports[..|exports| - 1], found) + if last.name in found then [] else [last.Line()]
  }

  function OrBlank(lines: seq<string>): seq<string> {
    if lines == [] then [""] else lines
  }

  /** New lines go to the end, before the empty string that stands for a final line break. */
  function Inserted(lines: seq<string>, added: seq<string>): seq<string> {
    if lines != [] && lines[|lines| - 1] == "" then lines[..|lines| - 1] + added + [""] else lines + added
  }

  function Synced(lines: seq<string>, exports: seq<Export>, naming: Naming): seq<string> {
    Inserted(
      Filtered(OrBlank(lines), DesiredByName(exports), naming),
      Missing(exports, Found(OrBlank(lines), naming)))
  }

  predicate Rewrites(lines: seq<string>, desired: map<string, Export>, naming: Naming) {
    exists line | line in lines :: Kept(line, desired, naming) != [line]
  }

  predicate NeedsChange(lines: seq<string>, exports: seq<Export>, naming: Naming) {
    || Rewrites(OrBlank(lines), DesiredByName(exports), naming)
    || Missing(exports, Found(OrBlank(lines), naming)) != []
  }

  method CollectDesired(exports: seq<Export>) returns (desired: map<string, Export>)
    ensures desired == DesiredByName(exports)
  {
    desired := map[];
    for i := 0 to |exports|
      invariant desired == DesiredByName(exports[..i])
    {
      desired := desired[exports[i].name := exports[i]];
      assert exports[..i + 1][..i] == exports[..i];
    }
    assert exports[..|exports|] == exports;
  }

  lemma FilterSnoc(front: seq<string>, line: string, desired: map<string, Export>, naming: Naming)
    ensures Filtered(front + [line], desired, naming) == Filtered(front, desired, naming) + Kept(line, desired, naming)
    ensures Found(front + [line], naming) * desired.Keys == Found(front, naming) * desired.Keys
      + if naming(line).Some? && naming(line).value in desired then {naming(line).value} else {}
    ensures Rewrites(front + [line], desired, naming) <==>
      Rewrites(front, desired, naming) || Kept(line, desired, naming) != [line]
  {
  }

  lemma FilterNext(lines: seq<string>, i: nat, desired: map<string, Export>, naming: Naming)
    requires i < |lines|
    ensures Filtered(lines[..i + 1], desired, naming) == Filtered(lines[..i], desired, naming) + Kept(lines[i], desired, naming)
    ensures Found(lines[..i + 1], naming) * desired.Keys == Found(lines[..i], naming) * desired.Keys
      + if naming(lines[i]).Some? && naming(lines[i]).value in desired then {naming(lines[i]).value} else {}
    ensures Rewrites(lines[..i + 1], desired, naming) <==>
      Rewrites(lines[..i], desired, naming) || Kept(lines[i], desired, naming) != [lines[i]]
  {
    assert lines[..i + 1] == lines[..i] + [lines[i]];
    FilterSnoc(lines[..i], lines[i], desired, naming);
  }

  /** The body of the first loop: what the line is replaced with, and the desired name it sets. */
  method FilterLine(line: string, desired: map<string, Export>, naming: Naming)
    returns (kept: seq<string>, found: set<string>, changed: bool)
    ensures kept == Kept(line, desired, naming)
    ensures found == if naming(line).Some? && naming(line).value in desired then {naming(line).value} else {}
    ensures changed <==> kept != [line]
  {
    match naming(line) {
      case Some(name) =>
        if name !in desired {
          return [], {}, true;
        }
        var want := desired[name].Line();
        if line != want {
          assert [want][0] != [line][0];
          return [want], {name}, true;
        }
        return [line], {name}, false;
      case None =>
        return [line], {}, false;
    }
  }

  /** The first loop of `syncSetupExportLines`. */
  method FilterLines(lines: seq<string>, desired: map<string, Export>, naming: Naming)
    returns (filtered: seq<string>, found: set<string>, changed: bool)
    ensures filtered == Filtered(lines, desired, naming)
    ensures found == Found(lines, naming) * desired.Keys
    ensures changed == Rewrites(lines, desired, naming)
  {
    filtered, found, changed := [], {}, false;
    for i := 0 to |lines|
      invariant filtered == Filtered(lines[..i], desired, naming)
      invariant found == Found(lines[..i], naming) * desired.Keys
      invariant changed == Rewrites(lines[..i], desired, naming)
    {
      FilterNext(lines, i, desired, naming);
      var kept, name, rewritten := FilterLine(lines[i], desired, naming);
      filtered := filtered + kept;
      found := found + name;
      changed := changed || rewritten;
    }
    assert lines[..|lines|] == lines;
  }

  /** The last loop of `syncSetupExportLines`. */
  method InsertMissing(filtered: seq<string>, exports: seq<Export>, found: set<string>)
    returns (lines: seq<string>, changed: bool)
    ensures lines == Inserted(filtered, Missing(exports, found))
    ensures changed <==> Missing(exports, found) != []
  {
    lines, changed := filtered, false;
    var insertAt := |lines|;
    if insertAt > 0 && lines[insertAt - 1] == "" {
      insertAt := insertAt - 1;
    }
    ghost var front, back, missing := filtered[..insertAt], filtered[insertAt..], [];
    InsertedAtSplit(filtered, missing);
    for i := 0 to |exports|
      invariant missing == Missing(exports[..i], found)
      invariant lines == front + missing + back && insertAt == |front| + |missing|
      invariant changed <==> missing != []
    {
      MissingNext(exports, found, i);
      if exports[i].name !in found {
        var want := exports[i].Line();
        InsertedBetween(front, missing, want, back);
        missing := missing + [want];
        lines := lines[..insertAt] + [want] + lines[insertAt..];
        insertAt := insertAt + 1;
        changed := true;
      }
    }
    assert exports[..|exports|] == exports;
    InsertedAtSplit(filtered, missing);
  }

  lemma MissingNext(exports: seq<Export>, found: set<string>, i: nat)
    requires i < |exports|
    ensures
      Missing(exports[..i + 1], found)
      == Missing(exports[..i], found) + if exports[i].name in found then [] else [exports[i].Line()]
  {
    assert exports[..i + 1][..i] == exports[..i];
  }

  lemma InsertedAtSplit(lines: seq<string>, added: seq<string>)
    ensures
      var at := if lines != [] && lines[|lines| - 1] == "" then |lines| - 1 else |lines|;
      lines[..at] + added + lines[at..] == Inserted(lines, added) && lines[..at] + [] + lines[at..] == lines
  {
  }

  lemma InsertedBetween(front: seq<string>, missing: seq<string>, want: string, back: seq<string>)
    ensures
      var lines, at := front + missing + back, |front| + |missing|;
      lines[..at] + [want] + lines[at..] == front + (missing + [want]) + back
  {
    assert (front + missing + back)[..|front| + |missing|] == front + missing;
  }

  lemma {:induction false} MissingOnlyAsksForItsNames(exports: seq<Export>, found: set<string>, names: set<string>)
    requires forall e | e in exports :: e.name in names
    ensures Missing(exports, found * names) == Missing(exports, found)
  {
    if exports != [] {
      MissingOnlyAsksForItsNames(exports[..|exports| - 1], found, names);
    }
  }

  method SyncSetupExportLines(lines: seq<string>, exports: seq<Export>)
    returns (synced: seq<string>, changed: bool)
    ensures synced == Synced(lines, exports, NamingOf(MANAGED_NAMES))
    ensures changed <==> NeedsChange(lines, exports, NamingOf(MANAGED_NAMES))
  {
    var desired := CollectDesired(exports);
    var naming := NamingOf(MANAGED_NAMES);
    var filtered, found, rewritten := FilterLines(OrBlank(lines), desired, naming);
    MissingOnlyAsksForItsNames(exports, Found(OrBlank(lines), naming), desired.Keys);
    var inserted: bool;
    synced, inserted := InsertMissing(filtered, exports, found);
    changed := rewritten || inserted;
  }

  // ---------------------------------------------------------------------------------------------
  // What a synced list looks like
  // ---------------------------------------------------------------------------------------------

  /** Exports with distinct names, each of which is what its line sets; a blank line sets nothing. */
  predicate Proper(exports: seq<Export>, naming: Naming) {
    && (forall e | e in exports :: naming(e.Line()) == Some(e.name))
    && (forall i, j | 0 <= i < j < |exports| :: exports[i].name != exports[j].name)
    && naming("") == None
  }

  /** Distinct managed names without an equals sign or surrounding space are proper. */
  lemma ManagedExportsAreProper(exports: seq<Export>, managed: set<string>)
    requires forall e | e in exports :: e.name in managed && Trimmed(e.name) && '=' !in e.name
    requires forall i, j | 0 <= i < j < |exports| :: exports[i].name != exports[j].name
    ensures Proper(exports, NamingOf(managed))
  {
    forall e | e in exports ensures ManagedName(e.Line(), managed) == Some(e.name) {
      NameOfExportLine(e.name, e.value);
    }
    assert TrimSpace("") == "";
  }

  lemma DesiredIsIt(exports: seq<Export>, naming: Naming, i: nat)
    requires Proper(exports, naming) && i < |exports|
    ensures exports[i].name in DesiredByName(exports) && DesiredByName(exports)[exports[i].name] == exports[i]
  {
  }

  lemma {:induction false} FilteredLine(lines: seq<string>, desired: map<string, Export>, naming: Naming, l: string)
    ensures l in Filtered(lines, desired, naming) <==> exists k | k in lines :: l in Kept(k, desired, naming)
  {
    if lines != [] {
      FilteredLine(lines[..|lines| - 1], desired, naming, l);
      assert lines == lines[..|lines| - 1] + [lines[|lines| - 1]];
    }
  }

  lemma {:induction false} MissingLine(exports: seq<Export>, found: set<string>, l: string)
    ensures l in Missing(exports, found) <==> exists e | e in exports :: e.name !in found && l == e.Line()
  {
    if exports != [] {
      MissingLine(exports[..|exports| - 1], found, l);
      assert exports == exports[..|exports| - 1] + [exports[|exports| - 1]];
    }
  }

  lemma InsertedLine(lines: seq<string>, added: seq<string>, l: string)
    ensures l in Inserted(lines, added) <==> l in lines || l in added
  {
  }

  /**
   Every line of the result is an unmanaged line of the input or exactly the text wanted for a desired
   name, so no managed name that is not desired is left; and every desired name has its line.
   */
  lemma SyncedLines(lines: seq<string>, exports: seq<Export>, naming: Naming)
    requires Proper(exports, naming)
    ensures forall l | l in Synced(lines, exports, naming) ::
      match naming(l)
      case None => l in OrBlank(lines)
      case Some(n) => n in DesiredByName(exports) && l == DesiredByName(exports)[n].Line()
    ensures forall e | e in exports :: e.Line() in Synced(lines, exports, naming)
  {
    var desired, found := DesiredByName(exports), Found(OrBlank(lines), naming);
    var filtered, missing := Filtered(OrBlank(lines), desired, naming), Missing(exports, found);
    forall l | l in Synced(lines, exports, naming)
      ensures match naming(l)
              case None => l in OrBlank(lines)
              case Some(n) => n in desired && l == desired[n].Line()
    {
      InsertedLine(filtered, missing, l);
      if l in filtered {
        FilteredLine(OrBlank(lines), desired, naming, l);
        var k :| k in OrBlank(lines) && l in Kept(k, desired, naming);
        if naming(k).Some? {
        }
      } else {
        MissingLine(exports, found, l);
        var i: nat :| i < |exports| && l == exports[i].Line();
        DesiredIsIt(exports, naming, i);
      }
    }
    forall i: nat | i < |exports| ensures exports[i].Line() in Synced(lines, exports, naming) {
      var e := exports[i];
      DesiredIsIt(exports, naming, i);
      InsertedLine(filtered, missing, e.Line());
      MissingLine(exports, found, e.Line());
      FilteredLine(OrBlank(lines), desired, naming, e.Line());
      if e.name in found {
        var k :| k in OrBlank(lines) && naming(k) == Some(e.name);
        assert e.Line() in Kept(k, desired, naming);
      }
    }
  }

  lemma {:induction false} FilteredKeepsClean(lines: seq<string>, desired: map<string, Export>, naming: Naming)
    requires forall l | l in lines :: Kept(l, desired, naming) == [l]
    ensures Filtered(lines, desired, naming) == lines
  {
    if lines != [] {
      var front, last := lines[..|lines| - 1], lines[|lines| - 1];
      assert lines == front + [last] && last in lines;
      FilteredKeepsClean(front, desired, naming);
    }
  }

  lemma {:induction false} MissingNone(exports: seq<Export>, found: set<string>)
    requires forall e | e in exports :: e.name in found
    ensures Missing(exports, found) == []
  {
    if exports != [] {
      MissingNone(exports[..|exports| - 1], found);
    }
  }

  lemma CleanIsFixed(lines: seq<string>, exports: seq<Export>, naming: Naming)
    requires forall l | l in OrBlank(lines) :: Kept(l, DesiredByName(exports), naming) == [l]
    requires forall e | e in exports :: e.name in Found(OrBlank(lines), naming)
    ensures !NeedsChange(lines, exports, naming)
    ensures Synced(lines, exports, naming) == OrBlank(lines)
  {
    FilteredKeepsClean(OrBlank(lines), DesiredByName(exports), naming);
    MissingNone(exports, Found(OrBlank(lines), naming));
    InsertedNothing(OrBlank(lines));
  }

  lemma InsertedNothing(lines: seq<string>)
    ensures Inserted(lines, []) == lines
  {
  }

  lemma SyncedIsClean(lines: seq<string>, exports: seq<Export>, naming: Naming)
    requires Proper(exports, naming)
    ensures forall l | l in Synced(lines, exports, naming) :: Kept(l, DesiredByName(exports), naming) == [l]
    ensures forall e | e in exports :: e.name in Found(Synced(lines, exports, naming), naming)
  {
    var r := Synced(lines, exports, naming);
    SyncedLines(lines, exports, naming);
    forall e | e in exports ensures e.name in Found(r, naming) {
      assert e.Line() in r;
    }
  }

  /** The result is empty exactly when every line is a managed export and none is desired. */
  lemma SyncedEmptyIff(lines: seq<string>, exports: seq<Export>, naming: Naming)
    requires Proper(exports, naming)
    ensures Synced(lines, exports, naming) == [] <==> exports == [] && forall l | l in OrBlank(lines) :: naming(l).Some?
  {
    var given, desired := OrBlank(lines), DesiredByName(exports);
    var filtered, missing := Filtered(given, desired, naming), Missing(exports, Found(given, naming));
    SyncedLines(lines, exports, naming);
    if exports != [] {
      assert exports[0].Line() in Synced(lines, exports, naming);
    }
    forall l | l in given && naming(l).None? ensures l in Synced(lines, exports, naming) {
      FilteredLine(given, desired, naming, l);
      InsertedLine(filtered, missing, l);
    }
    if exports == [] && forall l | l in given :: naming(l).Some? {
      if filtered != [] {
        FilteredLine(given, desired, naming, filtered[0]);
        assert false;
      }
    }
  }

  /**
   A second pass reports no change and gives the same list, with one exception: the empty list, which
   comes of a list of managed exports none of which is desired, is then read as one blank line.
   */
  lemma SyncIsIdempotent(lines: seq<string>, exports: seq<Export>, naming: Naming)
    requires Proper(exports, naming)
    ensures !NeedsChange(Synced(lines, exports, naming), exports, naming)
    ensures Synced(Synced(lines, exports, naming), exports, naming) == OrBlank(Synced(lines, exports, naming))
    ensures Synced(Synced(lines, exports, naming), exports, naming) == Synced(lines, exports, naming)
       <==> !(exports == [] && forall l | l in OrBlank(lines) :: naming(l).Some?)
  {
    var r := Synced(lines, exports, naming);
    SyncedIsClean(lines, exports, naming);
    SyncedEmptyIff(lines, exports, naming);
    if r == [] {
      CleanIsFixed([""], [], naming);
    } else {
      CleanIsFixed(r, exports, naming);
    }
  }

  /** The pass reports a change exactly when it changed the list. */
  lemma ChangeIsReported(lines: seq<string>, exports: seq<Export>, naming: Naming)
    requires Proper(exports, naming)
    ensures NeedsChange(lines, exports, naming) <==> Synced(lines, exports, naming) != OrBlank(lines)
  {
    var given, desired := OrBlank(lines), DesiredByName(exports);
    var r := Synced(lines, exports, naming);
    if r == given {
      SyncedLines(lines, exports, naming);
      assert forall l | l in given :: Kept(l, desired, naming) == [l];
      forall e | e in exports ensures e.name in Found(given, naming) {
        assert e.Line() in given;
      }
      MissingNone(exports, Found(given, naming));
    } else if !NeedsChange(lines, exports, naming) {
      FilteredKeepsClean(given, desired, naming);
      assert false;
    }
  }

  function Unmanaged(lines: seq<string>, naming: Naming): seq<string> {
    if lines == [] then []
    else
      var last := lines[|lines| - 1];
      Unmanaged(lines[..|lines| - 1], naming) + if naming(last).None? then [last] else []
  }

  lemma {:induction false} UnmanagedAppend(a: seq<string>, b: seq<string>, naming: Naming)
    ensures Unmanaged(a + b, naming) == Unmanaged(a, naming) + Unmanaged(b, naming)
  {
    if b == [] {
      assert a + b == a;
    } else {
      assert (a + b)[..|a + b| - 1] == a + b[..|b| - 1];
      UnmanagedAppend(a, b[..|b| - 1], naming);
    }
  }

  lemma {:induction false} UnmanagedNone(lines: seq<string>, naming: Naming)
    requires forall l | l in lines :: naming(l).Some?
    ensures Unmanaged(lines, naming) == []
  {
    if lines != [] {
      UnmanagedNone(lines[..|lines| - 1], naming);
    }
  }

  lemma {:induction false} UnmanagedFiltered(lines: seq<string>, exports: seq<Export>, naming: Naming)
    requires Proper(exports, naming)
    ensures Unmanaged(Filtered(lines, DesiredByName(exports), naming), naming) == Unmanaged(lines, naming)
  {
    if lines != [] {
      var desired, last := DesiredByName(exports), lines[|lines| - 1];
      UnmanagedFiltered(lines[..|lines| - 1], exports, naming);
      UnmanagedAppend(Filtered(lines[..|lines| - 1], desired, naming), Kept(last, desired, naming), naming);
      if naming(last).Some? && naming(last).value in desired {
        UnmanagedNone(Kept(last, desired, naming), naming);
      } else if naming(last).None? {
        assert Unmanaged([last], naming) == [last];
      }
    }
  }

  /** The lines that are none of the tool's business survive, in order and with every copy. */
  lemma UnmanagedLinesSurvive(lines: seq<string>, exports: seq<Export>, naming: Naming)
    requires Proper(exports, naming)
    ensures Unmanaged(Synced(lines, exports, naming), naming) == Unmanaged(OrBlank(lines), naming)
  {
    var given := OrBlank(lines);
    var filtered := Filtered(given, DesiredByName(exports), naming);
    var missing := Missing(exports, Found(given, naming));
    UnmanagedFiltered(given, exports, naming);
    forall l | l in missing ensures naming(l).Some? {
      MissingLine(exports, Found(given, naming), l);
      var e :| e in exports && l == e.Line();
    }
    UnmanagedNone(missing, naming);
    UnmanagedInserted(filtered, missing, naming);
  }

  lemma UnmanagedInserted(lines: seq<string>, added: seq<string>, naming: Naming)
    requires Unmanaged(added, naming) == []
    ensures Unmanaged(Inserted(lines, added), naming) == Unmanaged(lines, naming)
  {
    if lines != [] && lines[|lines| - 1] == "" {
      var front, blank := lines[..|lines| - 1], [""];
      assert lines == front + blank;
      UnmanagedAppend(front, blank, naming);
      UnmanagedAppend(front, added, naming);
      UnmanagedAppend(front + added, blank, naming);
    } else {
      UnmanagedAppend(lines, added, naming);
    }
  }

  /** How many lines set the variable. */
  function Copies(lines: seq<string>, name: string, naming: Naming): nat {
    if lines == [] then 0
    else
      Copies(lines[..|lines| - 1], name, naming)
      + if naming(lines[|lines| - 1]) == Some(name) then 1 else 0
  }

  lemma {:induction false} CopiesAppend(a: seq<string>, b: seq<string>, name: string, naming: Naming)
    ensures Copies(a + b, name, naming) == Copies(a, name, naming) + Copies(b, name, naming)
  {
    if b == [] {
      assert a + b == a;
    } else {
      assert (a + b)[..|a + b| - 1] == a + b[..|b| - 1];
      CopiesAppend(a, b[..|b| - 1], name, naming);
    }
  }

  lemma {:induction false} CopiesFiltered(lines: seq<string>, exports: seq<Export>, name: string, naming: Naming)
    requires Proper(exports, naming) && name in DesiredByName(exports)
    ensures Copies(Filtered(lines, DesiredByName(exports), naming), name, naming) == Copies(lines, name, naming)
    ensures Copies(lines, name, naming) == 0 <==> name !in Found(lines, naming)
  {
    if lines != [] {
      var desired, front, last := DesiredByName(exports), lines[..|lines| - 1], lines[|lines| - 1];
      assert lines == front + [last];
      CopiesFiltered(front, exports, name, naming);
      CopiesAppend(Filtered(front, desired, naming), Kept(last, desired, naming), name, naming);
      assert Kept(last, desired, naming) == [] || |Kept(last, desired, naming)| == 1;
      assert name in Found(lines, naming) <==> name in Found(front, naming) || naming(last) == Some(name);
    }
  }

  lemma CopiesOfOne(line: string, name: string, naming: Naming)
    ensures Copies([line], name, naming) == if naming(line) == Some(name) then 1 else 0
  {
  }

  lemma {:induction false} CopiesMissing(exports: seq<Export>, found: set<string>, name: string, naming: Naming)
    requires Proper(exports, naming)
    ensures Copies(Missing(exports, found), name, naming)
         == if name in DesiredByName(exports) && name !in found then 1 else 0
  {
    if exports != [] {
      var front, last := exports[..|exports| - 1], exports[|exports| - 1];
      CopiesMissing(front, found, name, naming);
      assert forall e | e in front :: e.name != last.name;
      assert last.name !in DesiredByName(front);
      if last.name in found {
        assert Missing(exports, found) == Missing(front, found);
      } else {
        CopiesOfOne(last.Line(), name, naming);
        CopiesAppend(Missing(front, found), [last.Line()], name, naming);
      }
    }
  }

  /** Lines are neither doubled nor merged: a variable that was missing is set by exactly one line. */
  lemma CopiesAreKept(lines: seq<string>, exports: seq<Export>, name: string, naming: Naming)
    requires Proper(exports, naming) && name in DesiredByName(exports)
    ensures var given := Copies(OrBlank(lines), name, naming);
            Copies(Synced(lines, exports, naming), name, naming) == if given == 0 then 1 else given
  {
    var given := OrBlank(lines);
    var filtered, missing := Filtered(given, DesiredByName(exports), naming), Missing(exports, Found(given, naming));
    CopiesFiltered(given, exports, name, naming);
    CopiesMissing(exports, Found(given, naming), name, naming);
    CopiesInserted(filtered, missing, name, naming);
  }

  lemma CopiesInserted(lines: seq<string>, added: seq<string>, name: string, naming: Naming)
    ensures Copies(Inserted(lines, added), name, naming) == Copies(lines, name, naming) + Copies(added, name, naming)
  {
    if lines != [] && lines[|lines| - 1] == "" {
      var front, blank := lines[..|lines| - 1], [""];
      assert lines == front + blank;
      CopiesAppend(front, blank, name, naming);
      CopiesAppend(front, added, name, naming);
      CopiesAppend(front + added, blank, name, naming);
    } else {
      CopiesAppend(lines, added, name, naming);
    }
  }
}

/** When refreshing the workspace env file has the intended effect, and when it settles. */
module SetupRefreshTheorems {
  import opened Prelude
  import opened SetupExports
  import opened SetupRefresh
  import opened ShellQuote
  import opened Text

  predicate Lacks(n: string, c: char) {
    forall i | 0 <= i < |n| :: n[i] != c
  }

  lemma PathNamesLack(c: char)
    requires c == '=' || c == NEWLINE
    ensures Lacks(SOCKET_DIR, c) && Lacks(CONFIG, c) && Lacks(AGENT_SOCKET, c) && Lacks(OPERATOR_SOCKET, c)
  {
  }

  lemma BridgeNamesLack(c: char)
    requires c == '=' || c == NEWLINE
    ensures Lacks(BRIDGE_ADDRESS, c) && Lacks(HOST_ALIAS, c) && Lacks(BRIDGE_URL, c)
  {
  }

  lemma NamesHaveNo(c: char)
    requires c == '=' || c == NEWLINE
    ensures forall n | n in MANAGED_NAMES :: c !in n
  {
    PathNamesLack(c);
    BridgeNamesLack(c);
  }

  lemma NamesArePlain()
    ensures forall n | n in MANAGED_NAMES :: Trimmed(n) && '=' !in n && NEWLINE !in n
  {
    NamesHaveNo('=');
    NamesHaveNo(NEWLINE);
  }

  lemma NamesAreDistinct()
    ensures SOCKET_DIR != CONFIG && SOCKET_DIR != AGENT_SOCKET && SOCKET_DIR != OPERATOR_SOCKET
    ensures CONFIG != AGENT_SOCKET && CONFIG != OPERATOR_SOCKET && AGENT_SOCKET != OPERATOR_SOCKET
    ensures BRIDGE_ADDRESS != SOCKET_DIR && BRIDGE_ADDRESS != CONFIG
    ensures BRIDGE_ADDRESS != AGENT_SOCKET && BRIDGE_ADDRESS != OPERATOR_SOCKET
    ensures HOST_ALIAS !in {SOCKET_DIR, CONFIG, AGENT_SOCKET, OPERATOR_SOCKET, BRIDGE_ADDRESS}
    ensures BRIDGE_URL !in {SOCKET_DIR, CONFIG, AGENT_SOCKET, OPERATOR_SOCKET, BRIDGE_ADDRESS, HOST_ALIAS}
  {
  }

  function AllNames(): seq<string> {
    [SOCKET_DIR, CONFIG, AGENT_SOCKET, OPERATOR_SOCKET, BRIDGE_ADDRESS, HOST_ALIAS, BRIDGE_URL]
  }

  lemma AllNamesAreDistinct()
    ensures forall i, j | 0 <= i < j < |AllNames()| :: AllNames()[i] != AllNames()[j]
    ensures forall i | 0 <= i < |AllNames()| :: AllNames()[i] in MANAGED_NAMES
  {
  }

  /** Four settings, with a bridge six, and with a port of it seven. */
  lemma SettingCount(layout: Layout, port: string)
    ensures |Settings(layout, port)| == if TrimSpace(layout.agentBridgeAddress) == "" then 4 else if port == "" || port == "0" then 6 else 7
  {
  }

  /** The names are always the first four, six or all seven. */
  lemma SettingNames(layout: Layout, port: string)
    ensures |Settings(layout, port)| in {4, 6, 7}
    ensures forall i | 0 <= i < |Settings(layout, port)| :: Settings(layout, port)[i].name == AllNames()[i]
  {
  }

  /** The two lines that are left to the shell: the alias with its default, and the address of the bridge there. */
  lemma ReferenceLines(layout: Layout, port: string)
    requires TrimSpace(layout.agentBridgeAddress) != ""
    ensures
      |DesiredPathExports(layout, port)| > 5
      && DesiredPathExports(layout, port)[5].Line()
         == "export " + HOST_ALIAS + "=" + ("\"" + ("${" + (HOST_ALIAS + ":-host.docker.internal}")) + "\"")
    ensures port != "" && port != "0" ==>
      |DesiredPathExports(layout, port)| > 6
      && DesiredPathExports(layout, port)[6].Line()
         == "export " + BRIDGE_URL + "=" + ("\"" + ("http://${" + (HOST_ALIAS + "}:" + port)) + "\"")
  {
    SettingCount(layout, port);
    var settings := Settings(layout, port);
    assert settings[5] == Reference(HOST_ALIAS, "", DEFAULT_ALIAS);
    assert "" + "${" == "${";
    if port != "" && port != "0" {
      assert settings[6] == Reference(BRIDGE_URL, "http://", HOST_ALIAS + "}:" + port);
      assert "http://" + "${" == "http://${";
    }
  }

  lemma ProperByNames(exports: seq<Export>, names: seq<string>, managed: set<string>)
    requires |exports| <= |names| && forall i | 0 <= i < |exports| :: exports[i].name == names[i]
    requires forall i, j | 0 <= i < j < |names| :: names[i] != names[j]
    requires forall i | 0 <= i < |names| :: names[i] in managed
    requires forall n | n in managed :: Trimmed(n) && '=' !in n
    ensures Proper(exports, NamingOf(managed))
  {
    forall e | e in exports ensures e.name in managed {
      var i: nat :| i < |exports| && exports[i] == e;
      assert names[i] in managed;
    }
    ManagedExportsAreProper(exports, managed);
  }

  lemma DesiredIsProper(layout: Layout, port: string)
    ensures Proper(DesiredPathExports(layout, port), NamingOf(MANAGED_NAMES))
  {
    NamesArePlain();
    AllNamesAreDistinct();
    SettingNames(layout, port);
    ProperByNames(DesiredPathExports(layout, port), AllNames(), MANAGED_NAMES);
  }

  lemma {:induction false} ContainsInside(before: string, t: string, after: string)
    ensures Contains(before + t + after, t)
  {
    if before == "" {
      assert before + t + after == t + after;
    } else {
      assert (before + t + after)[1..] == before[1..] + t + after;
      ContainsInside(before[1..], t, after);
    }
  }

  lemma SettingIsRead(s: Setting)
    requires Trimmed(s.name) && '=' !in s.name
    ensures ParseSetupExportLine(s.AsExport().Line())
         == match s
            case Path(name, path) => Some((name, path))
            case Reference(_, _, _) => None
  {
    match s
    case Path(name, path) =>
      ParseUndoesQuote(name, path);
    case Reference(name, before, after) =>
      ContainsInside(before, "${", after);
      ParseDoubleQuoted(name, before + "${" + after);
  }

  /** Paths set their variable, references set nothing. */
  function Meaning(settings: seq<Setting>): map<string, string> {
    if settings == [] then map[]
    else
      var front := settings[..|settings| - 1];
      match settings[|settings| - 1]
      case Path(name, path) => Meaning(front)[name := path]
      case Reference(_, _, _) => Meaning(front)
  }

  lemma {:induction false} ExportsMean(settings: seq<Setting>)
    requires forall s | s in settings :: Trimmed(s.name) && '=' !in s.name
    ensures Load(LinesOf(Exports(settings))) == Meaning(settings)
  {
    if settings != [] {
      var front, last := settings[..|settings| - 1], settings[|settings| - 1];
      var lines := LinesOf(Exports(settings));
      ExportsMean(front);
      SettingIsRead(last);
      assert lines[..|lines| - 1] == LinesOf(Exports(front));
    }
  }

  lemma MeaningSnoc(front: seq<Setting>, last: Setting)
    ensures Meaning(front + [last])
         == match last
            case Path(name, path) => Meaning(front)[name := path]
            case Reference(_, _, _) => Meaning(front)
  {
  }

  lemma FourPathsMean(a: Setting, b: Setting, c: Setting, d: Setting)
    requires a.Path? && b.Path? && c.Path? && d.Path?
    ensures Meaning([a, b, c, d]) == map[a.name := a.path][b.name := b.path][c.name := c.path][d.name := d.path]
  {
    assert [a, b, c, d] == [a, b, c] + [d] && [a, b, c] == [a, b] + [c] && [a, b] == [a] + [b] && [a] == [] + [a];
    MeaningSnoc([], a);
    MeaningSnoc([a], b);
    MeaningSnoc([a, b], c);
    MeaningSnoc([a, b, c], d);
  }

  /** A path followed by references sets only its own variable. */
  lemma {:induction false} PathThenReferences(front: seq<Setting>, a: Setting, refs: seq<Setting>)
    requires a.Path? && forall r | r in refs :: r.Reference?
    ensures Meaning(front + [a] + refs) == Meaning(front)[a.name := a.path]
  {
    if refs == [] {
      assert front + [a] + refs == front + [a];
      MeaningSnoc(front, a);
    } else {
      var before, last := refs[..|refs| - 1], refs[|refs| - 1];
      assert refs == before + [last] && last in refs;
      PathThenReferences(front, a, before);
      MeaningSnoc(front + [a] + before, last);
      assert front + [a] + refs == (front + [a] + before) + [last];
    }
  }

  lemma SettingsMean(layout: Layout, port: string)
    ensures Meaning(Settings(layout, port)) == Intended(layout)
  {
    var s := Settings(layout, port);
    var paths := s[..4];
    FourPathsMean(s[0], s[1], s[2], s[3]);
    assert paths == [s[0], s[1], s[2], s[3]];
    if layout.HasBridge() {
      PathThenReferences(paths, s[4], s[5..]);
      assert s == paths + [s[4]] + s[5..];
    } else {
      assert s == paths;
    }
  }

  lemma SettingsArePlain(layout: Layout, port: string)
    ensures forall s | s in Settings(layout, port) :: Trimmed(s.name) && '=' !in s.name && NEWLINE !in s.name
  {
    NamesArePlain();
    AllNamesAreDistinct();
    SettingNames(layout, port);
    forall s | s in Settings(layout, port) ensures s.name in MANAGED_NAMES {
      var i: nat :| i < |Settings(layout, port)| && Settings(layout, port)[i] == s;
      assert s.name == AllNames()[i];
    }
  }

  /** The desired lines, read back, are the paths of the layout. */
  lemma DesiredMeaning(layout: Layout, port: string)
    ensures Load(LinesOf(DesiredPathExports(layout, port))) == Intended(layout)
  {
    SettingsArePlain(layout, port);
    SettingsMean(layout, port);
    var settings := Settings(layout, port);
    ExportsMean(settings);
    assert DesiredPathExports(layout, port) == Exports(settings);
  }

  // ---------------------------------------------------------------------------------------------
  // Line breaks in paths
  // ---------------------------------------------------------------------------------------------

  lemma {:induction false} ReplaceAllChars(s: string, target: string, replacement: string, c: char)
    requires target != "" && c !in s && c !in replacement
    ensures c !in ReplaceAll(s, target, replacement)
  {
    if s == "" {
    } else if HasPrefix(s, target) {
      ReplaceAllChars(s[|target|..], target, replacement, c);
    } else {
      ReplaceAllChars(s[1..], target, replacement, c);
    }
  }

  /** A value read from one line has no line break, so a path with one cannot be read back. */
  lemma SaidIsOneLine(line: string, name: string)
    requires NEWLINE !in line && Says(line, name).Some?
    ensures NEWLINE !in Says(line, name).value
  {
    var trimmed := TrimSpace(line);
    TrimSpaceKeepsNoNewChars(line);
    var rest := TrimPrefix(trimmed, EXPORT);
    assert NEWLINE !in rest;
    var raw := Cut(rest, '=').value.1;
    assert NEWLINE !in raw;
    TrimSpaceKeepsNoNewChars(raw);
    var value := TrimSpace(raw);
    if |value| >= 2 {
      ReplaceAllChars(value[1..|value| - 1], ESCAPED_QUOTE, QUOTE, NEWLINE);
    }
  }

  lemma {:induction false} LoadedIsOneLine(lines: seq<string>, name: string)
    requires forall l | l in lines :: NEWLINE !in l
    requires name in Load(lines)
    ensures NEWLINE !in Load(lines)[name]
  {
    var front, last := lines[..|lines| - 1], lines[|lines| - 1];
    if Says(last, name).Some? {
      SaidIsOneLine(last, name);
    } else {
      LoadedIsOneLine(front, name);
    }
  }

  lemma {:induction false} ReplaceAllKeeps(s: string, target: string, replacement: string, c: char)
    requires target != "" && c in s && c !in target
    ensures c in ReplaceAll(s, target, replacement)
  {
    if HasPrefix(s, target) {
      assert s == target + s[|target|..];
      ReplaceAllKeeps(s[|target|..], target, replacement, c);
    } else if s[0] != c {
      assert s == [s[0]] + s[1..];
      ReplaceAllKeeps(s[1..], target, replacement, c);
    }
  }

  predicate OneLineSetting(s: Setting) {
    match s
    case Path(_, path) => NEWLINE !in path
    case Reference(_, before, after) => NEWLINE !in before && NEWLINE !in after
  }

  lemma SettingLine(s: Setting)
    requires NEWLINE !in s.name
    ensures NEWLINE in s.AsExport().Line() <==> !OneLineSetting(s)
  {
    match s
    case Path(_, path) =>
      if NEWLINE in path {
        ReplaceAllKeeps(path, QUOTE, ESCAPED_QUOTE, NEWLINE);
      } else {
        ReplaceAllChars(path, QUOTE, ESCAPED_QUOTE, NEWLINE);
      }
    case Reference(_, _, _) =>
  }

  lemma ConcatOneLine(a: string, b: string)
    requires NEWLINE !in a && NEWLINE !in b
    ensures NEWLINE !in a + b
  {
  }

  lemma ReferencesOneLine(port: string)
    requires NEWLINE !in port
    ensures OneLineSetting(Reference(HOST_ALIAS, "", DEFAULT_ALIAS))
    ensures OneLineSetting(Reference(BRIDGE_URL, "http://", HOST_ALIAS + "}:" + port))
  {
    assert NEWLINE !in HOST_ALIAS;
    ConcatOneLine(HOST_ALIAS, ":-host.docker.internal}");
    ConcatOneLine(HOST_ALIAS, "}:");
    ConcatOneLine(HOST_ALIAS + "}:", port);
  }

  lemma BridgeOneLine(layout: Layout, port: string)
    requires forall c | c in port :: c in layout.agentBridgeAddress
    ensures NEWLINE !in layout.agentBridgeAddress <==> forall s | s in BridgeSettings(layout, port) :: OneLineSetting(s)
  {
    var settings := BridgeSettings(layout, port);
    if NEWLINE !in layout.agentBridgeAddress {
      ReferencesOneLine(port);
    } else {
      assert !OneLineSetting(settings[0]);
    }
  }

  lemma PathsOneLine(paths: seq<string>, settings: seq<Setting>)
    requires |paths| == |settings|
    requires forall i | 0 <= i < |paths| :: settings[i].Path? && settings[i].path == paths[i]
    ensures (forall p | p in paths :: NEWLINE !in p) <==> forall s | s in settings :: OneLineSetting(s)
  {
    forall i: nat | i < |paths| ensures OneLineSetting(settings[i]) <==> NEWLINE !in paths[i] {
    }
    forall p | p in paths ensures exists i: nat :: i < |paths| && paths[i] == p && settings[i] in settings {
      var i: nat :| i < |paths| && paths[i] == p;
      assert settings[i] in settings;
    }
    forall s | s in settings ensures exists i: nat :: i < |paths| && settings[i] == s && paths[i] in paths {
      var i: nat :| i < |paths| && settings[i] == s;
      assert paths[i] in paths;
    }
  }

  lemma SettingsOneLine(layout: Layout, port: string)
    requires forall c | c in port :: c in layout.agentBridgeAddress
    ensures layout.OneLine() <==> forall s | s in Settings(layout, port) :: OneLineSetting(s)
  {
    var paths := [layout.socketDir, layout.configPath, layout.agentSocketPath, layout.operatorSocketPath];
    var front, back := Settings(layout, port)[..4], Settings(layout, port)[4..];
    assert Settings(layout, port) == front + back;
    PathsOneLine(paths, front);
    assert (forall p | p in paths :: NEWLINE !in p) <==>
      paths[0] in paths && paths[1] in paths && paths[2] in paths && paths[3] in paths
      && NEWLINE !in paths[0] && NEWLINE !in paths[1] && NEWLINE !in paths[2] && NEWLINE !in paths[3];
    if layout.HasBridge() {
      BridgeOneLine(layout, port);
      assert back == BridgeSettings(layout, port);
    }
    assert (forall s | s in front + back :: OneLineSetting(s))
      <==> (forall s | s in front :: OneLineSetting(s)) && (forall s | s in back :: OneLineSetting(s));
  }

  lemma DesiredLinesOneLine(layout: Layout, port: string)
    requires forall c | c in port :: c in layout.agentBridgeAddress
    ensures layout.OneLine() <==> forall e | e in DesiredPathExports(layout, port) :: NEWLINE !in e.Line()
  {
    var settings, exports := Settings(layout, port), DesiredPathExports(layout, port);
    SettingsOneLine(layout, port);
    SettingsArePlain(layout, port);
    forall i: nat | i < |settings|
      ensures NEWLINE in exports[i].Line() <==> !OneLineSetting(settings[i])
    {
      SettingLine(settings[i]);
    }
    forall e | e in exports ensures exists i: nat :: i < |settings| && e == exports[i] {
    }
    forall s | s in settings ensures exists i: nat :: i < |settings| && s == settings[i] && exports[i] in exports {
      var i: nat :| i < |settings| && s == settings[i];
      assert exports[i] in exports;
    }
  }

  /** Written to disk and read again, the synced lines are still the same lines. */
  lemma RefreshedLines(body: string, layout: Layout, port: string, naming: Naming)
    requires naming == NamingOf(MANAGED_NAMES)
    requires forall c | c in port :: c in layout.agentBridgeAddress
    requires layout.OneLine()
    ensures Split(Refreshed(body, layout, port), NEWLINE)
         == Synced(Split(body, NEWLINE), DesiredPathExports(layout, port), naming)
  {
    var lines, exports := Split(body, NEWLINE), DesiredPathExports(layout, port);
    DesiredIsProper(layout, port);
    if NeedsChange(lines, exports, naming) {
      JoinSplit(body, NEWLINE);
      DesiredLinesOneLine(layout, port);
      SyncedOneLine(lines, exports, naming);
      SplitJoin(Synced(lines, exports, naming), NEWLINE);
    } else {
      ChangeIsReported(lines, exports, naming);
    }
  }

  lemma SyncedOneLine(lines: seq<string>, exports: seq<Export>, naming: Naming)
    requires Proper(exports, naming) && exports != []
    requires forall l | l in lines :: NEWLINE !in l
    requires forall e | e in exports :: NEWLINE !in e.Line()
    ensures Synced(lines, exports, naming) != []
    ensures forall l | l in Synced(lines, exports, naming) :: NEWLINE !in l
  {
    SyncedLines(lines, exports, naming);
    assert exports[0].Line() in Synced(lines, exports, naming);
  }

  /** A path that holds a line break is among the intended values. */
  lemma BrokenPath(layout: Layout)
    requires !layout.OneLine()
    ensures exists n | n in Intended(layout) :: NEWLINE in Intended(layout)[n]
  {
    NamesAreDistinct();
    var m := Intended(layout);
    assert m[SOCKET_DIR] == layout.socketDir && m[CONFIG] == layout.configPath;
    assert m[AGENT_SOCKET] == layout.agentSocketPath && m[OPERATOR_SOCKET] == layout.operatorSocketPath;
    assert layout.HasBridge() ==> m[BRIDGE_ADDRESS] == layout.agentBridgeAddress;
  }

  /**
   After a refresh, reading the file gives the paths of the layout, every other variable as before, and
   no managed variable besides: exactly when no path has a line break in it.
   */
  lemma RefreshMeansIff(body: string, layout: Layout, port: string)
    requires forall c | c in port :: c in layout.agentBridgeAddress
    ensures Load(Split(Refreshed(body, layout, port), NEWLINE)) == (Load(Split(body, NEWLINE)) - MANAGED_NAMES) + Intended(layout)
       <==> layout.OneLine()
  {
    if layout.OneLine() {
      var naming := NamingOf(MANAGED_NAMES);
      RefreshedLines(body, layout, port, naming);
      DesiredIsProper(layout, port);
      DesiredMeaning(layout, port);
      NamingNames(MANAGED_NAMES);
      SyncedMeaning(Split(body, NEWLINE), DesiredPathExports(layout, port), naming, MANAGED_NAMES);
    } else {
      BrokenPath(layout);
      var n :| n in Intended(layout) && NEWLINE in Intended(layout)[n];
      var after := Split(Refreshed(body, layout, port), NEWLINE);
      JoinSplit(Refreshed(body, layout, port), NEWLINE);
      if n in Load(after) {
        LoadedIsOneLine(after, n);
      }
      var intended := (Load(Split(body, NEWLINE)) - MANAGED_NAMES) + Intended(layout);
      assert n in intended && intended[n] == Intended(layout)[n];
    }
  }

  /** A second refresh finds nothing to do, again exactly when no path has a line break in it. */
  lemma RefreshSettlesIff(body: string, layout: Layout, port: string)
    requires forall c | c in port :: c in layout.agentBridgeAddress
    ensures !NeedsChange(Split(Refreshed(body, layout, port), NEWLINE), DesiredPathExports(layout, port), NamingOf(MANAGED_NAMES))
       <==> layout.OneLine()
  {
    var exports, naming := DesiredPathExports(layout, port), NamingOf(MANAGED_NAMES);
    DesiredIsProper(layout, port);
    if layout.OneLine() {
      RefreshedLines(body, layout, port, naming);
      SyncIsIdempotent(Split(body, NEWLINE), exports, naming);
    } else {
      DesiredLinesOneLine(layout, port);
      JoinSplit(Refreshed(body, layout, port), NEWLINE);
      var i: nat :| i < |exports| && NEWLINE in exports[i].Line();
      NeverSettled(Split(Refreshed(body, layout, port), NEWLINE), exports, i, naming);
    }
  }

  lemma NeverSettled(lines: seq<string>, exports: seq<Export>, i: nat, naming: Naming)
    requires Proper(exports, naming) && i < |exports|
    requires NEWLINE in exports[i].Line() && lines != [] && forall l | l in lines :: NEWLINE !in l
    ensures NeedsChange(lines, exports, naming)
  {
    DesiredIsIt(exports, naming, i);
    if exports[i].name in Found(lines, naming) {
      var k :| k in lines && naming(k) == Some(exports[i].name);
      assert Kept(k, DesiredByName(exports), naming) == [exports[i].Line()];
    } else {
      MissingLine(exports, Found(lines, naming), exports[i].Line());
    }
  }
}

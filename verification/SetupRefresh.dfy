/**
 What refreshing the workspace env file does to the variables that are later read back from it:
 `refreshWorkspaceSetupEnvPaths` of `cmd/promptlock/setup.go` and `loadWorkspaceSetupEnvExports` of
 `cmd/promptlock/workspace_setup_autodetect.go`.
 */
module SetupRefresh {
  import opened Prelude
  import opened SetupExports
  import opened ShellQuote
  import opened Text

  const NEWLINE: char := '\n'

  // ---------------------------------------------------------------------------------------------
  // Loading
  // ---------------------------------------------------------------------------------------------

  function Load(lines: seq<string>): map<string, string> {
    if lines == [] then map[]
    else
      match ParseSetupExportLine(lines[|lines| - 1])
      case None => Load(lines[..|lines| - 1])
      case Some((name, value)) => Load(lines[..|lines| - 1])[name := value]
  }

  method LoadWorkspaceSetupEnvExports(body: Option<string>) returns (exports: Option<map<string, string>>)
    ensures exports ==
      if body.None? || Load(Split(body.value, NEWLINE)) == map[] then None else Some(Load(Split(body.value, NEWLINE)))
  {
    if body.None? {
      return None;
    }
    var lines := Split(body.value, NEWLINE);
    var loaded: map<string, string> := map[];
    for i := 0 to |lines|
      invariant loaded == Load(lines[..i])
    {
      LoadNext(lines, i);
      match ParseSetupExportLine(lines[i]) {
        case None =>
        case Some((name, value)) => loaded := loaded[name := value];
      }
    }
    assert lines[..|lines|] == lines;
    exports := if |loaded| == 0 then None else Some(loaded);
  }

  lemma LoadNext(lines: seq<string>, i: nat)
    requires i < |lines|
    ensures
      Load(lines[..i + 1]) ==
      match ParseSetupExportLine(lines[i])
      case None => Load(lines[..i])
      case Some((name, value)) => Load(lines[..i])[name := value]
  {
    assert lines[..i + 1][..i] == lines[..i];
  }

  function At(m: map<string, string>, name: string): Option<string> {
    if name in m then Some(m[name]) else None
  }

  /** What one line says about a variable. */
  function Says(line: string, name: string): Option<string> {
    match ParseSetupExportLine(line)
    case None => None
    case Some((n, value)) => if n == name then Some(value) else None
  }

  /** The naming agrees with what is read from lines. */
  ghost predicate Names(naming: Naming, managed: set<string>) {
    forall l, n :: Says(l, n).Some? ==> naming(l) == if n in managed then Some(n) else None
  }

  lemma NamingNames(managed: set<string>)
    ensures Names(NamingOf(managed), managed)
  {
  }

  lemma {:induction false} LoadUnmanaged(lines: seq<string>, name: string, naming: Naming, managed: set<string>)
    requires Names(naming, managed) && name !in managed
    ensures At(Load(lines), name) == At(Load(Unmanaged(lines, naming)), name)
  {
    if lines != [] {
      var front, last := lines[..|lines| - 1], lines[|lines| - 1];
      LoadUnmanaged(front, name, naming, managed);
      LoadSnocAt(front, last, name);
      assert lines == front + [last];
      if naming(last).None? {
        assert Unmanaged(lines, naming) == Unmanaged(front, naming) + [last];
        LoadSnocAt(Unmanaged(front, naming), last, name);
      } else {
        assert Unmanaged(lines, naming) == Unmanaged(front, naming);
      }
    }
  }

  lemma LoadSnocAt(front: seq<string>, last: string, name: string)
    ensures At(Load(front + [last]), name) == if Says(last, name).Some? then Says(last, name) else At(Load(front), name)
  {
  }

  ghost predicate Heard(lines: seq<string>, name: string) {
    exists l | l in lines :: Says(l, name).Some?
  }

  /** When all lines about a variable say the same, that is what is loaded. */
  lemma {:induction false} LoadAgreed(lines: seq<string>, name: string, value: string)
    requires forall l | l in lines && Says(l, name).Some? :: Says(l, name) == Some(value)
    ensures At(Load(lines), name) == if Heard(lines, name) then Some(value) else None
  {
    if lines != [] {
      var front, last := lines[..|lines| - 1], lines[|lines| - 1];
      assert lines == front + [last];
      LoadAgreed(front, name, value);
      LoadSnocAt(front, last, name);
      assert Heard(lines, name) <==> Heard(front, name) || Says(last, name).Some?;
    }
  }

  function LinesOf(exports: seq<Export>): (lines: seq<string>)
    ensures |lines| == |exports| && forall i | 0 <= i < |exports| :: lines[i] == exports[i].Line()
  {
    seq(|exports|, i requires 0 <= i < |exports| => exports[i].Line())
  }

  lemma LoadManaged(lines: seq<string>, exports: seq<Export>, name: string, naming: Naming, managed: set<string>)
    requires Names(naming, managed) && Proper(exports, naming) && name in managed
    ensures At(Load(Synced(lines, exports, naming)), name) == At(Load(LinesOf(exports)), name)
  {
    var r, desired := Synced(lines, exports, naming), DesiredByName(exports);
    SyncedLines(lines, exports, naming);
    var value :=
      if name in desired && Says(desired[name].Line(), name).Some? then Says(desired[name].Line(), name).value else "";
    forall l | l in r && Says(l, name).Some? ensures name in desired && l == desired[name].Line() {
    }
    forall l | l in LinesOf(exports) && Says(l, name).Some? ensures name in desired && l == desired[name].Line() && l in r {
      var i: nat :| i < |exports| && l == LinesOf(exports)[i];
      DesiredIsIt(exports, naming, i);
    }
    LoadAgreed(r, name, value);
    LoadAgreed(LinesOf(exports), name, value);
    if name in desired {
      var i: nat :| i < |exports| && exports[i] == desired[name];
      assert desired[name].Line() == LinesOf(exports)[i];
    }
    assert Heard(r, name) <==> Heard(LinesOf(exports), name);
  }

  lemma {:induction false} LoadedIsHeard(lines: seq<string>, name: string)
    ensures name in Load(lines) ==> Heard(lines, name)
  {
    if lines != [] {
      var front, last := lines[..|lines| - 1], lines[|lines| - 1];
      assert lines == front + [last];
      LoadedIsHeard(front, name);
      LoadSnocAt(front, last, name);
    }
  }

  lemma DesiredAreManaged(exports: seq<Export>, name: string, naming: Naming, managed: set<string>)
    requires Names(naming, managed) && Proper(exports, naming) && name in Load(LinesOf(exports))
    ensures name in managed
  {
    LoadedIsHeard(LinesOf(exports), name);
    var i: nat :| i < |exports| && Says(LinesOf(exports)[i], name).Some?;
    assert naming(exports[i].Line()) == Some(exports[i].name);
  }

  lemma SyncedMeaningAt(lines: seq<string>, exports: seq<Export>, name: string, naming: Naming, managed: set<string>)
    requires Names(naming, managed) && Proper(exports, naming)
    ensures At(Load(Synced(lines, exports, naming)), name)
         == At(if name in managed then Load(LinesOf(exports)) else Load(lines), name)
  {
    if name in managed {
      LoadManaged(lines, exports, name, naming, managed);
    } else {
      BlankSaysNothing();
      UnmanagedLinesSurvive(lines, exports, naming);
      LoadUnmanaged(Synced(lines, exports, naming), name, naming, managed);
      LoadUnmanaged(OrBlank(lines), name, naming, managed);
    }
  }

  lemma BlankSaysNothing()
    ensures Load([""]) == map[]
  {
  }

  /**
   Syncing a file makes the managed variables mean what the desired lines say and changes no other
   variable, whatever the file held before.
   */
  lemma SyncedMeaning(lines: seq<string>, exports: seq<Export>, naming: Naming, managed: set<string>)
    requires Names(naming, managed) && Proper(exports, naming)
    ensures Load(Synced(lines, exports, naming)) == (Load(lines) - managed) + Load(LinesOf(exports))
  {
    var before, after, wanted := Load(lines), Load(Synced(lines, exports, naming)), Load(LinesOf(exports));
    forall n ensures At(after, n) == At((before - managed) + wanted, n) {
      SyncedMeaningAt(lines, exports, n, naming, managed);
      if n in wanted {
        DesiredAreManaged(exports, n, naming, managed);
      }
      MergedAt(before, wanted, managed, n);
    }
    SameEverywhere(after, (before - managed) + wanted);
  }

  lemma MergedAt(before: map<string, string>, wanted: map<string, string>, managed: set<string>, n: string)
    requires n in wanted ==> n in managed
    ensures At((before - managed) + wanted, n) == if n in managed then At(wanted, n) else At(before, n)
  {
  }

  lemma SameEverywhere(a: map<string, string>, b: map<string, string>)
    requires forall n :: At(a, n) == At(b, n)
    ensures a == b
  {
    forall n ensures n in a <==> n in b { assert At(a, n) == At(b, n); }
    forall n | n in a ensures a[n] == b[n] { assert At(a, n) == At(b, n); }
  }

  // ---------------------------------------------------------------------------------------------
  // The refresh
  // ---------------------------------------------------------------------------------------------

  datatype Layout = Layout(
    socketDir: string,
    configPath: string,
    agentSocketPath: string,
    operatorSocketPath: string,
    agentBridgeAddress: string)
  {
    predicate HasBridge() { TrimSpace(agentBridgeAddress) != "" }

    predicate OneLine() {
      && NEWLINE !in socketDir && NEWLINE !in configPath
      && NEWLINE !in agentSocketPath && NEWLINE !in operatorSocketPath
      && (HasBridge() ==> NEWLINE !in agentBridgeAddress)
    }
  }

  const SOCKET_DIR := "PROMPTLOCK_SETUP_SOCKET_DIR"
  const CONFIG := "PROMPTLOCK_CONFIG"
  const AGENT_SOCKET := "PROMPTLOCK_AGENT_UNIX_SOCKET"
  const OPERATOR_SOCKET := "PROMPTLOCK_OPERATOR_UNIX_SOCKET"
  const BRIDGE_ADDRESS := "PROMPTLOCK_AGENT_BRIDGE_ADDRESS"
  const HOST_ALIAS := "PROMPTLOCK_DOCKER_HOST_ALIAS"
  const BRIDGE_URL := "PROMPTLOCK_DOCKER_AGENT_BRIDGE_URL"

  const DEFAULT_ALIAS := HOST_ALIAS + ":-host.docker.internal}"

  /**
   A desired export: a path, written quoted, or a text with a shell reference between `before` and
   `after`, written between double quotes, which loading does not expand and skips.
   */
  datatype Setting =
    | Path(name: string, path: string)
    | Reference(name: string, before: string, after: string)
  {
    function AsExport(): (e: Export)
      ensures e.name == name
    {
      match this
      case Path(_, path) => Export(name, Quote(path))
      case Reference(_, before, after) => Export(name, DoubleQuoted(before + "${" + after))
    }
  }

  /** `port` is what `mustPort` reads off the bridge address. */
  function Settings(layout: Layout, port: string): seq<Setting> {
    [ Path(SOCKET_DIR, layout.socketDir),
      Path(CONFIG, layout.configPath),
      Path(AGENT_SOCKET, layout.agentSocketPath),
      Path(OPERATOR_SOCKET, layout.operatorSocketPath)
    ] + if layout.HasBridge() then BridgeSettings(layout, port) else []
  }

  function BridgeSettings(layout: Layout, port: string): seq<Setting> {
    [ Path(BRIDGE_ADDRESS, layout.agentBridgeAddress),
      Reference(HOST_ALIAS, "", DEFAULT_ALIAS)
    ] + if port == "" || port == "0" then []
        else [Reference(BRIDGE_URL, "http://", HOST_ALIAS + "}:" + port)]
  }

  function Exports(settings: seq<Setting>): (exports: seq<Export>)
    ensures |exports| == |settings|
    ensures forall i | 0 <= i < |settings| :: exports[i] == settings[i].AsExport()
  {
    seq(|settings|, i requires 0 <= i < |settings| => settings[i].AsExport())
  }

  function DesiredPathExports(layout: Layout, port: string): seq<Export> {
    Exports(Settings(layout, port))
  }

  function Intended(layout: Layout): map<string, string> {
    var paths :=
      map[SOCKET_DIR := layout.socketDir][CONFIG := layout.configPath]
         [AGENT_SOCKET := layout.agentSocketPath][OPERATOR_SOCKET := layout.operatorSocketPath];
    if layout.HasBridge() then paths[BRIDGE_ADDRESS := layout.agentBridgeAddress] else paths
  }

  function Refreshed(body: string, layout: Layout, port: string): string {
    var lines, exports := Split(body, NEWLINE), DesiredPathExports(layout, port);
    if NeedsChange(lines, exports, NamingOf(MANAGED_NAMES)) then Join(Synced(lines, exports, NamingOf(MANAGED_NAMES)), NEWLINE) else body
  }

  datatype FileError = ReadFailed | WriteFailed

  class WorkspaceEnv {
    /** The content of the env file, if there is one. */
    var file: Option<string>

    constructor (file: Option<string>)
      ensures this.file == file
    {
      this.file := file;
    }

    /** A write that fails may leave anything behind. */
    method WritePrivateFile(body: string) returns (ok: bool)
      modifies this
      ensures ok ==> file == Some(body)
    {
      var left: Option<string> := *;
      ok := *;
      file := if ok then Some(body) else left;
    }

    /** The file is written only when its lines need a change; reading and writing may fail. */
    method RefreshWorkspaceSetupEnvPaths(layout: Layout, port: string) returns (r: Result<bool, FileError>)
      modifies this
      ensures r.Ok? ==> old(file).Some? && file == Some(Refreshed(old(file).value, layout, port))
      ensures r.Ok? || r.error.WriteFailed? ==>
        && old(file).Some?
        && (r.Err? || r.value)
           == NeedsChange(Split(old(file).value, NEWLINE), DesiredPathExports(layout, port), NamingOf(MANAGED_NAMES))
      ensures r == Err(ReadFailed) ==> file == old(file)
      ensures old(file).None? ==> r == Err(ReadFailed)
    {
      var readable: bool := *;
      if !readable || file.None? {
        return Err(ReadFailed);
      }
      var lines := Split(file.value, NEWLINE);
      var exports := DesiredPathExports(layout, port);
      var updatedLines, changed := SyncSetupExportLines(lines, exports);
      if !changed {
        return Ok(false);
      }
      var ok := WritePrivateFile(Join(updatedLines, NEWLINE));
      return if ok then Ok(true) else Err(WriteFailed);
    }
  }
}

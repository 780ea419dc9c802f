/**
 What a command line says, from the side of who writes it: the words, options and values that are written
 out as tokens are read back as the destinations and unsafe flags that they were meant as.
 */
module NetworkReading {
  import opened Prelude
  import opened Text
  import opened NetworkArgs
  import opened NetworkEgress

  // ---------------------------------------------------------------------------------------------
  // Direct clients
  // ---------------------------------------------------------------------------------------------

  /** A word; an option with two dashes and one with one dash, behind switches; and switches alone. */
  datatype Part =
    | Word(text: string)
    | Long(name: string, attached: Option<string>, next: Option<string>)
    | Short(switches: string, letter: char, behind: string, next: Option<string>)
    | Switched(switches: string)
  {
    function Token(): string {
      match this
      case Word(text) => text
      case Long(name, attached, _) => if attached.Some? then name + "=" + attached.value else name
      case Short(switches, letter, behind, _) => "-" + switches + [letter] + behind
      case Switched(switches) => "-" + switches
    }

    function Written(): seq<string> {
      [Token()] + if (Long? || Short?) && next.Some? then [next.value] else []
    }

    /** What the table says about the option. */
    function TableMode(lib: Library, spec: ArgSpec): Option<Mode>
      requires Long? || Short?
    {
      if Long? then if lib.lower(name) in spec.longFlags then Some(spec.longFlags[lib.lower(name)]) else None
      else if letter in spec.shortFlags then Some(spec.shortFlags[letter]) else None
    }

    /** The value that the option has, whichever way it is written. */
    function Value(): Option<string>
      requires Long? || Short?
    {
      if next.Some? then next
      else if Long? then attached
      else if behind != "" then Some(behind) else None
    }

    /** Where the client connects to. */
    function ConnectsTo(lib: Library, spec: ArgSpec): seq<string> {
      if Word? then [lib.trim(text)]
      else if (Long? || Short?) && TableMode(lib, spec) == Some(Destination) && Value().Some? then [Value().value]
      else []
    }

    /** The option, if it is not in the table or may send the client elsewhere. */
    function Suspicious(lib: Library, spec: ArgSpec): Option<string> {
      if (Long? || Short?) && (TableMode(lib, spec).None? || TableMode(lib, spec) == Some(OpaqueOrOverrideValue)) then
        Some(if Long? then name else "-" + lib.byteText(letter))
      else None
    }
  }

  /** A letter that never has a value. */
  predicate IsSwitch(spec: ArgSpec, c: char) {
    c in spec.shortFlags && (spec.shortFlags[c] == NoValue || spec.shortFlags[c] == Unknown)
  }

  /**
   Whether the value of an option of that mode is where the reader looks for it: in the token, or else in
   the next one, unless the option has none, or the reader has to guess and the next token looks like a flag.
   */
  predicate ValueInPlace(lib: Library, mode: Option<Mode>, inToken: bool, next: Option<string>, following: seq<string>) {
    if inToken || mode == Some(NoValue) then next.None?
    else if mode.None? || mode == Some(Unknown) then
      if next.Some? then !lib.LooksLikeFlag(next.value) else following == [] || lib.LooksLikeFlag(following[0])
    else next.Some? || following == []
  }

  /** The token of the part has its shape, without white space around it. */
  predicate Shaped(lib: Library, spec: ArgSpec, part: Part) {
    match part
    case Word(text) => lib.trim(text) != "" && !HasPrefix(lib.trim(text), "-")
    case Long(name, _, _) => lib.trim(part.Token()) == part.Token() != "--" && HasPrefix(name, "--") && '=' !in name
    case Short(switches, letter, _, _) =>
      && lib.trim(part.Token()) == part.Token() && !HasPrefix(part.Token(), "--")
      && (forall i | 0 <= i < |switches| :: IsSwitch(spec, switches[i])) && !IsSwitch(spec, letter)
    case Switched(switches) =>
      && lib.trim(part.Token()) == part.Token() && !HasPrefix(part.Token(), "--")
      && forall i | 0 <= i < |switches| :: IsSwitch(spec, switches[i])
  }

  predicate WellWritten(lib: Library, spec: ArgSpec, part: Part, following: seq<string>) {
    && Shaped(lib, spec, part)
    && (part.Long? ==> ValueInPlace(lib, part.TableMode(lib, spec), part.attached.Some?, part.next, following))
    && (part.Short? ==> ValueInPlace(lib, part.TableMode(lib, spec), part.behind != "", part.next, following))
  }

  function WrittenOut(parts: seq<Part>, rest: seq<string>): seq<string> {
    if parts == [] then rest else parts[0].Written() + WrittenOut(parts[1..], rest)
  }

  predicate AllWellWritten(lib: Library, spec: ArgSpec, parts: seq<Part>, rest: seq<string>) {
    parts != [] ==> WellWritten(lib, spec, parts[0], WrittenOut(parts[1..], rest)) && AllWellWritten(lib, spec, parts[1..], rest)
  }

  function AllConnectTo(lib: Library, spec: ArgSpec, parts: seq<Part>): seq<string> {
    if parts == [] then [] else parts[0].ConnectsTo(lib, spec) + AllConnectTo(lib, spec, parts[1..])
  }

  function FirstSuspicious(lib: Library, spec: ArgSpec, parts: seq<Part>): Option<string> {
    if parts == [] then None
    else if parts[0].Suspicious(lib, spec).Some? then parts[0].Suspicious(lib, spec)
    else FirstSuspicious(lib, spec, parts[1..])
  }

  // Items from the front

  lemma {:induction false} DestinationsCons(lib: Library, item: Item, items: seq<Item>)
    ensures Destinations(lib, [item] + items) == item.Destinations(lib) + Destinations(lib, items)
  {
    if items == [] {
      assert [item] + items == [item] && [item][..0] == [];
    } else {
      var front, last := items[..|items| - 1], items[|items| - 1];
      assert ([item] + items)[..|items|] == [item] + front;
      DestinationsCons(lib, item, front);
    }
  }

  lemma {:induction false} FirstUnsafeCons(item: Item, items: seq<Item>)
    ensures FirstUnsafe([item] + items) == if item.UnsafeFlag().Some? then item.UnsafeFlag() else FirstUnsafe(items)
  {
    if items == [] {
      assert [item] + items == [item] && [item][..0] == [];
    } else {
      var front, last := items[..|items| - 1], items[|items| - 1];
      assert ([item] + items)[..|items|] == [item] + front;
      FirstUnsafeCons(item, front);
    }
  }

  /** One item at the front of a reading, with what it says. */
  ghost predicate ReadFirst(lib: Library, spec: ArgSpec, args: seq<string>, part: Part, following: seq<string>) {
    exists item ::
      && Items(lib, spec, args) == [item] + Items(lib, spec, following)
      && item.Destinations(lib) == part.ConnectsTo(lib, spec) && item.UnsafeFlag() == part.Suspicious(lib, spec)
  }

  lemma {:induction false} SwitchesSkipped(lib: Library, spec: ArgSpec, switches: string, rest: string)
    requires forall i | 0 <= i < |switches| :: IsSwitch(spec, switches[i])
    ensures ShortFlag(lib, spec, switches + rest) == ShortFlag(lib, spec, rest)
  {
    if switches == "" {
      assert switches + rest == rest;
    } else {
      assert (switches + rest)[1..] == switches[1..] + rest && (switches + rest)[0] == switches[0];
      SwitchesSkipped(lib, spec, switches[1..], rest);
    }
  }

  lemma WordRead(lib: Library, spec: ArgSpec, part: Part, following: seq<string>)
    requires part.Word? && WellWritten(lib, spec, part, following)
    ensures ReadFirst(lib, spec, part.Written() + following, part, following)
  {
    var args := part.Written() + following;
    assert args[0] == part.text && args[1..] == following;
    assert Items(lib, spec, args) == [Operand(part.text)] + Items(lib, spec, following);
  }

  lemma SwitchedRead(lib: Library, spec: ArgSpec, part: Part, following: seq<string>)
    requires part.Switched? && WellWritten(lib, spec, part, following)
    ensures ReadFirst(lib, spec, part.Written() + following, part, following)
  {
    var args, token := part.Written() + following, part.Token();
    assert args[0] == token && args[1..] == following;
    assert token[1..] == part.switches == part.switches + "";
    SwitchesSkipped(lib, spec, part.switches, "");
    assert Items(lib, spec, args) == [Switches(token)] + Items(lib, spec, following);
  }

  /** A token that is a flag of the grammar, with or without the next token. */
  lemma FlagRead(lib: Library, spec: ArgSpec, part: Part, flag: Flag, following: seq<string>)
    requires part.Long? || part.Short?
    requires lib.trim(part.Token()) == part.Token() != "--" && HasPrefix(part.Token(), "-")
    requires FlagOf(lib, spec, part.Token()) == Some(flag)
    requires flag.mode == part.TableMode(lib, spec) && flag.name == (if part.Long? then part.name else "-" + lib.byteText(part.letter))
    requires flag.inlineValue == if part.Long? then part.attached else if part.behind != "" then Some(part.behind) else None
    requires ValueInPlace(lib, flag.mode, flag.inlineValue.Some?, part.next, following)
    ensures ReadFirst(lib, spec, part.Written() + following, part, following)
  {
    var args, token := part.Written() + following, part.Token();
    assert args[0] == token;
    if part.next.Some? {
      assert args[1..] == [part.next.value] + following && args[1..][1..] == following;
      assert flag.TakesNext(lib, args[1..]);
    } else {
      assert args[1..] == following;
      assert !flag.TakesNext(lib, args[1..]);
    }
    assert Items(lib, spec, args) == [Setting(token, flag, part.next)] + Items(lib, spec, following);
  }

  lemma LongRead(lib: Library, spec: ArgSpec, part: Part, following: seq<string>)
    requires part.Long? && WellWritten(lib, spec, part, following)
    ensures ReadFirst(lib, spec, part.Written() + following, part, following)
  {
    var token := part.Token();
    assert token[..2] == part.name[..2] == "--";
    if part.attached.Some? {
      assert token == part.name + ['='] + part.attached.value;
      CutAt(part.name, '=', part.attached.value);
    } else {
      NoCut(part.name, '=');
    }
    FlagRead(lib, spec, part, LongFlag(lib, spec, token), following);
  }

  lemma ShortRead(lib: Library, spec: ArgSpec, part: Part, following: seq<string>)
    requires part.Short? && WellWritten(lib, spec, part, following)
    ensures ReadFirst(lib, spec, part.Written() + following, part, following)
  {
    var token, cluster := part.Token(), [part.letter] + part.behind;
    assert token[1..] == part.switches + cluster;
    SwitchesSkipped(lib, spec, part.switches, cluster);
    assert cluster[0] == part.letter && cluster[1..] == part.behind;
    FlagRead(lib, spec, part, ShortFlag(lib, spec, cluster).value, following);
  }

  lemma PartRead(lib: Library, spec: ArgSpec, part: Part, following: seq<string>)
    requires WellWritten(lib, spec, part, following)
    ensures ReadFirst(lib, spec, part.Written() + following, part, following)
  {
    match part
    case Word(_) => WordRead(lib, spec, part, following);
    case Long(_, _, _) => LongRead(lib, spec, part, following);
    case Short(_, _, _, _) => ShortRead(lib, spec, part, following);
    case Switched(_) => SwitchedRead(lib, spec, part, following);
  }

  /** Operands behind `--`, or nothing. */
  function Ending(operands: Option<seq<string>>): seq<string> {
    if operands.Some? then ["--"] + operands.value else []
  }

  lemma EndingRead(lib: Library, spec: ArgSpec, operands: Option<seq<string>>)
    requires lib.trim("--") == "--"
    ensures
      var items := Items(lib, spec, Ending(operands));
      && Destinations(lib, items) == (if operands.Some? then operands.value else [])
      && FirstUnsafe(items).None?
  {
    if operands.Some? {
      var args := Ending(operands);
      assert args[1..] == operands.value;
      assert Items(lib, spec, args) == [Rest("--", operands.value)];
      DestinationsCons(lib, Rest("--", operands.value), []);
      FirstUnsafeCons(Rest("--", operands.value), []);
      assert [Rest("--", operands.value)] + [] == [Rest("--", operands.value)];
    }
  }

  lemma OnePartMore(lib: Library, spec: ArgSpec, part: Part, following: seq<string>)
    requires WellWritten(lib, spec, part, following)
    ensures
      var items, rest := Items(lib, spec, part.Written() + following), Items(lib, spec, following);
      && Destinations(lib, items) == part.ConnectsTo(lib, spec) + Destinations(lib, rest)
      && FirstUnsafe(items) == if part.Suspicious(lib, spec).Some? then part.Suspicious(lib, spec) else FirstUnsafe(rest)
  {
    PartRead(lib, spec, part, following);
    var rest := Items(lib, spec, following);
    var item :|
      && Items(lib, spec, part.Written() + following) == [item] + rest
      && item.Destinations(lib) == part.ConnectsTo(lib, spec) && item.UnsafeFlag() == part.Suspicious(lib, spec);
    DestinationsCons(lib, item, rest);
    FirstUnsafeCons(item, rest);
  }

  /** What was read of a command line is what was meant by it. */
  ghost predicate ReadAsMeant(lib: Library, spec: ArgSpec, parts: seq<Part>, operands: seq<string>, items: seq<Item>) {
    && Destinations(lib, items) == AllConnectTo(lib, spec, parts) + operands
    && FirstUnsafe(items) == FirstSuspicious(lib, spec, parts)
  }

  lemma ReadAsMeantNext(lib: Library, spec: ArgSpec, parts: seq<Part>, operands: seq<string>, items: seq<Item>, rest: seq<Item>)
    requires parts != [] && ReadAsMeant(lib, spec, parts[1..], operands, rest)
    requires Destinations(lib, items) == parts[0].ConnectsTo(lib, spec) + Destinations(lib, rest)
    requires FirstUnsafe(items) == if parts[0].Suspicious(lib, spec).Some? then parts[0].Suspicious(lib, spec) else FirstUnsafe(rest)
    ensures ReadAsMeant(lib, spec, parts, operands, items)
  {
    var first, more := parts[0].ConnectsTo(lib, spec), AllConnectTo(lib, spec, parts[1..]);
    assert first + (more + operands) == (first + more) + operands;
  }

  /**
   Reading undoes writing: whatever is written, in any order of words, options and values, the destinations
   read are those meant, in order, and the unsafe flag found is the first one.
   */
  lemma {:induction false} ReadingUndoesWriting(lib: Library, spec: ArgSpec, parts: seq<Part>, operands: Option<seq<string>>)
    requires lib.trim("--") == "--" && AllWellWritten(lib, spec, parts, Ending(operands))
    ensures
      ReadAsMeant(lib, spec, parts, if operands.Some? then operands.value else [], Items(lib, spec, WrittenOut(parts, Ending(operands))))
  {
    var behind := if operands.Some? then operands.value else [];
    if parts == [] {
      EndingRead(lib, spec, operands);
    } else {
      var following := WrittenOut(parts[1..], Ending(operands));
      ReadingUndoesWriting(lib, spec, parts[1..], operands);
      OnePartMore(lib, spec, parts[0], following);
      ReadAsMeantNext(lib, spec, parts, behind, Items(lib, spec, parts[0].Written() + following), Items(lib, spec, following));
    }
  }

  lemma {:induction false} LeadingSwitches(spec: ArgSpec, cluster: string) returns (switches: string, rest: string)
    ensures cluster == switches + rest && forall i | 0 <= i < |switches| :: IsSwitch(spec, switches[i])
    ensures rest != "" ==> !IsSwitch(spec, rest[0])
  {
    if cluster == "" || !IsSwitch(spec, cluster[0]) {
      switches, rest := "", cluster;
    } else {
      switches, rest := LeadingSwitches(spec, cluster[1..]);
      switches := [cluster[0]] + switches;
    }
  }

  lemma LongPart(lib: Library, spec: ArgSpec, token: string) returns (part: Part)
    requires lib.trim(token) == token != "--" && HasPrefix(token, "--")
    ensures part.Long? && part.next.None? && part.Token() == token && Shaped(lib, spec, part)
  {
    match Cut(token, '=')
    case Some((name, value)) =>
      part := Long(name, Some(value), None);
      assert token[0] == '-' && token[1] == '-';
      assert token == name + ['='] + value && token[|name|] == '=';
      assert name[..2] == token[..2];
    case None => part := Long(token, None, None);
  }

  lemma ShortPart(lib: Library, spec: ArgSpec, token: string) returns (part: Part)
    requires lib.trim(token) == token && HasPrefix(token, "-") && !HasPrefix(token, "--")
    ensures part.Switched? || (part.Short? && part.next.None?)
    ensures part.Token() == token && Shaped(lib, spec, part)
  {
    var switches, behind := LeadingSwitches(spec, token[1..]);
    assert token == "-" + (switches + behind);
    if behind == "" {
      part := Switched(switches);
    } else {
      part := Short(switches, behind[0], behind[1..], None);
      assert behind == [behind[0]] + behind[1..];
      Ungrouped("-", switches, [behind[0]], behind[1..]);
    }
  }

  lemma Ungrouped(a: string, b: string, c: string, d: string)
    ensures a + (b + (c + d)) == a + b + c + d
  {
  }

  /** The part that an option token is, with the next token if that is its value. */
  lemma OptionPart(lib: Library, spec: ArgSpec, token: string, rest: seq<string>) returns (part: Part)
    requires lib.trim(token) == token != "--" && HasPrefix(token, "-")
    ensures part.Written() <= [token] + rest && WellWritten(lib, spec, part, ([token] + rest)[|part.Written()|..])
  {
    if HasPrefix(token, "--") {
      part := LongPart(lib, spec, token);
    } else {
      part := ShortPart(lib, spec, token);
    }
    if (part.Long? || part.Short?) && !WellWritten(lib, spec, part, rest) {
      part := part.(next := Some(rest[0]));
      assert part.Written() == [token, rest[0]] && ([token] + rest)[2..] == rest[1..];
    } else {
      assert part.Written() == [token] && ([token] + rest)[1..] == rest;
    }
  }

  lemma FirstPart(lib: Library, spec: ArgSpec, args: seq<string>) returns (part: Part)
    requires args != [] && lib.trim(args[0]) == args[0] != "" && args[0] != "--"
    ensures part.Written() <= args && WellWritten(lib, spec, part, args[|part.Written()|..])
  {
    if HasPrefix(args[0], "-") {
      part := OptionPart(lib, spec, args[0], args[1..]);
      assert args == [args[0]] + args[1..];
    } else {
      part := Word(args[0]);
      assert part.Written() == args[..1];
    }
  }

  lemma PartThenRest(lib: Library, spec: ArgSpec, part: Part, more: seq<Part>, ending: seq<string>, args: seq<string>)
    requires part.Written() <= args && WellWritten(lib, spec, part, args[|part.Written()|..])
    requires WrittenOut(more, ending) == args[|part.Written()|..] && AllWellWritten(lib, spec, more, ending)
    ensures WrittenOut([part] + more, ending) == args && AllWellWritten(lib, spec, [part] + more, ending)
  {
    assert ([part] + more)[1..] == more;
  }

  /** Every command line of tokens that are not blank and have no white space around them is written like that. */
  lemma {:induction false} EveryLineIsWritten(lib: Library, spec: ArgSpec, args: seq<string>)
    returns (parts: seq<Part>, operands: Option<seq<string>>)
    requires forall i | 0 <= i < |args| :: args[i] != "" && lib.trim(args[i]) == args[i]
    ensures WrittenOut(parts, Ending(operands)) == args && AllWellWritten(lib, spec, parts, Ending(operands))
    decreases |args|
  {
    if args == [] {
      parts, operands := [], None;
    } else if args[0] == "--" {
      parts, operands := [], Some(args[1..]);
      assert args == ["--"] + args[1..];
    } else {
      var part := FirstPart(lib, spec, args);
      var n, more := |part.Written()|, [];
      assert forall i | 0 <= i < |args[n..]| :: args[n..][i] == args[n + i];
      more, operands := EveryLineIsWritten(lib, spec, args[n..]);
      parts := [part] + more;
      PartThenRest(lib, spec, part, more, Ending(operands), args);
    }
  }

  // ---------------------------------------------------------------------------------------------
  // Other commands
  // ---------------------------------------------------------------------------------------------

  predicate IsURLOption(lib: Library, token: string) {
    lib.trim(token) != "" && lib.lower(lib.trim(token)) == "--url"
  }

  /** Token `i` is the value of the `--url` before it, which is not itself such a value. */
  predicate IsURLValue(lib: Library, cmd: seq<string>, i: nat)
    requires i <= |cmd|
  {
    i > 0 && IsURLOption(lib, cmd[i - 1]) && !IsURLValue(lib, cmd, i - 1)
  }

  /** Token `i` makes `c` a candidate: as the value of `--url`, in either way of writing it, or by itself. */
  predicate MakesCandidate(lib: Library, cmd: seq<string>, i: nat, c: string)
    requires i < |cmd|
  {
    var part := lib.trim(cmd[i]);
    if IsURLValue(lib, cmd, i) then c == cmd[i]
    else if part == "" || lib.lower(part) == "--url" then false
    else if HasPrefix(lib.lower(part), "--url=") then Cut(part, '=').Some? && Cut(part, '=').value.1 == c
    else c == part
  }

  /** Some token makes `c` a candidate. */
  predicate IsCandidate(lib: Library, cmd: seq<string>, c: string) {
    exists i | 0 <= i < |cmd| :: MakesCandidate(lib, cmd, i, c)
  }

  lemma {:induction false} URLValueBehind(lib: Library, cmd: seq<string>, n: nat, i: nat)
    requires n + i <= |cmd| && !IsURLValue(lib, cmd, n)
    ensures IsURLValue(lib, cmd, n + i) <==> IsURLValue(lib, cmd[n..], i)
  {
    if i > 0 {
      URLValueBehind(lib, cmd, n, i - 1);
      assert cmd[n..][i - 1] == cmd[n + i - 1];
    }
  }

  lemma CandidateBehind(lib: Library, cmd: seq<string>, n: nat, i: nat, c: string)
    requires n + i < |cmd| && !IsURLValue(lib, cmd, n)
    ensures MakesCandidate(lib, cmd, n + i, c) <==> MakesCandidate(lib, cmd[n..], i, c)
  {
    URLValueBehind(lib, cmd, n, i);
    assert cmd[n..][i] == cmd[n + i];
  }

  /** The candidates of a command are exactly what its tokens make, each by its place. */
  lemma {:induction false} CandidatesIff(lib: Library, cmd: seq<string>, c: string)
    ensures c in GenericCandidates(lib, cmd) <==> IsCandidate(lib, cmd, c)
    decreases |cmd|
  {
    if cmd != [] {
      var n := if IsURLOption(lib, cmd[0]) && |cmd| > 1 then 2 else 1;
      assert !IsURLValue(lib, cmd, 0) && (n == 2 ==> IsURLValue(lib, cmd, 1) && !IsURLValue(lib, cmd, 2));
      CandidatesIff(lib, cmd[n..], c);
      FirstCandidates(lib, cmd, c, n);
      if n < |cmd| {
        forall i | 0 <= i < |cmd[n..]| ensures MakesCandidate(lib, cmd, n + i, c) <==> MakesCandidate(lib, cmd[n..], i, c) {
          CandidateBehind(lib, cmd, n, i, c);
        }
        forall i | n <= i < |cmd| ensures MakesCandidate(lib, cmd, i, c) <==> MakesCandidate(lib, cmd[n..], i - n, c) {
          CandidateBehind(lib, cmd, n, i - n, c);
        }
      }
    }
  }

  lemma FirstCandidates(lib: Library, cmd: seq<string>, c: string, n: nat)
    requires cmd != [] && n == if IsURLOption(lib, cmd[0]) && |cmd| > 1 then 2 else 1
    ensures
      c in GenericCandidates(lib, cmd)
      <==> (exists i | 0 <= i < n :: MakesCandidate(lib, cmd, i, c)) || c in GenericCandidates(lib, cmd[n..])
  {
    assert !IsURLValue(lib, cmd, 0);
    if n == 2 {
      assert IsURLValue(lib, cmd, 1) && cmd[1..][1..] == cmd[2..] && cmd[1..][0] == cmd[1];
      assert MakesCandidate(lib, cmd, 1, c) <==> c == cmd[1];
    } else {
      assert MakesCandidate(lib, cmd, 0, c) <==> exists i | 0 <= i < 1 :: MakesCandidate(lib, cmd, i, c);
    }
  }

  /**
   A command that is no direct client is accepted exactly when no denied text occurs in it and, if any of
   its tokens makes a candidate with a host, an allow list applies that holds all such hosts.
   */
  lemma CommandAcceptedIff(p: Platform, policy: NetworkPolicy, cmd: seq<string>, intent: string)
    requires p.Lawful() && policy.enabled && (cmd != [] ==> p.identity(cmd[0]) !in {"curl", "wget", "fetch"})
    ensures
      Accepts(p, policy, cmd, intent)
      <==> && (forall t | t in policy.denySubstrings :: !Denies(p.lib, cmd, t))
           && (forall c | IsCandidate(p.lib, cmd, c) && p.lib.host(c) != "" ::
                 && AllowList(p.lib, policy, intent).Some?
                 && IsAllowed(p, p.lib.host(c), AllowList(p.lib, policy, intent).value))
  {
    var hosts := Hosts(p.lib, GenericCandidates(p.lib, cmd));
    NotDirect(p, cmd);
    forall c | IsCandidate(p.lib, cmd, c) && p.lib.host(c) != "" ensures p.lib.host(c) in hosts {
      CandidateHost(p, cmd, c);
    }
    forall h | h in hosts ensures exists c :: IsCandidate(p.lib, cmd, c) && p.lib.host(c) == h != "" {
      var c := HostCandidate(p, cmd, h);
    }
    assert hosts != [] ==> hosts[0] in hosts;
  }

  lemma NotDirect(p: Platform, cmd: seq<string>)
    requires p.Lawful() && !p.Direct(cmd)
    ensures Domains(p, cmd) == Hosts(p.lib, GenericCandidates(p.lib, cmd)) && UnsafeArg(p, cmd).None?
  {
  }

  lemma CandidateHost(p: Platform, cmd: seq<string>, c: string)
    requires IsCandidate(p.lib, cmd, c) && p.lib.host(c) != ""
    ensures p.lib.host(c) in Hosts(p.lib, GenericCandidates(p.lib, cmd))
  {
    CandidatesIff(p.lib, cmd, c);
    HostIsListed(p.lib, GenericCandidates(p.lib, cmd), p.lib.host(c));
  }

  lemma HostCandidate(p: Platform, cmd: seq<string>, h: string) returns (c: string)
    requires h in Hosts(p.lib, GenericCandidates(p.lib, cmd))
    ensures IsCandidate(p.lib, cmd, c) && p.lib.host(c) == h != ""
  {
    HostIsListed(p.lib, GenericCandidates(p.lib, cmd), h);
    c :| c in GenericCandidates(p.lib, cmd) && p.lib.host(c) == h;
    CandidatesIff(p.lib, cmd, c);
  }
}

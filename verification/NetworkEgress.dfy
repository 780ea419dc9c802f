/**
 The egress decision on a command: `extractDomains` and `domainAllowed` of
 `internal/app/control_plane_network.go` and `ValidateNetworkEgress` of
 `internal/app/control_plane_policy.go`.
 */
module NetworkEgress {
  import opened NetworkArgs
  import opened NetworkScan
  import opened Prelude
  import opened Text

  const DIRECT_CLIENTS: set<string> := {"curl", "wget", "fetch"}

  /** The flag tables of the direct clients and the operations on names and addresses. */
  datatype Platform = Platform(
    lib: Library,
    identity: string -> string,
    blockedIP: string -> bool,
    specs: map<string, ArgSpec>)
  {
    ghost predicate Lawful() { lib.Lawful() && specs.Keys == DIRECT_CLIENTS }

    predicate Direct(cmd: seq<string>) { cmd != [] && identity(cmd[0]) in DIRECT_CLIENTS }
  }

  datatype NetworkPolicy = NetworkPolicy(
    enabled: bool,
    denySubstrings: seq<string>,
    allowDomains: seq<string>,
    intentAllowDomains: map<string, seq<string>>,
    requireIntentMatch: bool)

  datatype EgressRefusal =
    | DeniedSubstring(text: string)
    | NoInspectableDestination
    | UnsafeArgument(flag: string)
    | IntentRequired
    | NothingAllowed
    | DomainNotAllowed(domain: string)

  // ---------------------------------------------------------------------------------------------
  // Domains of a command
  // ---------------------------------------------------------------------------------------------

  /** The candidates of a command that is no direct client. */
  function GenericCandidates(lib: Library, args: seq<string>): seq<string> {
    if args == [] then []
    else
      var part, rest := lib.trim(args[0]), args[1..];
      if part == "" then GenericCandidates(lib, rest)
      else if lib.lower(part) == "--url" then
        if rest == [] then [] else [rest[0]] + GenericCandidates(lib, rest[1..])
      else if HasPrefix(lib.lower(part), "--url=") then
        match Cut(part, '=')
        case Some((_, value)) => [value] + GenericCandidates(lib, rest)
        case None => GenericCandidates(lib, rest)
      else [part] + GenericCandidates(lib, rest)
  }

  /** The candidates before token `i` are `done`. */
  ghost predicate GenericReading(lib: Library, cmd: seq<string>, done: seq<string>, i: nat) {
    i <= |cmd| && GenericCandidates(lib, cmd) == done + GenericCandidates(lib, cmd[i..])
  }

  function Found(candidate: Option<string>): seq<string> {
    if candidate.Some? then [candidate.value] else []
  }

  /** The candidate that the token at `i` gives, if any, and how many tokens that takes. */
  method ReadGenericToken(lib: Library, cmd: seq<string>, i: nat) returns (candidate: Option<string>, n: nat)
    requires i < |cmd|
    ensures 1 <= n && i + n <= |cmd|
    ensures GenericCandidates(lib, cmd[i..]) == Found(candidate) + GenericCandidates(lib, cmd[i..][n..])
  {
    var p := lib.trim(cmd[i]);
    candidate, n := None, 1;
    if p == "" {
    } else if lib.lower(p) == "--url" {
      if i + 1 < |cmd| {
        assert cmd[i..][2..] == cmd[i..][1..][1..];
        candidate, n := Some(cmd[i + 1]), 2;
      }
    } else if HasPrefix(lib.lower(p), "--url=") {
      match Cut(p, '=') {
        case Some((_, value)) => candidate := Some(value);
        case None =>
      }
    } else {
      candidate := Some(p);
    }
  }

  lemma CandidatesStep(lib: Library, cmd: seq<string>, done: seq<string>, i: nat, candidate: Option<string>, n: nat)
    requires GenericReading(lib, cmd, done, i) && 1 <= n && i + n <= |cmd|
    requires GenericCandidates(lib, cmd[i..]) == Found(candidate) + GenericCandidates(lib, cmd[i..][n..])
    ensures GenericReading(lib, cmd, done + Found(candidate), i + n)
  {
    assert cmd[i..][n..] == cmd[i + n..];
    var rest := GenericCandidates(lib, cmd[i + n..]);
    assert done + (Found(candidate) + rest) == (done + Found(candidate)) + rest;
  }

  lemma CandidatesBegin(lib: Library, cmd: seq<string>)
    ensures GenericReading(lib, cmd, [], 0) && Collects(lib, [], [], {})
  {
    assert cmd[0..] == cmd;
  }

  lemma CandidatesEnd(lib: Library, cmd: seq<string>, done: seq<string>)
    requires GenericReading(lib, cmd, done, |cmd|)
    ensures done == GenericCandidates(lib, cmd)
  {
    assert cmd[|cmd|..] == [];
  }

  /** `addCandidate`, when there is a candidate. */
  method AddFound(lib: Library, ghost done: seq<string>, candidate: Option<string>, out: seq<string>, seen: set<string>)
    returns (out': seq<string>, seen': set<string>)
    requires Collects(lib, done, out, seen)
    ensures Collects(lib, done + Found(candidate), out', seen')
  {
    out', seen' := out, seen;
    if candidate.Some? {
      out', seen' := AddCandidate(lib, done, candidate.value, out, seen);
    } else {
      assert done + [] == done;
    }
  }

  /** The token at `i`, with the one behind it if that is its value: the body of the generic scan. */
  method AddGenericToken(lib: Library, cmd: seq<string>, i: nat, ghost done: seq<string>, out: seq<string>, seen: set<string>)
    returns (n: nat, out': seq<string>, seen': set<string>, ghost done': seq<string>)
    requires i < |cmd| && GenericReading(lib, cmd, done, i) && Collects(lib, done, out, seen)
    ensures 1 <= n && GenericReading(lib, cmd, done', i + n) && Collects(lib, done', out', seen')
  {
    var candidate: Option<string>;
    candidate, n := ReadGenericToken(lib, cmd, i);
    CandidatesStep(lib, cmd, done, i, candidate, n);
    out', seen' := AddFound(lib, done, candidate, out, seen);
    done' := done + Found(candidate);
  }

  method ExtractGenericDomains(lib: Library, cmd: seq<string>) returns (out: seq<string>)
    ensures out == Hosts(lib, GenericCandidates(lib, cmd))
  {
    out := [];
    var seen: set<string> := {};
    ghost var done: seq<string> := [];
    CandidatesBegin(lib, cmd);
    var i := 0;
    while i < |cmd|
      invariant GenericReading(lib, cmd, done, i)
      invariant Collects(lib, done, out, seen)
    {
      var n;
      n, out, seen, done := AddGenericToken(lib, cmd, i, done, out, seen);
      i := i + n;
    }
    CandidatesEnd(lib, cmd, done);
  }

  function Domains(p: Platform, cmd: seq<string>): seq<string> {
    if cmd == [] then []
    else if p.identity(cmd[0]) in p.specs then
      Hosts(p.lib, Destinations(p.lib, Items(p.lib, p.specs[p.identity(cmd[0])], cmd[1..])))
    else Hosts(p.lib, GenericCandidates(p.lib, cmd))
  }

  function UnsafeArg(p: Platform, cmd: seq<string>): Option<string> {
    if cmd == [] || p.identity(cmd[0]) !in p.specs then None
    else FirstUnsafe(Items(p.lib, p.specs[p.identity(cmd[0])], cmd[1..]))
  }

  method ExtractDomains(p: Platform, cmd: seq<string>) returns (domains: seq<string>, unsafeArg: string)
    requires p.Lawful()
    ensures domains == Domains(p, cmd)
    ensures UnsafeArg(p, cmd) == if unsafeArg == "" then None else Some(unsafeArg)
  {
    if |cmd| == 0 {
      return [], "";
    }
    var name := p.identity(cmd[0]);
    if name in p.specs {
      domains, unsafeArg := ExtractDirectClientDomains(p.lib, p.specs[name], cmd[1..]);
      return;
    }
    domains := ExtractGenericDomains(p.lib, cmd);
    unsafeArg := "";
  }

  // ---------------------------------------------------------------------------------------------
  // The decision
  // ---------------------------------------------------------------------------------------------

  /** A domain falls under an entry when it is that domain or one below it. */
  predicate Under(lib: Library, domain: string, entry: string) {
    var a := lib.lower(lib.trim(entry));
    a != "" && (domain == a || HasSuffix(domain, "." + a))
  }

  predicate IsAllowed(p: Platform, domain: string, allow: seq<string>) {
    var d := p.lib.lower(p.lib.trim(domain));
    !p.blockedIP(d) && exists a | a in allow :: Under(p.lib, d, a)
  }

  /** The labels of an entry that is not blank are the last labels of the domain. */
  predicate EndsInLabels(domain: string, entry: string) {
    entry != "" && exists k: nat | k <= |Split(domain, '.')| :: Split(domain, '.')[k..] == Split(entry, '.')
  }

  /** A domain is allowed exactly when it is no blocked address and the labels of some entry are its last ones. */
  lemma AllowedIff(p: Platform, domain: string, allow: seq<string>)
    ensures
      IsAllowed(p, domain, allow)
      <==> && !p.blockedIP(p.lib.lower(p.lib.trim(domain)))
           && exists a | a in allow :: EndsInLabels(p.lib.lower(p.lib.trim(domain)), p.lib.lower(p.lib.trim(a)))
  {
    var d := p.lib.lower(p.lib.trim(domain));
    forall a | a in allow ensures Under(p.lib, d, a) <==> EndsInLabels(d, p.lib.lower(p.lib.trim(a))) {
      UnderIff(p.lib, d, a);
    }
  }

  lemma UnderIff(lib: Library, domain: string, entry: string)
    ensures Under(lib, domain, entry) <==> EndsInLabels(domain, lib.lower(lib.trim(entry)))
  {
    var e := lib.lower(lib.trim(entry));
    assert ['.'] + e == "." + e;
    if domain == e || HasSuffix(domain, "." + e) {
      var k := SuffixIsLastParts(domain, e, '.');
    }
    forall k: nat | k <= |Split(domain, '.')| && Split(domain, '.')[k..] == Split(e, '.')
      ensures domain == e || HasSuffix(domain, "." + e)
    {
      LastPartsAreSuffix(domain, e, '.', k);
    }
  }

  method DomainAllowed(p: Platform, domain: string, allow: seq<string>) returns (allowed: bool)
    ensures allowed == IsAllowed(p, domain, allow)
  {
    var d := p.lib.lower(p.lib.trim(domain));
    if p.blockedIP(d) {
      return false;
    }
    for i := 0 to |allow|
      invariant forall k | 0 <= k < i :: !Under(p.lib, d, allow[k])
    {
      var a := p.lib.lower(p.lib.trim(allow[i]));
      if a == "" {
        continue;
      }
      if d == a || HasSuffix(d, "." + a) {
        assert Under(p.lib, d, allow[i]);
        return true;
      }
    }
    return false;
  }

  predicate Denies(lib: Library, cmd: seq<string>, text: string) {
    text != "" && Contains(lib.lower(Join(cmd, ' ')), lib.lower(text))
  }

  /** The allow list that applies to an intent; none when an intent is required and missing. */
  function AllowList(lib: Library, policy: NetworkPolicy, intent: string): Option<seq<string>> {
    var trimIntent := lib.trim(intent);
    if trimIntent == "" then
      if policy.requireIntentMatch then None else Some(policy.allowDomains)
    else if trimIntent in policy.intentAllowDomains && policy.intentAllowDomains[trimIntent] != [] then
      Some(policy.intentAllowDomains[trimIntent])
    else Some(policy.allowDomains)
  }

  /** A text is denied exactly when it is not empty and stands somewhere in the words of the command, in any case. */
  lemma DeniesIff(lib: Library, cmd: seq<string>, text: string, words: string, t: string)
    requires words == lib.lower(Join(cmd, ' ')) && t == lib.lower(text)
    ensures Denies(lib, cmd, text) <==> text != "" && exists i: nat :: StandsAt(words, t, i)
  {
    ContainsIff(words, t);
  }

  /** The list of an intent that has one wins over the general list, which holds for every other intent but a missing required one. */
  lemma AllowListMeans(lib: Library, policy: NetworkPolicy, intent: string, own: seq<string>)
    ensures lib.trim(intent) == "" && policy.requireIntentMatch ==> AllowList(lib, policy, intent) == None
    ensures lib.trim(intent) == "" && !policy.requireIntentMatch ==> AllowList(lib, policy, intent) == Some(policy.allowDomains)
    ensures lib.trim(intent) != "" && lib.trim(intent) !in policy.intentAllowDomains ==>
      AllowList(lib, policy, intent) == Some(policy.allowDomains)
    ensures lib.trim(intent) != "" && lib.trim(intent) in policy.intentAllowDomains
            && policy.intentAllowDomains[lib.trim(intent)] == own ==>
      AllowList(lib, policy, intent) == Some(if own == [] then policy.allowDomains else own)
  {
  }

  predicate Accepts(p: Platform, policy: NetworkPolicy, cmd: seq<string>, intent: string) {
    policy.enabled ==>
      && (forall t | t in policy.denySubstrings :: !Denies(p.lib, cmd, t))
      && (p.Direct(cmd) ==> Domains(p, cmd) != [])
      && (Domains(p, cmd) != [] ==>
            && UnsafeArg(p, cmd).None?
            && AllowList(p.lib, policy, intent).Some?
            && forall d | d in Domains(p, cmd) :: IsAllowed(p, d, AllowList(p.lib, policy, intent).value))
  }

  /** Each refusal gives a reason that holds. */
  predicate Justified(p: Platform, policy: NetworkPolicy, cmd: seq<string>, intent: string, refusal: EgressRefusal) {
    match refusal
    case DeniedSubstring(t) => t in policy.denySubstrings && Denies(p.lib, cmd, t)
    case NoInspectableDestination => Domains(p, cmd) == [] && p.Direct(cmd)
    case UnsafeArgument(flag) => UnsafeArg(p, cmd) == Some(flag)
    case IntentRequired => AllowList(p.lib, policy, intent).None?
    case NothingAllowed => AllowList(p.lib, policy, intent) == Some([]) && Domains(p, cmd) != []
    case DomainNotAllowed(d) =>
      && d in Domains(p, cmd)
      && AllowList(p.lib, policy, intent).Some?
      && !IsAllowed(p, d, AllowList(p.lib, policy, intent).value)
  }

  method ValidateNetworkEgress(p: Platform, policy: NetworkPolicy, cmd: seq<string>, intent: string)
    returns (refusal: Option<EgressRefusal>)
    requires p.Lawful()
    ensures refusal.None? <==> Accepts(p, policy, cmd, intent)
    ensures refusal.Some? ==> policy.enabled && Justified(p, policy, cmd, intent, refusal.value)
  {
    if !policy.enabled {
      return None;
    }
    for i := 0 to |policy.denySubstrings|
      invariant forall k | 0 <= k < i :: !Denies(p.lib, cmd, policy.denySubstrings[k])
    {
      var d := policy.denySubstrings[i];
      if d != "" && Contains(p.lib.lower(Join(cmd, ' ')), p.lib.lower(d)) {
        assert Denies(p.lib, cmd, d);
        return Some(DeniedSubstring(d));
      }
    }
    var domains, unsafeArg := ExtractDomains(p, cmd);
    if |domains| == 0 {
      return if p.Direct(cmd) then Some(NoInspectableDestination) else None;
    }
    if unsafeArg != "" {
      return Some(UnsafeArgument(unsafeArg));
    }
    var allow := policy.allowDomains;
    var trimIntent := p.lib.trim(intent);
    if trimIntent != "" {
      if trimIntent in policy.intentAllowDomains && |policy.intentAllowDomains[trimIntent]| > 0 {
        allow := policy.intentAllowDomains[trimIntent];
      }
    } else if policy.requireIntentMatch {
      return Some(IntentRequired);
    }
    assert AllowList(p.lib, policy, intent) == Some(allow);
    if |allow| == 0 {
      assert !IsAllowed(p, domains[0], allow);
      return Some(NothingAllowed);
    }
    for i := 0 to |domains|
      invariant forall k | 0 <= k < i :: IsAllowed(p, domains[k], allow)
    {
      var allowed := DomainAllowed(p, domains[i], allow);
      if !allowed {
        return Some(DomainNotAllowed(domains[i]));
      }
    }
    return None;
  }

  // ---------------------------------------------------------------------------------------------
  // What acceptance means
  // ---------------------------------------------------------------------------------------------

  lemma {:induction false} DestinationsOfItem(lib: Library, items: seq<Item>, item: Item, c: string)
    requires item in items && c in item.Destinations(lib)
    ensures c in Destinations(lib, items)
  {
    var front, last := items[..|items| - 1], items[|items| - 1];
    assert items == front + [last];
    if item != last {
      DestinationsOfItem(lib, front, item, c);
    }
  }

  lemma {:induction false} ItemOfDestination(lib: Library, items: seq<Item>, c: string)
    requires c in Destinations(lib, items)
    ensures exists item | item in items :: c in item.Destinations(lib)
  {
    var front, last := items[..|items| - 1], items[|items| - 1];
    assert items == front + [last];
    if c !in last.Destinations(lib) {
      ItemOfDestination(lib, front, c);
    }
  }

  lemma {:induction false} NoneUnsafe(items: seq<Item>)
    ensures FirstUnsafe(items).None? <==> forall item | item in items :: item.UnsafeFlag().None?
  {
    if items != [] {
      var front, last := items[..|items| - 1], items[|items| - 1];
      assert items == front + [last];
      NoneUnsafe(front);
    }
  }

  lemma HostOfDestination(lib: Library, items: seq<Item>, item: Item, c: string)
    requires item in items && c in item.Destinations(lib) && lib.host(c) != ""
    ensures lib.host(c) in Hosts(lib, Destinations(lib, items))
  {
    DestinationsOfItem(lib, items, item, c);
    HostsAreFirstOccurrences(lib, Destinations(lib, items));
  }

  lemma DestinationOfHost(lib: Library, items: seq<Item>, host: string)
    requires host in Hosts(lib, Destinations(lib, items))
    ensures host != "" && exists item, c | item in items && c in item.Destinations(lib) :: lib.host(c) == host
  {
    HostsAreFirstOccurrences(lib, Destinations(lib, items));
    var c :| c in Destinations(lib, items) && lib.host(c) == host;
    ItemOfDestination(lib, items, c);
  }

  /** Some host is named, no flag is unknown or could send the client elsewhere, and every host is allowed. */
  ghost predicate Confined(p: Platform, items: seq<Item>, allow: seq<string>) {
    && (exists item, c | item in items && c in item.Destinations(p.lib) :: p.lib.host(c) != "")
    && (forall item | item in items :: item.UnsafeFlag().None?)
    && (forall item, c | item in items && c in item.Destinations(p.lib) && p.lib.host(c) != "" ::
          IsAllowed(p, p.lib.host(c), allow))
  }

  lemma ConfinedIff(p: Platform, items: seq<Item>, allow: seq<string>)
    ensures Confined(p, items, allow) <==>
      var hosts := Hosts(p.lib, Destinations(p.lib, items));
      hosts != [] && FirstUnsafe(items).None? && forall h | h in hosts :: IsAllowed(p, h, allow)
  {
    var hosts := Hosts(p.lib, Destinations(p.lib, items));
    NoneUnsafe(items);
    forall item, c | item in items && c in item.Destinations(p.lib) && p.lib.host(c) != ""
      ensures p.lib.host(c) in hosts
    {
      HostOfDestination(p.lib, items, item, c);
    }
    forall h | h in hosts
      ensures h != "" && exists item, c | item in items && c in item.Destinations(p.lib) :: p.lib.host(c) == h
    {
      DestinationOfHost(p.lib, items, h);
    }
    if hosts != [] {
      assert hosts[0] in hosts;
    }
  }

  /**
   A direct client is accepted exactly when no denied text occurs in it, an allow list applies, and the
   reading of its whole argv is confined to that list.
   */
  lemma ClientAcceptedIff(p: Platform, policy: NetworkPolicy, cmd: seq<string>, intent: string)
    requires p.Lawful() && policy.enabled && cmd != [] && p.identity(cmd[0]) in {"curl", "wget", "fetch"}
    ensures var items := Items(p.lib, p.specs[p.identity(cmd[0])], cmd[1..]);
            && Tokens(items) == cmd[1..]
            && (Accepts(p, policy, cmd, intent) <==>
                  && (forall t | t in policy.denySubstrings :: !Denies(p.lib, cmd, t))
                  && AllowList(p.lib, policy, intent).Some?
                  && Confined(p, items, AllowList(p.lib, policy, intent).value))
  {
    var items := Items(p.lib, p.specs[p.identity(cmd[0])], cmd[1..]);
    ItemsCoverArgs(p.lib, p.specs[p.identity(cmd[0])], cmd[1..]);
    if AllowList(p.lib, policy, intent).Some? {
      ConfinedIff(p, items, AllowList(p.lib, policy, intent).value);
    }
  }

  // Destinations whose host cannot be read

  lemma OperandInFront(lib: Library, spec: ArgSpec, token: string, args: seq<string>)
    requires lib.trim(token) != "" && !lib.LooksLikeFlag(token)
    ensures Items(lib, spec, [token] + args) == [Operand(token)] + Items(lib, spec, args)
  {
    assert ([token] + args)[1..] == args;
  }

  /** An operand whose host cannot be read neither confines a reading nor spoils it, wherever it stands. */
  lemma UnreadableOperandIsIgnored(p: Platform, items: seq<Item>, i: nat, token: string, allow: seq<string>)
    requires i <= |items| && p.lib.host(p.lib.trim(token)) == ""
    ensures Confined(p, items[..i] + [Operand(token)] + items[i..], allow) <==> Confined(p, items, allow)
  {
    var longer, operand := items[..i] + [Operand(token)] + items[i..], Operand(token);
    assert items == items[..i] + items[i..];
    assert forall item :: item in longer <==> item in items || item == operand;
    assert operand.UnsafeFlag().None? && operand.Destinations(p.lib) == [p.lib.trim(token)];
    assert forall c | c in operand.Destinations(p.lib) :: p.lib.host(c) == "";
  }

  /**
   So the decision on a direct client does not depend on such an operand: what the client would
   connect to by that name is not part of what is allowed or refused.
   */
  lemma UnreadableOperandIsNotDecided(p: Platform, policy: NetworkPolicy, cmd: seq<string>, longer: seq<string>, intent: string,
                                      token: string)
    requires p.Lawful() && policy.enabled && p.Direct(cmd) && longer == [cmd[0], token] + cmd[1..]
    requires p.lib.trim(token) != "" && !p.lib.LooksLikeFlag(token) && p.lib.host(p.lib.trim(token)) == ""
    requires forall t | t in policy.denySubstrings :: !Denies(p.lib, cmd, t) && !Denies(p.lib, longer, t)
    ensures Accepts(p, policy, longer, intent) <==> Accepts(p, policy, cmd, intent)
  {
    var items := Items(p.lib, p.specs[p.identity(cmd[0])], cmd[1..]);
    var longerItems := Items(p.lib, p.specs[p.identity(cmd[0])], longer[1..]);
    assert longer[1..] == [token] + cmd[1..];
    OperandInFront(p.lib, p.specs[p.identity(cmd[0])], token, cmd[1..]);
    DecidedByConfinement(p, policy, cmd, intent, items);
    DecidedByConfinement(p, policy, longer, intent, longerItems);
    if AllowList(p.lib, policy, intent).Some? {
      FrontOperandIsIgnored(p, items, longerItems, token, AllowList(p.lib, policy, intent).value);
    }
  }

  lemma FrontOperandIsIgnored(p: Platform, items: seq<Item>, longer: seq<Item>, token: string, allow: seq<string>)
    requires longer == [Operand(token)] + items && p.lib.host(p.lib.trim(token)) == ""
    ensures Confined(p, longer, allow) <==> Confined(p, items, allow)
  {
    assert items[..0] + [Operand(token)] + items[0..] == longer;
    UnreadableOperandIsIgnored(p, items, 0, token, allow);
  }

  lemma DecidedByConfinement(p: Platform, policy: NetworkPolicy, cmd: seq<string>, intent: string, items: seq<Item>)
    requires p.Lawful() && policy.enabled && p.Direct(cmd)
    requires items == Items(p.lib, p.specs[p.identity(cmd[0])], cmd[1..])
    requires forall t | t in policy.denySubstrings :: !Denies(p.lib, cmd, t)
    ensures Accepts(p, policy, cmd, intent) <==>
      AllowList(p.lib, policy, intent).Some? && Confined(p, items, AllowList(p.lib, policy, intent).value)
  {
    ClientAcceptedIff(p, policy, cmd, intent);
  }
}

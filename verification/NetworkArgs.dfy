/**
 Reading the destinations out of the argv of a network client: `extractDirectClientDomains`,
 `consumeShortFlagToken`, `splitLongFlagToken` and `extractGenericDomains` of
 `internal/app/control_plane_network.go`. Arguments are byte strings, one character per byte.
 */
module NetworkArgs {
  import opened Prelude
  import opened Text

  /**
   The text operations whose inside does not matter here: trimming, lower-casing, one byte as text, and
   reading a host out of a candidate, which gives the empty string when there is none.
   */
  datatype Library = Library(
    trim: string -> string,
    lower: string -> string,
    byteText: char -> string,
    host: string -> string)
  {
    ghost predicate Lawful() { host("") == "" }

    predicate LooksLikeFlag(token: string) { HasPrefix(trim(token), "-") }
  }

  datatype Mode = Unknown | NoValue | TakesValue | Destination | OpaqueOrOverrideValue

  datatype ArgSpec = ArgSpec(longFlags: map<string, Mode>, shortFlags: map<char, Mode>)

  // ---------------------------------------------------------------------------------------------
  // The grammar
  // ---------------------------------------------------------------------------------------------

  /** A flag that may come with a value: its table entry, and what is written behind it in its token. */
  datatype Flag = Flag(name: string, mode: Option<Mode>, inlineValue: Option<string>) {
    predicate Unsafe() { mode.None? || mode == Some(OpaqueOrOverrideValue) }

    /** Whether the flag takes the next token. Guesses stop at what looks like another flag. */
    predicate TakesNext(lib: Library, rest: seq<string>) {
      && inlineValue.None?
      && rest != []
      && match mode
         case None => !lib.LooksLikeFlag(rest[0])
         case Some(Unknown) => !lib.LooksLikeFlag(rest[0])
         case Some(NoValue) => false
         case Some(_) => true
    }
  }

  datatype Item =
    | Blank(token: string)
    | Operand(token: string)
    | Switches(token: string)
    | Setting(token: string, flag: Flag, next: Option<string>)
    | Rest(token: string, operands: seq<string>)
  {
    function Tokens(): seq<string> {
      match this
      case Setting(_, _, Some(next)) => [token, next]
      case Rest(_, operands) => [token] + operands
      case _ => [token]
    }

    /** The tokens and parts of tokens that name where the client connects to. */
    function Destinations(lib: Library): seq<string> {
      match this
      case Operand(_) => [lib.trim(token)]
      case Rest(_, operands) => operands
      case Setting(_, Flag(_, Some(Destination), Some(value)), _) => [value]
      case Setting(_, Flag(_, Some(Destination), None), Some(next)) => [next]
      case _ => []
    }

    function UnsafeFlag(): Option<string> {
      if Setting? && flag.Unsafe() then Some(flag.name) else None
    }
  }

  /** Flags without a value are skipped; the first other flag of a cluster owns all that follows it. */
  function ShortFlag(lib: Library, spec: ArgSpec, cluster: string): Option<Flag>
  {
    if cluster == "" then None
    else if cluster[0] in spec.shortFlags && spec.shortFlags[cluster[0]] in {NoValue, Unknown} then
      ShortFlag(lib, spec, cluster[1..])
    else
      Some(Flag(
        "-" + lib.byteText(cluster[0]),
        if cluster[0] in spec.shortFlags then Some(spec.shortFlags[cluster[0]]) else None,
        if |cluster| > 1 then Some(cluster[1..]) else None))
  }

  function LongFlag(lib: Library, spec: ArgSpec, part: string): Flag {
    var (name, inlineValue) :=
      match Cut(part, '=')
      case Some((before, after)) => (before, Some(after))
      case None => (part, None);
    Flag(
      name,
      if lib.lower(name) in spec.longFlags then Some(spec.longFlags[lib.lower(name)]) else None,
      inlineValue)
  }

  /** The flag of a token that starts with a dash, unless the token only has flags without a value. */
  function FlagOf(lib: Library, spec: ArgSpec, part: string): Option<Flag>
    requires HasPrefix(part, "-")
  {
    if HasPrefix(part, "--") then Some(LongFlag(lib, spec, part)) else ShortFlag(lib, spec, part[1..])
  }

  /** The reading of an argv: each token belongs to one item. */
  function Items(lib: Library, spec: ArgSpec, args: seq<string>): (items: seq<Item>)
  {
    if args == [] then []
    else
      var token, rest := args[0], args[1..];
      var part := lib.trim(token);
      if part == "" then [Blank(token)] + Items(lib, spec, rest)
      else if part == "--" then [Rest(token, rest)]
      else if !HasPrefix(part, "-") then [Operand(token)] + Items(lib, spec, rest)
      else
        match FlagOf(lib, spec, part)
        case None => [Switches(token)] + Items(lib, spec, rest)
        case Some(flag) =>
          if flag.TakesNext(lib, rest) then [Setting(token, flag, Some(rest[0]))] + Items(lib, spec, rest[1..])
          else [Setting(token, flag, None)] + Items(lib, spec, rest)
  }

  function Tokens(items: seq<Item>): seq<string> {
    if items == [] then [] else items[0].Tokens() + Tokens(items[1..])
  }

  /** Nothing is skipped: the items, written out again, are the argv. */
  lemma {:induction false} ItemsCoverArgs(lib: Library, spec: ArgSpec, args: seq<string>)
    ensures Tokens(Items(lib, spec, args)) == args
    decreases |args|
  {
    if args != [] {
      var items, n := Items(lib, spec, args), |Items(lib, spec, args)[0].Tokens()|;
      assert args == [args[0]] + args[1..];
      if items[0].Rest? {
        assert Tokens(items[1..]) == [];
      } else {
        assert items[1..] == Items(lib, spec, args[n..]);
        ItemsCoverArgs(lib, spec, args[n..]);
        assert items[0].Tokens() == args[..n];
      }
    }
  }

  function Destinations(lib: Library, items: seq<Item>): seq<string> {
    if items == [] then []
    else Destinations(lib, items[..|items| - 1]) + items[|items| - 1].Destinations(lib)
  }

  function FirstUnsafe(items: seq<Item>): Option<string> {
    if items == [] then None
    else
      var before := FirstUnsafe(items[..|items| - 1]);
      if before.Some? then before else items[|items| - 1].UnsafeFlag()
  }

  /** The hosts of the candidates, each once, where it first occurs. */
  function Hosts(lib: Library, candidates: seq<string>): seq<string> {
    if candidates == [] then []
    else
      var before, host := Hosts(lib, candidates[..|candidates| - 1]), lib.host(candidates[|candidates| - 1]);
      if host == "" || host in before then before else before + [host]
  }

  // ---------------------------------------------------------------------------------------------
  // What the host list says
  // ---------------------------------------------------------------------------------------------

  /** Where a host first occurs among the candidates; their number when it does not. */
  function FirstAt(lib: Library, candidates: seq<string>, host: string): nat {
    if candidates == [] then 0
    else if lib.host(candidates[0]) == host then 0
    else 1 + FirstAt(lib, candidates[1..], host)
  }

  lemma {:induction false} FirstAtSnoc(lib: Library, front: seq<string>, last: string, host: string)
    ensures FirstAt(lib, front, host) <= |front|
    ensures FirstAt(lib, front + [last], host) ==
      if FirstAt(lib, front, host) < |front| || lib.host(last) == host then FirstAt(lib, front, host) else |front| + 1
  {
    if front != [] {
      assert (front + [last])[1..] == front[1..] + [last];
      FirstAtSnoc(lib, front[1..], last, host);
    }
  }

  predicate Occurs(lib: Library, candidates: seq<string>, host: string) {
    exists c | c in candidates :: lib.host(c) == host
  }

  lemma OccursSnoc(lib: Library, front: seq<string>, last: string, host: string)
    ensures Occurs(lib, front + [last], host) <==> Occurs(lib, front, host) || lib.host(last) == host
  {
    assert forall c :: c in front + [last] <==> c in front || c == last;
  }

  lemma {:induction false} HostIsListed(lib: Library, candidates: seq<string>, host: string)
    ensures host in Hosts(lib, candidates) <==> host != "" && Occurs(lib, candidates, host)
  {
    if candidates != [] {
      var front, last := candidates[..|candidates| - 1], candidates[|candidates| - 1];
      assert candidates == front + [last];
      HostIsListed(lib, front, host);
      OccursSnoc(lib, front, last, host);
    }
  }

  lemma {:induction false} FirstAtOccurs(lib: Library, candidates: seq<string>, host: string)
    requires Occurs(lib, candidates, host)
    ensures FirstAt(lib, candidates, host) < |candidates|
  {
    if lib.host(candidates[0]) != host {
      assert candidates == [candidates[0]] + candidates[1..];
      FirstAtOccurs(lib, candidates[1..], host);
    }
  }

  lemma {:induction false} FirstAtSomewhere(lib: Library, candidates: seq<string>, host: string)
    requires FirstAt(lib, candidates, host) < |candidates|
    ensures Occurs(lib, candidates, host)
  {
    if lib.host(candidates[0]) == host {
      assert candidates[0] in candidates;
    } else {
      FirstAtSomewhere(lib, candidates[1..], host);
    }
  }

  lemma {:induction false} HostsInOrder(lib: Library, candidates: seq<string>, i: nat, j: nat)
    requires i < j < |Hosts(lib, candidates)|
    ensures FirstAt(lib, candidates, Hosts(lib, candidates)[i]) < FirstAt(lib, candidates, Hosts(lib, candidates)[j])
  {
    var front, last := candidates[..|candidates| - 1], candidates[|candidates| - 1];
    var before, hosts := Hosts(lib, front), Hosts(lib, candidates);
    assert candidates == front + [last];
    HostListed(lib, front, i);
    FirstAtSnoc(lib, front, last, hosts[i]);
    FirstAtSnoc(lib, front, last, hosts[j]);
    if j < |before| {
      HostsInOrder(lib, front, i, j);
      HostListed(lib, front, j);
    } else {
      NotListed(lib, front, lib.host(last));
    }
  }

  lemma HostListed(lib: Library, candidates: seq<string>, i: nat)
    requires i < |Hosts(lib, candidates)|
    ensures FirstAt(lib, candidates, Hosts(lib, candidates)[i]) < |candidates|
  {
    HostIsListed(lib, candidates, Hosts(lib, candidates)[i]);
    FirstAtOccurs(lib, candidates, Hosts(lib, candidates)[i]);
  }

  lemma NotListed(lib: Library, candidates: seq<string>, host: string)
    requires host != "" && host !in Hosts(lib, candidates)
    ensures FirstAt(lib, candidates, host) >= |candidates|
  {
    HostIsListed(lib, candidates, host);
    if FirstAt(lib, candidates, host) < |candidates| {
      FirstAtSomewhere(lib, candidates, host);
    }
  }

  /**
   The list holds exactly the hosts that occur, none twice and none empty, in the order of their first
   occurrence.
   */
  lemma HostsAreFirstOccurrences(lib: Library, candidates: seq<string>)
    ensures var hosts := Hosts(lib, candidates);
            && (forall h :: h in hosts <==> h != "" && Occurs(lib, candidates, h))
            && (forall i, j | 0 <= i < j < |hosts| ::
                  FirstAt(lib, candidates, hosts[i]) < FirstAt(lib, candidates, hosts[j]))
            && (forall h | h in hosts :: FirstAt(lib, candidates, h) < |candidates|)
  {
    var hosts := Hosts(lib, candidates);
    forall h ensures h in hosts <==> h != "" && Occurs(lib, candidates, h) {
      HostIsListed(lib, candidates, h);
    }
    forall h | h in hosts ensures FirstAt(lib, candidates, h) < |candidates| {
      FirstAtOccurs(lib, candidates, h);
    }
    forall i, j | 0 <= i < j < |hosts| ensures FirstAt(lib, candidates, hosts[i]) < FirstAt(lib, candidates, hosts[j]) {
      HostsInOrder(lib, candidates, i, j);
    }
  }
}

/**
 Request throttling policy and the key under which two requests count as the same
 (`internal/app/request_policy.go`). The key is a SHA-256 digest; as a collision-free digest only
 serves to compare the digested text, the text itself is the key here.
 */
module RequestPolicy {
  import opened Text
  import opened Domain
  import opened Time

  const DEFAULT_IDENTICAL_REQUEST_COOLDOWN: int := 60 * SECOND
  const DEFAULT_MAX_PENDING_PER_AGENT: int := 2

  datatype Throttle = Throttle(identicalRequestCooldown: int, maxPendingPerAgent: int, enableActiveLeaseReuse: bool) {
    function Normalize(): (r: Throttle)
      ensures r.identicalRequestCooldown > 0 && r.maxPendingPerAgent > 0
      ensures identicalRequestCooldown > 0 ==> r.identicalRequestCooldown == identicalRequestCooldown
      ensures maxPendingPerAgent > 0 ==> r.maxPendingPerAgent == maxPendingPerAgent
      ensures identicalRequestCooldown <= 0 ==> r.identicalRequestCooldown == 60 * SECOND
      ensures maxPendingPerAgent <= 0 ==> r.maxPendingPerAgent == 2
      ensures r.enableActiveLeaseReuse == enableActiveLeaseReuse
    {
      Throttle(
        if identicalRequestCooldown <= 0 then DEFAULT_IDENTICAL_REQUEST_COOLDOWN else identicalRequestCooldown,
        if maxPendingPerAgent <= 0 then DEFAULT_MAX_PENDING_PER_AGENT else maxPendingPerAgent,
        enableActiveLeaseReuse)
    }

    /** The policy in force: an all-zero configuration means the defaults. */
    function Effective(): (r: Throttle)
      ensures r.identicalRequestCooldown > 0 && r.maxPendingPerAgent > 0
      ensures r.identicalRequestCooldown == if identicalRequestCooldown > 0 then identicalRequestCooldown else 60 * SECOND
      ensures r.maxPendingPerAgent == if maxPendingPerAgent > 0 then maxPendingPerAgent else 2
      ensures r.enableActiveLeaseReuse <==>
        enableActiveLeaseReuse || (identicalRequestCooldown == 0 && maxPendingPerAgent == 0)
    {
      if this == Throttle(0, 0, false)
      then Throttle(DEFAULT_IDENTICAL_REQUEST_COOLDOWN, DEFAULT_MAX_PENDING_PER_AGENT, true)
      else Normalize()
    }
  }

  datatype Input = Input(
    agentID: string,
    intent: string,
    secrets: seq<string>,
    commandFingerprint: string,
    workdirFingerprint: string)

  const UNIT_SEPARATOR: char := '\U{1F}'

  // Ordering of strings, as `sort.Strings` uses it.

  predicate Less(a: string, b: string) {
    if b == "" then false
    else if a == "" then true
    else a[0] < b[0] || (a[0] == b[0] && Less(a[1..], b[1..]))
  }

  lemma {:induction false} LessTotal(a: string, b: string)
    ensures a == b || Less(a, b) || Less(b, a)
    ensures !(Less(a, b) && Less(b, a))
    ensures a == b ==> !Less(a, b)
  {
    if a != "" && b != "" {
      LessTotal(a[1..], b[1..]);
      assert a == [a[0]] + a[1..] && b == [b[0]] + b[1..];
    }
  }

  lemma {:induction false} LessTransitive(a: string, b: string, c: string)
    requires Less(a, b) && Less(b, c)
    ensures Less(a, c)
  {
    if a != "" && a[0] == b[0] == c[0] {
      LessTransitive(a[1..], b[1..], c[1..]);
    }
  }

  ghost predicate StrictlySorted(xs: seq<string>) {
    forall i, j | 0 <= i < j < |xs| :: Less(xs[i], xs[j])
  }

  function Elements(xs: seq<string>): set<string> {
    set x | x in xs
  }

  function Insert(x: string, xs: seq<string>): seq<string> {
    if xs == [] || Less(x, xs[0]) then [x] + xs else [xs[0]] + Insert(x, xs[1..])
  }

  function Sort(xs: seq<string>): seq<string> {
    if xs == [] then [] else Insert(xs[0], Sort(xs[1..]))
  }

  lemma {:induction false} InsertSorted(x: string, xs: seq<string>)
    requires StrictlySorted(xs) && x !in xs
    ensures StrictlySorted(Insert(x, xs))
    ensures Elements(Insert(x, xs)) == Elements(xs) + {x}
  {
    if xs == [] {
    } else if Less(x, xs[0]) {
      forall j | 0 < j < |xs| ensures Less(x, xs[j]) {
        LessTransitive(x, xs[0], xs[j]);
      }
    } else {
      InsertSorted(x, xs[1..]);
      LessTotal(x, xs[0]);
      var rest := Insert(x, xs[1..]);
      assert xs == [xs[0]] + xs[1..];
      forall j | 0 <= j < |rest| ensures Less(xs[0], rest[j]) {
        assert rest[j] in Elements(rest);
      }
    }
  }

  lemma {:induction false} SortSorted(xs: seq<string>)
    requires forall i, j | 0 <= i < j < |xs| :: xs[i] != xs[j]
    ensures StrictlySorted(Sort(xs))
    ensures Elements(Sort(xs)) == Elements(xs)
  {
    if xs != [] {
      SortSorted(xs[1..]);
      assert xs == [xs[0]] + xs[1..];
      assert xs[0] !in Elements(Sort(xs[1..]));
      InsertSorted(xs[0], Sort(xs[1..]));
    }
  }

  lemma ElementsEmpty(xs: seq<string>)
    ensures Elements(xs) == {} <==> xs == []
  {
    if xs != [] {
      assert xs[0] in Elements(xs);
    }
  }

  /** A set of strings has only one strictly sorted enumeration. */
  lemma {:induction false} SortedUnique(xs: seq<string>, ys: seq<string>)
    requires StrictlySorted(xs) && StrictlySorted(ys)
    requires Elements(xs) == Elements(ys)
    ensures xs == ys
  {
    if xs == [] {
      ElementsEmpty(ys);
    } else {
      assert xs[0] in Elements(ys) && ys != [];
      assert ys[0] in Elements(xs);
      LessTotal(xs[0], ys[0]);
      forall s ensures s in Elements(xs[1..]) <==> s in Elements(ys[1..]) {
        LessTotal(xs[0], xs[0]);
        assert s in Elements(xs) <==> s in Elements(ys);
        assert xs == [xs[0]] + xs[1..] && ys == [ys[0]] + ys[1..];
      }
      SortedUnique(xs[1..], ys[1..]);
      assert xs == [xs[0]] + xs[1..] && ys == [ys[0]] + ys[1..];
    }
  }

  /** The names that matter: trimmed, and not blank. */
  function Names(secrets: seq<string>): set<string> {
    set s | s in secrets && TrimSpace(s) != "" :: TrimSpace(s)
  }

  /** Trimmed non-blank names in order of first occurrence, one copy each. */
  function Distinct(secrets: seq<string>): seq<string> {
    if secrets == [] then []
    else
      var r := Distinct(secrets[..|secrets| - 1]);
      var name := TrimSpace(secrets[|secrets| - 1]);
      if name == "" || name in r then r else r + [name]
  }

  predicate NoRepeats(names: seq<string>) {
    forall i, j | 0 <= i < j < |names| :: names[i] != names[j]
  }

  lemma {:induction false} DistinctNames(secrets: seq<string>)
    ensures Elements(Distinct(secrets)) == Names(secrets)
    ensures NoRepeats(Distinct(secrets))
  {
    if secrets != [] {
      var front := secrets[..|secrets| - 1];
      var name := TrimSpace(secrets[|secrets| - 1]);
      assert secrets == front + [secrets[|secrets| - 1]];
      DistinctNames(front);
      var r := Distinct(front);
      assert Names(secrets) == Names(front) + (if name == "" then {} else {name});
      assert Elements(r + [name]) == Elements(r) + {name};
      assert name in r <==> name in Elements(r);
    }
  }

  /** Where a name first occurs, trimmed, in a list; its length when it does not. */
  function FirstNamed(secrets: seq<string>, name: string): nat {
    if secrets == [] then 0
    else if TrimSpace(secrets[0]) == name then 0
    else 1 + FirstNamed(secrets[1..], name)
  }

  lemma {:induction false} FirstNamedSnoc(front: seq<string>, last: string, name: string)
    ensures FirstNamed(front, name) <= |front|
    ensures FirstNamed(front + [last], name) ==
      if FirstNamed(front, name) < |front| || TrimSpace(last) == name then FirstNamed(front, name) else |front| + 1
  {
    if front != [] {
      assert (front + [last])[1..] == front[1..] + [last];
      FirstNamedSnoc(front[1..], last, name);
    }
  }

  lemma {:induction false} NamedIff(secrets: seq<string>, name: string)
    requires name != ""
    ensures FirstNamed(secrets, name) < |secrets| <==> name in Names(secrets)
  {
    if secrets != [] {
      NamedIff(secrets[1..], name);
      assert secrets == [secrets[0]] + secrets[1..];
      assert name in Names(secrets) <==> TrimSpace(secrets[0]) == name || name in Names(secrets[1..]);
    }
  }

  lemma DistinctIsNamed(secrets: seq<string>, name: string)
    requires name != ""
    ensures name in Distinct(secrets) <==> FirstNamed(secrets, name) < |secrets|
  {
    DistinctNames(secrets);
    NamedIff(secrets, name);
    assert name in Distinct(secrets) <==> name in Elements(Distinct(secrets));
  }

  /** The names stand in the order in which they first occur. */
  lemma {:induction false} DistinctInOrder(secrets: seq<string>, i: nat, j: nat)
    requires i < j < |Distinct(secrets)|
    ensures FirstNamed(secrets, Distinct(secrets)[i]) < FirstNamed(secrets, Distinct(secrets)[j])
  {
    var front, last := secrets[..|secrets| - 1], secrets[|secrets| - 1];
    var before, names := Distinct(front), Distinct(secrets);
    assert secrets == front + [last];
    NoneBlank(secrets);
    assert names[i] in names && names[j] in names;
    DistinctIsNamed(front, names[i]);
    FirstNamedSnoc(front, last, names[i]);
    FirstNamedSnoc(front, last, names[j]);
    DistinctIsNamed(front, names[j]);
    if j < |before| {
      DistinctInOrder(front, i, j);
    }
  }

  lemma NoneBlank(secrets: seq<string>)
    ensures forall n | n in Distinct(secrets) :: n != ""
  {
    DistinctNames(secrets);
    forall n | n in Distinct(secrets) ensures n != "" {
      assert n in Elements(Distinct(secrets));
    }
  }

  function NormalizedSecrets(secrets: seq<string>): seq<string> {
    Sort(Distinct(secrets))
  }

  lemma NormalizedSecretsSorted(secrets: seq<string>)
    ensures StrictlySorted(NormalizedSecrets(secrets))
    ensures Elements(NormalizedSecrets(secrets)) == Names(secrets)
  {
    DistinctNames(secrets);
    SortSorted(Distinct(secrets));
  }

  /** `normalizeSecrets`: one pass that drops blanks and repeats, then a sort. */
  method NormalizeSecrets(secrets: seq<string>) returns (out: seq<string>)
    ensures out == NormalizedSecrets(secrets)
    ensures StrictlySorted(out) && Elements(out) == Names(secrets)
  {
    var seen: set<string> := {};
    out := [];
    for i := 0 to |secrets|
      invariant out == Distinct(secrets[..i])
      invariant seen == Elements(out)
    {
      assert secrets[..i + 1][..i] == secrets[..i];
      var name := TrimSpace(secrets[i]);
      if name != "" && name !in seen {
        seen := seen + {name};
        out := out + [name];
      }
    }
    assert secrets[..|secrets|] == secrets;
    out := Sort(out);
    NormalizedSecretsSorted(secrets);
  }

  /** Two secret lists normalise to the same list exactly when they name the same secrets. */
  lemma NormalizedSecretsEqual(xs: seq<string>, ys: seq<string>)
    ensures NormalizedSecrets(xs) == NormalizedSecrets(ys) <==> Names(xs) == Names(ys)
  {
    NormalizedSecretsSorted(xs);
    NormalizedSecretsSorted(ys);
    if Names(xs) == Names(ys) {
      SortedUnique(NormalizedSecrets(xs), NormalizedSecrets(ys));
    }
  }

  function KeyParts(in_: Input): seq<string> {
    [TrimSpace(in_.agentID), TrimSpace(in_.intent), Join(NormalizedSecrets(in_.secrets), ','),
     TrimSpace(in_.commandFingerprint), TrimSpace(in_.workdirFingerprint)]
  }

  function EquivalenceKey(in_: Input): string {
    Join(KeyParts(in_), UNIT_SEPARATOR)
  }

  /** What two equivalent requests have in common. */
  predicate Equivalent(a: Input, b: Input) {
    && TrimSpace(a.agentID) == TrimSpace(b.agentID)
    && TrimSpace(a.intent) == TrimSpace(b.intent)
    && Names(a.secrets) == Names(b.secrets)
    && TrimSpace(a.commandFingerprint) == TrimSpace(b.commandFingerprint)
    && TrimSpace(a.workdirFingerprint) == TrimSpace(b.workdirFingerprint)
  }

  predicate CommaFree(secrets: seq<string>) {
    forall s | s in secrets :: ',' !in TrimSpace(s)
  }

  /** As request validation leaves secrets: their names hold neither of the two separators. */
  predicate PlainSecrets(secrets: seq<string>) {
    CommaFree(secrets) && forall s | s in secrets :: UNIT_SEPARATOR !in TrimSpace(s)
  }

  predicate LooseText(s: string) {
    Tight(false, TrimSpace(s), UNIT_SEPARATOR) == 0
  }

  /** Each unit separator in the four texts, if there is any, has white space beside it. */
  predicate Loose(in_: Input) {
    LooseText(in_.agentID) && LooseText(in_.intent) && LooseText(in_.commandFingerprint) && LooseText(in_.workdirFingerprint)
  }

  lemma NamesWithin(secrets: seq<string>, c: char)
    requires forall s | s in secrets :: c !in TrimSpace(s)
    ensures forall n | n in NormalizedSecrets(secrets) :: n != "" && c !in n
  {
    NormalizedSecretsSorted(secrets);
    forall n | n in NormalizedSecrets(secrets) ensures n != "" && c !in n {
      assert n in Elements(NormalizedSecrets(secrets));
    }
  }

  lemma {:induction false} JoinAvoids(parts: seq<string>, sep: char, c: char)
    requires sep != c && forall p | p in parts :: c !in p
    ensures c !in Join(parts, sep)
  {
    if |parts| > 1 {
      JoinAvoids(parts[1..], sep, c);
    }
  }

  lemma JoinEmpty(xs: seq<string>, sep: char)
    requires forall n | n in xs :: n != ""
    ensures Join(xs, sep) == "" <==> xs == []
  {
    if xs != [] {
      assert xs[0] in xs;
    }
  }

  lemma JoinNamesInjective(xs: seq<string>, ys: seq<string>, sep: char)
    requires forall n | n in xs :: n != "" && sep !in n
    requires forall n | n in ys :: n != "" && sep !in n
    requires Join(xs, sep) == Join(ys, sep)
    ensures xs == ys
  {
    JoinEmpty(xs, sep);
    JoinEmpty(ys, sep);
    if xs != [] && ys != [] {
      SplitJoin(xs, sep);
      SplitJoin(ys, sep);
    }
  }

  /** The joined names are trimmed, since each name is. */
  lemma JoinNamesTrimmed(secrets: seq<string>)
    ensures Trimmed(Join(NormalizedSecrets(secrets), ','))
  {
    NormalizedSecretsSorted(secrets);
    forall n | n in NormalizedSecrets(secrets) ensures n != "" && Trimmed(n) {
      assert n in Elements(NormalizedSecrets(secrets));
      var s :| s in secrets && TrimSpace(s) == n;
      TrimSpaceIsTrimmed(s);
    }
    JoinTrimmed(NormalizedSecrets(secrets), ',');
  }

  lemma {:induction false} JoinTrimmed(parts: seq<string>, sep: char)
    requires !IsSpace(sep) && forall p | p in parts :: p != "" && Trimmed(p)
    ensures Trimmed(Join(parts, sep)) && (parts != [] ==> Join(parts, sep) != "")
  {
    if parts != [] {
      assert parts[0] in parts;
      if |parts| > 1 {
        assert forall p | p in parts[1..] :: p in parts;
        JoinTrimmed(parts[1..], sep);
      }
    }
  }

  lemma KeyPartsTrimmed(in_: Input)
    ensures forall p | p in KeyParts(in_) :: Trimmed(p)
  {
    JoinNamesTrimmed(in_.secrets);
    TrimSpaceIsTrimmed(in_.agentID);
    TrimSpaceIsTrimmed(in_.intent);
    TrimSpaceIsTrimmed(in_.commandFingerprint);
    TrimSpaceIsTrimmed(in_.workdirFingerprint);
  }

  lemma LooseParts(in_: Input)
    requires PlainSecrets(in_.secrets) && Loose(in_)
    ensures TightParts(KeyParts(in_), UNIT_SEPARATOR) == 0
  {
    NamesWithin(in_.secrets, UNIT_SEPARATOR);
    JoinAvoids(NormalizedSecrets(in_.secrets), ',', UNIT_SEPARATOR);
    TightNone(false, Join(NormalizedSecrets(in_.secrets), ','), UNIT_SEPARATOR);
    LooseList(KeyParts(in_), UNIT_SEPARATOR);
  }

  lemma {:induction false} LooseList(parts: seq<string>, sep: char)
    requires forall i | 0 <= i < |parts| :: Tight(false, parts[i], sep) == 0
    ensures TightParts(parts, sep) == 0
  {
    if parts != [] {
      LooseList(parts[1..], sep);
    }
  }

  /**
   The key identifies a request whose own texts are loose: equal keys then mean equality in all five
   parts, whatever the texts of the other request are.
   */
  lemma KeyIdentifiesRequest(a: Input, b: Input)
    requires PlainSecrets(a.secrets) && CommaFree(b.secrets)
    requires Loose(a)
    ensures EquivalenceKey(a) == EquivalenceKey(b) <==> Equivalent(a, b)
  {
    NormalizedSecretsEqual(a.secrets, b.secrets);
    if EquivalenceKey(a) == EquivalenceKey(b) {
      LooseParts(a);
      KeyPartsTrimmed(a);
      KeyPartsTrimmed(b);
      JoinTrimmedInjective(KeyParts(a), KeyParts(b), UNIT_SEPARATOR);
      assert forall i | 0 <= i < 5 :: KeyParts(a)[i] == KeyParts(b)[i];
      NamesWithin(a.secrets, ',');
      NamesWithin(b.secrets, ',');
      assert KeyParts(a)[2] == KeyParts(b)[2];
      JoinNamesInjective(NormalizedSecrets(a.secrets), NormalizedSecrets(b.secrets), ',');
    }
  }

  /** Secrets that pass request validation never contain a separator. */
  lemma ValidSecretsAreSeparatorFree(policy: Policy, ttl: int, secrets: seq<string>)
    requires policy.ValidateRequest(ttl, secrets)
    ensures PlainSecrets(secrets)
  {
    forall s | s in secrets ensures ',' !in TrimSpace(s) && UNIT_SEPARATOR !in TrimSpace(s) {
      ValidSecretNameChars(s);
    }
  }

  /** Joined text does not tell where two neighbouring parts are divided. */
  lemma SeparatorMoves(a: string, b: string, c: string, d: string, e: string, x: string, y: string, sep: char)
    ensures a == x + [sep] + y ==> Join([a, b, c, d, e], sep) == Join([x, y + [sep] + b, c, d, e], sep)
    ensures b == x + [sep] + y ==> Join([a, b, c, d, e], sep) == Join([a + [sep] + x, y, c, d, e], sep)
    ensures d == x + [sep] + y ==> Join([a, b, c, d, e], sep) == Join([a, b, c, x, y + [sep] + e], sep)
    ensures e == x + [sep] + y ==> Join([a, b, c, d, e], sep) == Join([a, b, c, d + [sep] + x, y], sep)
  {
    JoinFive(a, b, c, d, e, sep);
    if a == x + [sep] + y {
      JoinFive(x, y + [sep] + b, c, d, e, sep);
      Regroup(x, y, b, c + [sep] + (d + [sep] + e), sep);
    }
    if b == x + [sep] + y {
      JoinFive(a + [sep] + x, y, c, d, e, sep);
      Regroup(a, x, y, c + [sep] + (d + [sep] + e), sep);
    }
    if d == x + [sep] + y {
      JoinFive(a, b, c, x, y + [sep] + e, sep);
      assert d + [sep] + e == x + [sep] + (y + [sep] + e);
    }
    if e == x + [sep] + y {
      JoinFive(a, b, c, d + [sep] + x, y, sep);
      assert d + [sep] + e == d + [sep] + x + [sep] + y;
    }
  }

  lemma Regroup(x: string, y: string, z: string, rest: string, sep: char)
    ensures x + [sep] + y + [sep] + (z + [sep] + rest) == x + [sep] + (y + [sep] + z + [sep] + rest)
  {
  }

  /** Cutting a trimmed text at a tight separator, and joining a trimmed text to either half, leaves trimmed texts. */
  lemma CutTrimmed(s: string, x: string, y: string, other: string, sep: char)
    requires Trimmed(s) && s == x + [sep] + y && Trimmed(other) && !IsSpace(sep)
    requires (x != "" ==> !IsSpace(x[|x| - 1])) && (y != "" ==> !IsSpace(y[0]))
    ensures Trimmed(x) && Trimmed(y) && Trimmed(y + [sep] + other) && Trimmed(other + [sep] + x)
    ensures TrimSpace(x) == x && TrimSpace(y) == y
    ensures TrimSpace(y + [sep] + other) == y + [sep] + other && TrimSpace(other + [sep] + x) == other + [sep] + x
  {
    assert x != "" ==> x[0] == s[0];
    assert y != "" ==> y[|y| - 1] == s[|s| - 1];
    TrimSpaceIsTrimmed(x);
    TrimSpaceIsTrimmed(y);
    TrimSpaceIsTrimmed(y + [sep] + other);
    TrimSpaceIsTrimmed(other + [sep] + x);
  }

  /** The trimmed text `s`, cut at a tight separator, with its halves moved to or from the trimmed text `other`. */
  lemma CutText(s: string, other: string) returns (x: string, y: string)
    requires !LooseText(s)
    ensures TrimSpace(s) == x + [UNIT_SEPARATOR] + y
    ensures TrimSpace(x) == x && TrimSpace(y) == y
    ensures TrimSpace(y + [UNIT_SEPARATOR] + TrimSpace(other)) == y + [UNIT_SEPARATOR] + TrimSpace(other)
    ensures TrimSpace(TrimSpace(other) + [UNIT_SEPARATOR] + x) == TrimSpace(other) + [UNIT_SEPARATOR] + x
  {
    TrimSpaceIsTrimmed(s);
    TrimSpaceIsTrimmed(other);
    x, y := TightCut(false, TrimSpace(s), UNIT_SEPARATOR);
    CutTrimmed(TrimSpace(s), x, y, TrimSpace(other), UNIT_SEPARATOR);
  }

  /**
   A request with a tight separator in one of its texts shares its key with one that is not equivalent:
   the separator is taken for the one between that text and its neighbour.
   */
  lemma KeyConfusesSeparated(a: Input) returns (b: Input)
    requires !Loose(a)
    ensures b.secrets == a.secrets && EquivalenceKey(a) == EquivalenceKey(b) && !Equivalent(a, b)
  {
    var u, names := [UNIT_SEPARATOR], Join(NormalizedSecrets(a.secrets), ',');
    var agent, intent := TrimSpace(a.agentID), TrimSpace(a.intent);
    var command, workdir := TrimSpace(a.commandFingerprint), TrimSpace(a.workdirFingerprint);
    var x, y;
    if !LooseText(a.agentID) {
      x, y := CutText(a.agentID, a.intent);
      b := a.(agentID := x, intent := y + u + intent);
    } else if !LooseText(a.intent) {
      x, y := CutText(a.intent, a.agentID);
      b := a.(agentID := agent + u + x, intent := y);
    } else if !LooseText(a.commandFingerprint) {
      x, y := CutText(a.commandFingerprint, a.workdirFingerprint);
      b := a.(commandFingerprint := x, workdirFingerprint := y + u + workdir);
    } else {
      x, y := CutText(a.workdirFingerprint, a.commandFingerprint);
      b := a.(commandFingerprint := command + u + x, workdirFingerprint := y);
    }
    SeparatorMoves(agent, intent, names, command, workdir, x, y, UNIT_SEPARATOR);
  }

  /** A request is the only one with its key, up to equivalence, exactly when its own texts are loose. */
  lemma KeyIdentifiesIff(a: Input)
    requires PlainSecrets(a.secrets)
    ensures (forall b: Input | PlainSecrets(b.secrets) && EquivalenceKey(a) == EquivalenceKey(b) :: Equivalent(a, b))
       <==> Loose(a)
  {
    if Loose(a) {
      forall b: Input | PlainSecrets(b.secrets) && EquivalenceKey(a) == EquivalenceKey(b) ensures Equivalent(a, b) {
        KeyIdentifiesRequest(a, b);
      }
    } else {
      var b := KeyConfusesSeparated(a);
      assert PlainSecrets(b.secrets) && !Equivalent(a, b);
    }
  }

  lemma JoinFive(a: string, b: string, c: string, d: string, e: string, sep: char)
    ensures Join([a, b, c, d, e], sep) == a + [sep] + (b + [sep] + (c + [sep] + (d + [sep] + e)))
  {
    assert [d, e][1..] == [e];
    assert Join([d, e], sep) == d + [sep] + e;
    assert [c, d, e][1..] == [d, e];
    assert Join([c, d, e], sep) == c + [sep] + Join([d, e], sep);
    assert [b, c, d, e][1..] == [c, d, e];
    assert Join([b, c, d, e], sep) == b + [sep] + Join([c, d, e], sep);
    assert [a, b, c, d, e][1..] == [b, c, d, e];
  }
}

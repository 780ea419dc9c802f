/**
 The string operations of Go's `strings` package that the modelled code uses, over strings as
 sequences of code points.
 */
module Text {
  import opened Prelude

  /** White space as `unicode.IsSpace` defines it. */
  predicate IsSpace(c: char) {
    || '\t' <= c <= '\r' || c == ' '
    || c == '\U{85}' || c == '\U{A0}' || c == '\U{1680}'
    || '\U{2000}' <= c <= '\U{200A}'
    || c == '\U{2028}' || c == '\U{2029}' || c == '\U{202F}' || c == '\U{205F}' || c == '\U{3000}'
  }

  /** The number of bytes of the UTF-8 encoding. */
  function ByteLength(s: string): nat {
    if s == "" then 0
    else
      ByteLength(s[1..])
      + if s[0] < '\U{80}' then 1 else if s[0] < '\U{800}' then 2 else if s[0] < '\U{10000}' then 3 else 4
  }

  lemma {:induction false} ByteLengthAppend(a: string, b: string)
    ensures ByteLength(a + b) == ByteLength(a) + ByteLength(b)
  {
    if a == "" {
      assert a + b == b;
    } else {
      assert (a + b)[1..] == a[1..] + b;
      ByteLengthAppend(a[1..], b);
    }
  }

  lemma {:induction false} AsciiByteLength(s: string)
    requires forall i | 0 <= i < |s| :: s[i] < '\U{80}'
    ensures ByteLength(s) == |s|
  {
    if s != "" {
      AsciiByteLength(s[1..]);
    }
  }

  function TrimLeft(s: string): string {
    if s != "" && IsSpace(s[0]) then TrimLeft(s[1..]) else s
  }

  function TrimRight(s: string): string {
    if s != "" && IsSpace(s[|s| - 1]) then TrimRight(s[..|s| - 1]) else s
  }

  function TrimSpace(s: string): string {
    TrimRight(TrimLeft(s))
  }

  /** No white space at either end: exactly the fixed points of `TrimSpace`. */
  predicate Trimmed(s: string) {
    s != "" ==> !IsSpace(s[0]) && !IsSpace(s[|s| - 1])
  }

  lemma {:induction false} TrimRightIsPrefix(s: string)
    ensures TrimRight(s) <= s
    ensures TrimRight(s) != "" ==> !IsSpace(TrimRight(s)[|TrimRight(s)| - 1])
  {
    if s != "" && IsSpace(s[|s| - 1]) {
      TrimRightIsPrefix(s[..|s| - 1]);
    }
  }

  /** Only white space is trimmed. */
  lemma {:induction false} TrimRightKeeps(s: string, i: nat)
    requires i < |s| && !IsSpace(s[i])
    ensures |TrimRight(s)| > i
  {
    if IsSpace(s[|s| - 1]) {
      TrimRightKeeps(s[..|s| - 1], i);
    }
  }

  lemma {:induction false} TrimLeftIsSuffix(s: string)
    ensures |TrimLeft(s)| <= |s| && TrimLeft(s) == s[|s| - |TrimLeft(s)|..]
    ensures TrimLeft(s) != "" ==> !IsSpace(TrimLeft(s)[0])
  {
    if s != "" && IsSpace(s[0]) {
      TrimLeftIsSuffix(s[1..]);
    }
  }

  lemma TrimSpaceIsTrimmed(s: string)
    ensures Trimmed(TrimSpace(s))
    ensures Trimmed(s) <==> TrimSpace(s) == s
    ensures TrimSpace(TrimSpace(s)) == TrimSpace(s)
  {
    TrimLeftIsSuffix(s);
    TrimRightIsPrefix(TrimLeft(s));
  }

  lemma TrimSpaceKeepsNoNewChars(s: string)
    ensures forall c | c in TrimSpace(s) :: c in s
  {
    TrimLeftIsSuffix(s);
    TrimRightIsPrefix(TrimLeft(s));
  }

  predicate HasPrefix(s: string, prefix: string) {
    prefix <= s
  }

  predicate HasSuffix(s: string, suffix: string) {
    |suffix| <= |s| && s[|s| - |suffix|..] == suffix
  }

  function TrimPrefix(s: string, prefix: string): string {
    if HasPrefix(s, prefix) then s[|prefix|..] else s
  }

  predicate Contains(s: string, t: string) {
    HasPrefix(s, t) || (s != "" && Contains(s[1..], t))
  }

  predicate StandsAt(s: string, t: string, i: nat) {
    i + |t| <= |s| && forall k | 0 <= k < |t| :: s[i + k] == t[k]
  }

  /** A text contains another exactly when that stands in it somewhere. */
  lemma {:induction false} ContainsIff(s: string, t: string)
    ensures Contains(s, t) <==> exists i: nat :: StandsAt(s, t, i)
  {
    assert HasPrefix(s, t) <==> StandsAt(s, t, 0);
    if s != "" {
      ContainsIff(s[1..], t);
      forall i: nat | StandsAt(s[1..], t, i) ensures StandsAt(s, t, i + 1) {
      }
      forall i: nat | i > 0 && StandsAt(s, t, i) ensures StandsAt(s[1..], t, i - 1) {
      }
    }
  }

  /** The text before and after the first `sep`, or `None` when there is no `sep`. */
  function Cut(s: string, sep: char): (r: Option<(string, string)>)
    ensures r.Some? ==> s == r.value.0 + [sep] + r.value.1 && sep !in r.value.0
    ensures r.None? ==> sep !in s
  {
    if s == "" then None
    else if s[0] == sep then Some(("", s[1..]))
    else
      match Cut(s[1..], sep)
      case None => None
      case Some((before, after)) => Some(([s[0]] + before, after))
  }

  lemma {:induction false} CutAt(before: string, sep: char, after: string)
    requires sep !in before
    ensures Cut(before + [sep] + after, sep) == Some((before, after))
  {
    var s := before + [sep] + after;
    if before == "" {
      assert s[1..] == after;
    } else {
      assert s[1..] == before[1..] + [sep] + after;
      CutAt(before[1..], sep, after);
      assert [s[0]] + before[1..] == before;
    }
  }

  function Join(parts: seq<string>, sep: char): string {
    if parts == [] then ""
    else if |parts| == 1 then parts[0]
    else parts[0] + [sep] + Join(parts[1..], sep)
  }

  function Split(s: string, sep: char): (parts: seq<string>)
    ensures parts != []
    decreases |s|
  {
    match Cut(s, sep)
    case None => [s]
    case Some((before, after)) => [before] + Split(after, sep)
  }

  lemma {:induction false} NoCut(s: string, sep: char)
    requires sep !in s
    ensures Cut(s, sep).None?
  {
    if s != "" {
      assert s[0] in s;
      NoCut(s[1..], sep);
    }
  }

  lemma {:induction false} SplitJoin(parts: seq<string>, sep: char)
    requires parts != []
    requires forall p | p in parts :: sep !in p
    ensures Split(Join(parts, sep), sep) == parts
  {
    assert parts[0] in parts;
    if |parts| == 1 {
      NoCut(parts[0], sep);
      assert parts == [parts[0]];
    } else {
      CutAt(parts[0], sep, Join(parts[1..], sep));
      SplitJoin(parts[1..], sep);
      assert parts == [parts[0]] + parts[1..];
    }
  }

  lemma {:induction false} JoinSplit(s: string, sep: char)
    ensures Join(Split(s, sep), sep) == s
    ensures forall p | p in Split(s, sep) :: sep !in p
    decreases |s|
  {
    match Cut(s, sep)
    case None =>
    case Some((before, after)) => JoinSplit(after, sep);
  }

  lemma {:induction false} SplitAppend(front: string, sep: char, back: string)
    ensures Split(front + [sep] + back, sep) == Split(front, sep) + Split(back, sep)
    decreases |front|
  {
    match Cut(front, sep)
    case None =>
      CutAt(front, sep, back);
    case Some((before, after)) =>
      assert front + [sep] + back == before + [sep] + (after + [sep] + back);
      CutAt(before, sep, after + [sep] + back);
      SplitAppend(after, sep, back);
      assert [before] + (Split(after, sep) + Split(back, sep)) == ([before] + Split(after, sep)) + Split(back, sep);
  }

  lemma {:induction false} JoinAppend(xs: seq<string>, ys: seq<string>, sep: char)
    requires xs != [] && ys != []
    ensures Join(xs + ys, sep) == Join(xs, sep) + [sep] + Join(ys, sep)
  {
    assert (xs + ys)[1..] == xs[1..] + ys;
    if |xs| > 1 {
      JoinAppend(xs[1..], ys, sep);
      assert xs[0] + [sep] + (Join(xs[1..], sep) + [sep] + Join(ys, sep)) == (xs[0] + [sep] + Join(xs[1..], sep)) + [sep] + Join(ys, sep);
    } else {
      assert (xs + ys)[1..] == ys;
    }
  }

  lemma SuffixIsLastParts(s: string, t: string, sep: char) returns (k: nat)
    requires s == t || HasSuffix(s, [sep] + t)
    ensures k <= |Split(s, sep)| && Split(s, sep)[k..] == Split(t, sep)
  {
    if s == t {
      k := 0;
    } else {
      var front := s[..|s| - |t| - 1];
      assert s == front + [sep] + t;
      SplitAppend(front, sep, t);
      k := |Split(front, sep)|;
    }
  }

  lemma LastPartsAreSuffix(s: string, t: string, sep: char, k: nat)
    requires k <= |Split(s, sep)| && Split(s, sep)[k..] == Split(t, sep)
    ensures s == t || HasSuffix(s, [sep] + t)
  {
    JoinSplit(s, sep);
    JoinSplit(t, sep);
    var parts := Split(s, sep);
    assert parts == parts[..k] + parts[k..];
    if k > 0 {
      JoinAppend(parts[..k], parts[k..], sep);
      EndsInBack(Join(parts[..k], sep), sep, t);
    }
  }

  lemma EndsInBack(front: string, sep: char, back: string)
    ensures HasSuffix(front + [sep] + back, [sep] + back)
  {
    assert front + [sep] + back == front + ([sep] + back);
  }

  // Separators in trimmed parts

  /** How many separators have no white space on either side; `afterSpace` is about the character before. */
  function Tight(afterSpace: bool, s: string, sep: char): nat
    decreases s
  {
    if s == "" then 0
    else
      Tight(IsSpace(s[0]), s[1..], sep)
      + if s[0] == sep && !afterSpace && (|s| > 1 ==> !IsSpace(s[1])) then 1 else 0
  }

  lemma {:induction false} TightNone(afterSpace: bool, s: string, sep: char)
    requires sep !in s
    ensures Tight(afterSpace, s, sep) == 0
    decreases s
  {
    if s != "" {
      assert s[0] in s;
      TightNone(IsSpace(s[0]), s[1..], sep);
    }
  }

  /** A separator between texts without space towards it is one tight separator more. */
  lemma {:induction false} TightCons(afterSpace: bool, x: string, rest: string, sep: char)
    requires !IsSpace(sep)
    requires if x == "" then !afterSpace else !IsSpace(x[|x| - 1])
    requires rest != "" ==> !IsSpace(rest[0])
    ensures Tight(afterSpace, x + [sep] + rest, sep) == Tight(afterSpace, x, sep) + 1 + Tight(false, rest, sep)
    decreases x
  {
    var s := x + [sep] + rest;
    if x == "" {
      assert s[1..] == rest;
    } else {
      assert s[1..] == x[1..] + [sep] + rest;
      TightCons(IsSpace(x[0]), x[1..], rest, sep);
    }
  }

  /** Where there is a tight separator, the text can be cut without leaving space at the cut. */
  lemma {:induction false} TightCut(afterSpace: bool, s: string, sep: char) returns (x: string, y: string)
    requires Tight(afterSpace, s, sep) > 0
    ensures s == x + [sep] + y
    ensures if x == "" then !afterSpace else !IsSpace(x[|x| - 1])
    ensures y != "" ==> !IsSpace(y[0])
    decreases s
  {
    if s[0] == sep && !afterSpace && (|s| > 1 ==> !IsSpace(s[1])) {
      x, y := "", s[1..];
    } else {
      var x', y' := TightCut(IsSpace(s[0]), s[1..], sep);
      x, y := [s[0]] + x', y';
      assert s == [s[0]] + s[1..];
    }
  }

  function TightParts(parts: seq<string>, sep: char): nat {
    if parts == [] then 0 else Tight(false, parts[0], sep) + TightParts(parts[1..], sep)
  }

  lemma JoinStart(parts: seq<string>, sep: char)
    requires !IsSpace(sep) && forall p | p in parts :: Trimmed(p)
    ensures Join(parts, sep) != "" ==> !IsSpace(Join(parts, sep)[0])
  {
    if parts != [] {
      assert parts[0] in parts;
    }
  }

  /** Joining trimmed parts adds the separators between them, which are all tight. */
  lemma {:induction false} TightJoin(parts: seq<string>, sep: char)
    requires parts != [] && !IsSpace(sep) && forall p | p in parts :: Trimmed(p)
    ensures Tight(false, Join(parts, sep), sep) == TightParts(parts, sep) + |parts| - 1
  {
    assert parts[0] in parts;
    if |parts| > 1 {
      TightJoin(parts[1..], sep);
      JoinStart(parts[1..], sep);
      TightCons(false, parts[0], Join(parts[1..], sep), sep);
    } else {
      assert TightParts(parts[1..], sep) == 0;
    }
  }

  lemma Beyond(x: string, restX: string, y: string, restY: string, sep: char) returns (tail: string)
    requires |x| < |y| && x + [sep] + restX == y + [sep] + restY
    ensures y == x + [sep] + tail && tail <= restX
  {
    var s := x + [sep] + restX;
    tail := y[|x| + 1..];
    assert y == (y + [sep] + restY)[..|y|] == s[..|y|];
    assert s[..|x|] == x && s[|x|] == sep;
    assert tail == s[|x| + 1..|y|];
  }

  /** A first part that reaches beyond the other one holds a tight separator. */
  lemma LongerIsTight(x: string, restX: string, y: string, restY: string, sep: char)
    requires !IsSpace(sep) && Trimmed(x) && |x| < |y|
    requires restX != "" ==> !IsSpace(restX[0])
    requires x + [sep] + restX == y + [sep] + restY
    ensures Tight(false, y, sep) > 0
  {
    var tail := Beyond(x, restX, y, restY, sep);
    TightCons(false, x, tail, sep);
  }

  lemma {:induction false} JoinLooseInjective(xs: seq<string>, ys: seq<string>, sep: char)
    requires |xs| == |ys| > 0 && !IsSpace(sep)
    requires (forall p | p in xs :: Trimmed(p)) && (forall p | p in ys :: Trimmed(p))
    requires TightParts(xs, sep) == TightParts(ys, sep) == 0
    requires Join(xs, sep) == Join(ys, sep)
    ensures xs == ys
  {
    assert xs[0] in xs && ys[0] in ys;
    if |xs| > 1 {
      var restX, restY := Join(xs[1..], sep), Join(ys[1..], sep);
      JoinStart(xs[1..], sep);
      JoinStart(ys[1..], sep);
      if |xs[0]| < |ys[0]| {
        LongerIsTight(xs[0], restX, ys[0], restY, sep);
      } else if |ys[0]| < |xs[0]| {
        LongerIsTight(ys[0], restY, xs[0], restX, sep);
      }
      SameFirst(xs[0], restX, ys[0], restY, sep);
      JoinLooseInjective(xs[1..], ys[1..], sep);
      assert xs == [xs[0]] + xs[1..] && ys == [ys[0]] + ys[1..];
    } else {
      assert xs == [xs[0]] && ys == [ys[0]];
    }
  }

  lemma SameFirst(x: string, restX: string, y: string, restY: string, sep: char)
    requires |x| == |y| && x + [sep] + restX == y + [sep] + restY
    ensures x == y && restX == restY
  {
    assert (x + [sep] + restX)[..|x|] == x && (y + [sep] + restY)[..|y|] == y;
    assert (x + [sep] + restX)[|x| + 1..] == restX && (y + [sep] + restY)[|y| + 1..] == restY;
  }

  /** Joining trimmed parts is injective as soon as one of the two lists has no tight separator inside. */
  lemma JoinTrimmedInjective(xs: seq<string>, ys: seq<string>, sep: char)
    requires |xs| == |ys| > 0 && !IsSpace(sep)
    requires (forall p | p in xs :: Trimmed(p)) && (forall p | p in ys :: Trimmed(p))
    requires TightParts(xs, sep) == 0
    requires Join(xs, sep) == Join(ys, sep)
    ensures xs == ys
  {
    TightJoin(xs, sep);
    TightJoin(ys, sep);
    JoinLooseInjective(xs, ys, sep);
  }
}

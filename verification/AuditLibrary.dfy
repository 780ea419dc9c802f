/** A library as the audit theorems assume it exists: their hypotheses are consistent. */
module AuditLibrary {
  import opened Prelude
  import opened Text
  import opened AuditChain

  /** One character in two; braces are spelt with parentheses, so that only records have braces. */
  function Code(c: char): string {
    if c == '{' then "/(" else if c == '}' then "/)" else ['\\', c]
  }

  function Escape(s: string): string {
    if s == "" then "\"" else Code(s[0]) + Escape(s[1..])
  }

  /** The escaped text at the front of `t`, and what follows it. */
  function Unescape(t: string): Option<(string, string)> {
    if t == "" then None
    else if t[0] == '\"' then Some(("", t[1..]))
    else if (t[0] == '\\' || t[0] == '/') && |t| >= 2 then
      match Unescape(t[2..])
      case None => None
      case Some((s, rest)) =>
        Some(([if t[0] == '\\' then t[1] else if t[1] == '(' then '{' else '}'] + s, rest))
    else None
  }

  lemma UnescapeCode(c: char, t: string)
    ensures
      Unescape(Code(c) + t) ==
      match Unescape(t)
      case None => None
      case Some((s, rest)) => Some(([c] + s, rest))
  {
    assert (Code(c) + t)[2..] == t;
  }

  lemma Associate(a: string, b: string, c: string)
    ensures (a + b) + c == a + (b + c)
  {
  }

  lemma {:induction false} UnescapeEscape(s: string, rest: string)
    ensures Unescape(Escape(s) + rest) == Some((s, rest))
  {
    if s == "" {
      assert (Escape(s) + rest)[1..] == rest;
    } else {
      UnescapeEscape(s[1..], rest);
      UnescapeCode(s[0], Escape(s[1..]) + rest);
      Associate(Code(s[0]), Escape(s[1..]), rest);
      assert [s[0]] + s[1..] == s;
    }
  }

  function After(t: string, prefix: string): Option<string> {
    if prefix <= t then Some(t[|prefix|..]) else None
  }

  /** `name` and an escaped text. */
  function Field(t: string, name: string): Option<(string, string)> {
    match After(t, name)
    case None => None
    case Some(u) => Unescape(u)
  }

  function Read(line: string): Option<Record> {
    match After(line, "{\"event\":")
    case None => None
    case Some(t) =>
      match Cut(t, ',')
      case None => None
      case Some((event, u)) =>
        match Field(u, "\"prev_hash\":")
        case None => None
        case Some((prevHash, v)) =>
          match Field(v, ",\"hash\":")
          case None => None
          case Some((hash, w)) => if w == "}" && NoBraces(event) then Some(Record(event, prevHash, hash)) else None
  }

  predicate NoBraces(s: string) {
    forall i | 0 <= i < |s| :: s[i] != '{' && s[i] != '}'
  }

  const LIBRARY: Library := Library(x => "<" + x + ">", Escape, e => ',' !in e && NoBraces(e), Read)

  lemma AfterPrefix(prefix: string, rest: string)
    ensures After(prefix + rest, prefix) == Some(rest)
  {
  }

  lemma FieldEscape(name: string, text: string, rest: string)
    ensures Field(name + (Escape(text) + rest), name) == Some((text, rest))
  {
    AfterPrefix(name, Escape(text) + rest);
    UnescapeEscape(text, rest);
  }

  lemma Regroup(a: string, b: string, c: string, d: string, e: string, f: string, g: string)
    ensures a + b + c + d + e + f + g == a + (b + (c + (d + (e + (f + g)))))
  {
  }

  lemma ReadFormat(r: Record)
    requires ',' !in r.event && NoBraces(r.event)
    ensures Read(Format(LIBRARY, r)) == Some(r)
  {
    var a, c, e, g := "{\"event\":", "\"prev_hash\":", ",\"hash\":", "}";
    var v := e + (Escape(r.hash) + g);
    var u := c + (Escape(r.prevHash) + v);
    Regroup(a, r.event, ",\"prev_hash\":", Escape(r.prevHash), e, Escape(r.hash), g);
    CommaFirst(r.event, c, Escape(r.prevHash) + v);
    AfterPrefix(a, r.event + [','] + u);
    CutAt(r.event, ',', u);
    FieldEscape(c, r.prevHash, v);
    FieldEscape(e, r.hash, g);
  }

  lemma CommaFirst(event: string, c: string, rest: string)
    requires c == "\"prev_hash\":"
    ensures event + (",\"prev_hash\":" + rest) == event + [','] + (c + rest)
  {
  }

  lemma ReadEvent(line: string)
    ensures Read(line).Some? ==> LIBRARY.compactJSON(Read(line).value.event)
  {
  }

  lemma {:induction false} EscapeHasNoBraces(s: string)
    ensures NoBraces(Escape(s))
  {
    if s != "" {
      EscapeHasNoBraces(s[1..]);
    }
  }

  /** What stands between the two braces of a record. */
  function Inside(r: Record): string {
    "\"event\":" + r.event + ",\"prev_hash\":" + Escape(r.prevHash) + ",\"hash\":" + Escape(r.hash)
  }

  lemma InsideHasNoBraces(r: Record)
    requires NoBraces(r.event)
    ensures NoBraces(Inside(r))
  {
    EscapeHasNoBraces(r.prevHash);
    EscapeHasNoBraces(r.hash);
    KeysHaveNoBraces();
    PiecesHaveNoBraces("\"event\":", r.event, ",\"prev_hash\":", Escape(r.prevHash), ",\"hash\":", Escape(r.hash));
  }

  lemma KeysHaveNoBraces()
    ensures NoBraces("\"event\":") && NoBraces(",\"prev_hash\":") && NoBraces(",\"hash\":")
  {
  }

  lemma PiecesHaveNoBraces(a: string, b: string, c: string, d: string, e: string, f: string)
    requires NoBraces(a) && NoBraces(b) && NoBraces(c) && NoBraces(d) && NoBraces(e) && NoBraces(f)
    ensures NoBraces(a + b + c + d + e + f)
  {
    assert NoBraces(a + b);
    assert NoBraces(a + b + c);
    assert NoBraces(a + b + c + d);
    assert NoBraces(a + b + c + d + e);
  }

  lemma FormatBraces(r: Record)
    requires NoBraces(r.event)
    ensures
      var line := Format(LIBRARY, r);
      && |line| > 1 && line[0] == '{' && line[|line| - 1] == '}'
      && (forall i | 0 < i < |line| :: line[i] != '{')
      && (forall i | 0 <= i < |line| - 1 :: line[i] != '}')
  {
    InsideHasNoBraces(r);
    BetweenBraces(r);
  }

  lemma BetweenBraces(r: Record)
    ensures Format(LIBRARY, r) == ['{'] + Inside(r) + ['}']
  {
    assert "{\"event\":" == ['{'] + "\"event\":";
  }

  /** A line that reads as a record has its braces at the ends only. */
  lemma ParsedBraces(t: string)
    requires t != "" && t[0] == '{' && Parse(LIBRARY, t).Some?
    ensures exists n | 0 < n < |t| :: t[n] == '}'
    ensures forall i | 0 < i < |t| :: t[i] != '{'
  {
    var r := Parse(LIBRARY, t).value;
    var line := TrimSpace(t);
    ReadEvent(line);
    FormatBraces(r);
    TrimRightIsPrefix(t);
    assert t[|line| - 1] == '}';
    forall i | 0 < i < |t| ensures t[i] != '{' {
      if t[i] == '{' {
        TrimRightKeeps(t, i);
      }
    }
  }

  lemma PartIsNoRecord(r: Record, n: nat)
    requires LIBRARY.compactJSON(r.event) && n < |Format(LIBRARY, r)|
    ensures Parse(LIBRARY, Format(LIBRARY, r)[..n]).None?
  {
    var t := Format(LIBRARY, r)[..n];
    FormatBraces(r);
    if Parse(LIBRARY, t).Some? {
      if t != "" {
        ParsedBraces(t);
      }
    }
  }

  lemma SplicedIsNoRecord(parts: seq<string>)
    requires |parts| > 1 && AllBeginnings(LIBRARY, parts)
    ensures Parse(LIBRARY, Concat(parts)).None?
  {
    var t, n := SplicedBraces(parts);
    if Parse(LIBRARY, Concat(parts)).Some? {
      ParsedBraces(Concat(parts));
    }
  }

  lemma BeginningBrace(t: string)
    requires Beginning(LIBRARY, t)
    ensures t != "" && t[0] == '{'
  {
    var r: Record :| LIBRARY.compactJSON(r.event) && t <= Format(LIBRARY, r);
    FormatBraces(r);
  }

  /** Beginnings run together have a brace at the front and another one behind it. */
  lemma {:induction false} SplicedBraces(parts: seq<string>) returns (t: string, n: nat)
    requires parts != [] && AllBeginnings(LIBRARY, parts)
    ensures t == Concat(parts) && n < |t| && t[0] == '{' && t[n] == '{' && (|parts| > 1 ==> n > 0)
  {
    var front, last := parts[..|parts| - 1], parts[|parts| - 1];
    t := Concat(parts);
    BeginningBrace(last);
    if front == [] {
      n := 0;
    } else {
      var _, _ := SplicedBraces(front);
      n := |Concat(front)|;
    }
  }

  lemma LawfulLibraryExists()
    ensures Lawful(LIBRARY) && Delimited(LIBRARY)
  {
    forall x, y | LIBRARY.sha(x) == LIBRARY.sha(y) ensures x == y {
      assert ("<" + x + ">")[1..|x| + 1] == x;
      assert ("<" + y + ">")[1..|y| + 1] == y;
    }
    forall r: Record | LIBRARY.compactJSON(r.event) ensures LIBRARY.read(Format(LIBRARY, r)) == Some(r) {
      ReadFormat(r);
    }
    forall line: string | LIBRARY.read(line).Some? ensures LIBRARY.compactJSON(LIBRARY.read(line).value.event) {
      ReadEvent(line);
    }
    LibraryIsDelimited();
  }

  lemma LibraryIsDelimited()
    ensures Delimited(LIBRARY)
  {
    forall r: Record, n: nat | LIBRARY.compactJSON(r.event) && n < |Format(LIBRARY, r)|
      ensures Parse(LIBRARY, Format(LIBRARY, r)[..n]).None?
    {
      PartIsNoRecord(r, n);
    }
    forall parts: seq<string> | |parts| > 1 && AllBeginnings(LIBRARY, parts) ensures Parse(LIBRARY, Concat(parts)).None? {
      SplicedIsNoRecord(parts);
    }
  }
}

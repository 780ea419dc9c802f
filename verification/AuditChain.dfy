/**
 The hash-chained audit log and its verifier (`internal/adapters/audit/verify.go`). A log is the
 sequence of lines of the file.
 */
module AuditChain {
  import opened Prelude
  import opened Text

  /** One stored record: the compact JSON of the event, the hash before it, and its own hash. */
  datatype Record = Record(event: string, prevHash: string, hash: string)

  /** The library functions: SHA-256 in hex, JSON quoting, and the strict JSON reading of a record. */
  datatype Library = Library(sha: string -> string, quote: string -> string, compactJSON: string -> bool,
                             read: string -> Option<Record>)

  /** `formatStoredAuditLine`. */
  function FormatStoredLine(lib: Library, event: string, prevHash: string, hash: string): string {
    "{\"event\":" + event + ",\"prev_hash\":" + lib.quote(prevHash) + ",\"hash\":" + lib.quote(hash) + "}"
  }

  function Format(lib: Library, r: Record): string {
    FormatStoredLine(lib, r.event, r.prevHash, r.hash)
  }

  /** `parseStoredAuditLine`: what reads as a record must also be its canonical encoding. */
  function Parse(lib: Library, line: string): Option<Record> {
    var trimmed := TrimSpace(line);
    if trimmed == "" then None
    else
      match lib.read(trimmed)
      case None => None
      case Some(r) => if Format(lib, r) == trimmed then Some(r) else None
  }

  function RecordHash(lib: Library, r: Record): string {
    lib.sha(FormatStoredLine(lib, r.event, r.prevHash, ""))
  }

  /** What the theorems assume of the library: an injective hash that is never blank, and a faithful reader. */
  ghost predicate Lawful(lib: Library) {
    && (forall x, y | lib.sha(x) == lib.sha(y) :: x == y)
    && (forall x :: lib.sha(x) != "" && Trimmed(lib.sha(x)))
    && (forall r: Record | lib.compactJSON(r.event) :: lib.read(Format(lib, r)) == Some(r))
    && (forall line: string | lib.read(line).Some? :: lib.compactJSON(lib.read(line).value.event))
  }

  /** A non-empty beginning of the line of a record. */
  ghost predicate Beginning(lib: Library, t: string) {
    t != "" && exists r: Record | lib.compactJSON(r.event) :: t <= Format(lib, r)
  }

  ghost predicate AllBeginnings(lib: Library, parts: seq<string>) {
    forall i | 0 <= i < |parts| :: Beginning(lib, parts[i])
  }

  function Concat(parts: seq<string>): string {
    if parts == [] then "" else Concat(parts[..|parts| - 1]) + parts[|parts| - 1]
  }

  /**
   What the appender's theorems assume of JSON besides: a record is one balanced object. So no record
   is the proper beginning of another, nor are several beginnings run together.
   */
  ghost predicate Delimited(lib: Library) {
    && (forall r: Record, n: nat | lib.compactJSON(r.event) && n < |Format(lib, r)| :: Parse(lib, Format(lib, r)[..n]).None?)
    && (forall parts: seq<string> | |parts| > 1 && AllBeginnings(lib, parts) :: Parse(lib, Concat(parts)).None?)
  }

  lemma FormatTrimmed(lib: Library, event: string, prevHash: string, hash: string)
    ensures var line := FormatStoredLine(lib, event, prevHash, hash); Trimmed(line) && line != "" && TrimSpace(line) == line
  {
  }

  lemma ParseFormat(lib: Library, r: Record)
    requires Lawful(lib) && lib.compactJSON(r.event)
    ensures Parse(lib, Format(lib, r)) == Some(r)
  {
  }

  /** The hash determines the event and the previous hash. */
  lemma RecordHashInjective(lib: Library, r: Record, r': Record)
    requires Lawful(lib) && lib.compactJSON(r.event) && lib.compactJSON(r'.event)
    requires RecordHash(lib, r) == RecordHash(lib, r')
    ensures r.event == r'.event && r.prevHash == r'.prevHash
  {
    assert lib.read(Format(lib, r.(hash := ""))) == Some(r.(hash := ""));
    assert lib.read(Format(lib, r'.(hash := ""))) == Some(r'.(hash := ""));
  }

  // The chain as a property of records

  function LastHash(rs: seq<Record>): string {
    if rs == [] then "" else rs[|rs| - 1].hash
  }

  /** Each record names the hash before it and carries its own. */
  ghost predicate Chained(lib: Library, rs: seq<Record>) {
    rs != [] ==>
      var front, r := rs[..|rs| - 1], rs[|rs| - 1];
      Chained(lib, front) && lib.compactJSON(r.event) && r.prevHash == LastHash(front) && r.hash == RecordHash(lib, r)
  }

  /** The lines that count, each with what it parses to; `None` if one of them does not parse. */
  function Records(lib: Library, lines: seq<string>): Option<seq<Record>> {
    if lines == [] then Some([])
    else
      match Records(lib, lines[..|lines| - 1])
      case None => None
      case Some(rs) =>
        if TrimSpace(lines[|lines| - 1]) == "" then Some(rs)
        else
          match Parse(lib, lines[|lines| - 1])
          case None => None
          case Some(r) => Some(rs + [r])
  }

  /** The scanner gives up on a line whose bytes fill its buffer. */
  const MAX_SCAN_TOKEN_SIZE: nat := 64 * 1024

  predicate Scannable(lines: seq<string>) {
    forall i | 0 <= i < |lines| :: ByteLength(lines[i]) < MAX_SCAN_TOKEN_SIZE
  }

  /** A log that verifies: readable, well-formed and chained. */
  ghost predicate Accepted(lib: Library, lines: seq<string>) {
    && Scannable(lines)
    && Records(lib, lines).Some?
    && Chained(lib, Records(lib, lines).value)
  }

  /** The records of an accepted log. */
  ghost function Contents(lib: Library, lines: seq<string>): seq<Record>
    requires Accepted(lib, lines)
  {
    Records(lib, lines).value
  }

  predicate HashIn(rs: seq<Record>, hash: string) {
    exists i | 0 <= i < |rs| :: rs[i].hash == hash
  }

  /** Whether a record may follow a chain that ends in `prev`. */
  predicate Links(lib: Library, prev: string, r: Record) {
    r.prevHash == prev && r.hash == RecordHash(lib, r)
  }

  /** What one more line does to a log. */
  lemma AcceptedExtend(lib: Library, lines: seq<string>, line: string)
    requires Lawful(lib) && Accepted(lib, lines)
    ensures
      var longer, rs := lines + [line], Contents(lib, lines);
      if ByteLength(line) >= MAX_SCAN_TOKEN_SIZE then !Accepted(lib, longer)
      else if TrimSpace(line) == "" then Accepted(lib, longer) && Contents(lib, longer) == rs
      else if Parse(lib, line).None? || !Links(lib, LastHash(rs), Parse(lib, line).value) then !Accepted(lib, longer)
      else Accepted(lib, longer) && Contents(lib, longer) == rs + [Parse(lib, line).value]
  {
    var longer, rs := lines + [line], Contents(lib, lines);
    assert longer[..|longer| - 1] == lines && longer[|lines|] == line;
    if Parse(lib, line).Some? {
      ChainedExtend(lib, rs, Parse(lib, line).value);
    }
  }

  lemma ChainedExtend(lib: Library, rs: seq<Record>, r: Record)
    ensures Chained(lib, rs + [r]) <==> Chained(lib, rs) && lib.compactJSON(r.event) && Links(lib, LastHash(rs), r)
  {
  }

  lemma AcceptedShorter(lib: Library, lines: seq<string>, line: string)
    requires Accepted(lib, lines + [line])
    ensures Accepted(lib, lines) && Contents(lib, lines) <= Contents(lib, lines + [line])
  {
  }

  /** A log is accepted only if each of its prefixes is. */
  lemma {:induction false} AcceptedPrefix(lib: Library, lines: seq<string>, n: nat)
    requires n <= |lines| && Accepted(lib, lines)
    ensures Accepted(lib, lines[..n]) && Contents(lib, lines[..n]) <= Contents(lib, lines)
    decreases |lines| - n
  {
    if n < |lines| {
      AcceptedPrefix(lib, lines, n + 1);
      assert lines[..n + 1] == lines[..n] + [lines[n]];
      AcceptedShorter(lib, lines[..n], lines[n]);
    } else {
      assert lines[..n] == lines;
    }
  }

  /** A blank line anywhere, of any length that can be scanned, does not matter. */
  lemma {:induction false} BlankLineIsIgnored(lib: Library, front: seq<string>, blank: string, back: seq<string>)
    requires TrimSpace(blank) == "" && ByteLength(blank) < 65536
    ensures Accepted(lib, front + [blank] + back) <==> Accepted(lib, front + back)
    ensures Accepted(lib, front + back) ==> Contents(lib, front + [blank] + back) == Contents(lib, front + back)
  {
    BlankLineSkipped(lib, front, blank, back);
    ScannableAround(front, blank, back);
  }

  lemma ScannableAround(front: seq<string>, blank: string, back: seq<string>)
    requires ByteLength(blank) < MAX_SCAN_TOKEN_SIZE
    ensures Scannable(front + [blank] + back) <==> Scannable(front + back)
  {
    var longer, lines := front + [blank] + back, front + back;
    forall i | 0 <= i < |lines| ensures lines[i] == longer[if i < |front| then i else i + 1] {
    }
    forall i | 0 <= i < |longer| && i != |front| ensures longer[i] == lines[if i < |front| then i else i - 1] {
    }
  }

  lemma {:induction false} BlankLineSkipped(lib: Library, front: seq<string>, blank: string, back: seq<string>)
    requires TrimSpace(blank) == ""
    ensures Records(lib, front + [blank] + back) == Records(lib, front + back)
  {
    if back == [] {
      assert front + [blank] + back == front + [blank] && front + back == front;
      assert (front + [blank])[..|front|] == front;
    } else {
      var most, last := back[..|back| - 1], back[|back| - 1];
      BlankLineSkipped(lib, front, blank, most);
      SameNextLine(lib, front + [blank] + most, front + most, last);
      assert back == most + [last];
      assert front + [blank] + back == front + [blank] + most + [last] && front + back == front + most + [last];
    }
  }

  lemma SameNextLine(lib: Library, a: seq<string>, b: seq<string>, line: string)
    requires Records(lib, a) == Records(lib, b)
    ensures Records(lib, a + [line]) == Records(lib, b + [line])
  {
    assert (a + [line])[..|a|] == a && (b + [line])[..|b|] == b;
  }

  /** What line `i` of a log does, if all before it is accepted. */
  lemma NextLine(lib: Library, lines: seq<string>, i: nat)
    requires Lawful(lib) && i < |lines| && Accepted(lib, lines[..i])
    ensures
      var line, rs := lines[i], Contents(lib, lines[..i]);
      if ByteLength(line) >= MAX_SCAN_TOKEN_SIZE then !Accepted(lib, lines)
      else if TrimSpace(line) == "" then Accepted(lib, lines[..i + 1]) && Contents(lib, lines[..i + 1]) == rs
      else if Parse(lib, line).None? || !Links(lib, LastHash(rs), Parse(lib, line).value) then !Accepted(lib, lines)
      else Accepted(lib, lines[..i + 1]) && Contents(lib, lines[..i + 1]) == rs + [Parse(lib, line).value]
  {
    assert lines[..i + 1] == lines[..i] + [lines[i]];
    AcceptedExtend(lib, lines[..i], lines[i]);
    if Accepted(lib, lines) {
      AcceptedPrefix(lib, lines, i + 1);
    }
  }

  datatype Failure = TooLong | Malformed | PrevMismatch | HashMismatch | CheckpointMissing

  /**
   `verifyFile`: one scan that keeps the previous hash, the count and whether the checkpoint was
   seen. It accepts exactly the accepted logs that contain the checkpoint, if one is given.
   */
  method VerifyFile(lib: Library, lines: seq<string>, checkpointHash: string) returns (r: Result<(string, nat), Failure>)
    requires Lawful(lib)
    ensures r.Ok? <==> Accepted(lib, lines) && (checkpointHash != "" ==> HashIn(Contents(lib, lines), checkpointHash))
    ensures r.Ok? ==> r.value == (LastHash(Contents(lib, lines)), |Contents(lib, lines)|)
  {
    var prev, last, count := "", "", 0;
    var checkpointFound := checkpointHash == "";
    for i := 0 to |lines|
      invariant Accepted(lib, lines[..i])
      invariant prev == last == LastHash(Contents(lib, lines[..i])) && count == |Contents(lib, lines[..i])|
      invariant checkpointFound <==> checkpointHash == "" || HashIn(Contents(lib, lines[..i]), checkpointHash)
    {
      ghost var rs := Contents(lib, lines[..i]);
      NextLine(lib, lines, i);
      if ByteLength(lines[i]) >= MAX_SCAN_TOKEN_SIZE {
        return Err(TooLong);
      }
      if TrimSpace(lines[i]) == "" {
        continue;
      }
      var rec := Parse(lib, lines[i]);
      if rec.None? {
        return Err(Malformed);
      }
      if rec.value.prevHash != prev {
        return Err(PrevMismatch);
      }
      if rec.value.hash != lib.sha(FormatStoredLine(lib, rec.value.event, rec.value.prevHash, "")) {
        return Err(HashMismatch);
      }
      prev := rec.value.hash;
      last := rec.value.hash;
      HashInExtended(rs, rec.value, checkpointHash);
      if checkpointHash != "" && rec.value.hash == checkpointHash {
        checkpointFound := true;
      }
      count := count + 1;
    }
    assert lines[..|lines|] == lines;
    if !checkpointFound {
      return Err(CheckpointMissing);
    }
    return Ok((last, count));
  }

  lemma HashInExtended(rs: seq<Record>, r: Record, hash: string)
    ensures HashIn(rs + [r], hash) <==> HashIn(rs, hash) || r.hash == hash
  {
    if HashIn(rs, hash) {
      var i :| 0 <= i < |rs| && rs[i].hash == hash;
      assert (rs + [r])[i].hash == hash;
    }
    if r.hash == hash {
      assert (rs + [r])[|rs|].hash == hash;
    }
  }

  /** `VerifyFileAnchored`: a blank checkpoint asks for nothing. */
  method VerifyFileAnchored(lib: Library, lines: seq<string>, checkpointHash: string) returns (r: Result<(string, nat), Failure>)
    requires Lawful(lib)
    ensures r.Ok? <==> Accepted(lib, lines) && (TrimSpace(checkpointHash) != "" ==> HashIn(Contents(lib, lines), TrimSpace(checkpointHash)))
    ensures r.Ok? ==> r.value == (LastHash(Contents(lib, lines)), |Contents(lib, lines)|)
  {
    r := VerifyFile(lib, lines, TrimSpace(checkpointHash));
  }

  // The last hash fixes the whole log

  lemma LastHashBlank(lib: Library, rs: seq<Record>)
    requires Lawful(lib) && Chained(lib, rs)
    ensures LastHash(rs) == "" <==> rs == []
    ensures Trimmed(LastHash(rs))
  {
  }

  lemma {:induction false} SameLastHash(lib: Library, rs: seq<Record>, rs': seq<Record>)
    requires Lawful(lib) && Chained(lib, rs) && Chained(lib, rs')
    requires LastHash(rs) == LastHash(rs')
    ensures rs == rs'
  {
    LastHashBlank(lib, rs);
    LastHashBlank(lib, rs');
    if rs != [] {
      var front, r := rs[..|rs| - 1], rs[|rs| - 1];
      var front', r' := rs'[..|rs'| - 1], rs'[|rs'| - 1];
      RecordHashInjective(lib, r, r');
      SameLastHash(lib, front, front');
      assert rs == front + [r] && rs' == front' + [r'];
    }
  }

  lemma {:induction false} ChainedPrefix(lib: Library, rs: seq<Record>, n: nat)
    requires Chained(lib, rs) && n <= |rs|
    ensures Chained(lib, rs[..n])
  {
    if n < |rs| {
      ChainedPrefix(lib, rs[..|rs| - 1], n);
      assert rs[..|rs| - 1][..n] == rs[..n];
    } else {
      assert rs[..n] == rs;
    }
  }

  /** No hash occurs twice in a chain, and none is the hash before the first record. */
  lemma HashesDistinct(lib: Library, rs: seq<Record>, i: nat, j: nat)
    requires Lawful(lib) && Chained(lib, rs) && i < j <= |rs|
    ensures LastHash(rs[..i]) != LastHash(rs[..j])
  {
    ChainedPrefix(lib, rs, i);
    ChainedPrefix(lib, rs, j);
    if LastHash(rs[..i]) == LastHash(rs[..j]) {
      SameLastHash(lib, rs[..i], rs[..j]);
    }
  }

  /** Two logs that verify with the same last hash hold the same records. */
  lemma LastHashDeterminesLog(lib: Library, lines: seq<string>, lines': seq<string>)
    requires Lawful(lib) && Accepted(lib, lines) && Accepted(lib, lines')
    requires LastHash(Contents(lib, lines)) == LastHash(Contents(lib, lines'))
    ensures Contents(lib, lines) == Contents(lib, lines')
  {
    SameLastHash(lib, Contents(lib, lines), Contents(lib, lines'));
  }

  /**
   Anchoring: a log that verifies against the last hash of a non-empty verified log starts with the
   records of that log. So nothing recorded up to a checkpoint can be dropped or altered.
   */
  lemma CheckpointFixesPrefix(lib: Library, lines: seq<string>, lines': seq<string>)
    requires Lawful(lib) && Accepted(lib, lines) && Contents(lib, lines) != []
    requires Accepted(lib, lines') && HashIn(Contents(lib, lines'), TrimSpace(LastHash(Contents(lib, lines))))
    ensures Contents(lib, lines) <= Contents(lib, lines')
  {
    var rs, rs' := Contents(lib, lines), Contents(lib, lines');
    LastHashBlank(lib, rs);
    TrimSpaceIsTrimmed(LastHash(rs));
    var i :| 0 <= i < |rs'| && rs'[i].hash == LastHash(rs);
    ChainedPrefix(lib, rs', i + 1);
    SameLastHash(lib, rs, rs'[..i + 1]);
  }
}

/** The appender of the audit log (`internal/adapters/audit/file.go`). */
module FileSink {
  import opened Prelude
  import opened Text
  import opened AuditChain

  /** The complete lines of the file, what stands behind the last line break, and the hash carried for the next record. */
  datatype SinkState = SinkState(lines: seq<string>, tail: string, lastHash: string) {
    /** What a scanner reads: an unfinished line is one more line. */
    function File(): seq<string> {
      if tail == "" then lines else lines + [tail]
    }
  }

  /**
   What happens to a sink: a write that succeeds; one that fails before anything reaches the file; one
   that is cut short after some characters of the line, or before the line break only; one whose line
   reaches the file but cannot be synced; and a close followed by a new open.
   */
  datatype SinkStep =
    | Wrote(event: string)
    | Lost(event: string)
    | Torn(event: string, written: nat)
    | Unbroken(event: string)
    | Unsynced(event: string)
    | Reopened
  {
    /** A whole record reaches the file. */
    predicate Appends() {
      Wrote? || Unbroken? || Unsynced?
    }

    /** Part of a record does. */
    predicate Tears() {
      Torn? && written > 0
    }
  }

  function NewRecord(lib: Library, lastHash: string, event: string): Record {
    Record(event, lastHash, lib.sha(FormatStoredLine(lib, event, lastHash, "")))
  }

  function NewLine(lib: Library, lastHash: string, event: string): string {
    Format(lib, NewRecord(lib, lastHash, event))
  }

  /** The first characters of a line, never all of them. */
  function Part(line: string, written: nat): string
    requires line != ""
  {
    if written < |line| then line[..written] else line[..|line| - 1]
  }

  /** What a step puts behind the tail. */
  function Written(lib: Library, lastHash: string, step: SinkStep): string {
    if step.Appends() then NewLine(lib, lastHash, step.event)
    else if step.Torn? then Part(NewLine(lib, lastHash, step.event), step.written)
    else ""
  }

  ghost function AfterStep(lib: Library, s: SinkState, step: SinkStep): SinkState {
    match step
    case Wrote(e) => SinkState(s.lines + [s.tail + Written(lib, s.lastHash, step)], "", NewRecord(lib, s.lastHash, e).hash)
    case Unsynced(_) => s.(lines := s.lines + [s.tail + Written(lib, s.lastHash, step)], tail := "")
    case Unbroken(_) => s.(tail := s.tail + Written(lib, s.lastHash, step))
    case Torn(_, _) => s.(tail := s.tail + Written(lib, s.lastHash, step))
    case Lost(_) => s
    case Reopened => if Accepted(lib, s.File()) then s.(lastHash := LastHash(Contents(lib, s.File()))) else s
  }

  ghost function AfterSteps(lib: Library, s: SinkState, steps: seq<SinkStep>): SinkState {
    if steps == [] then s else AfterStep(lib, AfterSteps(lib, s, steps[..|steps| - 1]), steps[|steps| - 1])
  }

  class Sink {
    const lib: Library
    var lines: seq<string>
    var tail: string
    var lastHash: string
    var open: bool

    ghost function State(): SinkState
      reads this
    {
      SinkState(lines, tail, lastHash)
    }

    /** `NewFileSink` on a file that may exist: it must verify, and its last hash is carried on. */
    constructor (lib: Library, existing: Option<(seq<string>, string)>)
      requires Lawful(lib)
      ensures this.lib == lib
      ensures (lines, tail) == if existing.Some? then existing.value else ([], "")
      ensures open <==> Accepted(lib, State().File())
      ensures open ==> lastHash == LastHash(Contents(lib, State().File()))
    {
      this.lib := lib;
      this.lines := if existing.Some? then existing.value.0 else [];
      this.tail := if existing.Some? then existing.value.1 else "";
      this.lastHash := "";
      this.open := true;
      new;
      if existing.Some? {
        var verified := VerifyFile(lib, SinkState(lines, tail, lastHash).File(), "");
        if verified.Ok? {
          lastHash := verified.value.0;
        } else {
          open := false;
        }
      }
    }

    /** Closes the sink and opens the file again. */
    method Reopen()
      requires Lawful(lib)
      modifies this
      ensures State() == AfterStep(lib, old(State()), Reopened)
      ensures open <==> Accepted(lib, State().File())
    {
      var verified := VerifyFile(lib, SinkState(lines, tail, lastHash).File(), "");
      open := verified.Ok?;
      if verified.Ok? {
        lastHash := verified.value.0;
      }
    }

    /** `Write` of an event, given as its sanitised JSON. */
    method Write(event: string) returns (ok: bool, ghost step: SinkStep)
      requires open
      modifies this`lines, this`tail, this`lastHash
      ensures !step.Reopened? && step.event == event
      ensures ok <==> step.Wrote?
      ensures State() == AfterStep(lib, old(State()), step)
    {
      var base := Record(event, lastHash, lib.sha(FormatStoredLine(lib, event, lastHash, "")));
      var line := Format(lib, base);
      assert 0 <= |line|;
      var encoded: bool, synced: bool := *, *;
      if !encoded {
        var written: nat :| written <= |line|;
        if written < |line| {
          tail := tail + line[..written];
          return false, Torn(event, written);
        }
        tail := tail + line;
        return false, Unbroken(event);
      }
      lines, tail := lines + [tail + line], "";
      if !synced {
        return false, Unsynced(event);
      }
      lastHash := base.hash;
      return true, Wrote(event);
    }
  }

  // When the file still verifies

  /** A record was appended that the carried hash does not know of. */
  predicate Dirty(steps: seq<SinkStep>) {
    steps != [] &&
      var last := steps[|steps| - 1];
      last.Unsynced? || last.Unbroken? || (!last.Reopened? && Dirty(steps[..|steps| - 1]))
  }

  /** A record was appended without its line break. */
  predicate Hanging(steps: seq<SinkStep>) {
    steps != [] && (steps[|steps| - 1].Unbroken? || Hanging(steps[..|steps| - 1]))
  }

  /**
   No part of a record reaches the file; nothing is appended behind an unsynced line until the file is
   opened again, and nothing ever behind a line without its break.
   */
  predicate Careful(steps: seq<SinkStep>) {
    steps != [] ==>
      var front, last := steps[..|steps| - 1], steps[|steps| - 1];
      Careful(front) && !last.Tears() && (last.Appends() ==> !Dirty(front) && !Hanging(front))
  }

  predicate ValidEvents(lib: Library, steps: seq<SinkStep>) {
    forall i | 0 <= i < |steps| :: !steps[i].Reopened? ==> lib.compactJSON(steps[i].event)
  }

  function Appended(steps: seq<SinkStep>): nat {
    if steps == [] then 0
    else Appended(steps[..|steps| - 1]) + if steps[|steps| - 1].Appends() then 1 else 0
  }

  /** The sink is in step with an accepted file, or exactly one record behind it. */
  ghost predicate InStep(lib: Library, s: SinkState, dirty: bool) {
    && Accepted(lib, s.File())
    && var rs := Contents(lib, s.File());
    if dirty then rs != [] && LastHash(rs[..|rs| - 1]) == s.lastHash else LastHash(rs) == s.lastHash
  }

  // An unfinished line

  /** What writes that were cut short can leave of a line. */
  ghost predicate Remnant(lib: Library, t: string) {
    exists parts :: AllBeginnings(lib, parts) && Concat(parts) == t
  }

  lemma NothingRemains(lib: Library)
    ensures Remnant(lib, "")
  {
    assert AllBeginnings(lib, []) && Concat([]) == "";
  }

  lemma LineIsLong(lib: Library, r: Record)
    ensures |Format(lib, r)| > 1 && Format(lib, r)[0] == '{'
  {
  }

  lemma WrittenBegins(lib: Library, lastHash: string, step: SinkStep)
    requires !step.Reopened? ==> lib.compactJSON(step.event)
    ensures Written(lib, lastHash, step) != "" <==> step.Appends() || step.Tears()
    ensures Written(lib, lastHash, step) != "" ==> Beginning(lib, Written(lib, lastHash, step))
  {
    if !step.Reopened? {
      var r := NewRecord(lib, lastHash, step.event);
      LineIsLong(lib, r);
      assert Written(lib, lastHash, step) <= Format(lib, r);
    }
  }

  /** What a scanner reads after a step. */
  lemma FileAfter(lib: Library, s: SinkState, step: SinkStep)
    requires !step.Reopened? ==> lib.compactJSON(step.event)
    ensures
      AfterStep(lib, s, step).File() ==
      if s.tail + Written(lib, s.lastHash, step) == "" then s.lines else s.lines + [s.tail + Written(lib, s.lastHash, step)]
    ensures AfterStep(lib, s, step).tail in {"", s.tail, s.tail + Written(lib, s.lastHash, step)}
    ensures step.Unbroken? ==> AfterStep(lib, s, step).tail != ""
    ensures !step.Appends() && !step.Tears() ==> AfterStep(lib, s, step).tail == s.tail
  {
    WrittenBegins(lib, s.lastHash, step);
    assert s.tail + "" == s.tail;
  }

  lemma {:induction false} ConcatStart(parts: seq<string>)
    requires parts != [] && parts[0] != ""
    ensures Concat(parts) != "" && Concat(parts)[0] == parts[0][0]
  {
    if |parts| > 1 {
      ConcatStart(parts[..|parts| - 1]);
    } else {
      assert Concat(parts[..0]) == "";
    }
  }

  lemma SplicedIsUnreadable(lib: Library, parts: seq<string>)
    requires Delimited(lib) && AllBeginnings(lib, parts) && |parts| > 1
    ensures Parse(lib, Concat(parts)).None? && Concat(parts) != "" && Concat(parts)[0] == '{'
  {
    assert Beginning(lib, parts[0]);
    var r: Record :| parts[0] <= Format(lib, r);
    LineIsLong(lib, r);
    ConcatStart(parts);
  }

  lemma ConcatSnoc(lib: Library, parts: seq<string>, p: string)
    requires AllBeginnings(lib, parts) && Beginning(lib, p)
    ensures AllBeginnings(lib, parts + [p]) && Concat(parts + [p]) == Concat(parts) + p
  {
    assert (parts + [p])[..|parts|] == parts;
  }

  /** Whatever is written behind a remnant, the line that it becomes is rejected for good. */
  lemma RemnantGrows(lib: Library, lines: seq<string>, t: string, p: string)
    requires Lawful(lib) && Delimited(lib) && Remnant(lib, t) && Beginning(lib, p)
    ensures Remnant(lib, t + p)
    ensures t != "" ==> !Accepted(lib, lines + [t + p])
  {
    var parts :| AllBeginnings(lib, parts) && Concat(parts) == t;
    ConcatSnoc(lib, parts, p);
    if t != "" {
      SplicedIsUnreadable(lib, parts + [p]);
      UnreadableIsRejected(lib, lines, t + p);
    }
  }

  lemma UnreadableIsRejected(lib: Library, lines: seq<string>, line: string)
    requires Lawful(lib) && line != "" && line[0] == '{' && Parse(lib, line).None?
    ensures !Accepted(lib, lines + [line])
  {
    TrimRightKeeps(line, 0);
    if Accepted(lib, lines + [line]) {
      AcceptedShorter(lib, lines, line);
      AcceptedExtend(lib, lines, line);
    }
  }

  /** Steps behind an unfinished line. */
  lemma BehindTail(lib: Library, s: SinkState, step: SinkStep)
    requires Lawful(lib) && Delimited(lib) && Remnant(lib, s.tail)
    requires !step.Reopened? ==> lib.compactJSON(step.event)
    ensures Remnant(lib, AfterStep(lib, s, step).tail)
    ensures s.tail != "" && (step.Appends() || step.Tears()) ==> !Accepted(lib, AfterStep(lib, s, step).File())
  {
    NothingRemains(lib);
    FileAfter(lib, s, step);
    WrittenBegins(lib, s.lastHash, step);
    if step.Appends() || step.Tears() {
      RemnantGrows(lib, s.lines, s.tail, Written(lib, s.lastHash, step));
    }
  }

  lemma NewRecordParses(lib: Library, lastHash: string, e: string)
    requires Lawful(lib) && lib.compactJSON(e)
    ensures TrimSpace(NewLine(lib, lastHash, e)) != "" && Parse(lib, NewLine(lib, lastHash, e)) == Some(NewRecord(lib, lastHash, e))
    ensures Links(lib, lastHash, NewRecord(lib, lastHash, e))
  {
    var r := NewRecord(lib, lastHash, e);
    ParseFormat(lib, r);
    FormatTrimmed(lib, r.event, r.prevHash, r.hash);
  }

  lemma AppendInStep(lib: Library, s: SinkState, e: string)
    requires Lawful(lib) && lib.compactJSON(e) && s.tail == "" && InStep(lib, s, false)
    ensures Accepted(lib, s.lines + [NewLine(lib, s.lastHash, e)]) <==> LineFits(lib, s.lastHash, e)
    ensures
      LineFits(lib, s.lastHash, e) ==>
        Contents(lib, s.lines + [NewLine(lib, s.lastHash, e)]) == Contents(lib, s.lines) + [NewRecord(lib, s.lastHash, e)]
  {
    AcceptedExtend(lib, s.lines, NewLine(lib, s.lastHash, e));
    NewRecordParses(lib, s.lastHash, e);
  }

  lemma AppendDirty(lib: Library, s: SinkState, e: string)
    requires Lawful(lib) && lib.compactJSON(e) && s.tail == "" && InStep(lib, s, true)
    ensures !Accepted(lib, s.lines + [NewLine(lib, s.lastHash, e)])
  {
    AcceptedExtend(lib, s.lines, NewLine(lib, s.lastHash, e));
    NewRecordParses(lib, s.lastHash, e);
    LastHashIsNew(lib, Contents(lib, s.lines));
  }

  lemma LastHashIsNew(lib: Library, rs: seq<Record>)
    requires Lawful(lib) && Chained(lib, rs) && rs != []
    ensures LastHash(rs[..|rs| - 1]) != LastHash(rs)
  {
    HashesDistinct(lib, rs, |rs| - 1, |rs|);
    assert rs[..|rs|] == rs;
  }

  lemma TornIsRejected(lib: Library, s: SinkState, e: string, written: nat)
    requires Lawful(lib) && Delimited(lib) && lib.compactJSON(e) && written > 0
    ensures !Accepted(lib, s.lines + [Part(NewLine(lib, s.lastHash, e), written)])
  {
    var line := NewLine(lib, s.lastHash, e);
    LineIsLong(lib, NewRecord(lib, s.lastHash, e));
    var n := if written < |line| then written else |line| - 1;
    assert Parse(lib, line[..n]).None?;
    UnreadableIsRejected(lib, s.lines, line[..n]);
  }

  /** The scanner can read the line that the event becomes behind the carried hash. */
  predicate LineFits(lib: Library, lastHash: string, event: string) {
    ByteLength(NewLine(lib, lastHash, event)) < MAX_SCAN_TOKEN_SIZE
  }

  ghost predicate LinesFit(lib: Library, s: SinkState, steps: seq<SinkStep>) {
    steps != [] ==>
      var front, last := steps[..|steps| - 1], steps[|steps| - 1];
      && LinesFit(lib, s, front)
      && (last.Appends() ==> LineFits(lib, AfterSteps(lib, s, front).lastHash, last.event))
  }

  lemma StaysRejected(lib: Library, s: SinkState, step: SinkStep)
    requires Lawful(lib) && Delimited(lib) && Remnant(lib, s.tail) && !Accepted(lib, s.File())
    requires !step.Reopened? ==> lib.compactJSON(step.event)
    ensures !Accepted(lib, AfterStep(lib, s, step).File())
  {
    FileAfter(lib, s, step);
    WrittenBegins(lib, s.lastHash, step);
    if !step.Appends() && !step.Tears() {
      assert s.tail + "" == s.tail;
    } else if s.tail != "" {
      BehindTail(lib, s, step);
    } else if Accepted(lib, AfterStep(lib, s, step).File()) {
      AcceptedShorter(lib, s.lines, s.tail + Written(lib, s.lastHash, step));
    }
  }

  lemma OneStep(lib: Library, s: SinkState, step: SinkStep, dirty: bool)
    requires Lawful(lib) && Delimited(lib) && Remnant(lib, s.tail) && InStep(lib, s, dirty)
    requires !step.Reopened? ==> lib.compactJSON(step.event)
    ensures
      Accepted(lib, AfterStep(lib, s, step).File())
      <==> !step.Tears() && (step.Appends() ==> !dirty && s.tail == "" && LineFits(lib, s.lastHash, step.event))
    ensures
      var s' := AfterStep(lib, s, step);
      Accepted(lib, s'.File()) ==>
        && InStep(lib, s', step.Unsynced? || step.Unbroken? || (!step.Reopened? && dirty))
        && (s'.tail == "" <==> s.tail == "" && !step.Unbroken?)
        && Contents(lib, s'.File()) ==
             Contents(lib, s.File()) + if step.Appends() then [NewRecord(lib, s.lastHash, step.event)] else []
  {
    if s.tail != "" && (step.Appends() || step.Tears()) {
      BehindTail(lib, s, step);
    } else if step.Appends() {
      AppendStep(lib, s, step, dirty);
    } else if step.Tears() {
      FileAfter(lib, s, step);
      WrittenBegins(lib, s.lastHash, step);
      TornIsRejected(lib, s, step.event, step.written);
      assert "" + Written(lib, s.lastHash, step) == Written(lib, s.lastHash, step);
    } else {
      IdleStep(lib, s, step);
    }
  }

  lemma IdleStep(lib: Library, s: SinkState, step: SinkStep)
    requires !step.Appends() && !step.Tears()
    ensures
      AfterStep(lib, s, step) ==
      if step.Reopened? && Accepted(lib, s.File()) then s.(lastHash := LastHash(Contents(lib, s.File()))) else s
  {
    assert s.tail + "" == s.tail;
  }

  lemma AppendedFile(lib: Library, s: SinkState, step: SinkStep)
    requires s.tail == "" && step.Appends() && lib.compactJSON(step.event)
    ensures
      var s' := AfterStep(lib, s, step);
      && s'.File() == s.lines + [NewLine(lib, s.lastHash, step.event)]
      && s'.lastHash == (if step.Wrote? then NewRecord(lib, s.lastHash, step.event).hash else s.lastHash)
      && (s'.tail == "" <==> !step.Unbroken?)
  {
    FileAfter(lib, s, step);
    WrittenBegins(lib, s.lastHash, step);
    assert "" + Written(lib, s.lastHash, step) == NewLine(lib, s.lastHash, step.event);
  }

  lemma AppendStep(lib: Library, s: SinkState, step: SinkStep, dirty: bool)
    requires Lawful(lib) && s.tail == "" && InStep(lib, s, dirty)
    requires step.Appends() && lib.compactJSON(step.event)
    ensures Accepted(lib, AfterStep(lib, s, step).File()) <==> !dirty && LineFits(lib, s.lastHash, step.event)
    ensures
      var s' := AfterStep(lib, s, step);
      Accepted(lib, s'.File()) ==>
        && InStep(lib, s', step.Unsynced? || step.Unbroken?)
        && Contents(lib, s'.File()) == Contents(lib, s.File()) + [NewRecord(lib, s.lastHash, step.event)]
        && (s'.tail == "" <==> !step.Unbroken?)
  {
    AppendedFile(lib, s, step);
    if dirty {
      AppendDirty(lib, s, step.event);
    } else {
      AppendInStep(lib, s, step.event);
      var r, rs := NewRecord(lib, s.lastHash, step.event), Contents(lib, s.lines);
      assert (rs + [r])[..|rs|] == rs;
    }
  }

  /** What an accepted log holds and how the sink stands to it, `n` records after `s`. */
  ghost predicate Follows(lib: Library, s: SinkState, s': SinkState, n: nat, dirty: bool, hanging: bool)
    requires Accepted(lib, s.File())
  {
    && InStep(lib, s', dirty) && (s'.tail == "" <==> !hanging)
    && |Contents(lib, s'.File())| == |Contents(lib, s.File())| + n
    && Contents(lib, s.File()) <= Contents(lib, s'.File())
  }

  lemma StepFollows(lib: Library, s: SinkState, mid: SinkState, step: SinkStep, n: nat, dirty: bool, hanging: bool)
    requires Lawful(lib) && Delimited(lib) && Accepted(lib, s.File())
    requires Follows(lib, s, mid, n, dirty, hanging) && Remnant(lib, mid.tail)
    requires !step.Reopened? ==> lib.compactJSON(step.event)
    ensures
      Accepted(lib, AfterStep(lib, mid, step).File())
      <==> !step.Tears() && (step.Appends() ==> !dirty && !hanging && LineFits(lib, mid.lastHash, step.event))
    ensures
      Accepted(lib, AfterStep(lib, mid, step).File()) ==>
        Follows(lib, s, AfterStep(lib, mid, step), if step.Appends() then n + 1 else n,
                step.Unsynced? || step.Unbroken? || (!step.Reopened? && dirty), step.Unbroken? || hanging)
  {
    OneStep(lib, mid, step, dirty);
  }

  lemma {:induction false} RemnantStays(lib: Library, s: SinkState, steps: seq<SinkStep>)
    requires Lawful(lib) && Delimited(lib) && s.tail == "" && ValidEvents(lib, steps)
    ensures Remnant(lib, AfterSteps(lib, s, steps).tail)
  {
    if steps == [] {
      NothingRemains(lib);
    } else {
      RemnantStays(lib, s, steps[..|steps| - 1]);
      BehindTail(lib, AfterSteps(lib, s, steps[..|steps| - 1]), steps[|steps| - 1]);
    }
  }

  /**
   The log of a sink that started in step with an accepted file of whole lines verifies exactly when each
   appended event fits into a line, no write stopped inside a record, nothing was appended behind an
   unsynced line before the file was opened again, and nothing ever behind a line without its break; the
   number of records and the carried hash are then as they should be.
   */
  lemma {:induction false} LogVerifiesIff(lib: Library, s: SinkState, steps: seq<SinkStep>)
    requires Lawful(lib) && Delimited(lib) && s.tail == "" && InStep(lib, s, false) && ValidEvents(lib, steps)
    ensures Accepted(lib, AfterSteps(lib, s, steps).File()) <==> LinesFit(lib, s, steps) && Careful(steps)
    ensures
      Accepted(lib, AfterSteps(lib, s, steps).File()) ==>
        Follows(lib, s, AfterSteps(lib, s, steps), Appended(steps), Dirty(steps), Hanging(steps))
  {
    if steps != [] {
      var front, step := steps[..|steps| - 1], steps[|steps| - 1];
      LogVerifiesIff(lib, s, front);
      RemnantStays(lib, s, front);
      var mid := AfterSteps(lib, s, front);
      if !Accepted(lib, mid.File()) {
        StaysRejected(lib, mid, step);
      } else {
        StepFollows(lib, s, mid, step, Appended(front), Dirty(front), Hanging(front));
      }
    }
  }

  // What fits, in bytes of the events

  /** A hash in hexadecimal digits, as JSON text. */
  const QUOTED_HASH: nat := 66

  /** What is left for the event in a line beside keys, punctuation, and the two hashes. */
  const MAX_EVENT: nat := 65372
  const MAX_FIRST_EVENT: nat := 65436

  predicate QuotesAsHash(lib: Library, hash: string) {
    ByteLength(lib.quote(hash)) == if hash == "" then 2 else QUOTED_HASH
  }

  /** The hashes of the run have their usual length: the carried one, and that of each appended record. */
  ghost predicate HexHashes(lib: Library, s: SinkState, steps: seq<SinkStep>) {
    if steps == [] then QuotesAsHash(lib, s.lastHash)
    else
      var front, last := steps[..|steps| - 1], steps[|steps| - 1];
      && HexHashes(lib, s, front)
      && (last.Appends() ==> QuotesAsHash(lib, NewRecord(lib, AfterSteps(lib, s, front).lastHash, last.event).hash))
  }

  /** No appended event is too long; the very first record of a log has room for some bytes more. */
  predicate EventsFit(empty: bool, steps: seq<SinkStep>)
    decreases steps
  {
    steps != [] ==>
      var front, last := steps[..|steps| - 1], steps[|steps| - 1];
      && EventsFit(empty, front)
      && (last.Appends() ==>
            ByteLength(last.event) <= if empty && Appended(front) == 0 then MAX_FIRST_EVENT else MAX_EVENT)
  }

  lemma PiecesLength(a: string, event: string, b: string, prev: string, c: string, hash: string, d: string)
    ensures
      ByteLength(a + event + b + prev + c + hash + d)
      == ByteLength(a) + ByteLength(event) + ByteLength(b) + ByteLength(prev) + ByteLength(c) + ByteLength(hash) + ByteLength(d)
  {
    ByteLengthAppend(a, event);
    ByteLengthAppend(a + event, b);
    ByteLengthAppend(a + event + b, prev);
    ByteLengthAppend(a + event + b + prev, c);
    ByteLengthAppend(a + event + b + prev + c, hash);
    ByteLengthAppend(a + event + b + prev + c + hash, d);
  }

  lemma EventKeyLength()
    ensures ByteLength("{\"event\":") == 9
  {
    AsciiByteLength("{\"event\":");
  }

  lemma PrevHashKeyLength()
    ensures ByteLength(",\"prev_hash\":") == 13
  {
    AsciiByteLength(",\"prev_hash\":");
  }

  lemma HashKeyLength()
    ensures ByteLength(",\"hash\":") == 8
  {
    AsciiByteLength(",\"hash\":");
  }

  lemma LineLength(lib: Library, event: string, prevHash: string, hash: string)
    ensures
      ByteLength(FormatStoredLine(lib, event, prevHash, hash))
      == 31 + ByteLength(event) + ByteLength(lib.quote(prevHash)) + ByteLength(lib.quote(hash))
  {
    EventKeyLength();
    PrevHashKeyLength();
    HashKeyLength();
    PiecesLength("{\"event\":", event, ",\"prev_hash\":", lib.quote(prevHash), ",\"hash\":", lib.quote(hash), "}");
  }

  /** How long an event may be for its line to fit. */
  lemma LineFitsIff(lib: Library, lastHash: string, event: string)
    requires Lawful(lib) && QuotesAsHash(lib, lastHash) && QuotesAsHash(lib, NewRecord(lib, lastHash, event).hash)
    ensures LineFits(lib, lastHash, event) <==> ByteLength(event) <= if lastHash == "" then MAX_FIRST_EVENT else MAX_EVENT
  {
    LineLength(lib, event, lastHash, NewRecord(lib, lastHash, event).hash);
  }

  /** The hashes at the end of a log have their usual length, and there is none exactly when it is empty. */
  ghost predicate HashesInUse(lib: Library, s: SinkState, empty: bool)
    requires Accepted(lib, s.File())
  {
    && QuotesAsHash(lib, s.lastHash) && QuotesAsHash(lib, LastHash(Contents(lib, s.File())))
    && (LastHash(Contents(lib, s.File())) == "" <==> empty)
  }

  lemma StepKeepsHashes(lib: Library, s: SinkState, step: SinkStep, dirty: bool, empty: bool)
    requires Lawful(lib) && Delimited(lib) && Remnant(lib, s.tail) && InStep(lib, s, dirty)
    requires !step.Reopened? ==> lib.compactJSON(step.event)
    requires HashesInUse(lib, s, empty)
    requires step.Appends() ==> QuotesAsHash(lib, NewRecord(lib, s.lastHash, step.event).hash)
    requires Accepted(lib, AfterStep(lib, s, step).File())
    ensures HashesInUse(lib, AfterStep(lib, s, step), empty && !step.Appends())
  {
    OneStep(lib, s, step, dirty);
    if step.Appends() {
      NewHash(lib, Contents(lib, s.File()), s.lastHash, step.event);
    } else {
      IdleStep(lib, s, step);
    }
  }

  lemma NewHash(lib: Library, rs: seq<Record>, lastHash: string, e: string)
    requires Lawful(lib)
    ensures var r := NewRecord(lib, lastHash, e); LastHash(rs + [r]) == r.hash && r.hash != ""
  {
  }

  lemma {:induction false} LinesFitIff(lib: Library, s: SinkState, steps: seq<SinkStep>)
    requires Lawful(lib) && Delimited(lib) && s.tail == "" && InStep(lib, s, false) && ValidEvents(lib, steps)
    requires HexHashes(lib, s, steps) && Careful(steps)
    ensures LinesFit(lib, s, steps) <==> EventsFit(s.lastHash == "", steps)
    ensures
      Accepted(lib, AfterSteps(lib, s, steps).File()) ==>
        HashesInUse(lib, AfterSteps(lib, s, steps), s.lastHash == "" && Appended(steps) == 0)
  {
    if steps != [] {
      var front, step := steps[..|steps| - 1], steps[|steps| - 1];
      LinesFitIff(lib, s, front);
      LogVerifiesIff(lib, s, front);
      RemnantStays(lib, s, front);
      var mid, empty := AfterSteps(lib, s, front), s.lastHash == "" && Appended(front) == 0;
      if !Accepted(lib, mid.File()) {
        StaysRejected(lib, mid, step);
      } else {
        if step.Appends() {
          LineFitsIff(lib, mid.lastHash, step.event);
        }
        if Accepted(lib, AfterStep(lib, mid, step).File()) {
          StepKeepsHashes(lib, mid, step, Dirty(front), empty);
        }
      }
    }
  }

  /** The same in terms of the steps alone: how many bytes each appended event may have, and when it may be appended. */
  lemma LogVerifiesIffEventsFit(lib: Library, s: SinkState, steps: seq<SinkStep>)
    requires Lawful(lib) && Delimited(lib) && s.tail == "" && InStep(lib, s, false) && ValidEvents(lib, steps) && HexHashes(lib, s, steps)
    ensures Accepted(lib, AfterSteps(lib, s, steps).File()) <==> EventsFit(s.lastHash == "", steps) && Careful(steps)
  {
    LogVerifiesIff(lib, s, steps);
    if Careful(steps) {
      LinesFitIff(lib, s, steps);
    }
  }

  /** Without failures, any number of writes and reopenings keeps the log verifiable and the sink in step. */
  lemma SuccessfulWritesVerify(lib: Library, s: SinkState, steps: seq<SinkStep>)
    requires Lawful(lib) && Delimited(lib) && s.tail == "" && InStep(lib, s, false) && ValidEvents(lib, steps)
    requires forall i | 0 <= i < |steps| :: steps[i].Wrote? || steps[i].Reopened?
    requires LinesFit(lib, s, steps)
    ensures
      var s' := AfterSteps(lib, s, steps);
      && Accepted(lib, s'.File())
      && LastHash(Contents(lib, s'.File())) == s'.lastHash
      && |Contents(lib, s'.File())| == |Contents(lib, s.File())| + Appended(steps)
  {
    NeverDirty(steps);
    LogVerifiesIff(lib, s, steps);
  }

  lemma {:induction false} NeverDirty(steps: seq<SinkStep>)
    requires forall i | 0 <= i < |steps| :: steps[i].Wrote? || steps[i].Reopened?
    ensures !Dirty(steps) && !Hanging(steps) && Careful(steps)
  {
    if steps != [] {
      NeverDirty(steps[..|steps| - 1]);
    }
  }
}

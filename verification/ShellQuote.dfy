/**
 Writing and reading one export line of the workspace env file: `shellQuote` and `setupExportName`
 of `cmd/promptlock/setup.go`, and the parser of `cmd/promptlock/workspace_setup_autodetect.go`.
 */
module ShellQuote {
  import opened Prelude
  import opened Text

  /** `strings.ReplaceAll`: leftmost occurrences, not overlapping. */
  function ReplaceAll(s: string, target: string, replacement: string): string
    requires target != ""
  {
    if s == "" then ""
    else if HasPrefix(s, target) then replacement + ReplaceAll(s[|target|..], target, replacement)
    else [s[0]] + ReplaceAll(s[1..], target, replacement)
  }

  const QUOTE: string := "'"
  /** How a single quote is written inside single quotes: end, escaped quote, start again. */
  const ESCAPED_QUOTE: string := "'\\''"

  function Quote(v: string): string {
    QUOTE + ReplaceAll(v, QUOTE, ESCAPED_QUOTE) + QUOTE
  }

  const EXPORT: string := "export "

  function SetupExportName(line: string): Option<string> {
    var trimmed := TrimSpace(line);
    if !HasPrefix(trimmed, EXPORT) then None
    else
      match Cut(TrimPrefix(trimmed, EXPORT), '=')
      case None => None
      case Some((name, _)) => Some(TrimSpace(name))
  }

  function ParseSetupExportValue(raw: string): Option<string> {
    var trimmed := TrimSpace(raw);
    if trimmed == "" then Some("")
    else if HasPrefix(trimmed, QUOTE) && HasSuffix(trimmed, QUOTE) && |trimmed| >= 2 then
      Some(ReplaceAll(trimmed[1..|trimmed| - 1], ESCAPED_QUOTE, QUOTE))
    else if HasPrefix(trimmed, "\"") && HasSuffix(trimmed, "\"") && |trimmed| >= 2 then
      var inner := trimmed[1..|trimmed| - 1];
      if Contains(inner, "${") then None else Some(inner)
    else if '$' in trimmed || '`' in trimmed then None
    else Some(trimmed)
  }

  function ParseSetupExportLine(line: string): Option<(string, string)> {
    match SetupExportName(TrimSpace(line))
    case None => None
    case Some(name) =>
      match Cut(TrimPrefix(TrimSpace(line), EXPORT), '=')
      case None => None
      case Some((_, raw)) =>
        match ParseSetupExportValue(raw)
        case None => None
        case Some(value) => Some((name, value))
  }

  function ExportLine(name: string, value: string): string {
    EXPORT + name + "=" + value
  }

  lemma {:induction false} TrimRightAppend(a: string, b: string)
    requires a != "" && !IsSpace(a[|a| - 1])
    ensures TrimRight(a + b) == a + TrimRight(b)
  {
    if b != "" {
      assert (a + b)[|a + b| - 1] == b[|b| - 1];
      if IsSpace(b[|b| - 1]) {
        assert (a + b)[..|a + b| - 1] == a + b[..|b| - 1];
        TrimRightAppend(a, b[..|b| - 1]);
      }
    } else {
      assert a + b == a;
    }
  }

  /** Trimming an export line only trims its value at the end. */
  lemma TrimExportLine(name: string, value: string)
    ensures TrimSpace(ExportLine(name, value)) == ExportLine(name, TrimRight(value))
  {
    var front := EXPORT + name + "=";
    assert front[0] == 'e' && front[|front| - 1] == '=';
    assert ExportLine(name, value) == front + value;
    TrimRightAppend(front, value);
  }

  lemma CutExportLine(name: string, value: string)
    requires '=' !in name
    ensures HasPrefix(ExportLine(name, value), EXPORT)
    ensures Cut(TrimPrefix(ExportLine(name, value), EXPORT), '=') == Some((name, value))
  {
    var line := ExportLine(name, value);
    assert line == EXPORT + (name + ['='] + value);
    assert line[..|EXPORT|] == EXPORT;
    assert line[|EXPORT|..] == name + ['='] + value;
    CutAt(name, '=', value);
  }

  lemma NameOfExportLine(name: string, value: string)
    requires Trimmed(name) && '=' !in name
    ensures SetupExportName(ExportLine(name, value)) == Some(name)
    ensures SetupExportName(TrimSpace(ExportLine(name, value))) == Some(name)
  {
    TrimExportLine(name, value);
    TrimSpaceIsTrimmed(ExportLine(name, value));
    CutExportLine(name, TrimRight(value));
    TrimSpaceIsTrimmed(name);
  }

  /** The name of any line is what stands, trimmed, between `export ` and the first equals sign; no other line has one. */
  lemma NameIff(line: string, name: string)
    ensures
      SetupExportName(line) == Some(name)
      <==> exists before, after :: TrimSpace(line) == EXPORT + before + "=" + after && '=' !in before && TrimSpace(before) == name
  {
    var trimmed := TrimSpace(line);
    if SetupExportName(line) == Some(name) {
      var (before, after) := Cut(TrimPrefix(trimmed, EXPORT), '=').value;
      assert trimmed == EXPORT + TrimPrefix(trimmed, EXPORT);
      assert trimmed == EXPORT + before + "=" + after;
    }
    forall before, after | trimmed == EXPORT + before + "=" + after && '=' !in before
      ensures SetupExportName(line) == Some(TrimSpace(before))
    {
      CutExportLine(before, after);
    }
  }

  lemma {:induction false} UnquoteQuoted(v: string)
    ensures ReplaceAll(ReplaceAll(v, QUOTE, ESCAPED_QUOTE), ESCAPED_QUOTE, QUOTE) == v
  {
    if v != "" {
      var rest := ReplaceAll(v[1..], QUOTE, ESCAPED_QUOTE);
      UnquoteQuoted(v[1..]);
      if v[0] == '\'' {
        assert v == QUOTE + v[1..];
        assert HasPrefix(v, QUOTE);
        assert (ESCAPED_QUOTE + rest)[|ESCAPED_QUOTE|..] == rest;
        assert HasPrefix(ESCAPED_QUOTE + rest, ESCAPED_QUOTE);
      } else {
        assert ([v[0]] + rest)[1..] == rest;
        assert !HasPrefix(v, QUOTE);
        assert !HasPrefix([v[0]] + rest, ESCAPED_QUOTE);
        assert v == [v[0]] + v[1..];
      }
    }
  }

  lemma QuoteEnds(v: string)
    ensures |Quote(v)| >= 2 && HasPrefix(Quote(v), QUOTE) && HasSuffix(Quote(v), QUOTE)
    ensures Quote(v)[1..|Quote(v)| - 1] == ReplaceAll(v, QUOTE, ESCAPED_QUOTE)
    ensures Trimmed(Quote(v)) && TrimSpace(Quote(v)) == Quote(v) && TrimRight(Quote(v)) == Quote(v)
  {
  }

  /** Reading an export line reads its name and, separately, its value. */
  lemma ParseExportLine(name: string, value: string)
    requires Trimmed(name) && '=' !in name && TrimRight(value) == value
    ensures ParseSetupExportLine(ExportLine(name, value))
         == match ParseSetupExportValue(value)
            case None => None
            case Some(v) => Some((name, v))
  {
    TrimExportLine(name, value);
    NameOfExportLine(name, value);
    CutExportLine(name, value);
  }

  /** Reading undoes writing, for every name that can be written and every value at all. */
  lemma ParseUndoesQuote(name: string, v: string)
    requires Trimmed(name) && '=' !in name
    ensures ParseSetupExportLine(ExportLine(name, Quote(v))) == Some((name, v))
  {
    QuoteEnds(v);
    ParseExportLine(name, Quote(v));
    UnquoteQuoted(v);
  }

  /** Quotes of one kind at both ends. */
  predicate QuotedBy(value: string, quote: char) {
    |value| >= 2 && value[0] == quote && value[|value| - 1] == quote
  }

  /** A value without quotes around it is read as it is, unless the shell would expand something in it. */
  lemma ParseUnquoted(name: string, value: string)
    requires Trimmed(name) && '=' !in name && Trimmed(value) && !QuotedBy(value, '\'') && !QuotedBy(value, '"')
    ensures ParseSetupExportLine(ExportLine(name, value))
         == if '$' in value || '`' in value then None else Some((name, value))
  {
    TrimSpaceIsTrimmed(value);
    assert TrimRight(value) == value;
    ParseExportLine(name, value);
    EndsWithQuote(value, QUOTE, '\'');
    EndsWithQuote(value, "\"", '"');
  }

  lemma EndsWithQuote(value: string, quote: string, c: char)
    requires quote == [c]
    ensures HasPrefix(value, quote) && HasSuffix(value, quote) && |value| >= 2 <==> QuotedBy(value, c)
  {
  }

  function DoubleQuoted(inner: string): string {
    "\"" + inner + "\""
  }

  /** A double-quoted value is read literally, except that one with a shell reference is not read. */
  lemma ParseDoubleQuoted(name: string, inner: string)
    requires Trimmed(name) && '=' !in name
    ensures ParseSetupExportLine(ExportLine(name, DoubleQuoted(inner)))
         == if Contains(inner, "${") then None else Some((name, inner))
  {
    var value := DoubleQuoted(inner);
    assert value[0] == '"' && value[|value| - 1] == '"' && value[1..|value| - 1] == inner;
    TrimSpaceIsTrimmed(value);
    assert TrimRight(value) == value;
    ParseExportLine(name, value);
  }
}

/** The CSV text the master-data screen reads (`parseCSV`) and writes
    (`exportToCSV` with its `escapeCSVValue`), components/MasterData.tsx.

    The tokenizer is specified by `Run`, a scanner over the unread suffix of
    the text. `Scan.lineStart` stands for the source's look-behind
    `i > 0 && text[i-1]` is not a line break: it is true before the first
    character and after a `\n` or `\r`. */
module CsvCodec {
  import opened Common

  /** The byte-order mark the exporter puts in front of the text. */
  const Bom: char := '\U{FEFF}'

  /** The white space and line terminators that String.prototype.trim removes
      (ECMAScript WhiteSpace and LineTerminator, including U+FEFF). */
  predicate IsSpace(c: char) {
    c == '\t' || c == '\n' || c == '\U{B}' || c == '\U{C}' || c == '\r' || c == ' '
    || c == '\U{A0}' || c == '\U{1680}' || ('\U{2000}' <= c <= '\U{200A}')
    || c == '\U{2028}' || c == '\U{2029}' || c == '\U{202F}' || c == '\U{205F}'
    || c == '\U{3000}' || c == Bom
  }

  /** Neither end of `s` is white space. */
  predicate Trimmed(s: string) {
    s == [] || (!IsSpace(s[0]) && !IsSpace(s[|s| - 1]))
  }

  /** Every character of `t` is white space. */
  predicate AllSpace(t: string) {
    forall k :: 0 <= k < |t| ==> IsSpace(t[k])
  }

  /** String.prototype.trim: the result has no white space at either end and
      a string without any is returned unchanged. */
  function Trim(s: string): (r: string)
    ensures |r| <= |s|
    ensures Trimmed(r)
    ensures Trimmed(s) ==> r == s
    decreases |s|
  {
    if s != [] && IsSpace(s[0]) then Trim(s[1..])
    else if s != [] && IsSpace(s[|s| - 1]) then Trim(s[..|s| - 1])
    else s
  }

  /** Trimming removes white space at the two ends of `s` and nothing else:
      the result is a slice of `s` with only white space before and after it. */
  lemma {:induction false} TrimStripsEnds(s: string)
    ensures exists i, j :: 0 <= i <= j <= |s| && Trim(s) == s[i..j] && AllSpace(s[..i]) && AllSpace(s[j..])
    decreases |s|
  {
    var i, j := TrimBounds(s);
  }

  /** The bounds of the slice `Trim(s)` within `s`. */
  lemma {:induction false} TrimBounds(s: string) returns (i: nat, j: nat)
    ensures i <= j <= |s| && Trim(s) == s[i..j] && AllSpace(s[..i]) && AllSpace(s[j..])
    decreases |s|
  {
    if s != [] && IsSpace(s[0]) {
      var i1, j1 := TrimBounds(s[1..]);
      i, j := i1 + 1, j1 + 1;
      SpaceInFront(s, i1, j1);
    } else if s != [] && IsSpace(s[|s| - 1]) {
      i, j := TrimBounds(s[..|s| - 1]);
      SpaceAtBack(s, i, j);
    } else {
      i, j := 0, |s|;
      assert s[..0] == [] && s[|s|..] == [];
    }
  }

  /** Bounds within `s[1..]` shift by one when `s` starts with white space. */
  lemma SpaceInFront(s: string, i: nat, j: nat)
    requires s != [] && IsSpace(s[0]) && i <= j <= |s| - 1
    requires AllSpace(s[1..][..i]) && AllSpace(s[1..][j..])
    ensures s[1..][i..j] == s[i + 1..j + 1] && AllSpace(s[..i + 1]) && AllSpace(s[j + 1..])
  {
    assert s[..i + 1] == [s[0]] + s[1..][..i];
    assert s[j + 1..] == s[1..][j..];
  }

  /** Bounds within `s[..|s| - 1]` stay when `s` ends with white space. */
  lemma SpaceAtBack(s: string, i: nat, j: nat)
    requires s != [] && IsSpace(s[|s| - 1]) && i <= j <= |s| - 1
    requires AllSpace(s[..|s| - 1][..i]) && AllSpace(s[..|s| - 1][j..])
    ensures s[..|s| - 1][i..j] == s[i..j] && AllSpace(s[..i]) && AllSpace(s[j..])
  {
    var n := |s| - 1;
    assert s[..i] == s[..n][..i];
    assert s[j..] == s[..n][j..] + [s[n]];
  }

  /** Trimming also drops a byte-order mark in front of a trimmed field. */
  lemma {:induction false} TrimAfterMark(v: string, f: string)
    requires v == [] || v == [Bom]
    requires Trimmed(f)
    ensures Trim(v + f) == f
  {
    if v == [Bom] {
      assert (v + f)[1..] == f;
      assert (v + f)[0] == Bom;
    } else {
      assert v + f == f;
    }
  }

  // ---------------------------------------------------------------------
  // Tokenizer (parseCSV)
  // ---------------------------------------------------------------------

  predicate IsBreak(c: char) {
    c == '\n' || c == '\r'
  }

  /** Where the tokenizer stands with respect to quoting. `Closing` is the
      position right after a quote read inside quotes: a second quote makes
      the pair `""` (one literal quote, still inside), anything else is read
      as outside quotes. */
  datatype Quote = Outside | Inside | Closing

  /** The tokenizer's variables: finished rows, the fields of the current
      line, the current field, the quoting state, and whether the last
      character read was a line break (or nothing was read yet). */
  datatype Scan = Scan(rows: seq<seq<string>>, line: seq<string>, value: string, quote: Quote, lineStart: bool)

  const Start := Scan([], [], "", Outside, true)

  /** A line break outside quotes: it ends the current row, unless the
      previous character was a line break or there was none. */
  function EndLine(st: Scan): Scan {
    if st.lineStart then st
    else st.(rows := st.rows + [st.line + [Trim(st.value)]], line := [], value := "", lineStart := true)
  }

  /** A character read outside quotes: a quote opens quoting, a comma ends the
      field (trimmed), a line break ends the row, anything else is kept. */
  function Plain(c: char, st: Scan): Scan {
    if c == '"' then st.(quote := Inside, lineStart := false)
    else if c == ',' then st.(line := st.line + [Trim(st.value)], value := "", lineStart := false)
    else if IsBreak(c) then EndLine(st)
    else st.(value := st.value + [c], lineStart := false)
  }

  /** One character. Inside quotes every character but the quote is kept,
      line breaks included. A CRLF pair needs no case of its own: after `\r`
      the state is at a line start, where `\n` changes nothing. */
  function Step(c: char, st: Scan): Scan {
    match st.quote
    case Inside =>
      if c == '"' then st.(quote := Closing, lineStart := false)
      else st.(value := st.value + [c], lineStart := IsBreak(c))
    case Closing =>
      if c == '"' then st.(quote := Inside, value := st.value + ['"'], lineStart := false)
      else Plain(c, st.(quote := Outside))
    case Outside => Plain(c, st)
  }

  /** The state after reading all of `s`. */
  function Run(s: string, st: Scan): Scan
    decreases |s|
  {
    if s == [] then st else Run(s[1..], Step(s[0], st))
  }

  /** After the loop: a pending field or line becomes the last row. */
  function Finish(st: Scan): seq<seq<string>> {
    if st.value != "" || |st.line| > 0 then st.rows + [st.line + [Trim(st.value)]] else st.rows
  }

  /** The rows `parseCSV` keeps: more than one field, or one non-empty field. */
  predicate NonBlank(row: seq<string>) {
    |row| > 1 || (|row| == 1 && row[0] != "")
  }

  /** What `parseCSV(text)` returns. */
  function Parse(text: string): seq<seq<string>> {
    Keep(Finish(Run(text, Start)), NonBlank)
  }

  /** Reading `a + b` is reading `a`, then `b`. */
  lemma {:induction false} RunAppend(a: string, b: string, st: Scan)
    ensures Run(a + b, st) == Run(b, Run(a, st))
    decreases |a|
  {
    if a == [] {
      assert a + b == b;
    } else {
      assert (a + b)[1..] == a[1..] + b;
      RunAppend(a[1..], b, Step(a[0], st));
    }
  }

  lemma RunOne(c: char, st: Scan)
    ensures Run([c], st) == Step(c, st)
  {
    assert [c][1..] == [];
  }

  lemma RunAt(text: string, i: nat, st: Scan)
    requires i < |text|
    ensures Run(text[i..], st) == Run(text[i + 1..], Step(text[i], st))
  {
    assert text[i..][1..] == text[i + 1..];
  }

  /** The quoting state the loop's `inQuotes` stands for. */
  function Mode(inQuotes: bool, closing: bool): Quote {
    if inQuotes then Inside else if closing then Closing else Outside
  }

  /** One turn of `parseCSV`'s loop: reads the character at `i`, and the one
      after it too when the two are `""` inside quotes or a CRLF pair. */
  method ReadChar(text: string, i: nat, result: seq<seq<string>>, currentLine: seq<string>, value: string,
                  inQuotes: bool, ghost closing: bool)
    returns (next: nat, result': seq<seq<string>>, currentLine': seq<string>, value': string,
             inQuotes': bool, ghost closing': bool)
    requires i < |text|
    requires closing ==> !inQuotes && text[i] != '"'
    ensures i < next <= |text|
    ensures closing' ==> !inQuotes' && (next < |text| ==> text[next] != '"')
    ensures Run(text[next..], Scan(result', currentLine', value', Mode(inQuotes', closing'), IsBreak(text[next - 1])))
         == Run(text[i..], Scan(result, currentLine, value, Mode(inQuotes, closing), i == 0 || IsBreak(text[i - 1])))
  {
    ghost var st := Scan(result, currentLine, value, Mode(inQuotes, closing), i == 0 || IsBreak(text[i - 1]));
    RunAt(text, i, st);
    next, result', currentLine', value', inQuotes', closing' := i + 1, result, currentLine, value, inQuotes, false;
    var c := text[i];
    if inQuotes {
      if c == '"' && i + 1 < |text| && text[i + 1] == '"' {
        RunAt(text, i + 1, Step(c, st));
        value' := value + ['"'];
        next := i + 2;
      } else if c == '"' {
        inQuotes' := false;
        closing' := true;
      } else {
        value' := value + [c];
      }
    } else if c == '"' {
      inQuotes' := true;
    } else if c == ',' {
      currentLine' := currentLine + [Trim(value)];
      value' := "";
    } else if c == '\n' || c == '\r' {
      if i > 0 && text[i - 1] != '\n' && text[i - 1] != '\r' {
        result' := result + [currentLine + [Trim(value)]];
        currentLine' := [];
        value' := "";
      }
      if c == '\r' && i + 1 < |text| && text[i + 1] == '\n' {
        RunAt(text, i + 1, Step(c, st));
        next := i + 2;
      }
    } else {
      value' := value + [c];
    }
  }

  /** `parseCSV`: the character loop, then the pending line, then the
      blank-row filter. */
  method ParseCsv(text: string) returns (rows: seq<seq<string>>)
    ensures rows == Parse(text)
  {
    var result: seq<seq<string>> := [];
    var currentLine: seq<string> := [];
    var inQuotes := false;
    ghost var closing := false;
    var value := "";
    var i := 0;
    while i < |text|
      invariant 0 <= i <= |text|
      invariant closing ==> !inQuotes && (i < |text| ==> text[i] != '"')
      invariant Run(text[i..], Scan(result, currentLine, value, Mode(inQuotes, closing), i == 0 || IsBreak(text[i - 1]))) == Run(text, Start)
    {
      i, result, currentLine, value, inQuotes, closing := ReadChar(text, i, result, currentLine, value, inQuotes, closing);
    }
    if value != "" || |currentLine| > 0 {
      currentLine := currentLine + [Trim(value)];
      result := result + [currentLine];
    }
    rows := Keep(result, NonBlank);
  }

  /** Every field stored so far is trimmed. */
  ghost predicate Clean(st: Scan) {
    (forall row, f :: row in st.rows && f in row ==> Trimmed(f))
    && (forall f :: f in st.line ==> Trimmed(f))
  }

  lemma {:induction false} RunKeepsClean(s: string, st: Scan)
    requires Clean(st)
    ensures Clean(Run(s, st))
    decreases |s|
  {
    if s != [] {
      var next := Step(s[0], st);
      assert Clean(next);
      RunKeepsClean(s[1..], next);
    }
  }

  /** The rows `parseCSV` returns: no field has white space at either end,
      and no row is empty or a lone empty field. */
  lemma {:induction false} ParsedRowsClean(text: string)
    ensures forall row :: row in Parse(text) ==> NonBlank(row) && forall f :: f in row ==> Trimmed(f)
  {
    RunKeepsClean(text, Start);
  }

  /** Line breaks outside quotes end at most one row: a CRLF pair, or any
      run of breaks, does what a single break does. */
  lemma {:induction false} BreaksEndOneRow(b: string, st: Scan)
    requires |b| >= 1 && forall i :: 0 <= i < |b| ==> IsBreak(b[i])
    requires st.quote == Outside
    ensures Run(b, st) == EndLine(st)
    decreases |b|
  {
    var e := EndLine(st);
    assert Step(b[0], st) == e;
    if |b| > 1 {
      BreaksEndOneRow(b[1..], e);
    }
  }

  /** Line breaks at the very start of the text produce no row. */
  lemma {:induction false} LeadingBreaksIgnored(b: string, rest: string)
    requires |b| >= 1 && forall i :: 0 <= i < |b| ==> IsBreak(b[i])
    ensures Parse(b + rest) == Parse(rest)
  {
    RunAppend(b, rest, Start);
    BreaksEndOneRow(b, Start);
  }

  // ---------------------------------------------------------------------
  // Serialiser (escapeCSVValue and the row assembly of exportToCSV)
  // ---------------------------------------------------------------------

  /** A field value as the screens hold it: a string, or a list of strings
      (the areas of a person). */
  datatype Value = Text(s: string) | Items(items: seq<string>)

  /** `escapeCSVValue`'s conversion of `record[header]` to text: a missing
      value gives '', a list is joined with '; '. */
  function Shown(record: map<string, Value>, header: string): string {
    if header !in record then ""
    else match record[header]
      case Text(s) => s
      case Items(items) => JoinWith(items, "; ")
  }

  predicate NeedsQuotes(v: string) {
    ',' in v || '"' in v || '\n' in v
  }

  /** `v.replace(/"/g, '""')`. */
  function Doubled(v: string): string {
    if v == [] then [] else (if v[0] == '"' then "\"\"" else [v[0]]) + Doubled(v[1..])
  }

  /** `escapeCSVValue` on a string. */
  function Escape(v: string): string {
    if NeedsQuotes(v) then ['"'] + Doubled(v) + ['"'] else v
  }

  function EscapeAll(row: seq<string>): (r: seq<string>)
    ensures |r| == |row|
  {
    if row == [] then [] else [Escape(row[0])] + EscapeAll(row[1..])
  }

  /** One exported line: the escaped fields joined with ','. */
  function RowText(row: seq<string>): string {
    JoinWith(EscapeAll(row), ",")
  }

  function RowTexts(rows: seq<seq<string>>): (r: seq<string>)
    ensures |r| == |rows|
  {
    if rows == [] then [] else [RowText(rows[0])] + RowTexts(rows[1..])
  }

  /** Lines joined with '\n', the row separator of `exportToCSV`. */
  function Lines(rows: seq<seq<string>>): string {
    JoinWith(RowTexts(rows), "\n")
  }

  /** The cell texts of the exported data rows: one row per record, one cell
      per header, in header order. */
  function Cells(data: seq<map<string, Value>>, headers: seq<string>): seq<seq<string>> {
    seq(|data|, k requires 0 <= k < |data| => seq(|headers|, j requires 0 <= j < |headers| => Shown(data[k], headers[j])))
  }

  /** The text `exportToCSV(data, headers)` downloads: a byte-order mark, the
      header line (not escaped), then one escaped line per record. */
  function ExportText(data: seq<map<string, Value>>, headers: seq<string>): string {
    [Bom] + JoinWith([JoinWith(headers, ",")] + RowTexts(Cells(data, headers)), "\n")
  }

  // ---------------------------------------------------------------------
  // Round trip
  // ---------------------------------------------------------------------

  /** Inside quotes, reading the doubled text appends the original text to
      the field: each `""` stands for one quote. */
  lemma {:induction false} DoubledScans(x: string, st: Scan)
    requires st.quote == Inside
    ensures Run(Doubled(x), st).(lineStart := st.lineStart) == st.(value := st.value + x)
    decreases |x|
  {
    if x == [] {
      assert st.value + x == st.value;
    } else {
      var head: string := if x[0] == '"' then "\"\"" else [x[0]];
      RunAppend(head, Doubled(x[1..]), st);
      var st1 := st.(value := st.value + [x[0]], lineStart := x[0] != '"' && IsBreak(x[0]));
      DoubledCharScans(x[0], st);
      DoubledScans(x[1..], st1);
      assert st1.value + x[1..] == st.value + x;
    }
  }

  /** Inside quotes, one character's doubled text appends that character. */
  lemma DoubledCharScans(c: char, st: Scan)
    requires st.quote == Inside
    ensures Run(if c == '"' then "\"\"" else [c], st) == st.(value := st.value + [c], lineStart := c != '"' && IsBreak(c))
  {
    if c == '"' {
      assert Run("\"\"", st) == Run(['"'], Step('"', st));
    }
  }

  lemma {:induction false} PlainScans(f: string, st: Scan)
    requires st.quote == Outside
    requires forall i :: 0 <= i < |f| ==> f[i] != '"' && f[i] != ',' && !IsBreak(f[i])
    ensures Run(f, st) == st.(value := st.value + f, lineStart := st.lineStart && f == [])
    decreases |f|
  {
    if f == [] {
      assert st.value + f == st.value;
    } else {
      var st1 := st.(value := st.value + [f[0]], lineStart := false);
      assert Step(f[0], st) == st1;
      PlainScans(f[1..], st1);
      assert st1.value + f[1..] == st.value + f;
    }
  }

  /** The quoting state an escaped field leaves behind. */
  function QuoteAfter(f: string): Quote {
    if NeedsQuotes(f) then Closing else Outside
  }

  /** A field the exporter writes and the parser reads back unchanged: no
      white space at either end (the parser trims), and no `\r` unless the
      field gets quoted (`escapeCSVValue` does not quote for `\r`, while
      `parseCSV` breaks lines at it). */
  predicate Portable(f: string) {
    Trimmed(f) && (NeedsQuotes(f) || '\r' !in f)
  }

  predicate PortableRow(row: seq<string>) {
    NonBlank(row) && forall f :: f in row ==> Portable(f)
  }

  /** Reading an escaped field appends exactly the field's text: quoting and
      doubling are undone and a plain field is copied. */
  lemma {:induction false} EscapedFieldScans(f: string, st: Scan)
    requires st.quote == Outside
    requires NeedsQuotes(f) || '\r' !in f
    ensures Run(Escape(f), st) == st.(value := st.value + f, quote := QuoteAfter(f), lineStart := st.lineStart && f == [])
  {
    if NeedsQuotes(f) {
      var st1 := st.(quote := Inside, lineStart := false);
      assert Escape(f) == ['"'] + (Doubled(f) + ['"']);
      RunAppend(['"'], Doubled(f) + ['"'], st);
      RunOne('"', st);
      RunAppend(Doubled(f), ['"'], st1);
      DoubledScans(f, st1);
      var x := Run(Doubled(f), st1);
      assert x.quote == Inside;
      RunOne('"', x);
      assert f != [];
    } else {
      PlainScans(f, st);
    }
  }

  /** The tokenizer state right after one exported line: every field but
      the last is stored, the last is pending. */
  function RowEnd(row: seq<string>, st: Scan): Scan
    requires |row| >= 1
  {
    var last := row[|row| - 1];
    if |row| == 1 then st.(value := st.value + last, quote := QuoteAfter(last), lineStart := st.lineStart && last == [])
    else st.(line := st.line + [Trim(st.value + row[0])] + row[1..|row| - 1], value := last, quote := QuoteAfter(last), lineStart := false)
  }

  /** A separator after a field, outside quotes or right after a closing quote. */
  lemma CommaStep(st: Scan)
    requires st.quote != Inside
    ensures Run([','], st) == st.(line := st.line + [Trim(st.value)], value := "", quote := Outside, lineStart := false)
  {
    RunOne(',', st);
  }

  lemma NewlineStep(st: Scan)
    requires st.quote != Inside && !st.lineStart
    ensures Run(['\n'], st) == Scan(st.rows + [st.line + [Trim(st.value)]], [], "", Outside, true)
  {
    RunOne('\n', st);
  }

  /** The state after the first field and its separator, then the rest of
      the line, is the state after the whole line. */
  lemma {:induction false} RowEndAfterFirst(row: seq<string>, st: Scan)
    requires |row| >= 2 && Trimmed(row[1])
    requires st.quote == Outside
    ensures RowEnd(row[1..], st.(line := st.line + [Trim(st.value + row[0])], value := "", quote := Outside, lineStart := false))
         == RowEnd(row, st)
  {
    var st2 := st.(line := st.line + [Trim(st.value + row[0])], value := "", quote := Outside, lineStart := false);
    assert [] + row[1] == row[1];
    if |row| > 2 {
      assert Trim(row[1]) == row[1];
      assert row[1..][1..|row[1..]| - 1] == row[2..|row| - 1];
      assert st2.line + [row[1]] + row[2..|row| - 1] == st.line + [Trim(st.value + row[0])] + row[1..|row| - 1];
    }
  }

  lemma {:induction false} RowScans(row: seq<string>, st: Scan)
    requires |row| >= 1 && forall f :: f in row ==> Portable(f)
    requires st.quote == Outside
    ensures Run(RowText(row), st) == RowEnd(row, st)
    decreases |row|
  {
    assert row[0] in row;
    EscapedFieldScans(row[0], st);
    if |row| == 1 {
      assert RowText(row) == Escape(row[0]);
    } else {
      var tail := RowText(row[1..]);
      assert EscapeAll(row)[1..] == EscapeAll(row[1..]);
      assert RowText(row) == Escape(row[0]) + ([','] + tail);
      RunAppend(Escape(row[0]), [','] + tail, st);
      var st1 := Run(Escape(row[0]), st);
      RunAppend([','], tail, st1);
      CommaStep(st1);
      var st2 := st.(line := st.line + [Trim(st.value + row[0])], value := "", quote := Outside, lineStart := false);
      assert Run([','], st1) == st2;
      forall f | f in row[1..] ensures Portable(f) {
        assert f in row;
      }
      RowScans(row[1..], st2);
      assert row[1] in row;
      RowEndAfterFirst(row, st);
    }
  }

  /** After a portable line the stored fields and the pending one make up the row. */
  lemma RowEndCompletes(row: seq<string>, st: Scan)
    requires PortableRow(row)
    requires st.quote == Outside && st.line == [] && (st.value == [] || st.value == [Bom])
    ensures RowEnd(row, st).quote != Inside && !RowEnd(row, st).lineStart && RowEnd(row, st).rows == st.rows
    ensures RowEnd(row, st).line + [Trim(RowEnd(row, st).value)] == row
    ensures RowEnd(row, st).value != [] || RowEnd(row, st).line != []
  {
    assert row[0] in row;
    TrimAfterMark(st.value, row[0]);
    if |row| > 1 {
      assert row[|row| - 1] in row;
      FieldsComplete(row, st);
    } else {
      var e := RowEnd(row, st);
      assert e.value == st.value + row[0];
      assert [Trim(e.value)] == row;
    }
  }

  lemma FieldsComplete(row: seq<string>, st: Scan)
    requires |row| > 1 && Trim(st.value + row[0]) == row[0] && Trimmed(row[|row| - 1])
    requires st.line == []
    ensures RowEnd(row, st).line + [Trim(RowEnd(row, st).value)] == row
  {
    var last := row[|row| - 1];
    var e := RowEnd(row, st);
    assert e.line == [row[0]] + row[1..|row| - 1];
    assert [row[0]] + row[1..|row| - 1] + [last] == row;
  }

  /** Reading several lines is reading the first, its `\n`, then the rest. */
  lemma {:induction false} LinesCons(rows: seq<seq<string>>, st: Scan)
    requires |rows| >= 2
    ensures Run(Lines(rows), st) == Run(Lines(rows[1..]), Run(['\n'], Run(RowText(rows[0]), st)))
  {
    var tail := Lines(rows[1..]);
    assert RowTexts(rows)[1..] == RowTexts(rows[1..]);
    assert Lines(rows) == RowText(rows[0]) + (['\n'] + tail);
    RunAppend(RowText(rows[0]), ['\n'] + tail, st);
    RunAppend(['\n'], tail, Run(RowText(rows[0]), st));
  }

  /** The state `e` has stored the rows `done` and holds `last` as its
      pending line. */
  predicate Pending(e: Scan, done: seq<seq<string>>, last: seq<string>) {
    e.rows == done && e.line + [Trim(e.value)] == last && (e.value != [] || e.line != [])
  }

  lemma {:induction false} LinesScan(rows: seq<seq<string>>, st: Scan)
    requires |rows| >= 1 && forall row :: row in rows ==> PortableRow(row)
    requires st.quote == Outside && st.line == [] && (st.value == [] || st.value == [Bom])
    ensures Pending(Run(Lines(rows), st), st.rows + rows[..|rows| - 1], rows[|rows| - 1])
    decreases |rows|
  {
    assert rows[0] in rows;
    if |rows| == 1 {
      assert Lines(rows) == RowText(rows[0]);
      LastLineScans(rows[0], st);
    } else {
      LinesCons(rows, st);
      LineScans(rows[0], st);
      var st3 := Scan(st.rows + [rows[0]], [], "", Outside, true);
      forall row | row in rows[1..] ensures PortableRow(row) {
        assert row in rows;
      }
      LinesScan(rows[1..], st3);
      var e := Run(Lines(rows[1..]), st3);
      assert Run(Lines(rows), st) == e;
      ShiftFirst(st.rows, rows);
      assert rows[1..][|rows| - 2] == rows[|rows| - 1];
    }
  }

  /** A portable line without a `\n` after it is left pending. */
  lemma LastLineScans(row: seq<string>, st: Scan)
    requires PortableRow(row)
    requires st.quote == Outside && st.line == [] && (st.value == [] || st.value == [Bom])
    ensures Pending(Run(RowText(row), st), st.rows, row)
  {
    RowScans(row, st);
    RowEndCompletes(row, st);
  }

  /** A portable line and its `\n` store the line as one row. */
  lemma LineScans(row: seq<string>, st: Scan)
    requires PortableRow(row)
    requires st.quote == Outside && st.line == [] && (st.value == [] || st.value == [Bom])
    ensures Run(['\n'], Run(RowText(row), st)) == Scan(st.rows + [row], [], "", Outside, true)
  {
    RowScans(row, st);
    RowEndCompletes(row, st);
    NewlineStep(RowEnd(row, st));
  }

  /** Reading portable lines and flushing the last one yields the rows. */
  lemma {:induction false} FinishLines(rows: seq<seq<string>>, st: Scan)
    requires |rows| >= 1 && forall row :: row in rows ==> PortableRow(row)
    requires st.rows == [] && st.quote == Outside && st.line == [] && (st.value == [] || st.value == [Bom])
    ensures Finish(Run(Lines(rows), st)) == rows
  {
    LinesScan(rows, st);
    assert [] + rows[..|rows| - 1] + [rows[|rows| - 1]] == rows;
  }

  /** Portable rows written one per line are read back unchanged, with or
      without the exporter's byte-order mark in front. */
  lemma {:induction false} ParseLines(rows: seq<seq<string>>)
    requires |rows| >= 1 && forall row :: row in rows ==> PortableRow(row)
    ensures Parse(Lines(rows)) == rows
    ensures Parse([Bom] + Lines(rows)) == rows
  {
    KeepAll(rows, NonBlank);
    FinishLines(rows, Start);
    RunAppend([Bom], Lines(rows), Start);
    RunOne(Bom, Start);
    assert Step(Bom, Start) == Start.(value := [Bom], lineStart := false);
    FinishLines(rows, Start.(value := [Bom], lineStart := false));
  }

  lemma {:induction false} PlainHeadersUnchanged(headers: seq<string>)
    requires forall h :: h in headers ==> !NeedsQuotes(h)
    ensures EscapeAll(headers) == headers
    decreases |headers|
  {
    if headers != [] {
      assert headers[0] in headers;
      PlainHeadersUnchanged(headers[1..]);
    }
  }

  /** Export then parse: the header line comes back as the headers, and each
      record as its cells in header order, provided no header needs quoting,
      every cell is portable, and no line is blank. */
  lemma {:induction false} ExportRoundTrip(data: seq<map<string, Value>>, headers: seq<string>)
    requires NonBlank(headers)
    requires forall h :: h in headers ==> Portable(h) && !NeedsQuotes(h)
    requires forall k, j :: 0 <= k < |data| && 0 <= j < |headers| ==> Portable(Shown(data[k], headers[j]))
    requires |headers| == 1 ==> forall k :: 0 <= k < |data| ==> Shown(data[k], headers[0]) != ""
    ensures Parse(ExportText(data, headers)) == [headers] + Cells(data, headers)
  {
    var cells := Cells(data, headers);
    var rows := [headers] + cells;
    PlainHeadersUnchanged(headers);
    assert JoinWith(headers, ",") == RowText(headers);
    assert RowTexts(rows)[1..] == RowTexts(cells);
    assert RowTexts(rows) == [JoinWith(headers, ",")] + RowTexts(cells);
    CellsPortable(data, headers);
    assert forall row :: row in rows ==> row == headers || row in cells;
    ParseLines(rows);
  }

  /** Every exported data row is portable when its cells are and it is not
      a single empty cell. */
  lemma CellsPortable(data: seq<map<string, Value>>, headers: seq<string>)
    requires NonBlank(headers)
    requires forall k, j :: 0 <= k < |data| && 0 <= j < |headers| ==> Portable(Shown(data[k], headers[j]))
    requires |headers| == 1 ==> forall k :: 0 <= k < |data| ==> Shown(data[k], headers[0]) != ""
    ensures forall row :: row in Cells(data, headers) ==> PortableRow(row)
  {
    var cells := Cells(data, headers);
    forall k | 0 <= k < |cells| ensures PortableRow(cells[k]) {
      forall f | f in cells[k] ensures Portable(f) {
        var j :| 0 <= j < |headers| && cells[k][j] == f;
      }
    }
  }
}

/**
 * CSV export: field escaping in the manner of section 2 (rules 6 and 7)
 * of RFC 4180, fields joined by "," and records by a line feed (not CRLF
 * as in rule 1), with a header record first. A reader for that format is
 * defined alongside, and reading the exported text gives back the header
 * and cell texts.
 */
module Csv {
  import opened JsValues
  import opened Columns
  import opened Sequences

  // ---------------------------------------------------------------------
  // Escaping

  /** Characters that force a field to be quoted. */
  predicate IsSpecial(c: char) {
    c == '"' || c == ',' || c == '\n' || c == '\r'
  }

  predicate NeedsQuoting(s: string) {
    exists i :: 0 <= i < |s| && IsSpecial(s[i])
  }

  /** Every double quote doubled (`s.replace(/"/g, '""')`). */
  function DoubleQuotes(s: string): string {
    if s == [] then []
    else (if s[0] == '"' then "\"\"" else [s[0]]) + DoubleQuotes(s[1..])
  }

  /** The escaped form of a text: quotes doubled, then the whole wrapped in quotes when it holds a special character. */
  function EscapeText(s: string): string {
    var d := DoubleQuotes(s);
    if NeedsQuoting(d) then "\"" + d + "\"" else d
  }

  /** The text of a value: nothing for null and undefined, `String(v)` otherwise. */
  function CsvText(v: Value): string {
    if IsNullish(v) then "" else ToJsString(v)
  }

  /** `escapeCsv(v)`. */
  function EscapeCsv(v: Value): string {
    EscapeText(CsvText(v))
  }

  // ---------------------------------------------------------------------
  // Records

  /** `parts.join(sep)`. */
  function Join(parts: seq<string>, sep: string): string {
    if parts == [] then ""
    else if |parts| == 1 then parts[0]
    else Join(parts[..|parts| - 1], sep) + sep + parts[|parts| - 1]
  }

  /** The header text of a column: its header name when set, else `String(field)`. */
  function HeaderText(c: ColumnDef): string {
    if c.headerName.Some? then c.headerName.value else ColId(c)
  }

  /** The cell of a column in a row, through the column's value formatter when it has one. */
  function CellValue(c: ColumnDef, r: Row): Value {
    var v := GetCellValue(Some(c), r);
    if c.valueFormatter.Some? then c.valueFormatter.value(v, r) else v
  }

  function HeaderTexts(cols: seq<ColumnDef>): (ts: seq<string>)
    ensures |ts| == |cols| && forall i :: 0 <= i < |cols| ==> ts[i] == HeaderText(cols[i])
  {
    seq(|cols|, i requires 0 <= i < |cols| => HeaderText(cols[i]))
  }

  function CellTexts(r: Row, cols: seq<ColumnDef>): (ts: seq<string>)
    ensures |ts| == |cols| && forall i :: 0 <= i < |cols| ==> ts[i] == CsvText(CellValue(cols[i], r))
  {
    seq(|cols|, i requires 0 <= i < |cols| => CsvText(CellValue(cols[i], r)))
  }

  /** The escaped fields of one record. */
  function EscapeAll(ts: seq<string>): (es: seq<string>)
    ensures |es| == |ts| && forall i :: 0 <= i < |ts| ==> es[i] == EscapeText(ts[i])
  {
    seq(|ts|, i requires 0 <= i < |ts| => EscapeText(ts[i]))
  }

  /** One line of the export: the escaped fields joined by commas. */
  function Line(ts: seq<string>): string {
    Join(EscapeAll(ts), ",")
  }

  /** The texts of every record: the header, then one record per row. */
  function Records(rows: seq<Row>, cols: seq<ColumnDef>): (recs: seq<seq<string>>)
    ensures |recs| == |rows| + 1
    ensures recs[0] == HeaderTexts(cols)
    ensures forall i :: 0 <= i < |rows| ==> recs[i + 1] == CellTexts(rows[i], cols)
  {
    [HeaderTexts(cols)] + seq(|rows|, i requires 0 <= i < |rows| => CellTexts(rows[i], cols))
  }

  /** The lines of some records. */
  function Lines(recs: seq<seq<string>>): (ls: seq<string>)
    ensures |ls| == |recs| && forall i :: 0 <= i < |recs| ==> ls[i] == Line(recs[i])
  {
    seq(|recs|, i requires 0 <= i < |recs| => Line(recs[i]))
  }

  /** The header line: `cols.map(c => escapeCsv(header text)).join(',')`. */
  function HeaderLine(cols: seq<ColumnDef>): string {
    Join(seq(|cols|, j requires 0 <= j < |cols| => EscapeText(HeaderText(cols[j]))), ",")
  }

  /** The line of one row: `cols.map(c => escapeCsv(cell)).join(',')`. */
  function RowLine(r: Row, cols: seq<ColumnDef>): string {
    Join(seq(|cols|, j requires 0 <= j < |cols| => EscapeCsv(CellValue(cols[j], r))), ",")
  }

  function RowLines(rows: seq<Row>, cols: seq<ColumnDef>): (ls: seq<string>)
    ensures |ls| == |rows|
  {
    if rows == [] then [] else RowLines(rows[..|rows| - 1], cols) + [RowLine(rows[|rows| - 1], cols)]
  }

  /** The text `toCsv(rows, cols)` returns. */
  function CsvDocument(rows: seq<Row>, cols: seq<ColumnDef>): string {
    Join([HeaderLine(cols)] + RowLines(rows, cols), "\n")
  }

  /** `toCsv(rows, cols)`. */
  method ToCsv(rows: seq<Row>, cols: seq<ColumnDef>) returns (text: string)
    ensures text == CsvDocument(rows, cols)
  {
    var lines := [HeaderLine(cols)];
    for i := 0 to |rows|
      invariant lines == [HeaderLine(cols)] + RowLines(rows[..i], cols)
    {
      assert rows[..i + 1][..i] == rows[..i];
      lines := lines + [RowLine(rows[i], cols)];
    }
    assert rows[..|rows|] == rows;
    text := Join(lines, "\n");
  }

  // ---------------------------------------------------------------------
  // Reading the format back

  /** Where the reader is inside a field. */
  datatype Mode = FieldStart | Unquoted | Quoted | QuoteInQuoted

  /** The reader's state: the field and record read so far, and the finished records. */
  datatype ReadState = ReadState(mode: Mode, field: string, record: seq<string>, records: seq<seq<string>>)

  function EndField(st: ReadState): ReadState {
    ReadState(FieldStart, "", st.record + [st.field], st.records)
  }

  function EndRecord(st: ReadState): ReadState {
    ReadState(FieldStart, "", [], st.records + [st.record + [st.field]])
  }

  /**
   * One character: outside quotes "," ends the field and a line feed ends
   * the record; a quote opens a quoted field; inside quotes a doubled quote
   * stands for one quote and a single quote closes the field.
   */
  function Step(st: ReadState, c: char): ReadState {
    match st.mode
    case FieldStart =>
      if c == '"' then st.(mode := Quoted)
      else if c == ',' then EndField(st)
      else if c == '\n' then EndRecord(st)
      else st.(mode := Unquoted, field := st.field + [c])
    case Unquoted =>
      if c == ',' then EndField(st)
      else if c == '\n' then EndRecord(st)
      else st.(field := st.field + [c])
    case Quoted =>
      if c == '"' then st.(mode := QuoteInQuoted)
      else st.(field := st.field + [c])
    case QuoteInQuoted =>
      if c == '"' then st.(mode := Quoted, field := st.field + ['"'])
      else if c == ',' then EndField(st)
      else if c == '\n' then EndRecord(st)
      else st.(mode := Unquoted, field := st.field + [c])
  }

  function Feed(st: ReadState, s: string): ReadState
    decreases |s|
  {
    if s == [] then st else Feed(Step(st, s[0]), s[1..])
  }

  const Initial := ReadState(FieldStart, "", [], [])

  /** The records of a CSV text; the end of the text ends the last record. */
  function ReadCsv(s: string): seq<seq<string>> {
    var st := Feed(Initial, s);
    st.records + [st.record + [st.field]]
  }

  // ---------------------------------------------------------------------
  // Properties

  /** Null and undefined export as an empty field. */
  lemma EscapeNullish(v: Value)
    requires IsNullish(v)
    ensures EscapeCsv(v) == ""
  {
  }

  lemma QuotingAppend(a: string, b: string)
    ensures NeedsQuoting(a + b) <==> NeedsQuoting(a) || NeedsQuoting(b)
  {
    if NeedsQuoting(a + b) {
      var i :| 0 <= i < |a + b| && IsSpecial((a + b)[i]);
      if i >= |a| {
        assert b[i - |a|] == (a + b)[i];
      }
    }
    if NeedsQuoting(a) {
      var i :| 0 <= i < |a| && IsSpecial(a[i]);
      assert (a + b)[i] == a[i];
    }
    if NeedsQuoting(b) {
      var i :| 0 <= i < |b| && IsSpecial(b[i]);
      assert (a + b)[i + |a|] == b[i];
    }
  }

  lemma {:induction false} DoubleQuotesSpecial(s: string)
    ensures NeedsQuoting(DoubleQuotes(s)) <==> NeedsQuoting(s)
  {
    if s != [] {
      DoubleQuotesSpecial(s[1..]);
      var head := if s[0] == '"' then "\"\"" else [s[0]];
      QuotingAppend(head, DoubleQuotes(s[1..]));
      QuotingAppend([s[0]], s[1..]);
      assert s == [s[0]] + s[1..];
      assert NeedsQuoting(head) <==> IsSpecial(s[0]);
    }
  }

  /**
   * A field is quoted exactly when its text holds a quote, comma, carriage
   * return or line feed; otherwise it is exported unchanged.
   */
  lemma EscapeTextQuoting(s: string)
    ensures NeedsQuoting(s) ==> EscapeText(s) == "\"" + DoubleQuotes(s) + "\""
    ensures !NeedsQuoting(s) ==> EscapeText(s) == s
  {
    DoubleQuotesSpecial(s);
    if !NeedsQuoting(s) {
      NoQuotesUnchanged(s);
    }
  }

  lemma {:induction false} NoQuotesUnchanged(s: string)
    requires !NeedsQuoting(s)
    ensures DoubleQuotes(s) == s
  {
    if s != [] {
      assert !IsSpecial(s[0]);
      assert !NeedsQuoting(s[1..]) by {
        forall i | 0 <= i < |s[1..]| ensures !IsSpecial(s[1..][i]) {
          assert s[1..][i] == s[i + 1];
        }
      }
      NoQuotesUnchanged(s[1..]);
      assert s == [s[0]] + s[1..];
    }
  }

  lemma {:induction false} FeedAppend(st: ReadState, a: string, b: string)
    decreases |a|
    ensures Feed(st, a + b) == Feed(Feed(st, a), b)
  {
    if a != [] {
      assert (a + b)[0] == a[0] && (a + b)[1..] == a[1..] + b;
      FeedAppend(Step(st, a[0]), a[1..], b);
    } else {
      assert a + b == b;
    }
  }

  /** Inside quotes, the quote-doubled text reads back as the text. */
  lemma {:induction false} FeedDoubled(st: ReadState, s: string)
    requires st.mode == Quoted
    decreases |s|
    ensures Feed(st, DoubleQuotes(s)) == st.(field := st.field + s)
  {
    if s == [] {
      assert st.field + s == st.field;
    } else {
      var head := if s[0] == '"' then "\"\"" else [s[0]];
      FeedAppend(st, head, DoubleQuotes(s[1..]));
      var mid := st.(field := st.field + [s[0]]);
      if s[0] == '"' {
        assert Feed(st, head) == Feed(Step(Step(st, '"'), '"'), "");
      } else {
        assert Feed(st, head) == Feed(Step(st, s[0]), "");
      }
      assert Feed(st, head) == mid;
      FeedDoubled(mid, s[1..]);
      assert st.field + [s[0]] + s[1..] == st.field + s;
    }
  }

  /** Outside quotes, a text without special characters reads back as itself. */
  lemma {:induction false} FeedPlain(st: ReadState, s: string)
    requires st.mode == Unquoted && !NeedsQuoting(s)
    decreases |s|
    ensures Feed(st, s) == st.(field := st.field + s)
  {
    if s == [] {
      assert st.field + s == st.field;
    } else {
      assert !IsSpecial(s[0]);
      assert !NeedsQuoting(s[1..]) by {
        forall i | 0 <= i < |s[1..]| ensures !IsSpecial(s[1..][i]) {
          assert s[1..][i] == s[i + 1];
        }
      }
      FeedPlain(Step(st, s[0]), s[1..]);
      assert st.field + [s[0]] + s[1..] == st.field + s;
    }
  }

  /** The reader has the field `f` in hand, outside quotes, with the given record and records so far. */
  ghost predicate Holding(st: ReadState, f: string, record: seq<string>, records: seq<seq<string>>) {
    st.mode != Quoted && st.field == f && st.record == record && st.records == records
  }

  /** An escaped field, read from the start of a field, leaves the reader holding its text. */
  lemma FeedEscaped(record: seq<string>, records: seq<seq<string>>, s: string)
    ensures Holding(Feed(ReadState(FieldStart, "", record, records), EscapeText(s)), s, record, records)
  {
    var st := ReadState(FieldStart, "", record, records);
    EscapeTextQuoting(s);
    if NeedsQuoting(s) {
      var open := st.(mode := Quoted);
      FeedAppend(st, "\"", DoubleQuotes(s) + "\"");
      assert Feed(st, "\"") == open;
      FeedAppend(open, DoubleQuotes(s), "\"");
      FeedDoubled(open, s);
      assert Feed(open.(field := s), "\"") == open.(mode := QuoteInQuoted, field := s);
      assert "\"" + DoubleQuotes(s) + "\"" == "\"" + (DoubleQuotes(s) + "\"");
    } else if s != [] {
      assert EscapeText(s) == s;
      assert !IsSpecial(s[0]);
      var first := st.(mode := Unquoted, field := [s[0]]);
      assert !NeedsQuoting(s[1..]) by {
        forall i | 0 <= i < |s[1..]| ensures !IsSpecial(s[1..][i]) {
          assert s[1..][i] == s[i + 1];
        }
      }
      assert Step(st, s[0]) == first;
      assert Feed(st, s) == Feed(first, s[1..]);
      FeedPlain(first, s[1..]);
      assert [s[0]] + s[1..] == s;
    }
  }

  /** Reading `a`, a separator, then `b` is reading each in turn. */
  lemma FeedAround(st: ReadState, a: string, sep: string, b: string)
    ensures Feed(st, a + sep + b) == Feed(Feed(Feed(st, a), sep), b)
  {
    FeedAppend(st, a + sep, b);
    FeedAppend(st, a, sep);
  }

  /** Outside quotes, a comma records the field in hand and a line feed the record in hand. */
  lemma FeedBreak(st: ReadState, c: char, f: string, record: seq<string>, records: seq<seq<string>>)
    requires Holding(st, f, record, records) && (c == ',' || c == '\n')
    ensures Feed(st, [c]) == if c == ',' then ReadState(FieldStart, "", record + [f], records)
                             else ReadState(FieldStart, "", [], records + [record + [f]])
  {
    assert Feed(st, [c]) == Feed(Step(st, c), []);
  }

  /** A line, read from the start of a record, leaves the reader holding its last field with the others recorded. */
  lemma {:induction false} FeedLine(records: seq<seq<string>>, ts: seq<string>)
    requires |ts| >= 1
    ensures Holding(Feed(ReadState(FieldStart, "", [], records), Line(ts)), ts[|ts| - 1], ts[..|ts| - 1], records)
  {
    var es := EscapeAll(ts);
    if |ts| == 1 {
      FeedEscaped([], records, ts[0]);
    } else {
      var init := ts[..|ts| - 1];
      var start := ReadState(FieldStart, "", [], records);
      FeedLine(records, init);
      assert EscapeAll(init) == es[..|es| - 1];
      assert Line(ts) == Line(init) + "," + es[|es| - 1];
      FeedAround(start, Line(init), ",", es[|es| - 1]);
      FeedBreak(Feed(start, Line(init)), ',', init[|init| - 1], init[..|init| - 1], records);
      SplitLast(init);
      FeedEscaped(init, records, ts[|ts| - 1]);
    }
  }

  lemma LinesSplit(recs: seq<seq<string>>)
    requires |recs| >= 2
    ensures Join(Lines(recs), "\n") == Join(Lines(recs[..|recs| - 1]), "\n") + "\n" + Line(recs[|recs| - 1])
  {
    var ls := Lines(recs);
    assert Lines(recs[..|recs| - 1]) == ls[..|ls| - 1];
  }

  /** The reader holds the last of the records `recs` after reading their lines. */
  ghost predicate HoldsLast(recs: seq<seq<string>>)
    requires |recs| >= 1 && |recs[|recs| - 1]| >= 1
  {
    var last := recs[|recs| - 1];
    Holding(Feed(Initial, Join(Lines(recs), "\n")), last[|last| - 1], last[..|last| - 1], recs[..|recs| - 1])
  }

  lemma FeedOneLine(recs: seq<seq<string>>)
    requires |recs| == 1 && |recs[0]| >= 1
    ensures HoldsLast(recs)
  {
    assert Join(Lines(recs), "\n") == Line(recs[0]);
    FeedLine([], recs[0]);
  }

  /** Holding the last record of `init`, a line feed and the line of `last` leave the reader holding `last`. */
  lemma FeedLineAfter(text: string, init: seq<seq<string>>, last: seq<string>)
    requires |init| >= 1 && |init[|init| - 1]| >= 1 && |last| >= 1
    requires var prev := init[|init| - 1];
      Holding(Feed(Initial, text), prev[|prev| - 1], prev[..|prev| - 1], init[..|init| - 1])
    ensures Holding(Feed(Initial, text + "\n" + Line(last)), last[|last| - 1], last[..|last| - 1], init)
  {
    var prev := init[|init| - 1];
    FeedAround(Initial, text, "\n", Line(last));
    FeedBreak(Feed(Initial, text), '\n', prev[|prev| - 1], prev[..|prev| - 1], init[..|init| - 1]);
    SplitLast(prev);
    SplitLast(init);
    FeedLine(init, last);
  }

  lemma FeedNextLine(init: seq<seq<string>>, last: seq<string>)
    requires |init| >= 1 && |init[|init| - 1]| >= 1 && |last| >= 1
    requires HoldsLast(init)
    ensures HoldsLast(init + [last])
  {
    var recs := init + [last];
    assert recs[..|recs| - 1] == init;
    LinesSplit(recs);
    FeedLineAfter(Join(Lines(init), "\n"), init, last);
  }

  /** The lines of some records, read from the start, leave the reader holding the last record. */
  lemma {:induction false} FeedLines(recs: seq<seq<string>>)
    requires |recs| >= 1 && forall i :: 0 <= i < |recs| ==> |recs[i]| >= 1
    ensures HoldsLast(recs)
  {
    if |recs| == 1 {
      FeedOneLine(recs);
    } else {
      var init := recs[..|recs| - 1];
      assert forall i :: 0 <= i < |init| ==> init[i] == recs[i];
      FeedLines(init);
      FeedNextLine(init, recs[|recs| - 1]);
      SplitLast(recs);
    }
  }

  /** The header line is the escaped header texts joined by commas. */
  lemma HeaderLineIsLine(cols: seq<ColumnDef>)
    ensures HeaderLine(cols) == Line(HeaderTexts(cols))
  {
    assert EscapeAll(HeaderTexts(cols)) == seq(|cols|, j requires 0 <= j < |cols| => EscapeText(HeaderText(cols[j])));
  }

  /** Each row's line is its escaped cell texts joined by commas. */
  lemma RowLineIsLine(r: Row, cols: seq<ColumnDef>)
    ensures RowLine(r, cols) == Line(CellTexts(r, cols))
  {
    assert EscapeAll(CellTexts(r, cols)) == seq(|cols|, j requires 0 <= j < |cols| => EscapeCsv(CellValue(cols[j], r)));
  }

  /**
   * The export is the header line and one line per row, in row order,
   * separated by line feeds with none at the end; each line is the
   * escaped texts of its record.
   */
  lemma {:induction false} RowLinesAt(rows: seq<Row>, cols: seq<ColumnDef>, i: int)
    requires 0 <= i < |rows|
    decreases |rows|
    ensures RowLines(rows, cols)[i] == RowLine(rows[i], cols)
  {
    if i < |rows| - 1 {
      var init := rows[..|rows| - 1];
      RowLinesAt(init, cols, i);
    }
  }

  lemma ExportLineAt(rows: seq<Row>, cols: seq<ColumnDef>, i: int)
    requires 0 <= i <= |rows|
    ensures ([HeaderLine(cols)] + RowLines(rows, cols))[i] == Line(Records(rows, cols)[i])
  {
    var recs := Records(rows, cols);
    if i == 0 {
      assert recs[0] == HeaderTexts(cols);
      HeaderLineIsLine(cols);
    } else {
      var r := rows[i - 1];
      assert recs[i] == CellTexts(r, cols);
      assert ([HeaderLine(cols)] + RowLines(rows, cols))[i] == RowLines(rows, cols)[i - 1];
      RowLinesAt(rows, cols, i - 1);
      RowLineIsLine(r, cols);
    }
  }

  lemma ExportLines(rows: seq<Row>, cols: seq<ColumnDef>)
    ensures [HeaderLine(cols)] + RowLines(rows, cols) == Lines(Records(rows, cols))
  {
    forall i | 0 <= i <= |rows|
      ensures ([HeaderLine(cols)] + RowLines(rows, cols))[i] == Line(Records(rows, cols)[i])
    {
      ExportLineAt(rows, cols, i);
    }
  }

  /** Reading the lines of records, each with at least one field, gives back the records. */
  lemma ReadLines(recs: seq<seq<string>>)
    requires |recs| >= 1 && forall i :: 0 <= i < |recs| ==> |recs[i]| >= 1
    ensures ReadCsv(Join(Lines(recs), "\n")) == recs
  {
    FeedLines(recs);
    var last := recs[|recs| - 1];
    SplitLast(last);
    SplitLast(recs);
  }

  /**
   * Reading an export back gives the header texts and then, row by row,
   * the cell texts: one record per row, with one field per column, each
   * exactly as it was before escaping.
   */
  lemma ReadExport(rows: seq<Row>, cols: seq<ColumnDef>)
    requires |cols| >= 1
    ensures ReadCsv(CsvDocument(rows, cols)) == Records(rows, cols)
  {
    var recs := Records(rows, cols);
    RecordsWidth(rows, cols);
    ReadLines(recs);
    ExportLines(rows, cols);
  }

  /** Every record of an export has one field per column. */
  lemma RecordsWidth(rows: seq<Row>, cols: seq<ColumnDef>)
    ensures forall i :: 0 <= i < |Records(rows, cols)| ==> |Records(rows, cols)[i]| == |cols|
  {
    var recs := Records(rows, cols);
    forall i | 0 <= i < |recs|
      ensures |recs[i]| == |cols|
    {
      if i > 0 {
        assert recs[i] == CellTexts(rows[i - 1], cols);
      }
    }
  }
}

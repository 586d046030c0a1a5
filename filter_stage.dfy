/**
 * The filter stage (`filterRows`): a row is kept when it passes every
 * entry of the filter model. Each entry is judged by its column's custom
 * predicate, its custom comparator, or the default comparator with
 * number, date and text semantics.
 */
module FilterStage {
  import opened JsValues
  import opened Sequences
  import opened Columns

  /**
   * One filter model entry. `filterType` is the optional `type`
   * ("text", "number", "date", or a column's own filter name).
   */
  datatype FilterModelItem = FilterModelItem(
    colId: string,
    filterType: Option<string>,
    value: Value,
    valueTo: Value,
    matchMode: Option<TextFilterMode>)

  /** `v == null ? '' : String(v).toLowerCase()`. */
  function SafeString(v: Value): string {
    if IsNullish(v) then "" else ToLower(ToJsString(v))
  }

  /** `numberVal`: nothing for null, undefined, `''` and anything `Number` turns into NaN. */
  function NumberVal(v: Value): Option<int> {
    if IsNullish(v) || v == Str("") then None else ToNumber(v)
  }

  /** The largest time value a `Date` holds, in milliseconds either side of the epoch. */
  const MaxTime: int := 8_640_000_000_000_000

  /** `new Date(n).getTime()` for an integer `n`: NaN outside the representable range. */
  function TimeClip(n: int): Option<int> {
    if -MaxTime <= n <= MaxTime then Some(n) else None
  }

  /**
   * `dateVal`: nothing for a falsy value other than 0; otherwise the time
   * of `new Date(v)`. Parsing of date text is a parameter.
   */
  function DateVal(v: Value, parseDate: string -> Option<int>): Option<int> {
    if !Truthy(v) && v != Num(0) then None
    else
      match v
      case Num(n) => TimeClip(n)
      case Bool(_) => Some(1)
      case Str(s) => parseDate(s)
      case _ => parseDate(ToJsString(v))
  }

  /** The range test shared by the number and date branches; a missing bound does not constrain. */
  predicate InRange(x: int, from: Option<int>, to: Option<int>) {
    (from.Some? ==> from.value <= x) && (to.Some? ==> x <= to.value)
  }

  /** `defaultFilterComparator(cellValue, filterValue, filterValueTo, type, matchMode)`. */
  function DefaultFilterComparator(cell: Value, fv: Value, fvTo: Value, filterType: string,
                                   mode: Option<TextFilterMode>, parseDate: string -> Option<int>): bool {
    if filterType == "number" then
      if IsNullish(fv) && IsNullish(fvTo) then true
      else
        match NumberVal(cell)
        case None => false
        case Some(num) => InRange(num, NumberVal(fv), NumberVal(fvTo))
    else if filterType == "date" then
      if !Truthy(fv) && !Truthy(fvTo) then true
      else
        match DateVal(cell, parseDate)
        case None => false
        case Some(d) => InRange(d, DateVal(fv, parseDate), DateVal(fvTo, parseDate))
    else if IsNullish(fv) || fv == Str("") then true
    else
      var s, f := SafeString(cell), SafeString(fv);
      if mode == Some(ModeStartsWith) then StartsWith(s, f)
      else if mode == Some(ModeEquals) then s == f
      else Contains(s, f)
  }

  /** A number range keeps exactly the cells whose number lies between the bounds, both included. */
  lemma NumberRangeFilter(cell: Value, lo: int, hi: int, mode: Option<TextFilterMode>, parseDate: string -> Option<int>)
    ensures DefaultFilterComparator(cell, Num(lo), Num(hi), "number", mode, parseDate)
      <==> NumberVal(cell).Some? && lo <= NumberVal(cell).value <= hi
  {
  }

  /** Without bounds a number filter keeps everything, including cells that are not numbers. */
  lemma NumberFilterWithoutBounds(cell: Value, fv: Value, fvTo: Value, mode: Option<TextFilterMode>, parseDate: string -> Option<int>)
    requires IsNullish(fv) && IsNullish(fvTo)
    ensures DefaultFilterComparator(cell, fv, fvTo, "number", mode, parseDate)
  {
  }

  /** With a bound, null, undefined, `''` and non-numeric text never pass a number filter. */
  lemma NumberFilterRejectsNonNumbers(cell: Value, fv: Value, fvTo: Value, mode: Option<TextFilterMode>, parseDate: string -> Option<int>)
    requires !IsNullish(fv) || !IsNullish(fvTo)
    requires NumberVal(cell).None?
    ensures !DefaultFilterComparator(cell, fv, fvTo, "number", mode, parseDate)
  {
  }

  /**
   * A date range given as two date texts keeps exactly the cells whose
   * time lies between the parsed bounds, both included.
   */
  lemma DateRangeFilter(cell: Value, a: string, b: string, mode: Option<TextFilterMode>, parseDate: string -> Option<int>)
    requires a != "" && b != "" && parseDate(a).Some? && parseDate(b).Some?
    ensures DefaultFilterComparator(cell, Str(a), Str(b), "date", mode, parseDate)
      <==> DateVal(cell, parseDate).Some? && parseDate(a).value <= DateVal(cell, parseDate).value <= parseDate(b).value
  {
    assert "date" != "number";
  }

  /** Without a truthy bound a date filter keeps everything, including cells that are not dates. */
  lemma DateFilterWithoutBounds(cell: Value, fv: Value, fvTo: Value, mode: Option<TextFilterMode>, parseDate: string -> Option<int>)
    requires !Truthy(fv) && !Truthy(fvTo)
    ensures DefaultFilterComparator(cell, fv, fvTo, "date", mode, parseDate)
  {
    assert "date" != "number";
  }

  /** With a truthy bound, a cell without a time (empty, NaN, unparsable) never passes a date filter. */
  lemma DateFilterRejectsUndated(cell: Value, fv: Value, fvTo: Value, mode: Option<TextFilterMode>, parseDate: string -> Option<int>)
    requires Truthy(fv) || Truthy(fvTo)
    requires DateVal(cell, parseDate).None?
    ensures !DefaultFilterComparator(cell, fv, fvTo, "date", mode, parseDate)
  {
    assert "date" != "number";
  }

  /**
   * The number 0 is a time (the epoch), unlike the other falsy values; a
   * number is its own time while a `Date` can hold it.
   */
  lemma DateValOfNumbers(n: int, parseDate: string -> Option<int>)
    ensures DateVal(Num(n), parseDate) == (if -MaxTime <= n <= MaxTime then Some(n) else None)
    ensures DateVal(Null, parseDate).None? && DateVal(Undefined, parseDate).None? && DateVal(Str(""), parseDate).None?
  {
  }

  /** An empty or missing filter text keeps every cell, whatever the mode. */
  lemma TextFilterWithoutText(cell: Value, fv: Value, m: Option<TextFilterMode>, parseDate: string -> Option<int>)
    requires IsNullish(fv) || fv == Str("")
    ensures DefaultFilterComparator(cell, fv, Undefined, "text", m, parseDate)
  {
  }

  /**
   * Text filters compare lower-cased strings: `equals` keeps exactly the
   * cells equal to the filter text ignoring case, `startsWith` those
   * beginning with it, and any other mode those containing it.
   */
  lemma TextFilterModes(cell: Value, t: string, parseDate: string -> Option<int>)
    requires t != ""
    ensures DefaultFilterComparator(cell, Str(t), Undefined, "text", Some(ModeEquals), parseDate)
      <==> SafeString(cell) == ToLower(t)
    ensures DefaultFilterComparator(cell, Str(t), Undefined, "text", Some(ModeStartsWith), parseDate)
      <==> StartsWith(SafeString(cell), ToLower(t))
    ensures DefaultFilterComparator(cell, Str(t), Undefined, "text", None, parseDate)
      <==> Contains(SafeString(cell), ToLower(t))
  {
    var s, f := SafeString(cell), SafeString(Str(t));
    assert f == ToLower(t);
    assert "text" != "number" && "text" != "date";
    assert DefaultFilterComparator(cell, Str(t), Undefined, "text", Some(ModeEquals), parseDate) == (s == f);
    assert DefaultFilterComparator(cell, Str(t), Undefined, "text", Some(ModeStartsWith), parseDate) == StartsWith(s, f);
    assert DefaultFilterComparator(cell, Str(t), Undefined, "text", None, parseDate) == Contains(s, f);
  }

  /** `f.type || (typeof cell === 'number' ? 'number' : 'text')`. */
  function EffectiveType(f: FilterModelItem, cell: Value): string {
    if f.filterType.Some? && f.filterType.value != "" then f.filterType.value
    else if cell.Num? then "number"
    else "text"
  }

  /** Whether `row` passes one filter entry; an entry for an unknown column passes every row. */
  function EntryPasses(colMap: map<string, ColumnDef>, f: FilterModelItem, row: Row,
                       parseDate: string -> Option<int>): bool {
    match FindColumn(colMap, f.colId)
    case None => true
    case Some(col) =>
      var cell := GetCellValue(Some(col), row);
      if col.filter.Some? && col.filter.value.FilterPredicate? then col.filter.value.pred(cell, row)
      else
        var t := EffectiveType(f, cell);
        var mode := if f.matchMode.Some? then f.matchMode else col.filterMatchMode;
        if col.filterComparator.Some? then col.filterComparator.value(cell, f.value, f.valueTo, t, mode)
        else DefaultFilterComparator(cell, f.value, f.valueTo, t, mode, parseDate)
  }

  ghost predicate PassesAll(colMap: map<string, ColumnDef>, model: seq<FilterModelItem>, row: Row,
                            parseDate: string -> Option<int>) {
    forall i :: 0 <= i < |model| ==> EntryPasses(colMap, model[i], row, parseDate)
  }

  /** The `rows.filter` callback: the entries are tried in order and the first failing one rejects the row. */
  method RowPasses(colMap: map<string, ColumnDef>, model: seq<FilterModelItem>, row: Row,
                   parseDate: string -> Option<int>) returns (pass: bool)
    ensures pass <==> PassesAll(colMap, model, row, parseDate)
  {
    for i := 0 to |model|
      invariant forall j :: 0 <= j < i ==> EntryPasses(colMap, model[j], row, parseDate)
    {
      if !EntryPasses(colMap, model[i], row, parseDate) {
        return false;
      }
    }
    return true;
  }

  /** The predicate `filterRows` keeps rows by, as a function value. */
  function RowFilter(colMap: map<string, ColumnDef>, model: seq<FilterModelItem>,
                     parseDate: string -> Option<int>): Row -> bool {
    row => AllEntriesPass(colMap, model, row, parseDate)
  }

  function AllEntriesPass(colMap: map<string, ColumnDef>, model: seq<FilterModelItem>, row: Row,
                          parseDate: string -> Option<int>): (b: bool)
    ensures b <==> PassesAll(colMap, model, row, parseDate)
  {
    if model == [] then true
    else EntryPasses(colMap, model[0], row, parseDate) && AllEntriesPass(colMap, model[1..], row, parseDate)
  }

  /** The rows `filterRows` returns. */
  function FilterRowsSpec(rows: seq<Row>, cols: seq<ColumnDef>, model: seq<FilterModelItem>,
                          parseDate: string -> Option<int>): seq<Row> {
    if model == [] then rows else Select(rows, RowFilter(ColMap(cols), model, parseDate))
  }

  /** `filterRows(rows, cols, filterModel)`. */
  method FilterRows(rows: seq<Row>, cols: seq<ColumnDef>, model: seq<FilterModelItem>,
                    parseDate: string -> Option<int>) returns (r: seq<Row>)
    ensures r == FilterRowsSpec(rows, cols, model, parseDate)
  {
    if |rows| == 0 {
      return [];
    }
    if |model| == 0 {
      return rows;
    }
    var colMap := BuildColMap(cols);
    r := [];
    for i := 0 to |rows|
      invariant r == Select(rows[..i], RowFilter(colMap, model, parseDate))
    {
      var pass := RowPasses(colMap, model, rows[i], parseDate);
      assert rows[..i + 1][..i] == rows[..i];
      if pass {
        r := r + [rows[i]];
      }
    }
    assert rows[..|rows|] == rows;
  }

  /**
   * The result keeps the input order and keeps exactly the rows that pass
   * every entry: each passing row as often as it occurs, no other row.
   */
  lemma FilterRowsKeepsPassing(rows: seq<Row>, cols: seq<ColumnDef>, model: seq<FilterModelItem>,
                               parseDate: string -> Option<int>, x: Row)
    ensures IsSubsequence(FilterRowsSpec(rows, cols, model, parseDate), rows)
    ensures multiset(FilterRowsSpec(rows, cols, model, parseDate))[x]
      == if PassesAll(ColMap(cols), model, x, parseDate) then multiset(rows)[x] else 0
  {
    var p := RowFilter(ColMap(cols), model, parseDate);
    if model == [] {
      SelectAll(rows, p);
    }
    SelectIsSubsequence(rows, p);
    SelectMultiset(rows, p, x);
  }

  /** Filtering by a model made of two parts is filtering by the first part, then by the second. */
  lemma FilterRowsConjunction(rows: seq<Row>, cols: seq<ColumnDef>, m1: seq<FilterModelItem>,
                              m2: seq<FilterModelItem>, parseDate: string -> Option<int>)
    ensures FilterRowsSpec(rows, cols, m1 + m2, parseDate)
      == FilterRowsSpec(FilterRowsSpec(rows, cols, m1, parseDate), cols, m2, parseDate)
  {
    var cm := ColMap(cols);
    if m1 == [] {
      assert m1 + m2 == m2;
    } else if m2 == [] {
      assert m1 + m2 == m1;
    } else {
      forall x ensures RowFilter(cm, m1 + m2, parseDate)(x)
        == (RowFilter(cm, m1, parseDate)(x) && RowFilter(cm, m2, parseDate)(x))
      {
        assert PassesAll(cm, m1 + m2, x, parseDate) <==> PassesAll(cm, m1, x, parseDate) && PassesAll(cm, m2, x, parseDate) by {
          if PassesAll(cm, m1, x, parseDate) && PassesAll(cm, m2, x, parseDate) {
            forall i | 0 <= i < |m1 + m2| ensures EntryPasses(cm, (m1 + m2)[i], x, parseDate) {
              if i >= |m1| {
                assert (m1 + m2)[i] == m2[i - |m1|];
              }
            }
          }
          if PassesAll(cm, m1 + m2, x, parseDate) {
            forall i | 0 <= i < |m2| ensures EntryPasses(cm, m2[i], x, parseDate) {
              assert (m1 + m2)[|m1| + i] == m2[i];
            }
            forall i | 0 <= i < |m1| ensures EntryPasses(cm, m1[i], x, parseDate) {
              assert (m1 + m2)[i] == m1[i];
            }
          }
        }
      }
      SelectSelect(rows, RowFilter(cm, m1, parseDate), RowFilter(cm, m2, parseDate), RowFilter(cm, m1 + m2, parseDate));
    }
  }

  /** An entry whose column id no column has changes nothing. */
  lemma FilterRowsSkipsUnknownColumn(rows: seq<Row>, cols: seq<ColumnDef>, model: seq<FilterModelItem>,
                                     f: FilterModelItem, parseDate: string -> Option<int>)
    requires forall i :: 0 <= i < |cols| ==> ColId(cols[i]) != f.colId
    ensures FilterRowsSpec(rows, cols, model + [f], parseDate) == FilterRowsSpec(rows, cols, model, parseDate)
  {
    ColMapMissing(cols, f.colId);
    FilterRowsConjunction(rows, cols, model, [f], parseDate);
    var kept := FilterRowsSpec(rows, cols, model, parseDate);
    var p := RowFilter(ColMap(cols), [f], parseDate);
    forall i | 0 <= i < |kept| ensures p(kept[i]) {
      assert PassesAll(ColMap(cols), [f], kept[i], parseDate);
    }
    SelectAll(kept, p);
  }

  /** A column's own predicate alone decides its entry, whatever the entry's values and type. */
  lemma CustomPredicateDecides(colMap: map<string, ColumnDef>, f: FilterModelItem, row: Row,
                               parseDate: string -> Option<int>)
    requires f.colId in colMap && colMap[f.colId].filter.Some? && colMap[f.colId].filter.value.FilterPredicate?
    ensures EntryPasses(colMap, f, row, parseDate)
      == colMap[f.colId].filter.value.pred(GetCellValue(Some(colMap[f.colId]), row), row)
  {
  }
}

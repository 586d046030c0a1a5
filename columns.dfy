/**
 * Column definitions and the two helpers every stage uses on them:
 * merging a column with the grid's default column definition, and
 * reading a cell of a row through a column.
 */
module Columns {
  import opened JsValues

  /** Text filter match modes. */
  datatype TextFilterMode = ModeContains | ModeStartsWith | ModeEquals

  /** A column's `filter` property: a filter type name, a custom predicate, or a flag. */
  datatype ColFilter =
    | FilterKind(kind: string)
    | FilterPredicate(pred: (Value, Row) -> bool)
    | FilterFlag(on: bool)

  /** An aggregation: a built-in name (`sum`, `min`, `max`, `avg`, `count`, ...) or a custom reducer. */
  datatype AggFunc = Named(name: string) | Reducer(fn: seq<Value> -> Value)

  /**
   * A column definition. Every property is optional, because the same type
   * also describes the partial default column definition; an absent
   * property is `None`.
   */
  datatype ColumnDef = ColumnDef(
    field: Option<string>,
    headerName: Option<string>,
    width: Option<int>,
    minWidth: Option<int>,
    maxWidth: Option<int>,
    sortable: Option<bool>,
    filter: Option<ColFilter>,
    filterComparator: Option<(Value, Value, Value, string, Option<TextFilterMode>) -> bool>,
    filterMatchMode: Option<TextFilterMode>,
    aggFunc: Option<AggFunc>,
    valueGetter: Option<Row -> Value>,
    valueFormatter: Option<(Value, Row) -> Value>,
    comparator: Option<(Value, Value) -> int>)

  /** A column definition with no property set (`{}`). */
  const NoProperties := ColumnDef(None, None, None, None, None, None, None, None, None, None, None, None, None)

  /** A property assigned later wins: `Object.assign` semantics for one property. */
  function Pick<T>(own: Option<T>, base: Option<T>): Option<T> {
    if own.Some? then own else base
  }

  /** `Object.assign({}, defaultColDef || {}, col)`. */
  function MergeColDef(col: ColumnDef, defaultColDef: Option<ColumnDef>): ColumnDef {
    var base := if defaultColDef.Some? then defaultColDef.value else NoProperties;
    ColumnDef(
      Pick(col.field, base.field),
      Pick(col.headerName, base.headerName),
      Pick(col.width, base.width),
      Pick(col.minWidth, base.minWidth),
      Pick(col.maxWidth, base.maxWidth),
      Pick(col.sortable, base.sortable),
      Pick(col.filter, base.filter),
      Pick(col.filterComparator, base.filterComparator),
      Pick(col.filterMatchMode, base.filterMatchMode),
      Pick(col.aggFunc, base.aggFunc),
      Pick(col.valueGetter, base.valueGetter),
      Pick(col.valueFormatter, base.valueFormatter),
      Pick(col.comparator, base.comparator))
  }

  /** The merged property is the column's own where it has one, else the default's. */
  ghost predicate Layered<T>(merged: Option<T>, own: Option<T>, base: Option<T>) {
    (own.Some? ==> merged == own) && (own.None? ==> merged == base)
  }

  /**
   * A column's own properties take precedence over the default column
   * definition, property by property.
   */
  lemma MergeColDefPrecedence(col: ColumnDef, d: ColumnDef)
    ensures var m := MergeColDef(col, Some(d));
      Layered(m.field, col.field, d.field) && Layered(m.headerName, col.headerName, d.headerName)
      && Layered(m.width, col.width, d.width) && Layered(m.minWidth, col.minWidth, d.minWidth)
      && Layered(m.maxWidth, col.maxWidth, d.maxWidth) && Layered(m.sortable, col.sortable, d.sortable)
      && Layered(m.filter, col.filter, d.filter) && Layered(m.filterComparator, col.filterComparator, d.filterComparator)
      && Layered(m.filterMatchMode, col.filterMatchMode, d.filterMatchMode) && Layered(m.aggFunc, col.aggFunc, d.aggFunc)
      && Layered(m.valueGetter, col.valueGetter, d.valueGetter) && Layered(m.valueFormatter, col.valueFormatter, d.valueFormatter)
      && Layered(m.comparator, col.comparator, d.comparator)
  {
  }

  /** Without a default column definition the column is returned unchanged. */
  lemma MergeColDefNoDefault(col: ColumnDef)
    ensures MergeColDef(col, None) == col
  {
  }

  /** Merging again with the same default changes nothing. */
  lemma MergeColDefIdempotent(col: ColumnDef, d: ColumnDef)
    ensures MergeColDef(MergeColDef(col, Some(d)), Some(d)) == MergeColDef(col, Some(d))
  {
  }

  /** `String(col.field)`: the key a column is found under. */
  function ColId(col: ColumnDef): string {
    if col.field.Some? then col.field.value else "undefined"
  }

  /**
   * `getCellValue(col, row)`: nothing without a column, the value getter's
   * result when the column has one, otherwise the row's property named by
   * the column's field.
   */
  function GetCellValue(col: Option<ColumnDef>, row: Row): Value {
    if col.None? then Undefined
    else if col.value.valueGetter.Some? then col.value.valueGetter.value(row)
    else GetField(row, ColId(col.value))
  }

  /** Reading a cell never fails: a row that is not an object, or lacks the field, gives undefined. */
  lemma GetCellValueMissing(col: ColumnDef, row: Row)
    requires col.valueGetter.None?
    requires !row.Obj? || ColId(col) !in row.fields
    ensures GetCellValue(Some(col), row) == Undefined
  {
  }

  /** The cells of one column over some rows (`rows.map(r => col ? getCellValue(col, r) : undefined)`). */
  function ColumnValues(rows: seq<Row>, col: Option<ColumnDef>): (vs: seq<Value>)
    ensures |vs| == |rows|
    ensures forall i :: 0 <= i < |rows| ==> vs[i] == GetCellValue(col, rows[i])
  {
    seq(|rows|, i requires 0 <= i < |rows| => GetCellValue(col, rows[i]))
  }

  // ---------------------------------------------------------------------
  // Column lookup by id

  /** The column map after registering `cols` in order: a later column with the same id replaces an earlier one. */
  function ColMap(cols: seq<ColumnDef>): map<string, ColumnDef> {
    if cols == [] then map[]
    else ColMap(cols[..|cols| - 1])[ColId(cols[|cols| - 1]) := cols[|cols| - 1]]
  }

  /** `cols.forEach(c => colMap[String(c.field)] = c)`. */
  method BuildColMap(cols: seq<ColumnDef>) returns (colMap: map<string, ColumnDef>)
    ensures colMap == ColMap(cols)
  {
    colMap := map[];
    for i := 0 to |cols|
      invariant colMap == ColMap(cols[..i])
    {
      assert cols[..i + 1][..i] == cols[..i];
      colMap := colMap[ColId(cols[i]) := cols[i]];
    }
    assert cols[..|cols|] == cols;
  }

  /** The column map finds an id under the last column that has it. */
  lemma {:induction false} ColMapLastWins(cols: seq<ColumnDef>, id: string, i: nat)
    requires i < |cols| && ColId(cols[i]) == id
    requires forall j :: i < j < |cols| ==> ColId(cols[j]) != id
    ensures id in ColMap(cols) && ColMap(cols)[id] == cols[i]
  {
    if i < |cols| - 1 {
      var init := cols[..|cols| - 1];
      assert init[i] == cols[i];
      ColMapLastWins(init, id, i);
    }
  }

  /** An id no column has is not in the column map. */
  lemma {:induction false} ColMapMissing(cols: seq<ColumnDef>, id: string)
    requires forall i :: 0 <= i < |cols| ==> ColId(cols[i]) != id
    ensures id !in ColMap(cols)
  {
    if cols != [] {
      ColMapMissing(cols[..|cols| - 1], id);
    }
  }

  /** `colMap[id]`, with a missing id as `None`. */
  function FindColumn(colMap: map<string, ColumnDef>, id: string): (r: Option<ColumnDef>)
    ensures r.Some? <==> id in colMap
    ensures r.Some? ==> r.value == colMap[id]
  {
    if id in colMap then Some(colMap[id]) else None
  }
}

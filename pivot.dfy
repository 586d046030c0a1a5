/**
 * Pivoting: the rows are bucketed by the pivot column, one output row is
 * made per pivot value holding the aggregate of every value column over
 * that bucket, and one dynamic column is made per pivot value and value
 * column.
 */
module Pivot {
  import opened JsValues
  import opened Sequences
  import opened JsObject
  import opened Columns
  import opened Aggregation
  import opened Grouping

  /** The pivot configuration; an absent or empty `pivotCol` means no pivot column. */
  datatype PivotModel = PivotModel(
    rowGroupCols: seq<string>,
    pivotCol: Option<string>,
    valueCols: seq<AggModelItem>,
    enabled: bool)

  /** What `pivotRows` returns. */
  datatype PivotResult = PivotResult(rows: seq<Row>, dynamicCols: seq<ColumnDef>, paths: seq<string>)

  /** The width of every dynamic column. */
  const PivotColWidth := 140

  /** The property of a pivoted row that holds its pivot value. */
  const PivotKeyField := "__pivotKey"

  /** `'pv:' + pv + ':' + colId`: the field of the aggregate of `colId` for the pivot value `pv`. */
  function PivotField(pv: string, colId: string): string {
    "pv:" + pv + ":" + colId
  }

  /** The header of a dynamic column: the value column's header (or id), then the pivot value. */
  function PivotHeader(pv: string, base: Option<ColumnDef>, colId: string): string {
    var title :=
      if base.Some? && base.value.headerName.Some? && base.value.headerName.value != "" then base.value.headerName.value
      else colId;
    title + " " + (if pv == NullKey then "(blank)" else pv)
  }

  /** The dynamic column of one pivot value and one value column. */
  function PivotColumn(pv: string, vcol: AggModelItem, colMap: map<string, ColumnDef>): ColumnDef {
    NoProperties.(
      field := Some(PivotField(pv, vcol.colId)),
      headerName := Some(PivotHeader(pv, FindColumn(colMap, vcol.colId), vcol.colId)),
      sortable := Some(false),
      filter := Some(FilterKind("number")),
      width := Some(PivotColWidth))
  }

  /** The dynamic columns of one pivot value, one per value column. */
  function ColumnsFor(pv: string, vcols: seq<AggModelItem>, colMap: map<string, ColumnDef>): (cs: seq<ColumnDef>)
    ensures |cs| == |vcols|
  {
    if vcols == [] then []
    else ColumnsFor(pv, vcols[..|vcols| - 1], colMap) + [PivotColumn(pv, vcols[|vcols| - 1], colMap)]
  }

  /** The dynamic columns: pivot value by pivot value, value column by value column. */
  function DynamicCols(pvs: seq<string>, vcols: seq<AggModelItem>, colMap: map<string, ColumnDef>): seq<ColumnDef> {
    if pvs == [] then []
    else DynamicCols(pvs[..|pvs| - 1], vcols, colMap) + ColumnsFor(pvs[|pvs| - 1], vcols, colMap)
  }

  /** The properties of the pivoted row of `pv`: its pivot value and one aggregate per value column. */
  function PivotFields(pv: string, bucket: seq<Row>, vcols: seq<AggModelItem>, colMap: map<string, ColumnDef>): map<string, Value> {
    if vcols == [] then map[PivotKeyField := Str(pv)]
    else
      var v := vcols[|vcols| - 1];
      PivotFields(pv, bucket, vcols[..|vcols| - 1], colMap)[PivotField(pv, v.colId) := AggregateFor(bucket, colMap, v, v.colId)]
  }

  /** The pivoted rows of the pivot values `pvs`, in that order. */
  function PivotedRows(pvs: seq<string>, buckets: Dict<seq<Row>>, vcols: seq<AggModelItem>, colMap: map<string, ColumnDef>): (out: seq<Row>)
    ensures |out| == |pvs|
  {
    if pvs == [] then []
    else
      var pv := pvs[|pvs| - 1];
      PivotedRows(pvs[..|pvs| - 1], buckets, vcols, colMap) + [Obj(PivotFields(pv, BucketRows(buckets, pv), vcols, colMap))]
  }

  /** Whether the pivot applies: enabled, with a pivot column and at least one value column. */
  predicate PivotActive(pivot: PivotModel) {
    pivot.enabled && pivot.pivotCol.Some? && pivot.pivotCol.value != "" && |pivot.valueCols| > 0
  }

  /** What `pivotRows(rows, cols, pivot)` returns. */
  function PivotSpec(rows: seq<Row>, cols: seq<ColumnDef>, pivot: PivotModel): PivotResult {
    var colMap := ColMap(cols);
    if !PivotActive(pivot) || pivot.pivotCol.value !in colMap then PivotResult(rows, [], [])
    else
      var buckets := Buckets(rows, Some(colMap[pivot.pivotCol.value]));
      PivotResult(
        PivotedRows(Keys(buckets), buckets, pivot.valueCols, colMap),
        DynamicCols(buckets.order, pivot.valueCols, colMap),
        [])
  }

  /** `pivotRows(rows, cols, pivot, expanded)`; the expansion set is not used. */
  method PivotRows(rows: seq<Row>, cols: seq<ColumnDef>, pivot: PivotModel) returns (result: PivotResult)
    ensures result == PivotSpec(rows, cols, pivot)
  {
    if !pivot.enabled || pivot.pivotCol.None? || pivot.pivotCol.value == "" || |pivot.valueCols| == 0 {
      return PivotResult(rows, [], []);
    }
    var colMap := BuildColMap(cols);
    if pivot.pivotCol.value !in colMap {
      return PivotResult(rows, [], []);
    }
    var pivotCol := colMap[pivot.pivotCol.value];
    var buckets, pivotValues := CollectPivotBuckets(rows, pivotCol);
    var dynamicCols := BuildDynamicCols(pivotValues, pivot.valueCols, colMap);
    var out := BuildPivotedRows(Keys(buckets), buckets, pivot.valueCols, colMap);
    result := PivotResult(out, dynamicCols, []);
  }

  /** The bucketing loop of `pivotRows`, which also records the pivot values in first-seen order. */
  method CollectPivotBuckets(rows: seq<Row>, pivotCol: ColumnDef) returns (buckets: Dict<seq<Row>>, pivotValues: seq<string>)
    ensures buckets == Buckets(rows, Some(pivotCol))
    ensures pivotValues == buckets.order
  {
    buckets, pivotValues := EmptyDict(), [];
    for i := 0 to |rows|
      invariant buckets == Buckets(rows[..i], Some(pivotCol))
      invariant pivotValues == buckets.order
    {
      assert rows[..i + 1][..i] == rows[..i];
      var key := GetCellValue(Some(pivotCol), rows[i]);
      var k := if IsNullish(key) then NullKey else ToJsString(key);
      if k !in buckets.entries {
        pivotValues := pivotValues + [k];
      }
      buckets := AddToBucket(buckets, k, rows[i]);
    }
    assert rows[..|rows|] == rows;
  }

  /** The nested `forEach` loops that build the dynamic columns. */
  method BuildDynamicCols(pvs: seq<string>, vcols: seq<AggModelItem>, colMap: map<string, ColumnDef>) returns (dynamicCols: seq<ColumnDef>)
    ensures dynamicCols == DynamicCols(pvs, vcols, colMap)
  {
    dynamicCols := [];
    for i := 0 to |pvs|
      invariant dynamicCols == DynamicCols(pvs[..i], vcols, colMap)
    {
      assert pvs[..i + 1][..i] == pvs[..i];
      ghost var before := dynamicCols;
      for j := 0 to |vcols|
        invariant dynamicCols == before + ColumnsFor(pvs[i], vcols[..j], colMap)
      {
        assert vcols[..j + 1][..j] == vcols[..j];
        dynamicCols := dynamicCols + [PivotColumn(pvs[i], vcols[j], colMap)];
      }
      assert vcols[..|vcols|] == vcols;
    }
    assert pvs[..|pvs|] == pvs;
  }

  /** The loop over `Object.keys(pivotBuckets)` that builds the pivoted rows. */
  method BuildPivotedRows(pvs: seq<string>, buckets: Dict<seq<Row>>, vcols: seq<AggModelItem>, colMap: map<string, ColumnDef>)
    returns (out: seq<Row>)
    ensures out == PivotedRows(pvs, buckets, vcols, colMap)
  {
    out := [];
    for i := 0 to |pvs|
      invariant out == PivotedRows(pvs[..i], buckets, vcols, colMap)
    {
      assert pvs[..i + 1][..i] == pvs[..i];
      var pv := pvs[i];
      var row := BuildPivotFields(pv, BucketRows(buckets, pv), vcols, colMap);
      out := out + [Obj(row)];
    }
    assert pvs[..|pvs|] == pvs;
  }

  /** The inner loop over the value columns that fills one pivoted row. */
  method BuildPivotFields(pv: string, bucket: seq<Row>, vcols: seq<AggModelItem>, colMap: map<string, ColumnDef>)
    returns (row: map<string, Value>)
    ensures row == PivotFields(pv, bucket, vcols, colMap)
  {
    row := map[PivotKeyField := Str(pv)];
    for j := 0 to |vcols|
      invariant row == PivotFields(pv, bucket, vcols[..j], colMap)
    {
      assert vcols[..j + 1][..j] == vcols[..j];
      var vcol := vcols[j];
      var aggFn := ResolveAggFunc(vcol.aggFunc);
      var values := ColumnValues(bucket, FindColumn(colMap, vcol.colId));
      row := row[PivotField(pv, vcol.colId) := aggFn(values)];
    }
    assert vcols[..|vcols|] == vcols;
  }

  // ---------------------------------------------------------------------
  // Properties

  /** A dynamic column's field never clashes with the pivot key, and names its value column uniquely. */
  lemma PivotFieldDistinct(pv: string, a: string, b: string)
    ensures PivotField(pv, a) != PivotKeyField
    ensures PivotField(pv, a) == PivotField(pv, b) ==> a == b
  {
    assert PivotField(pv, a)[0] == 'p' && PivotKeyField[0] == '_';
    var n := |"pv:" + pv + ":"|;
    if PivotField(pv, a) == PivotField(pv, b) {
      assert PivotField(pv, a)[n..] == a && PivotField(pv, b)[n..] == b;
    }
  }

  /** Across pivot values the field names are ambiguous when a pivot value contains ":". */
  lemma PivotFieldAmbiguous()
    ensures PivotField("a:b", "c") == PivotField("a", "b:c")
  {
    assert "pv:" + "a:b" + ":" + "c" == "pv:a:b:c";
    assert "pv:" + "a" + ":" + "b:c" == "pv:a:b:c";
  }

  /**
   * The pivoted row of `pv` holds the pivot value and, under the field of
   * each value column, that column's aggregate over the bucket (the last
   * value column with a given id wins), and nothing else.
   */
  lemma {:induction false} PivotFieldsContent(pv: string, bucket: seq<Row>, vcols: seq<AggModelItem>, colMap: map<string, ColumnDef>)
    ensures var fields := PivotFields(pv, bucket, vcols, colMap);
      PivotKeyField in fields && fields[PivotKeyField] == Str(pv)
      && (forall f :: f in fields <==> f == PivotKeyField || exists j :: 0 <= j < |vcols| && f == PivotField(pv, vcols[j].colId))
  {
    if vcols != [] {
      var init, v := vcols[..|vcols| - 1], vcols[|vcols| - 1];
      PivotFieldsContent(pv, bucket, init, colMap);
      PivotFieldDistinct(pv, v.colId, v.colId);
      var fields := PivotFields(pv, bucket, vcols, colMap);
      forall f ensures f in fields <==> f == PivotKeyField || exists j :: 0 <= j < |vcols| && f == PivotField(pv, vcols[j].colId) {
        if exists j :: 0 <= j < |vcols| && f == PivotField(pv, vcols[j].colId) {
          var j :| 0 <= j < |vcols| && f == PivotField(pv, vcols[j].colId);
          if j < |init| {
            assert init[j] == vcols[j];
          }
        }
        if exists j :: 0 <= j < |init| && f == PivotField(pv, init[j].colId) {
          var j :| 0 <= j < |init| && f == PivotField(pv, init[j].colId);
          assert vcols[j] == init[j];
        }
      }
    }
  }

  /** The aggregate under a value column's field is that column's aggregate over the bucket. */
  lemma {:induction false} PivotFieldsValue(pv: string, bucket: seq<Row>, vcols: seq<AggModelItem>,
                                            colMap: map<string, ColumnDef>, j: nat)
    requires j < |vcols| && forall l :: j < l < |vcols| ==> vcols[l].colId != vcols[j].colId
    ensures var fields := PivotFields(pv, bucket, vcols, colMap);
      PivotField(pv, vcols[j].colId) in fields
      && fields[PivotField(pv, vcols[j].colId)] == AggregateFor(bucket, colMap, vcols[j], vcols[j].colId)
  {
    var v := vcols[|vcols| - 1];
    if j < |vcols| - 1 {
      var init := vcols[..|vcols| - 1];
      assert init[j] == vcols[j];
      PivotFieldsValue(pv, bucket, init, colMap, j);
      PivotFieldDistinct(pv, v.colId, vcols[j].colId);
    }
  }

  /** The `i`-th pivoted row is the row of the `i`-th pivot value. */
  lemma {:induction false} PivotedRowsAt(pvs: seq<string>, buckets: Dict<seq<Row>>, vcols: seq<AggModelItem>,
                                         colMap: map<string, ColumnDef>, i: nat)
    requires i < |pvs|
    ensures PivotedRows(pvs, buckets, vcols, colMap)[i] == Obj(PivotFields(pvs[i], BucketRows(buckets, pvs[i]), vcols, colMap))
  {
    if i < |pvs| - 1 {
      PivotedRowsAt(pvs[..|pvs| - 1], buckets, vcols, colMap, i);
    }
  }

  lemma {:induction false} ColumnsForAt(pv: string, vcols: seq<AggModelItem>, colMap: map<string, ColumnDef>, j: nat)
    requires j < |vcols|
    ensures ColumnsFor(pv, vcols, colMap)[j] == PivotColumn(pv, vcols[j], colMap)
  {
    if j < |vcols| - 1 {
      ColumnsForAt(pv, vcols[..|vcols| - 1], colMap, j);
    }
  }

  lemma {:induction false} DynamicColsLength(pvs: seq<string>, vcols: seq<AggModelItem>, colMap: map<string, ColumnDef>)
    ensures |DynamicCols(pvs, vcols, colMap)| == |pvs| * |vcols|
  {
    if pvs != [] {
      var init := pvs[..|pvs| - 1];
      DynamicColsLength(init, vcols, colMap);
      assert |pvs| * |vcols| == |init| * |vcols| + |vcols|;
    }
  }

  /** The column of the `i`-th pivot value and the `j`-th value column is at `i * m + j`. */
  lemma {:induction false} DynamicColsAt(pvs: seq<string>, vcols: seq<AggModelItem>, colMap: map<string, ColumnDef>, i: nat, j: nat)
    requires i < |pvs| && j < |vcols|
    ensures i * |vcols| + j < |DynamicCols(pvs, vcols, colMap)|
    ensures DynamicCols(pvs, vcols, colMap)[i * |vcols| + j] == PivotColumn(pvs[i], vcols[j], colMap)
  {
    var init, m := pvs[..|pvs| - 1], |vcols|;
    DynamicColsLength(init, vcols, colMap);
    var front := DynamicCols(init, vcols, colMap);
    if i < |init| {
      DynamicColsAt(init, vcols, colMap, i, j);
      assert init[i] == pvs[i];
    } else {
      ColumnsForAt(pvs[i], vcols, colMap, j);
      assert i * m + j - |front| == j;
    }
  }

  /**
   * The dynamic columns are laid out pivot value by pivot value: the column
   * of the `i`-th pivot value and the `j`-th value column is at `i * m + j`.
   */
  lemma DynamicColsLayout(pvs: seq<string>, vcols: seq<AggModelItem>, colMap: map<string, ColumnDef>)
    ensures |DynamicCols(pvs, vcols, colMap)| == |pvs| * |vcols|
    ensures forall i, j :: 0 <= i < |pvs| && 0 <= j < |vcols| ==>
      i * |vcols| + j < |DynamicCols(pvs, vcols, colMap)|
      && DynamicCols(pvs, vcols, colMap)[i * |vcols| + j] == PivotColumn(pvs[i], vcols[j], colMap)
  {
    DynamicColsLength(pvs, vcols, colMap);
    forall i, j | 0 <= i < |pvs| && 0 <= j < |vcols| {
      DynamicColsAt(pvs, vcols, colMap, i, j);
    }
  }

  /**
   * When the pivot does not apply (not enabled, no pivot column, no value
   * column, or a pivot column no column definition has) the rows pass
   * through unchanged with no dynamic columns; pivoting never reports
   * group paths.
   */
  lemma PivotInactive(rows: seq<Row>, cols: seq<ColumnDef>, pivot: PivotModel)
    ensures PivotSpec(rows, cols, pivot).paths == []
    ensures !PivotActive(pivot) || pivot.pivotCol.value !in ColMap(cols) ==>
      PivotSpec(rows, cols, pivot) == PivotResult(rows, [], [])
  {
  }

  /**
   * An active pivot: the dynamic columns follow the pivot values in the
   * order they first occur; there is one output row per pivot value, in
   * `Object.keys` order, aggregating exactly the rows with that pivot value.
   */
  lemma PivotActiveShape(rows: seq<Row>, cols: seq<ColumnDef>, pivot: PivotModel)
    requires PivotActive(pivot) && pivot.pivotCol.value in ColMap(cols)
    ensures var col := Some(ColMap(cols)[pivot.pivotCol.value]);
      var pvs := FirstSeen(RowKeys(rows, col));
      var keys := Keys(Buckets(rows, col));
      var r := PivotSpec(rows, cols, pivot);
      r.dynamicCols == DynamicCols(pvs, pivot.valueCols, ColMap(cols))
      && |r.dynamicCols| == |pvs| * |pivot.valueCols|
      && multiset(keys) == multiset(pvs)
      && |r.rows| == |pvs|
      && forall i :: 0 <= i < |keys| ==>
           r.rows[i] == Obj(PivotFields(keys[i], Select(rows, KeyIs(col, keys[i])), pivot.valueCols, ColMap(cols)))
  {
    var col := Some(ColMap(cols)[pivot.pivotCol.value]);
    var buckets := Buckets(rows, col);
    BucketsFirstSeen(rows, col);
    KeysPermutation(buckets);
    DynamicColsLayout(buckets.order, pivot.valueCols, ColMap(cols));
    var keys := Keys(buckets);
    forall i | 0 <= i < |keys|
      ensures PivotSpec(rows, cols, pivot).rows[i]
           == Obj(PivotFields(keys[i], Select(rows, KeyIs(col, keys[i])), pivot.valueCols, ColMap(cols)))
    {
      PivotedRowsAt(keys, buckets, pivot.valueCols, ColMap(cols), i);
      BucketsPartition(rows, col, keys[i]);
    }
  }

  /** When no pivot value looks like an array index, the output rows follow the dynamic columns' order. */
  lemma PivotRowsInColumnOrder(rows: seq<Row>, cols: seq<ColumnDef>, pivot: PivotModel)
    requires PivotActive(pivot) && pivot.pivotCol.value in ColMap(cols)
    requires forall i :: 0 <= i < |rows| ==> !IsArrayIndex(BucketKey(Some(ColMap(cols)[pivot.pivotCol.value]), rows[i]))
    ensures var buckets := Buckets(rows, Some(ColMap(cols)[pivot.pivotCol.value]));
      PivotSpec(rows, cols, pivot).rows == PivotedRows(buckets.order, buckets, pivot.valueCols, ColMap(cols))
  {
    var col := Some(ColMap(cols)[pivot.pivotCol.value]);
    var buckets := Buckets(rows, col);
    BucketsFirstSeen(rows, col);
    forall i | 0 <= i < |buckets.order| ensures !IsArrayIndex(buckets.order[i]) {
      assert buckets.order[i] in buckets.entries by {
        assert multiset(buckets.order)[buckets.order[i]] > 0;
      }
      BucketsPartition(rows, col, buckets.order[i]);
    }
    KeysWithoutIndices(buckets);
  }
}

/**
 * The sort stage (`sortRows`): the sort model is resolved against the
 * columns into active keys, and the rows are sorted by a cascade over those
 * keys, each key's comparison scaled by its direction.
 */
module SortStage {
  import opened JsValues
  import opened Sequences
  import opened Columns

  datatype SortDirection = Asc | Desc

  datatype SortModelItem = SortModelItem(colId: string, sort: SortDirection)

  /** A resolved sort key: the column, +1 or -1 for the direction, and the comparator. */
  datatype SortKey = SortKey(col: ColumnDef, dir: int, cmp: (Value, Value) -> int)

  /**
   * The comparator used when a column has none: null and undefined come
   * first, two numbers compare by difference, anything else by the `<`
   * order of the values' string forms.
   */
  function DefaultCompare(a: Value, b: Value): int {
    if IsNullish(a) && IsNullish(b) then 0
    else if IsNullish(a) then -1
    else if IsNullish(b) then 1
    else if a.Num? && b.Num? then a.n - b.n
    else StrCompare(ToJsString(a), ToJsString(b))
  }

  /** Swapping the arguments negates the comparison, so ties and order are consistent both ways. */
  lemma DefaultCompareAntisymmetric(a: Value, b: Value)
    ensures DefaultCompare(b, a) == -DefaultCompare(a, b)
  {
    StrCompareFlip(ToJsString(a), ToJsString(b));
  }

  /** Nullish values sort before everything else; numbers sort by value; strings by their text order. */
  lemma DefaultCompareOrder(a: Value, b: Value)
    ensures IsNullish(a) && !IsNullish(b) ==> DefaultCompare(a, b) < 0
    ensures a.Num? && b.Num? ==> (DefaultCompare(a, b) < 0 <==> a.n < b.n)
    ensures a.Str? && b.Str? ==> (DefaultCompare(a, b) == 0 <==> a == b)
  {
    if a.Str? && b.Str? {
      StrCompareZero(a.s, b.s);
    }
  }

  /**
   * On a column that mixes numbers with strings the default comparator is
   * not a consistent order: 10 sorts before "9" (by text), "9" ties with 9
   * (by text), but 9 sorts before 10 (by value).
   */
  lemma DefaultCompareNotTransitive()
    ensures !Transitive(DefaultCompare)
  {
    var a, b, c := Num(10), Str("9"), Num(9);
    assert ToJsString(a) == "10" by {
      assert NatToString(10) == NatToString(1) + [DigitChar(0)];
    }
    assert ToJsString(c) == "9";
    assert DefaultCompare(a, b) < 0 && DefaultCompare(b, c) == 0 && DefaultCompare(a, c) > 0;
  }

  /** `colMap[m.colId]` as a key: nothing for a missing or non-sortable column. */
  function SortKeyFor(m: SortModelItem, colMap: map<string, ColumnDef>): Option<SortKey> {
    match FindColumn(colMap, m.colId)
    case None => None
    case Some(col) =>
      if col.sortable != Some(true) then None
      else Some(SortKey(col, if m.sort == Desc then -1 else 1,
                        if col.comparator.Some? then col.comparator.value else DefaultCompare))
  }

  /** The active keys, in sort-model order. */
  function ActiveKeys(model: seq<SortModelItem>, colMap: map<string, ColumnDef>): seq<SortKey> {
    if model == [] then []
    else
      var last := match SortKeyFor(model[|model| - 1], colMap) case Some(k) => [k] case None => [];
      ActiveKeys(model[..|model| - 1], colMap) + last
  }

  /**
   * The active keys are the sort-model entries with a sortable column, in
   * order; so there are none exactly when no entry resolves.
   */
  lemma {:induction false} ActiveKeysResolve(model: seq<SortModelItem>, colMap: map<string, ColumnDef>)
    ensures |ActiveKeys(model, colMap)| <= |model|
    ensures forall k :: k in ActiveKeys(model, colMap) ==>
      k.col.sortable == Some(true) && (k.dir == 1 || k.dir == -1)
    ensures ActiveKeys(model, colMap) == [] <==> forall i :: 0 <= i < |model| ==> SortKeyFor(model[i], colMap).None?
  {
    if model != [] {
      var init := model[..|model| - 1];
      ActiveKeysResolve(init, colMap);
      if ActiveKeys(model, colMap) == [] {
        forall i | 0 <= i < |model| ensures SortKeyFor(model[i], colMap).None? {
          if i < |init| {
            assert model[i] == init[i];
          }
        }
      }
    }
  }

  /** One key's comparison of two rows, scaled by its direction. */
  function KeyCompare(k: SortKey, a: Row, b: Row): int {
    k.cmp(GetCellValue(Some(k.col), a), GetCellValue(Some(k.col), b)) * k.dir
  }

  /** The sort callback: the first key that tells the rows apart decides. */
  function Cascade(keys: seq<SortKey>, a: Row, b: Row): int {
    if keys == [] then 0
    else
      var res := KeyCompare(keys[0], a, b);
      if res != 0 then res else Cascade(keys[1..], a, b)
  }

  function RowComparator(keys: seq<SortKey>): (Row, Row) -> int {
    (a, b) => Cascade(keys, a, b)
  }

  /** The cascade's result is that of the first key on which the rows differ. */
  lemma {:induction false} CascadeFirstDifference(keys: seq<SortKey>, a: Row, b: Row, i: nat)
    requires i < |keys|
    requires forall j :: 0 <= j < i ==> KeyCompare(keys[j], a, b) == 0
    requires KeyCompare(keys[i], a, b) != 0
    ensures Cascade(keys, a, b) == KeyCompare(keys[i], a, b)
  {
    if i > 0 {
      assert KeyCompare(keys[0], a, b) == 0;
      CascadeFirstDifference(keys[1..], a, b, i - 1);
    }
  }

  /** Rows that tie on every key tie in the cascade. */
  lemma {:induction false} CascadeAllTie(keys: seq<SortKey>, a: Row, b: Row)
    requires forall j :: 0 <= j < |keys| ==> KeyCompare(keys[j], a, b) == 0
    ensures Cascade(keys, a, b) == 0
  {
    if keys != [] {
      CascadeAllTie(keys[1..], a, b);
    }
  }

  ghost predicate Antisymmetric(cmp: (Value, Value) -> int) {
    forall x, y :: cmp(y, x) == -cmp(x, y)
  }

  /** When every key's comparator is antisymmetric, so is the cascade. */
  lemma {:induction false} CascadeAntisymmetric(keys: seq<SortKey>, a: Row, b: Row)
    requires forall i :: 0 <= i < |keys| ==> Antisymmetric(keys[i].cmp)
    ensures Cascade(keys, b, a) == -Cascade(keys, a, b)
  {
    if keys != [] {
      var k := keys[0];
      var x, y := GetCellValue(Some(k.col), a), GetCellValue(Some(k.col), b);
      assert k.cmp(y, x) == -k.cmp(x, y);
      assert KeyCompare(k, b, a) == -KeyCompare(k, a, b);
      CascadeAntisymmetric(keys[1..], a, b);
    }
  }

  lemma RowComparatorAsymmetric(keys: seq<SortKey>)
    requires forall i :: 0 <= i < |keys| ==> Antisymmetric(keys[i].cmp)
    ensures Asymmetric(RowComparator(keys))
  {
    forall a, b ensures RowComparator(keys)(a, b) > 0 ==> RowComparator(keys)(b, a) <= 0 {
      CascadeAntisymmetric(keys, a, b);
    }
  }

  /** The rows `sortRows` returns. */
  function SortRowsSpec(rows: seq<Row>, cols: seq<ColumnDef>, sortModel: seq<SortModelItem>): seq<Row> {
    if rows == [] then []
    else if sortModel == [] then rows
    else
      var keys := ActiveKeys(sortModel, ColMap(cols));
      if keys == [] then rows else InsertionSort(rows, RowComparator(keys))
  }

  /** `sortRows(rows, cols, sortModel)`: a sorted copy; the input is left as it is. */
  method SortRows(rows: seq<Row>, cols: seq<ColumnDef>, sortModel: seq<SortModelItem>) returns (r: seq<Row>)
    ensures r == SortRowsSpec(rows, cols, sortModel)
  {
    if |rows| == 0 {
      return [];
    }
    if |sortModel| == 0 {
      return rows;
    }
    var colMap := BuildColMap(cols);
    var active := ActiveKeys(sortModel, colMap);
    if |active| == 0 {
      return rows;
    }
    var clone := new Row[|rows|](i requires 0 <= i < |rows| => rows[i]);
    assert clone[..] == rows;
    SortInPlace(clone, RowComparator(active));
    r := clone[..];
  }

  /** Sorting only reorders the rows. */
  lemma SortRowsPermutes(rows: seq<Row>, cols: seq<ColumnDef>, sortModel: seq<SortModelItem>)
    ensures multiset(SortRowsSpec(rows, cols, sortModel)) == multiset(rows)
  {
    if rows != [] && sortModel != [] {
      InsertionSortPermutes(rows, RowComparator(ActiveKeys(sortModel, ColMap(cols))));
    }
  }

  /**
   * With antisymmetric comparators on the active keys, every row of the
   * result is ordered before the next by the cascade.
   */
  lemma SortRowsOrdered(rows: seq<Row>, cols: seq<ColumnDef>, sortModel: seq<SortModelItem>)
    requires forall k :: k in ActiveKeys(sortModel, ColMap(cols)) ==> Antisymmetric(k.cmp)
    ensures AdjacentSorted(SortRowsSpec(rows, cols, sortModel), RowComparator(ActiveKeys(sortModel, ColMap(cols))))
  {
    var keys := ActiveKeys(sortModel, ColMap(cols));
    var r := SortRowsSpec(rows, cols, sortModel);
    if rows != [] && sortModel != [] && keys != [] {
      assert forall i :: 0 <= i < |keys| ==> keys[i] in keys;
      RowComparatorAsymmetric(keys);
      InsertionSortAdjacentSorted(rows, RowComparator(keys));
    } else if keys == [] {
      forall i | 0 <= i < |r| - 1 ensures RowComparator(keys)(r[i], r[i + 1]) <= 0 {
      }
    }
  }

  /** Sorting input that is already in order returns it unchanged, so ties keep their order. */
  lemma {:induction false} InsertionSortOfSorted(s: seq<Row>, cmp: (Row, Row) -> int)
    requires Sorted(s, cmp)
    ensures InsertionSort(s, cmp) == s
  {
    if s != [] {
      var init := s[..|s| - 1];
      SortedInit(s, cmp);
      InsertionSortOfSorted(init, cmp);
      InsertStops(init, s[|s| - 1], cmp);
      SplitLast(s);
    }
  }

  /** Rows already in cascade order come back in the same order. */
  lemma SortRowsKeepsSortedInput(rows: seq<Row>, cols: seq<ColumnDef>, sortModel: seq<SortModelItem>)
    requires Sorted(rows, RowComparator(ActiveKeys(sortModel, ColMap(cols))))
    ensures SortRowsSpec(rows, cols, sortModel) == rows
  {
    if rows != [] && sortModel != [] && ActiveKeys(sortModel, ColMap(cols)) != [] {
      InsertionSortOfSorted(rows, RowComparator(ActiveKeys(sortModel, ColMap(cols))));
    }
  }

  /**
   * Sorting by one sortable column without a custom comparator, whose cells
   * are all numbers, orders the rows by that number: ascending or
   * descending as the direction says.
   */
  lemma SortByNumberColumn(rows: seq<Row>, cols: seq<ColumnDef>, id: string, d: SortDirection)
    requires id in ColMap(cols)
    requires ColMap(cols)[id].sortable == Some(true) && ColMap(cols)[id].comparator.None?
    requires forall i :: 0 <= i < |rows| ==> GetCellValue(Some(ColMap(cols)[id]), rows[i]).Num?
    ensures var r, c := SortRowsSpec(rows, cols, [SortModelItem(id, d)]), Some(ColMap(cols)[id]);
      (forall i :: 0 <= i < |r| ==> GetCellValue(c, r[i]).Num?) &&
      forall i :: 0 <= i < |r| - 1 ==>
        if d == Asc then GetCellValue(c, r[i]).n <= GetCellValue(c, r[i + 1]).n
        else GetCellValue(c, r[i]).n >= GetCellValue(c, r[i + 1]).n
  {
    var model := [SortModelItem(id, d)];
    var col := ColMap(cols)[id];
    var key := SortKey(col, if d == Desc then -1 else 1, DefaultCompare);
    SingleActiveKey(cols, id, d);
    forall x, y ensures DefaultCompare(y, x) == -DefaultCompare(x, y) {
      DefaultCompareAntisymmetric(x, y);
    }
    SortRowsOrdered(rows, cols, model);
    SortRowsPermutes(rows, cols, model);
    var r := SortRowsSpec(rows, cols, model);
    CellsStayNumbers(rows, r, Some(col));
    forall i | 0 <= i < |r| - 1
      ensures if d == Asc then GetCellValue(Some(col), r[i]).n <= GetCellValue(Some(col), r[i + 1]).n
        else GetCellValue(Some(col), r[i]).n >= GetCellValue(Some(col), r[i + 1]).n
    {
      NumberKeyOrder(key, d, r[i], r[i + 1]);
    }
  }

  /** A one-entry sort model on a sortable column without a comparator resolves to one default key. */
  lemma SingleActiveKey(cols: seq<ColumnDef>, id: string, d: SortDirection)
    requires id in ColMap(cols)
    requires ColMap(cols)[id].sortable == Some(true) && ColMap(cols)[id].comparator.None?
    ensures ActiveKeys([SortModelItem(id, d)], ColMap(cols))
         == [SortKey(ColMap(cols)[id], if d == Desc then -1 else 1, DefaultCompare)]
  {
    assert [SortModelItem(id, d)][..0] == [];
  }

  /** A reordering of rows whose cells in a column are all numbers has only number cells there. */
  lemma CellsStayNumbers(rows: seq<Row>, r: seq<Row>, c: Option<ColumnDef>)
    requires multiset(r) == multiset(rows)
    requires forall i :: 0 <= i < |rows| ==> GetCellValue(c, rows[i]).Num?
    ensures forall i :: 0 <= i < |r| ==> GetCellValue(c, r[i]).Num?
  {
    forall i | 0 <= i < |r| ensures GetCellValue(c, r[i]).Num? {
      assert r[i] in multiset(rows);
    }
  }

  /** Two rows in order under one default key on number cells are in number order for its direction. */
  lemma NumberKeyOrder(key: SortKey, d: SortDirection, a: Row, b: Row)
    requires key.cmp == DefaultCompare && key.dir == if d == Desc then -1 else 1
    requires GetCellValue(Some(key.col), a).Num? && GetCellValue(Some(key.col), b).Num?
    requires RowComparator([key])(a, b) <= 0
    ensures if d == Asc then GetCellValue(Some(key.col), a).n <= GetCellValue(Some(key.col), b).n
      else GetCellValue(Some(key.col), a).n >= GetCellValue(Some(key.col), b).n
  {
    assert Cascade([key], a, b) <= 0;
    assert [key][1..] == [];
    assert KeyCompare(key, a, b) <= 0;
  }
}

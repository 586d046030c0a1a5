/**
 * Aggregation (`resolveAggFunc`, `computeAggs`): the built-in
 * aggregations over the cells of a column, and the per-column aggregate
 * record of a set of rows.
 */
module Aggregation {
  import opened JsValues
  import opened Columns
  import opened JsObject

  /** Which aggregation to apply to which column. */
  datatype AggModelItem = AggModelItem(colId: string, aggFunc: AggFunc)

  /**
   * `values.map(v => typeof v === 'number' ? v : Number(v)).filter(v => !isNaN(v))`:
   * the values that coerce to a number, coerced, in order.
   */
  function Numerics(values: seq<Value>): (nums: seq<int>)
    ensures |nums| <= |values|
    ensures forall x :: x in nums ==> exists v :: v in values && ToNumber(v) == Some(x)
  {
    if values == [] then []
    else
      var last := match ToNumber(values[|values| - 1]) case Some(n) => [n] case None => [];
      Numerics(values[..|values| - 1]) + last
  }

  /** `nums.reduce((a, b) => a + b, 0)`. */
  function Sum(nums: seq<int>): int {
    if nums == [] then 0 else Sum(nums[..|nums| - 1]) + nums[|nums| - 1]
  }

  /** `nums.reduce(Math.min, Infinity)` on a non-empty list. */
  function MinOf(nums: seq<int>): int
    requires nums != []
  {
    if |nums| == 1 then nums[0]
    else
      var m, x := MinOf(nums[..|nums| - 1]), nums[|nums| - 1];
      if x < m then x else m
  }

  /** `nums.reduce(Math.max, -Infinity)` on a non-empty list. */
  function MaxOf(nums: seq<int>): int
    requires nums != []
  {
    if |nums| == 1 then nums[0]
    else
      var m, x := MaxOf(nums[..|nums| - 1]), nums[|nums| - 1];
      if x > m then x else m
  }

  /** Integer division rounding toward zero. */
  function TruncDiv(a: int, b: int): int
    requires b > 0
  {
    if a >= 0 then a / b else -((-a) / b)
  }

  /** The built-in aggregation named `name` applied to `values`. */
  function ApplyNamed(name: string, values: seq<Value>): Value {
    var nums := Numerics(values);
    if name == "sum" then (if nums == [] then Null else Num(Sum(nums)))
    else if name == "min" then (if nums == [] then Null else Num(MinOf(nums)))
    else if name == "max" then (if nums == [] then Null else Num(MaxOf(nums)))
    else if name == "avg" then (if nums == [] then Null else Num(TruncDiv(Sum(nums), |nums|)))
    else Num(|values|)
  }

  /** `resolveAggFunc(agg)`: a custom reducer as it is, a name as its built-in aggregation. */
  function ResolveAggFunc(agg: AggFunc): seq<Value> -> Value {
    match agg
    case Reducer(fn) => fn
    case Named(name) => (values: seq<Value>) => ApplyNamed(name, values)
  }

  predicate IsNumericAgg(name: string) {
    name == "sum" || name == "min" || name == "max" || name == "avg"
  }

  /** `count`, and every name that is not a numeric aggregation, counts the values, whatever they are. */
  lemma CountAggregation(name: string, values: seq<Value>)
    requires !IsNumericAgg(name)
    ensures ResolveAggFunc(Named(name))(values) == Num(|values|)
  {
  }

  /** A numeric aggregation over values none of which is a number is null, not 0. */
  lemma NumericAggregationOfNothing(name: string, values: seq<Value>)
    requires IsNumericAgg(name) && Numerics(values) == []
    ensures ResolveAggFunc(Named(name))(values) == Null
  {
  }

  /**
   * Appending a value to the aggregated cells appends the number `Number`
   * makes of it, or nothing when that is NaN.
   */
  lemma NumericsAppend(values: seq<Value>, v: Value)
    ensures Numerics(values + [v]) == Numerics(values) + match ToNumber(v) case Some(n) => [n] case None => []
  {
    assert (values + [v])[..|values|] == values;
  }

  /**
   * Undefined, and every string `Number` reads as NaN, are skipped by the
   * numeric aggregations, while null counts as 0.
   */
  lemma NumericsSkipsNaN(values: seq<Value>, s: string)
    requires StringToNumber(s).None?
    ensures Numerics(values + [Undefined]) == Numerics(values)
    ensures Numerics(values + [Null]) == Numerics(values) + [0]
    ensures Numerics(values + [Str(s)]) == Numerics(values)
  {
    NumericsAppend(values, Undefined);
    NumericsAppend(values, Null);
    NumericsAppend(values, Str(s));
  }

  /** A word such as "x" is one of those strings. */
  lemma WordIsNaN()
    ensures StringToNumber("x").None?
  {
    assert Trim("x") == "x";
  }

  /** Cells that are all numbers aggregate as those numbers. */
  lemma {:induction false} NumericsOfNumbers(values: seq<Value>)
    requires forall i :: 0 <= i < |values| ==> values[i].Num?
    ensures |Numerics(values)| == |values|
    ensures forall i :: 0 <= i < |values| ==> Numerics(values)[i] == values[i].n
  {
    if values != [] {
      NumericsOfNumbers(values[..|values| - 1]);
    }
  }

  /** The minimum is one of the numbers and no number is below it. */
  lemma {:induction false} MinOfIsLeast(nums: seq<int>)
    requires nums != []
    ensures MinOf(nums) in nums
    ensures forall i :: 0 <= i < |nums| ==> MinOf(nums) <= nums[i]
  {
    if |nums| > 1 {
      MinOfIsLeast(nums[..|nums| - 1]);
    }
  }

  /** The maximum is one of the numbers and no number is above it. */
  lemma {:induction false} MaxOfIsGreatest(nums: seq<int>)
    requires nums != []
    ensures MaxOf(nums) in nums
    ensures forall i :: 0 <= i < |nums| ==> nums[i] <= MaxOf(nums)
  {
    if |nums| > 1 {
      MaxOfIsGreatest(nums[..|nums| - 1]);
    }
  }

  lemma {:induction false} SumBetween(nums: seq<int>)
    requires nums != []
    ensures |nums| * MinOf(nums) <= Sum(nums) <= |nums| * MaxOf(nums)
  {
    if |nums| > 1 {
      var init, last := nums[..|nums| - 1], nums[|nums| - 1];
      var k := |init|;
      SumBetween(init);
      var lo, hi := MinOf(nums), MaxOf(nums);
      assert lo <= MinOf(init) && lo <= last;
      assert MaxOf(init) <= hi && last <= hi;
      MulMonotone(k, lo, MinOf(init));
      MulMonotone(k, MaxOf(init), hi);
      MulSucc(k, lo);
      MulSucc(k, hi);
      assert Sum(nums) == Sum(init) + last;
    }
  }

  lemma MulSucc(k: nat, x: int)
    ensures (k + 1) * x == k * x + x
  {
  }

  lemma MulMonotone(k: nat, a: int, b: int)
    requires a <= b
    ensures k * a <= k * b
  {
    assert k * b - k * a == k * (b - a);
  }

  /** A quotient rounded toward zero stays between bounds that the exact quotient lies between. */
  lemma TruncDivBetween(s: int, n: int, lo: int, hi: int)
    requires n > 0 && n * lo <= s <= n * hi
    ensures lo <= TruncDiv(s, n) <= hi
  {
    var q := TruncDiv(s, n);
    if s >= 0 {
      assert s == n * q + s % n && 0 <= s % n < n;
    } else {
      var p := (-s) / n;
      assert -s == n * p + (-s) % n && 0 <= (-s) % n < n;
      assert q == -p;
    }
    if lo > q {
      MulMonotone(n, q + 1, lo);
    }
    if q > hi {
      MulMonotone(n, hi + 1, q);
    }
  }

  /** The four numeric aggregations over values with at least one number. */
  lemma NumericAggregations(values: seq<Value>)
    requires Numerics(values) != []
    ensures var nums := Numerics(values);
      && ApplyNamed("sum", values) == Num(Sum(nums))
      && ApplyNamed("min", values) == Num(MinOf(nums))
      && ApplyNamed("max", values) == Num(MaxOf(nums))
      && ApplyNamed("avg", values) == Num(TruncDiv(Sum(nums), |nums|))
  {
    assert "min" != "sum" && "max" != "sum" && "max" != "min";
    assert "avg" != "sum" && "avg" != "min" && "avg" != "max";
  }

  /**
   * The built-in numeric aggregations over values with at least one
   * number: `min` and `max` are attained and bound every number; `avg`
   * lies between them.
   */
  lemma NumericAggregationBounds(values: seq<Value>)
    requires Numerics(values) != []
    ensures var nums := Numerics(values);
      && ApplyNamed("sum", values) == Num(Sum(nums))
      && ApplyNamed("min", values).Num? && ApplyNamed("min", values).n in nums
      && ApplyNamed("max", values).Num? && ApplyNamed("max", values).n in nums
      && (forall i :: 0 <= i < |nums| ==> ApplyNamed("min", values).n <= nums[i] <= ApplyNamed("max", values).n)
      && ApplyNamed("avg", values).Num?
      && ApplyNamed("min", values).n <= ApplyNamed("avg", values).n <= ApplyNamed("max", values).n
  {
    var nums := Numerics(values);
    NumericAggregations(values);
    MinOfIsLeast(nums);
    MaxOfIsGreatest(nums);
    SumBetween(nums);
    TruncDivBetween(Sum(nums), |nums|, MinOf(nums), MaxOf(nums));
  }

  // ---------------------------------------------------------------------
  // The aggregate record of a set of rows

  /** The aggregate of one column over `rows`, by the column's aggregation item. */
  function AggregateFor(rows: seq<Row>, colMap: map<string, ColumnDef>, item: AggModelItem, colId: string): Value {
    ResolveAggFunc(item.aggFunc)(ColumnValues(rows, FindColumn(colMap, colId)))
  }

  /** The record `computeAggs` returns: nothing for no rows, else one aggregate per aggregated column. */
  function Aggregates(rows: seq<Row>, colMap: map<string, ColumnDef>, lookup: Dict<AggModelItem>): (agg: map<string, Value>)
    ensures rows == [] ==> agg == map[]
    ensures rows != [] ==> agg.Keys == lookup.entries.Keys
  {
    if rows == [] then map[]
    else map c | c in lookup.entries :: AggregateFor(rows, colMap, lookup.entries[c], c)
  }

  /** The aggregates of the columns `ks`, recorded in that order. */
  function AggsOver(rows: seq<Row>, colMap: map<string, ColumnDef>, lookup: Dict<AggModelItem>, ks: seq<string>): map<string, Value>
    requires forall k :: k in ks ==> k in lookup.entries
  {
    if ks == [] then map[]
    else
      var c := ks[|ks| - 1];
      AggsOver(rows, colMap, lookup, ks[..|ks| - 1])[c := AggregateFor(rows, colMap, lookup.entries[c], c)]
  }

  lemma {:induction false} AggsOverKeys(rows: seq<Row>, colMap: map<string, ColumnDef>, lookup: Dict<AggModelItem>, ks: seq<string>)
    requires forall k :: k in ks ==> k in lookup.entries
    ensures forall c :: c in AggsOver(rows, colMap, lookup, ks) <==> c in ks
    ensures forall c :: c in AggsOver(rows, colMap, lookup, ks) ==>
      AggsOver(rows, colMap, lookup, ks)[c] == AggregateFor(rows, colMap, lookup.entries[c], c)
  {
    if ks != [] {
      var init := ks[..|ks| - 1];
      assert forall k :: k in init ==> k in ks;
      AggsOverKeys(rows, colMap, lookup, init);
      assert ks == init + [ks[|ks| - 1]];
    }
  }

  /** `computeAggs(rows, colMap, aggLookup)`. */
  method ComputeAggs(rows: seq<Row>, colMap: map<string, ColumnDef>, lookup: Dict<AggModelItem>)
    returns (agg: map<string, Value>)
    requires Valid(lookup)
    ensures agg == Aggregates(rows, colMap, lookup)
  {
    if |rows| == 0 {
      return map[];
    }
    var keys := Keys(lookup);
    AggsOverAll(rows, colMap, lookup);
    agg := AggregateEach(rows, colMap, lookup, keys);
  }

  /** The loop of `computeAggs`: one aggregate per key, in the order of `ks`. */
  method AggregateEach(rows: seq<Row>, colMap: map<string, ColumnDef>, lookup: Dict<AggModelItem>, ks: seq<string>)
    returns (agg: map<string, Value>)
    requires forall k :: k in ks ==> k in lookup.entries
    ensures agg == AggsOver(rows, colMap, lookup, ks)
  {
    agg := map[];
    for i := 0 to |ks|
      invariant agg == AggsOver(rows, colMap, lookup, ks[..i])
    {
      var colId := ks[i];
      var item := lookup.entries[colId];
      var col := FindColumn(colMap, colId);
      var values := ColumnValues(rows, col);
      var fn := ResolveAggFunc(item.aggFunc);
      agg := agg[colId := fn(values)];
      assert ks[..i + 1][..i] == ks[..i];
    }
    assert ks[..|ks|] == ks;
  }

  /** Recording the aggregates in `Object.keys` order yields the aggregate record. */
  lemma AggsOverAll(rows: seq<Row>, colMap: map<string, ColumnDef>, lookup: Dict<AggModelItem>)
    requires Valid(lookup) && rows != []
    ensures forall k :: k in Keys(lookup) ==> k in lookup.entries
    ensures AggsOver(rows, colMap, lookup, Keys(lookup)) == Aggregates(rows, colMap, lookup)
  {
    KeysCoverEntries(lookup);
    var keys := Keys(lookup);
    AggsOverKeys(rows, colMap, lookup, keys);
    var m, spec := AggsOver(rows, colMap, lookup, keys), Aggregates(rows, colMap, lookup);
    assert forall c :: c in m <==> c in spec;
    assert forall c :: c in m ==> m[c] == spec[c];
    SameMaps(m, spec);
  }

  lemma SameMaps<K, V>(m: map<K, V>, n: map<K, V>)
    requires forall c :: c in m <==> c in n
    requires forall c :: c in m ==> m[c] == n[c]
    ensures m == n
  {
  }

  // ---------------------------------------------------------------------
  // The aggregation lookup

  /** `aggModel.forEach(a => aggLookup[a.colId] = a)`, as a value. */
  function AggLookup(aggModel: seq<AggModelItem>): (d: Dict<AggModelItem>)
    ensures Valid(d)
  {
    if aggModel == [] then EmptyDict()
    else
      var a := aggModel[|aggModel| - 1];
      Put(AggLookup(aggModel[..|aggModel| - 1]), a.colId, a)
  }

  method BuildAggLookup(aggModel: seq<AggModelItem>) returns (lookup: Dict<AggModelItem>)
    ensures lookup == AggLookup(aggModel)
  {
    lookup := EmptyDict();
    for i := 0 to |aggModel|
      invariant lookup == AggLookup(aggModel[..i])
    {
      assert aggModel[..i + 1][..i] == aggModel[..i];
      lookup := Put(lookup, aggModel[i].colId, aggModel[i]);
    }
    assert aggModel[..|aggModel|] == aggModel;
  }

  /** A column is aggregated by the last item that names it; a column no item names is not aggregated. */
  lemma AggLookupLastWins(aggModel: seq<AggModelItem>, colId: string)
    ensures colId in AggLookup(aggModel).entries <==> exists i :: 0 <= i < |aggModel| && aggModel[i].colId == colId
    ensures forall i :: 0 <= i < |aggModel| && aggModel[i].colId == colId
                 && (forall j :: i < j < |aggModel| ==> aggModel[j].colId != colId)
                 ==> AggLookup(aggModel).entries[colId] == aggModel[i]
  {
    AggLookupNames(aggModel, colId);
    forall i | 0 <= i < |aggModel| && aggModel[i].colId == colId
                 && (forall j :: i < j < |aggModel| ==> aggModel[j].colId != colId)
      ensures AggLookup(aggModel).entries[colId] == aggModel[i]
    {
      AggLookupLast(aggModel, colId, i);
    }
  }

  /** Some item of the aggregation model names the column. */
  ghost predicate Names(aggModel: seq<AggModelItem>, colId: string) {
    exists i :: 0 <= i < |aggModel| && aggModel[i].colId == colId
  }

  lemma NamesSplit(aggModel: seq<AggModelItem>, colId: string)
    requires aggModel != []
    ensures Names(aggModel, colId) <==> Names(aggModel[..|aggModel| - 1], colId) || aggModel[|aggModel| - 1].colId == colId
  {
    var init := aggModel[..|aggModel| - 1];
    if Names(init, colId) {
      var i :| 0 <= i < |init| && init[i].colId == colId;
      assert aggModel[i] == init[i];
    }
    if Names(aggModel, colId) {
      var i :| 0 <= i < |aggModel| && aggModel[i].colId == colId;
      if i < |init| {
        assert init[i] == aggModel[i];
      }
    }
  }

  lemma {:induction false} AggLookupNames(aggModel: seq<AggModelItem>, colId: string)
    ensures colId in AggLookup(aggModel).entries <==> Names(aggModel, colId)
  {
    if aggModel != [] {
      AggLookupNames(aggModel[..|aggModel| - 1], colId);
      NamesSplit(aggModel, colId);
    }
  }

  lemma {:induction false} AggLookupLast(aggModel: seq<AggModelItem>, colId: string, i: int)
    requires 0 <= i < |aggModel| && aggModel[i].colId == colId
    requires forall j :: i < j < |aggModel| ==> aggModel[j].colId != colId
    ensures colId in AggLookup(aggModel).entries && AggLookup(aggModel).entries[colId] == aggModel[i]
  {
    if i < |aggModel| - 1 {
      var init := aggModel[..|aggModel| - 1];
      assert forall j :: 0 <= j < |init| ==> init[j] == aggModel[j];
      AggLookupLast(init, colId, i);
    }
  }
}

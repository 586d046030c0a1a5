/**
 * Plain JavaScript objects used as dictionaries (`const groups = {}`,
 * `groups[k] = ...`, `Object.keys(groups)`), with the enumeration order
 * that `Object.keys` gives string-keyed properties: the keys that are
 * array indices first, in ascending numeric order, then every other key
 * in the order it was first assigned.
 */
module JsObject {
  import opened JsValues
  import opened Sequences

  /** The keys in the order they were first assigned, and the entries. */
  datatype Dict<V> = Dict(order: seq<string>, entries: map<string, V>)

  /** Every key of the entries occurs exactly once in the insertion order, and no other key does. */
  ghost predicate Valid<V>(d: Dict<V>) {
    forall k :: multiset(d.order)[k] == if k in d.entries then 1 else 0
  }

  function EmptyDict<V>(): (d: Dict<V>)
    ensures Valid(d) && d.entries == map[]
  {
    Dict([], map[])
  }

  /**
   * `d[k] = v`: a key assigned for the first time joins the end of the
   * insertion order; assigning an existing key keeps its place.
   */
  function Put<V>(d: Dict<V>, k: string, v: V): (r: Dict<V>)
    ensures r.entries == d.entries[k := v]
    ensures Valid(d) ==> Valid(r)
    ensures Valid(d) && k in d.entries ==> r.order == d.order
    ensures k !in d.entries ==> r.order == d.order + [k]
  {
    if k in d.entries then Dict(d.order, d.entries[k := v])
    else Dict(d.order + [k], d.entries[k := v])
  }

  /** `d[k]`, with a missing key as `None`. */
  function Get<V>(d: Dict<V>, k: string): (r: Option<V>)
    ensures r.Some? <==> k in d.entries
    ensures r.Some? ==> r.value == d.entries[k]
  {
    if k in d.entries then Some(d.entries[k]) else None
  }

  /**
   * A canonical array index: the decimal text, without leading zeros, of
   * an integer below 2^32 - 1.
   */
  predicate IsArrayIndex(k: string) {
    k != "" && AllDigits(k) && (k[0] != '0' || k == "0") && DigitsValue(k) < 0xFFFF_FFFF
  }

  predicate IsNamedKey(k: string) {
    !IsArrayIndex(k)
  }

  function IndexValue(k: string): nat {
    if AllDigits(k) then DigitsValue(k) else 0
  }

  /** Numeric order of array-index keys. */
  function IndexCompare(a: string, b: string): int {
    IndexValue(a) - IndexValue(b)
  }

  /** `Object.keys(d)`. */
  function Keys<V>(d: Dict<V>): seq<string> {
    InsertionSort(Select(d.order, IsArrayIndex), IndexCompare) + Select(d.order, IsNamedKey)
  }

  /** `Object.keys` lists the insertion order rearranged: every key as often as it was inserted. */
  lemma KeysPermutation<V>(d: Dict<V>)
    ensures multiset(Keys(d)) == multiset(d.order)
  {
    var idx := Select(d.order, IsArrayIndex);
    InsertionSortPermutes(idx, IndexCompare);
    forall x ensures multiset(Keys(d))[x] == multiset(d.order)[x] {
      SelectMultiset(d.order, IsArrayIndex, x);
      SelectMultiset(d.order, IsNamedKey, x);
    }
  }

  /** Each key of a dictionary is listed exactly once, and nothing else is. */
  lemma KeysExactlyOnce<V>(d: Dict<V>)
    requires Valid(d)
    ensures forall k :: multiset(Keys(d))[k] == if k in d.entries then 1 else 0
  {
    KeysPermutation(d);
  }

  /** Every key `Object.keys` lists has an entry. */
  lemma KeysInEntries<V>(d: Dict<V>)
    requires Valid(d)
    ensures forall k :: k in Keys(d) ==> k in d.entries
  {
    KeysCoverEntries(d);
  }

  /** `Object.keys` lists exactly the keys of the entries. */
  lemma KeysCoverEntries<V>(d: Dict<V>)
    requires Valid(d)
    ensures forall k :: k in Keys(d) <==> k in d.entries
  {
    KeysExactlyOnce(d);
    forall k ensures k in Keys(d) <==> k in d.entries {
      assert k in Keys(d) <==> multiset(Keys(d))[k] > 0;
    }
  }

  /**
   * The layout of `Object.keys`: a prefix of array-index keys in ascending
   * numeric order, followed by the other keys in insertion order.
   */
  lemma KeysLayout<V>(d: Dict<V>)
    ensures var ks, n := Keys(d), |Select(d.order, IsArrayIndex)|;
      n <= |ks|
      && (forall i :: 0 <= i < n ==> IsArrayIndex(ks[i]))
      && (forall i, j :: 0 <= i < j < n ==> IndexValue(ks[i]) <= IndexValue(ks[j]))
      && ks[n..] == Select(d.order, IsNamedKey)
  {
    var idx := Select(d.order, IsArrayIndex);
    var sorted := InsertionSort(idx, IndexCompare);
    InsertionSortPermutes(idx, IndexCompare);
    SelectSatisfies(d.order, IsArrayIndex);
    forall i | 0 <= i < |sorted| ensures IsArrayIndex(sorted[i]) {
      assert sorted[i] in multiset(idx);
      var j :| 0 <= j < |idx| && idx[j] == sorted[i];
    }
    InsertionSortAdjacentSorted(idx, IndexCompare);
    AdjacentSortedIsSorted(sorted, IndexCompare);
    assert Keys(d)[..|sorted|] == sorted;
  }

  /** With no array-index key, `Object.keys` is exactly the insertion order. */
  lemma KeysWithoutIndices<V>(d: Dict<V>)
    requires forall i :: 0 <= i < |d.order| ==> !IsArrayIndex(d.order[i])
    ensures Keys(d) == d.order
  {
    SelectNone(d.order, IsArrayIndex);
    SelectAll(d.order, IsNamedKey);
  }

  lemma DigitsOf202()
    ensures AllDigits("202") && DigitsValue("202") == 202
  {
    assert "202"[..2] == "20" && "20"[..1] == "2" && "2"[..0] == "";
  }

  lemma YearIndices()
    ensures IsArrayIndex("2021") && IndexValue("2021") == 2021
    ensures IsArrayIndex("2020") && IndexValue("2020") == 2020
  {
    DigitsOf202();
    assert "2021"[..3] == "202" && "2020"[..3] == "202";
  }

  lemma YearsSelected()
    ensures Select(["2021", "2020"], IsArrayIndex) == ["2021", "2020"]
    ensures Select(["2021", "2020"], IsNamedKey) == []
  {
    YearIndices();
    assert ["2021", "2020"][..1] == ["2021"] && ["2021"][..0] == [];
  }

  lemma YearsSorted()
    ensures InsertionSort(["2021", "2020"], IndexCompare) == ["2020", "2021"]
  {
    YearIndices();
    assert ["2021", "2020"][..1] == ["2021"] && ["2021"][..0] == [];
    assert InsertionSort(["2021"], IndexCompare) == ["2021"];
    assert Insert(["2021"], "2020", IndexCompare) == ["2020", "2021"];
  }

  /** Keys inserted as "2021" then "2020" enumerate as "2020", "2021". */
  lemma KeysReorderYears()
    ensures Keys(Dict(["2021", "2020"], map["2021" := 0, "2020" := 1])) == ["2020", "2021"]
  {
    YearsSelected();
    YearsSorted();
    assert ["2020", "2021"] + [] == ["2020", "2021"];
  }
}

/**
 * The array built-ins the engine leans on: `filter` (Select), a stable
 * sort (`Array.prototype.sort`, modelled as insertion sort), and the
 * facts about them that the stages need.
 */
module Sequences {

  ghost predicate Distinct<T>(s: seq<T>) {
    forall i, j :: 0 <= i < j < |s| ==> s[i] != s[j]
  }

  /** Dropping the last element of a duplicate-free sequence leaves one that has no copy of it. */
  lemma DistinctSplit<T>(s: seq<T>)
    requires Distinct(s) && s != []
    ensures Distinct(s[..|s| - 1]) && s[|s| - 1] !in s[..|s| - 1]
    ensures forall y :: y in s <==> y in s[..|s| - 1] || y == s[|s| - 1]
  {
    var init := s[..|s| - 1];
    assert s == init + [s[|s| - 1]];
    forall i | 0 <= i < |init| ensures init[i] != s[|s| - 1] {
      assert init[i] == s[i];
    }
  }

  /** `s.filter(p)`: the elements of `s` that satisfy `p`, in order. */
  function Select<T>(s: seq<T>, p: T -> bool): (r: seq<T>)
    ensures |r| <= |s|
  {
    if s == [] then []
    else Select(s[..|s| - 1], p) + (if p(s[|s| - 1]) then [s[|s| - 1]] else [])
  }

  /** Filtering with a predicate every element satisfies changes nothing. */
  lemma {:induction false} SelectAll<T>(s: seq<T>, p: T -> bool)
    requires forall i :: 0 <= i < |s| ==> p(s[i])
    ensures Select(s, p) == s
  {
    if s != [] {
      SelectAll(s[..|s| - 1], p);
      assert s == s[..|s| - 1] + [s[|s| - 1]];
    }
  }

  /** Filtering with a predicate no element satisfies leaves nothing. */
  lemma {:induction false} SelectNone<T>(s: seq<T>, p: T -> bool)
    requires forall i :: 0 <= i < |s| ==> !p(s[i])
    ensures Select(s, p) == []
  {
    if s != [] {
      SelectNone(s[..|s| - 1], p);
    }
  }

  /** Filtering twice is filtering once with the conjunction of the two predicates. */
  lemma {:induction false} SelectSelect<T>(s: seq<T>, p: T -> bool, q: T -> bool, pq: T -> bool)
    requires forall x :: pq(x) == (p(x) && q(x))
    ensures Select(Select(s, p), q) == Select(s, pq)
  {
    if s != [] {
      var init, last := s[..|s| - 1], s[|s| - 1];
      SelectSelect(init, p, q, pq);
      SelectAppend(Select(init, p), if p(last) then [last] else [], q);
    }
  }

  /** A sequence in which nothing occurs twice has no repeated element. */
  lemma MultisetDistinct<T>(s: seq<T>)
    requires forall x :: multiset(s)[x] <= 1
    ensures Distinct(s)
  {
    forall i, j | 0 <= i < j < |s| ensures s[i] != s[j] {
      var front, back := s[..j], s[j..];
      assert s == front + back;
      assert s[i] in front && s[j] == back[0];
      assert multiset(s)[s[j]] == multiset(front)[s[j]] + multiset(back)[s[j]];
    }
  }

  /** `a` can be obtained from `b` by deleting elements. */
  ghost predicate IsSubsequence<T>(a: seq<T>, b: seq<T>)
    decreases |b|
  {
    if a == [] then true
    else if b == [] then false
    else if a[|a| - 1] == b[|b| - 1] then IsSubsequence(a[..|a| - 1], b[..|b| - 1])
    else IsSubsequence(a, b[..|b| - 1])
  }

  lemma {:induction false} SelectAppend<T>(s: seq<T>, t: seq<T>, p: T -> bool)
    ensures Select(s + t, p) == Select(s, p) + Select(t, p)
    decreases |t|
  {
    if t != [] {
      assert (s + t)[..|s + t| - 1] == s + t[..|t| - 1];
      SelectAppend(s, t[..|t| - 1], p);
    } else {
      assert s + t == s;
    }
  }

  /** Every element `Select` keeps satisfies the predicate. */
  lemma {:induction false} SelectSatisfies<T>(s: seq<T>, p: T -> bool)
    ensures forall i :: 0 <= i < |Select(s, p)| ==> p(Select(s, p)[i])
  {
    if s != [] {
      SelectSatisfies(s[..|s| - 1], p);
    }
  }

  /**
   * `Select` keeps exactly the occurrences that satisfy the predicate: each
   * such element as often as in `s`, every other element not at all.
   */
  lemma {:induction false} SelectMultiset<T>(s: seq<T>, p: T -> bool, x: T)
    ensures multiset(Select(s, p))[x] == if p(x) then multiset(s)[x] else 0
  {
    if s != [] {
      SelectMultiset(s[..|s| - 1], p, x);
      assert s == s[..|s| - 1] + [s[|s| - 1]];
    }
  }

  lemma {:induction false} SelectIsSubsequence<T>(s: seq<T>, p: T -> bool)
    ensures IsSubsequence(Select(s, p), s)
  {
    if s != [] {
      var init := s[..|s| - 1];
      assert s == init + [s[|s| - 1]];
      SelectIsSubsequence(init, p);
      if p(s[|s| - 1]) {
        var r := Select(s, p);
        assert r[..|r| - 1] == Select(init, p);
      } else {
        assert Select(s, p) == Select(init, p);
        SubsequenceOfLonger(Select(init, p), init, s[|s| - 1]);
      }
    }
  }

  /** A subsequence of `b` is a subsequence of `b` with one more element appended. */
  lemma {:induction false} SubsequenceOfLonger<T>(a: seq<T>, b: seq<T>, y: T)
    requires IsSubsequence(a, b)
    ensures IsSubsequence(a, b + [y])
    decreases |b|, 1
  {
    assert (b + [y])[..|b|] == b;
    if a != [] && a[|a| - 1] == y {
      SubsequenceDropLast(a, b);
    }
  }

  lemma {:induction false} SubsequenceDropLast<T>(a: seq<T>, b: seq<T>)
    requires a != [] && IsSubsequence(a, b)
    ensures IsSubsequence(a[..|a| - 1], b)
    decreases |b|, 0
  {
    var b', y := b[..|b| - 1], b[|b| - 1];
    assert b == b' + [y];
    if a[|a| - 1] == y {
      SubsequenceOfLonger(a[..|a| - 1], b', y);
    } else {
      SubsequenceDropLast(a, b');
      SubsequenceOfLonger(a[..|a| - 1], b', y);
    }
  }

  // ---------------------------------------------------------------------
  // Finding, removing and toggling elements

  /** `s.findIndex(p)`: the first index whose element satisfies `p`, or -1. */
  function FirstIndex<T>(s: seq<T>, p: T -> bool): (i: int)
    ensures -1 <= i < |s|
    ensures i == -1 <==> forall j :: 0 <= j < |s| ==> !p(s[j])
    ensures i >= 0 ==> p(s[i]) && forall j :: 0 <= j < i ==> !p(s[j])
  {
    if s == [] then -1
    else if p(s[0]) then 0
    else
      var k := FirstIndex(s[1..], p);
      assert forall j :: 0 < j < |s| ==> s[1..][j - 1] == s[j];
      if k == -1 then -1 else k + 1
  }

  /** `s.splice(i, 1)`. */
  function RemoveAt<T>(s: seq<T>, i: int): seq<T>
    requires 0 <= i < |s|
  {
    s[..i] + s[i + 1..]
  }

  function Not<T>(p: T -> bool): T -> bool {
    x => !p(x)
  }

  /** Appends `item` when no element satisfies `p`, and otherwise removes the first element that does. */
  function Toggle<T>(s: seq<T>, p: T -> bool, item: T): seq<T> {
    var i := FirstIndex(s, p);
    if i == -1 then s + [item] else RemoveAt(s, i)
  }

  lemma SelectSingleton<T>(x: T, p: T -> bool)
    ensures Select([x], p) == if p(x) then [x] else []
  {
    assert [x][..0] == [];
  }

  /**
   * Toggling leaves the elements that do not satisfy `p` as they were, in
   * order, and adds one element satisfying `p` when there was none or
   * removes one when there was.
   */
  lemma ToggleSelect<T>(s: seq<T>, p: T -> bool, item: T)
    requires p(item)
    ensures Select(Toggle(s, p, item), Not(p)) == Select(s, Not(p))
    ensures |Select(Toggle(s, p, item), p)| == if |Select(s, p)| == 0 then 1 else |Select(s, p)| - 1
  {
    var i := FirstIndex(s, p);
    if i == -1 {
      ToggleSelectAbsent(s, p, item);
    } else {
      ToggleSelectPresent(s, p, i);
    }
  }

  lemma ToggleSelectAbsent<T>(s: seq<T>, p: T -> bool, item: T)
    requires p(item) && forall j :: 0 <= j < |s| ==> !p(s[j])
    ensures Select(s + [item], Not(p)) == Select(s, Not(p))
    ensures |Select(s + [item], p)| == 1 && |Select(s, p)| == 0
  {
    SelectAppend(s, [item], p);
    SelectAppend(s, [item], Not(p));
    SelectSingleton(item, p);
    SelectSingleton(item, Not(p));
    SelectNone(s, p);
  }

  lemma ToggleSelectPresent<T>(s: seq<T>, p: T -> bool, i: int)
    requires 0 <= i < |s| && p(s[i])
    ensures Select(RemoveAt(s, i), Not(p)) == Select(s, Not(p))
    ensures |Select(RemoveAt(s, i), p)| == |Select(s, p)| - 1
  {
    RemoveKeepsOthers(s, p, i);
    RemoveDropsOne(s, p, i);
  }

  lemma RemoveKeepsOthers<T>(s: seq<T>, p: T -> bool, i: int)
    requires 0 <= i < |s| && p(s[i])
    ensures Select(RemoveAt(s, i), Not(p)) == Select(s, Not(p))
  {
    assert !Not(p)(s[i]);
    RemoveUnselected(s, Not(p), i);
  }

  /** Removing an element the predicate rejects does not change the filtered sequence. */
  lemma RemoveUnselected<T>(s: seq<T>, q: T -> bool, i: int)
    requires 0 <= i < |s| && !q(s[i])
    ensures Select(RemoveAt(s, i), q) == Select(s, q)
  {
    var front, back := s[..i], s[i + 1..];
    ThreeWay(s, i);
    SelectAppend(front + [s[i]], back, q);
    SelectAppend(front, [s[i]], q);
    SelectSingleton(s[i], q);
    assert Select(front + [s[i]], q) == Select(front, q);
    SelectAppend(front, back, q);
  }

  lemma RemoveDropsOne<T>(s: seq<T>, p: T -> bool, i: int)
    requires 0 <= i < |s| && p(s[i])
    ensures |Select(RemoveAt(s, i), p)| == |Select(s, p)| - 1
  {
    RemoveAtSelect(s, p, i);
    SelectSingleton(s[i], p);
  }

  /** Filtering around a removed element: the parts before and after it, with and without it. */
  lemma RemoveAtSelect<T>(s: seq<T>, q: T -> bool, i: int)
    requires 0 <= i < |s|
    ensures Select(RemoveAt(s, i), q) == Select(s[..i], q) + Select(s[i + 1..], q)
    ensures Select(s, q) == Select(s[..i], q) + Select([s[i]], q) + Select(s[i + 1..], q)
  {
    var front, back := s[..i], s[i + 1..];
    ThreeWay(s, i);
    SelectAppend(front + [s[i]], back, q);
    SelectAppend(front, [s[i]], q);
    SelectAppend(front, back, q);
  }

  lemma ThreeWay<T>(s: seq<T>, i: int)
    requires 0 <= i < |s|
    ensures s == s[..i] + [s[i]] + s[i + 1..]
  {
  }

  /** Toggling an absent element twice gives back the sequence. */
  lemma ToggleTwice<T>(s: seq<T>, p: T -> bool, item: T)
    requires p(item) && forall j :: 0 <= j < |s| ==> !p(s[j])
    ensures Toggle(Toggle(s, p, item), p, item) == s
  {
    var once := s + [item];
    FirstIndexAfter(s, p, item);
    assert once[..|s|] == s;
  }

  /** The first element satisfying `p` of `base + [x]`, when `base` has none, is `x`. */
  lemma FirstIndexAfter<T>(base: seq<T>, p: T -> bool, x: T)
    requires p(x) && forall j :: 0 <= j < |base| ==> !p(base[j])
    ensures FirstIndex(base, p) == -1 && FirstIndex(base + [x], p) == |base|
  {
    var s := base + [x];
    assert forall j :: 0 <= j < |base| ==> s[j] == base[j];
    assert p(s[|base|]);
  }

  // ---------------------------------------------------------------------
  // Sorting

  /** `(a, b) => cmp(a, b) > 0` is an asymmetric relation. */
  ghost predicate Asymmetric<T(!new)>(cmp: (T, T) -> int) {
    forall a, b :: cmp(a, b) > 0 ==> cmp(b, a) <= 0
  }

  ghost predicate Transitive<T(!new)>(cmp: (T, T) -> int) {
    forall a, b, c :: cmp(a, b) <= 0 && cmp(b, c) <= 0 ==> cmp(a, c) <= 0
  }

  /** Every element is ordered before its successor. */
  ghost predicate AdjacentSorted<T>(s: seq<T>, cmp: (T, T) -> int) {
    forall i :: 0 <= i < |s| - 1 ==> cmp(s[i], s[i + 1]) <= 0
  }

  ghost predicate Sorted<T>(s: seq<T>, cmp: (T, T) -> int) {
    forall i, j :: 0 <= i < j < |s| ==> cmp(s[i], s[j]) <= 0
  }

  /** Dropping the last element keeps a sorted sequence sorted, and that element follows all others. */
  lemma SortedInit<T>(s: seq<T>, cmp: (T, T) -> int)
    requires Sorted(s, cmp) && s != []
    ensures Sorted(s[..|s| - 1], cmp)
    ensures |s| > 1 ==> cmp(s[|s| - 2], s[|s| - 1]) <= 0
  {
    var init := s[..|s| - 1];
    forall i, j | 0 <= i < j < |init| ensures cmp(init[i], init[j]) <= 0 {
      assert init[i] == s[i] && init[j] == s[j];
    }
  }

  lemma AppendAssoc<T>(a: seq<T>, b: seq<T>, c: seq<T>, d: seq<T>)
    ensures a + b + c + d == a + (b + c + d)
  {
  }

  lemma SplitLast<T>(s: seq<T>)
    requires |s| >= 1
    ensures s[..|s| - 1] + [s[|s| - 1]] == s
  {
  }

  /** Insert `x` into `s`, passing over from the right every element that compares greater. */
  function Insert<T>(s: seq<T>, x: T, cmp: (T, T) -> int): (r: seq<T>)
    ensures |r| == |s| + 1
  {
    if s == [] || cmp(s[|s| - 1], x) <= 0 then s + [x]
    else Insert(s[..|s| - 1], x, cmp) + [s[|s| - 1]]
  }

  lemma {:induction false} InsertPermutes<T>(s: seq<T>, x: T, cmp: (T, T) -> int)
    ensures multiset(Insert(s, x, cmp)) == multiset(s) + multiset{x}
  {
    if !(s == [] || cmp(s[|s| - 1], x) <= 0) {
      InsertPermutes(s[..|s| - 1], x, cmp);
      assert s == s[..|s| - 1] + [s[|s| - 1]];
    }
  }

  /** The last element after inserting is the inserted one or the old last one. */
  lemma {:induction false} InsertLast<T>(s: seq<T>, x: T, cmp: (T, T) -> int)
    ensures var r := Insert(s, x, cmp); r[|r| - 1] == x || (s != [] && r[|r| - 1] == s[|s| - 1])
  {
  }

  /** The result of sorting `s` with the comparator `cmp` (a stable sort). */
  function InsertionSort<T>(s: seq<T>, cmp: (T, T) -> int): (r: seq<T>)
    ensures |r| == |s|
  {
    if s == [] then [] else Insert(InsertionSort(s[..|s| - 1], cmp), s[|s| - 1], cmp)
  }

  /** Sorting only reorders: the result is a permutation of the input. */
  lemma {:induction false} InsertionSortPermutes<T>(s: seq<T>, cmp: (T, T) -> int)
    ensures multiset(InsertionSort(s, cmp)) == multiset(s)
  {
    if s != [] {
      InsertionSortPermutes(s[..|s| - 1], cmp);
      InsertPermutes(InsertionSort(s[..|s| - 1], cmp), s[|s| - 1], cmp);
      assert s == s[..|s| - 1] + [s[|s| - 1]];
    }
  }

  lemma {:induction false} InsertKeepsAdjacentSorted<T(!new)>(s: seq<T>, x: T, cmp: (T, T) -> int)
    requires Asymmetric(cmp) && AdjacentSorted(s, cmp)
    ensures AdjacentSorted(Insert(s, x, cmp), cmp)
  {
    if s != [] && cmp(s[|s| - 1], x) > 0 {
      var init := s[..|s| - 1];
      assert AdjacentSorted(init, cmp) by {
        forall i | 0 <= i < |init| - 1 ensures cmp(init[i], init[i + 1]) <= 0 {
          assert init[i] == s[i] && init[i + 1] == s[i + 1];
        }
      }
      InsertKeepsAdjacentSorted(init, x, cmp);
      var m := Insert(init, x, cmp);
      var y := s[|s| - 1];
      InsertLast(init, x, cmp);
      assert cmp(m[|m| - 1], y) <= 0 by {
        if m[|m| - 1] == x {
          assert cmp(y, x) > 0;
        } else {
          assert m[|m| - 1] == s[|s| - 2];
        }
      }
    }
  }

  /**
   * With a comparator whose "greater" relation is asymmetric (the least a
   * consistent comparator satisfies), every element of the sorted result is
   * ordered before its successor.
   */
  lemma {:induction false} InsertionSortAdjacentSorted<T(!new)>(s: seq<T>, cmp: (T, T) -> int)
    requires Asymmetric(cmp)
    ensures AdjacentSorted(InsertionSort(s, cmp), cmp)
  {
    if s != [] {
      InsertionSortAdjacentSorted(s[..|s| - 1], cmp);
      InsertKeepsAdjacentSorted(InsertionSort(s[..|s| - 1], cmp), s[|s| - 1], cmp);
    }
  }

  /** With a transitive comparator, adjacent order is order between any two positions. */
  lemma AdjacentSortedIsSorted<T(!new)>(s: seq<T>, cmp: (T, T) -> int)
    requires Transitive(cmp) && AdjacentSorted(s, cmp)
    ensures Sorted(s, cmp)
  {
    forall i, j | 0 <= i < j < |s| ensures cmp(s[i], s[j]) <= 0 {
      var k := i + 1;
      while k < j
        invariant i < k <= j
        invariant cmp(s[i], s[k]) <= 0
      {
        assert cmp(s[k], s[k + 1]) <= 0;
        k := k + 1;
      }
    }
  }

  /** `a.sort(cmp)` on an array: the array ends up holding `InsertionSort` of its old contents. */
  method SortInPlace<T>(a: array<T>, cmp: (T, T) -> int)
    modifies a
    ensures a[..] == InsertionSort(old(a[..]), cmp)
  {
    ghost var s := a[..];
    var i := 0;
    while i < a.Length
      invariant 0 <= i <= a.Length
      invariant a[..i] == InsertionSort(s[..i], cmp)
      invariant a[i..] == s[i..]
    {
      ghost var rest := a[i..];
      assert rest[0] == s[i];
      InsertAt(a, i, cmp);
      assert s[..i + 1][..i] == s[..i];
      i := i + 1;
      assert a[i..] == rest[1..] == s[i..];
    }
    assert a[..] == a[..a.Length];
    assert s == s[..a.Length];
  }

  /** Moves `a[i]` left into the prefix `a[..i]`, as `Insert` does. */
  method InsertAt<T>(a: array<T>, i: nat, cmp: (T, T) -> int)
    requires i < a.Length
    modifies a
    ensures a[..i + 1] == Insert(old(a[..i]), old(a[i]), cmp)
    ensures a[i + 1..] == old(a[i + 1..])
  {
    ghost var p, tail := a[..i], a[i + 1..];
    var x := a[i];
    var j := i;
    assert a[..] == p[..j] + [x] + p[j..i] + tail by {
      assert p[..j] == p && p[j..i] == [];
      assert a[..] == a[..i] + [a[i]] + a[i + 1..];
    }
    while j > 0 && cmp(a[j - 1], x) > 0
      invariant 0 <= j <= i
      invariant a[..] == p[..j] + [x] + p[j..i] + tail
      invariant Insert(p, x, cmp) == Insert(p[..j], x, cmp) + p[j..i]
    {
      ShiftStep(p, x, j, i, cmp);
      ghost var before := a[..];
      Swap(a, j - 1);
      SwapShift(p, x, j, i, tail, before, a[..]);
      j := j - 1;
    }
    ghost var q := p[..j];
    assert q == [] || cmp(q[|q| - 1], x) <= 0 by {
      if j > 0 {
        assert a[..][j - 1] == q[j - 1];
      }
    }
    InsertStops(q, x, cmp);
    SpliceParts(a[..], q + [x] + p[j..i], tail);
  }

  /** A sequence made of two parts splits back into them. */
  lemma SpliceParts<T>(s: seq<T>, u: seq<T>, v: seq<T>)
    requires s == u + v
    ensures s[..|u|] == u && s[|u|..] == v
  {
  }

  /** Exchanging the element before `x` with `x` moves `x` one place left past `p[j - 1]`. */
  lemma SwapShift<T>(p: seq<T>, x: T, j: nat, i: nat, tail: seq<T>, before: seq<T>, after: seq<T>)
    requires 0 < j <= i == |p| && before == p[..j] + [x] + p[j..i] + tail
    requires |after| == |before| && after[j - 1] == before[j] && after[j] == before[j - 1]
    requires forall m :: 0 <= m < |after| && m != j - 1 && m != j ==> after[m] == before[m]
    ensures after == p[..j - 1] + [x] + p[j - 1..i] + tail
  {
    var r := p[..j - 1] + [x] + p[j - 1..i] + tail;
    forall m | 0 <= m < |after| ensures after[m] == r[m] {
      if m < j - 1 {
        assert before[m] == p[..j][m] && r[m] == p[..j - 1][m];
      } else if m == j - 1 {
        assert before[j] == x;
      } else if m == j {
        assert before[j - 1] == p[..j][j - 1] && r[j] == p[j - 1..i][0];
      } else if m <= i {
        assert before[m] == p[j..i][m - j - 1] && r[m] == p[j - 1..i][m - j];
      } else {
        assert before[m] == tail[m - i - 1] && r[m] == tail[m - i - 1];
      }
    }
  }

  /** Exchanges `a[k]` and `a[k + 1]`. */
  method Swap<T>(a: array<T>, k: nat)
    requires k + 1 < a.Length
    modifies a
    ensures a[k] == old(a[k + 1]) && a[k + 1] == old(a[k])
    ensures forall m :: 0 <= m < a.Length && m != k && m != k + 1 ==> a[m] == old(a[m])
  {
    a[k], a[k + 1] := a[k + 1], a[k];
  }

  /** `Insert` appends an element no earlier element exceeds. */
  lemma InsertStops<T>(q: seq<T>, x: T, cmp: (T, T) -> int)
    requires q == [] || cmp(q[|q| - 1], x) <= 0
    ensures Insert(q, x, cmp) == q + [x]
  {
  }

  lemma ShiftStep<T>(p: seq<T>, x: T, j: nat, i: nat, cmp: (T, T) -> int)
    requires 0 < j <= i == |p| && cmp(p[j - 1], x) > 0
    ensures Insert(p[..j], x, cmp) + p[j..i] == Insert(p[..j - 1], x, cmp) + p[j - 1..i]
  {
    assert p[..j][..j - 1] == p[..j - 1];
    assert p[j - 1..i] == [p[j - 1]] + p[j..i];
  }
}

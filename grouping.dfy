/**
 * Row grouping: rows are bucketed by the cell of the first grouped
 * column, each bucket is grouped again by the next grouped column, and
 * the resulting tree of group nodes is flattened into the rows the grid
 * shows, a group row followed (when expanded) by its children or its
 * data rows.
 */
module Grouping {
  import opened JsValues
  import opened Sequences
  import opened JsObject
  import opened Columns
  import opened Aggregation

  /** One level of grouping: the column to group by (`""` stops grouping). */
  datatype GroupModelItem = GroupModelItem(colId: string)

  /** What a group node holds: child groups, or (at the deepest level) its data rows. */
  datatype NodeContents = Children(nodes: seq<GroupNode>) | Leaves(rows: seq<Row>)

  datatype GroupNode = GroupNode(
    key: Value,
    colId: string,
    level: nat,
    path: string,
    count: int,
    agg: map<string, Value>,
    contents: NodeContents)

  /** The group row shown for a node (the `__group: true` record). */
  datatype GroupViewRow = GroupViewRow(key: Value, colId: string, level: nat, path: string, count: int, agg: map<string, Value>)

  /** A displayed row: a data row or a group row. */
  datatype RowView = DataRow(row: Row) | GroupRow(group: GroupViewRow)

  /** The bucket key of rows whose grouped cell is null or undefined. */
  const NullKey := "__null__"

  // ---------------------------------------------------------------------
  // Bucketing

  /** The bucket a row falls in: its cell as a string, or the null key. */
  function BucketKey(col: Option<ColumnDef>, row: Row): string {
    var key := GetCellValue(col, row);
    if IsNullish(key) then NullKey else ToJsString(key)
  }

  /** The rows of a bucket, none for a key without a bucket. */
  function BucketRows(groups: Dict<seq<Row>>, k: string): seq<Row> {
    if k in groups.entries then groups.entries[k] else []
  }

  /** `groups[k].push(row)`, creating the bucket first when it is missing. */
  function AddToBucket(groups: Dict<seq<Row>>, k: string, row: Row): Dict<seq<Row>> {
    Put(groups, k, BucketRows(groups, k) + [row])
  }

  /** The buckets after visiting `rows` in order. */
  function Buckets(rows: seq<Row>, col: Option<ColumnDef>): (d: Dict<seq<Row>>)
    ensures Valid(d)
  {
    if rows == [] then EmptyDict()
    else
      var row := rows[|rows| - 1];
      AddToBucket(Buckets(rows[..|rows| - 1], col), BucketKey(col, row), row)
  }

  /** Membership in the bucket `k`. */
  function KeyIs(col: Option<ColumnDef>, k: string): Row -> bool {
    row => BucketKey(col, row) == k
  }

  /**
   * A bucket exists exactly for the keys some row has, and holds those
   * rows, in input order.
   */
  lemma BucketsPartition(rows: seq<Row>, col: Option<ColumnDef>, k: string)
    ensures k in Buckets(rows, col).entries <==> exists i :: 0 <= i < |rows| && BucketKey(col, rows[i]) == k
    ensures BucketRows(Buckets(rows, col), k) == Select(rows, KeyIs(col, k))
  {
    BucketsMembers(rows, col, k);
    BucketsContents(rows, col, k);
  }

  lemma {:induction false} BucketsMembers(rows: seq<Row>, col: Option<ColumnDef>, k: string)
    ensures k in Buckets(rows, col).entries <==> exists i :: 0 <= i < |rows| && BucketKey(col, rows[i]) == k
  {
    if rows != [] {
      var init, row := rows[..|rows| - 1], rows[|rows| - 1];
      BucketsMembers(init, col, k);
      var key := BucketKey(col, row);
      assert k in Buckets(rows, col).entries <==> k in Buckets(init, col).entries || key == k;
      SomeKeySplit(rows, col, k);
    }
  }

  /** Some row has the bucket key `k`. */
  ghost predicate HasKey(rows: seq<Row>, col: Option<ColumnDef>, k: string) {
    exists i :: 0 <= i < |rows| && BucketKey(col, rows[i]) == k
  }

  lemma SomeKeySplit(rows: seq<Row>, col: Option<ColumnDef>, k: string)
    requires rows != []
    ensures HasKey(rows, col, k) <==> HasKey(rows[..|rows| - 1], col, k) || BucketKey(col, rows[|rows| - 1]) == k
  {
    var init := rows[..|rows| - 1];
    if exists i :: 0 <= i < |rows| && BucketKey(col, rows[i]) == k {
      var i :| 0 <= i < |rows| && BucketKey(col, rows[i]) == k;
      if i < |init| {
        assert init[i] == rows[i];
      }
    }
    if exists i :: 0 <= i < |init| && BucketKey(col, init[i]) == k {
      var i :| 0 <= i < |init| && BucketKey(col, init[i]) == k;
      assert rows[i] == init[i];
    }
  }

  lemma {:induction false} BucketsContents(rows: seq<Row>, col: Option<ColumnDef>, k: string)
    ensures BucketRows(Buckets(rows, col), k) == Select(rows, KeyIs(col, k))
  {
    if rows != [] {
      var init, row := rows[..|rows| - 1], rows[|rows| - 1];
      BucketsContents(init, col, k);
      var before := Buckets(init, col);
      var key := BucketKey(col, row);
      assert Buckets(rows, col).entries == before.entries[key := BucketRows(before, key) + [row]];
      assert Select(rows, KeyIs(col, k)) == Select(init, KeyIs(col, k)) + if key == k then [row] else [];
    }
  }

  /** Keeping the first occurrence of every key, in order. */
  function FirstSeen(keys: seq<string>): seq<string> {
    if keys == [] then []
    else
      var seen := FirstSeen(keys[..|keys| - 1]);
      if keys[|keys| - 1] in seen then seen else seen + [keys[|keys| - 1]]
  }

  /** The bucket key of every row, in order. */
  function RowKeys(rows: seq<Row>, col: Option<ColumnDef>): (ks: seq<string>)
    ensures |ks| == |rows|
    ensures forall i :: 0 <= i < |rows| ==> ks[i] == BucketKey(col, rows[i])
  {
    seq(|rows|, i requires 0 <= i < |rows| => BucketKey(col, rows[i]))
  }

  /** Buckets are created in the order their keys are first met. */
  lemma {:induction false} BucketsFirstSeen(rows: seq<Row>, col: Option<ColumnDef>)
    ensures Buckets(rows, col).order == FirstSeen(RowKeys(rows, col))
    ensures forall k :: k in Buckets(rows, col).entries <==> k in FirstSeen(RowKeys(rows, col))
  {
    if rows != [] {
      var init := rows[..|rows| - 1];
      BucketsFirstSeen(init, col);
      assert RowKeys(rows, col)[..|rows| - 1] == RowKeys(init, col);
    }
  }

  // ---------------------------------------------------------------------
  // The group tree

  /** `prefix ? prefix + '|' + k : k`. */
  function NodePath(prefix: string, k: string): string {
    if prefix != "" then prefix + "|" + k else k
  }

  /** `maybeOriginalKey`: the grouped cell of the bucket's first row. */
  function MaybeOriginalKey(rows: seq<Row>, col: Option<ColumnDef>): Value {
    if col.None? || rows == [] then Null else GetCellValue(col, rows[0])
  }

  /** The rows below some nodes, in tree order (`collectLeafRows`). */
  function LeafRows(nodes: seq<GroupNode>): seq<Row>
    decreases nodes
  {
    if nodes == [] then []
    else
      var n := nodes[|nodes| - 1];
      LeafRows(nodes[..|nodes| - 1]) + match n.contents
        case Leaves(rs) => rs
        case Children(ns) => LeafRows(ns)
  }

  /** The number of rows below some nodes, counted level by level. */
  function LeafCount(nodes: seq<GroupNode>): int
    decreases nodes
  {
    if nodes == [] then 0
    else
      var n := nodes[|nodes| - 1];
      LeafCount(nodes[..|nodes| - 1]) + match n.contents
        case Leaves(rs) => |rs|
        case Children(ns) => LeafCount(ns)
  }

  /** The rows below a node. */
  function ContentRows(c: NodeContents): seq<Row> {
    match c
    case Leaves(rs) => rs
    case Children(ns) => LeafRows(ns)
  }

  /** The sorted bucket keys of one level (`Object.keys(groups).sort()`). */
  function SortedKeys(groups: Dict<seq<Row>>): seq<string> {
    InsertionSort(Keys(groups), StrCompare)
  }

  /** The group nodes `buildGroupTree(rows, groupModel, colMap, aggLookup, level, prefix)` returns. */
  function GroupLevel(rows: seq<Row>, gm: seq<GroupModelItem>, colMap: map<string, ColumnDef>,
                      lookup: Dict<AggModelItem>, level: nat, prefix: string): seq<GroupNode>
    decreases |gm| - level, 2, 0
  {
    if level >= |gm| || gm[level].colId == "" then []
    else
      var groups := Buckets(rows, FindColumn(colMap, gm[level].colId));
      NodesFor(SortedKeys(groups), groups, gm, colMap, lookup, level, prefix)
  }

  /** The nodes of the buckets `keys`, in that order. */
  function NodesFor(keys: seq<string>, groups: Dict<seq<Row>>, gm: seq<GroupModelItem>, colMap: map<string, ColumnDef>,
                    lookup: Dict<AggModelItem>, level: nat, prefix: string): (nodes: seq<GroupNode>)
    requires level < |gm|
    decreases |gm| - level, 1, |keys|
    ensures |nodes| == |keys|
  {
    if keys == [] then []
    else
      var k := keys[|keys| - 1];
      NodesFor(keys[..|keys| - 1], groups, gm, colMap, lookup, level, prefix)
        + [MakeNode(k, BucketRows(groups, k), gm, colMap, lookup, level, prefix)]
  }

  /** The node of bucket `k` at `level`, holding `keyRows`. */
  function MakeNode(k: string, keyRows: seq<Row>, gm: seq<GroupModelItem>, colMap: map<string, ColumnDef>,
                    lookup: Dict<AggModelItem>, level: nat, prefix: string): GroupNode
    requires level < |gm|
    decreases |gm| - level, 0, 0
  {
    var col := FindColumn(colMap, gm[level].colId);
    var path := NodePath(prefix, k);
    var contents :=
      if level < |gm| - 1 then Children(GroupLevel(keyRows, gm, colMap, lookup, level + 1, path))
      else Leaves(keyRows);
    var count := match contents
      case Leaves(rs) => |rs|
      case Children(ns) => LeafCount(ns);
    GroupNode(
      if k == NullKey then Null else MaybeOriginalKey(keyRows, col),
      gm[level].colId, level, path, count,
      Aggregates(ContentRows(contents), colMap, lookup),
      contents)
  }

  /** `collectLeafRows(nodes)`. */
  method CollectLeafRows(nodes: seq<GroupNode>) returns (out: seq<Row>)
    decreases nodes
    ensures out == LeafRows(nodes)
  {
    out := [];
    for i := 0 to |nodes|
      invariant out == LeafRows(nodes[..i])
    {
      assert nodes[..i + 1][..i] == nodes[..i];
      var n := nodes[i];
      match n.contents
      case Leaves(rs) =>
        out := out + rs;
      case Children(ns) =>
        var sub := CollectLeafRows(ns);
        out := out + sub;
    }
    assert nodes[..|nodes|] == nodes;
  }

  /** `countLeaves(nodes)`. */
  method CountLeaves(nodes: seq<GroupNode>) returns (total: int)
    decreases nodes
    ensures total == LeafCount(nodes)
  {
    total := 0;
    for i := 0 to |nodes|
      invariant total == LeafCount(nodes[..i])
    {
      assert nodes[..i + 1][..i] == nodes[..i];
      var n := nodes[i];
      match n.contents
      case Leaves(rs) =>
        total := total + |rs|;
      case Children(ns) =>
        var sub := CountLeaves(ns);
        total := total + sub;
    }
    assert nodes[..|nodes|] == nodes;
  }

  /** The bucketing loop of `buildGroupTree`. */
  method BucketRowsBy(rows: seq<Row>, col: Option<ColumnDef>) returns (groups: Dict<seq<Row>>)
    ensures groups == Buckets(rows, col)
  {
    groups := EmptyDict();
    for i := 0 to |rows|
      invariant groups == Buckets(rows[..i], col)
    {
      assert rows[..i + 1][..i] == rows[..i];
      var key := GetCellValue(col, rows[i]);
      var k := if IsNullish(key) then NullKey else ToJsString(key);
      groups := AddToBucket(groups, k, rows[i]);
    }
    assert rows[..|rows|] == rows;
  }

  /** `Object.keys(groups).sort()`. */
  method SortBucketKeys(groups: Dict<seq<Row>>) returns (keys: seq<string>)
    ensures keys == SortedKeys(groups)
  {
    var ks := Keys(groups);
    var arr := new string[|ks|](j requires 0 <= j < |ks| => ks[j]);
    assert arr[..] == ks;
    SortInPlace(arr, StrCompare);
    keys := arr[..];
  }

  /** `buildGroupTree(rows, groupModel, colMap, aggLookup, level, prefix)`. */
  method BuildGroupTree(rows: seq<Row>, gm: seq<GroupModelItem>, colMap: map<string, ColumnDef>,
                        lookup: Dict<AggModelItem>, level: nat, prefix: string)
    returns (nodes: seq<GroupNode>)
    requires Valid(lookup)
    decreases |gm| - level, 2
    ensures nodes == GroupLevel(rows, gm, colMap, lookup, level, prefix)
  {
    if level >= |gm| || gm[level].colId == "" {
      return [];
    }
    var groups := BucketRowsBy(rows, FindColumn(colMap, gm[level].colId));
    var keys := SortBucketKeys(groups);
    nodes := BuildNodes(keys, groups, gm, colMap, lookup, level, prefix);
  }

  /** The `keys.forEach` loop of `buildGroupTree`. */
  method BuildNodes(keys: seq<string>, groups: Dict<seq<Row>>, gm: seq<GroupModelItem>, colMap: map<string, ColumnDef>,
                    lookup: Dict<AggModelItem>, level: nat, prefix: string)
    returns (nodes: seq<GroupNode>)
    requires Valid(lookup) && level < |gm|
    decreases |gm| - level, 1
    ensures nodes == NodesFor(keys, groups, gm, colMap, lookup, level, prefix)
  {
    nodes := [];
    for i := 0 to |keys|
      invariant nodes == NodesFor(keys[..i], groups, gm, colMap, lookup, level, prefix)
    {
      assert keys[..i + 1][..i] == keys[..i];
      var node := BuildNode(keys[i], BucketRows(groups, keys[i]), gm, colMap, lookup, level, prefix);
      nodes := nodes + [node];
    }
    assert keys[..|keys|] == keys;
  }

  /** The body of the `keys.forEach` loop of `buildGroupTree`: the node of one bucket. */
  method BuildNode(k: string, keyRows: seq<Row>, gm: seq<GroupModelItem>, colMap: map<string, ColumnDef>,
                   lookup: Dict<AggModelItem>, level: nat, prefix: string)
    returns (node: GroupNode)
    requires Valid(lookup) && level < |gm|
    decreases |gm| - level, 0
    ensures node == MakeNode(k, keyRows, gm, colMap, lookup, level, prefix)
  {
    var colId := gm[level].colId;
    var col := FindColumn(colMap, colId);
    var path := if prefix != "" then prefix + "|" + k else k;
    var contents, aggRows, count;
    if level < |gm| - 1 {
      var children := BuildGroupTree(keyRows, gm, colMap, lookup, level + 1, path);
      contents := Children(children);
      aggRows := CollectLeafRows(children);
      count := CountLeaves(children);
    } else {
      contents := Leaves(keyRows);
      aggRows := keyRows;
      count := |keyRows|;
    }
    var agg := ComputeAggs(aggRows, colMap, lookup);
    var key := if k == NullKey then Null else MaybeOriginalKey(keyRows, col);
    node := GroupNode(key, colId, level, path, count, agg, contents);
  }

  // ---------------------------------------------------------------------
  // Flattening

  /** The group row of a node. */
  function Marker(n: GroupNode): GroupViewRow {
    GroupViewRow(n.key, n.colId, n.level, n.path, n.count, n.agg)
  }

  /** `isExpanded(path)`: every group is expanded when no expansion set is given. */
  predicate IsExpanded(expanded: Option<set<string>>, path: string) {
    expanded.None? || path in expanded.value
  }

  /** Data rows as displayed rows. */
  function DataRows(rows: seq<Row>): (vs: seq<RowView>)
    ensures |vs| == |rows|
    ensures forall i :: 0 <= i < |rows| ==> vs[i] == DataRow(rows[i])
  {
    seq(|rows|, i requires 0 <= i < |rows| => DataRow(rows[i]))
  }

  /** The rows `flatten(nodes, ...)` appends to `out`. */
  function FlatRows(nodes: seq<GroupNode>, expanded: Option<set<string>>): seq<RowView>
    decreases nodes
  {
    if nodes == [] then []
    else
      var n := nodes[|nodes| - 1];
      FlatRows(nodes[..|nodes| - 1], expanded) + [GroupRow(Marker(n))] + RowsBelow(n, expanded)
  }

  /** The rows shown below a node's group row: none unless it is expanded. */
  function RowsBelow(n: GroupNode, expanded: Option<set<string>>): seq<RowView>
    decreases n
  {
    if !IsExpanded(expanded, n.path) then []
    else match n.contents
      case Children(ns) => if |ns| > 0 then FlatRows(ns, expanded) else []
      case Leaves(rs) => DataRows(rs)
  }

  /** The paths `flatten(nodes, ...)` appends to `paths`. */
  function FlatPaths(nodes: seq<GroupNode>, expanded: Option<set<string>>): seq<string>
    decreases nodes
  {
    if nodes == [] then []
    else
      var n := nodes[|nodes| - 1];
      FlatPaths(nodes[..|nodes| - 1], expanded) + [n.path] + PathsBelow(n, expanded)
  }

  /** The paths of the groups shown below a node: none unless it is expanded. */
  function PathsBelow(n: GroupNode, expanded: Option<set<string>>): seq<string>
    decreases n
  {
    if IsExpanded(expanded, n.path) && n.contents.Children? then FlatPaths(n.contents.nodes, expanded)
    else []
  }

  /** `flatten(nodes, isExpanded, out, paths)`: appends to both accumulators. */
  method Flatten(nodes: seq<GroupNode>, expanded: Option<set<string>>, out: seq<RowView>, paths: seq<string>)
    returns (out': seq<RowView>, paths': seq<string>)
    decreases nodes
    ensures out' == out + FlatRows(nodes, expanded)
    ensures paths' == paths + FlatPaths(nodes, expanded)
  {
    var o, ps := out, paths;
    for i := 0 to |nodes|
      invariant o == out + FlatRows(nodes[..i], expanded)
      invariant ps == paths + FlatPaths(nodes[..i], expanded)
    {
      var n := nodes[i];
      FlatPrefix(nodes, i, expanded);
      AppendAssoc(out, FlatRows(nodes[..i], expanded), [GroupRow(Marker(n))], RowsBelow(n, expanded));
      AppendAssoc(paths, FlatPaths(nodes[..i], expanded), [n.path], PathsBelow(n, expanded));
      o, ps := FlattenNode(n, expanded, o, ps);
    }
    assert nodes[..|nodes|] == nodes;
    return o, ps;
  }

  /** One more node of the prefix adds its group row and the rows below it, and its path and the paths below it. */
  lemma FlatPrefix(nodes: seq<GroupNode>, i: int, expanded: Option<set<string>>)
    requires 0 <= i < |nodes|
    ensures FlatRows(nodes[..i + 1], expanded) == FlatRows(nodes[..i], expanded) + [GroupRow(Marker(nodes[i]))] + RowsBelow(nodes[i], expanded)
    ensures FlatPaths(nodes[..i + 1], expanded) == FlatPaths(nodes[..i], expanded) + [nodes[i].path] + PathsBelow(nodes[i], expanded)
  {
    assert nodes[..i + 1][..i] == nodes[..i];
  }

  /** The body of the `nodes.forEach` loop of `flatten`: one node. */
  method FlattenNode(n: GroupNode, expanded: Option<set<string>>, out: seq<RowView>, paths: seq<string>)
    returns (out': seq<RowView>, paths': seq<string>)
    decreases n
    ensures out' == out + [GroupRow(Marker(n))] + RowsBelow(n, expanded)
    ensures paths' == paths + [n.path] + PathsBelow(n, expanded)
  {
    out' := out + [GroupRow(Marker(n))];
    paths' := paths + [n.path];
    if IsExpanded(expanded, n.path) {
      match n.contents
      case Children(ns) =>
        if |ns| > 0 {
          out', paths' := Flatten(ns, expanded, out', paths');
        } else {
          assert out' == out' + [];
        }
      case Leaves(rs) =>
        out' := out' + DataRows(rs);
    } else {
      assert out' == out' + [] && paths' == paths' + [];
    }
  }

  /** The rows and paths `groupAndFlattenRows` returns. */
  function GroupAndFlatten(rows: seq<Row>, cols: seq<ColumnDef>, gm: seq<GroupModelItem>,
                           aggModel: seq<AggModelItem>, expanded: Option<set<string>>): (seq<RowView>, seq<string>)
  {
    if gm == [] then (DataRows(rows), [])
    else
      var tree := GroupLevel(rows, gm, ColMap(cols), AggLookup(aggModel), 0, "");
      (FlatRows(tree, expanded), FlatPaths(tree, expanded))
  }

  /** `groupAndFlattenRows(rows, cols, groupModel, aggModel, expanded)`. */
  method GroupAndFlattenRows(rows: seq<Row>, cols: seq<ColumnDef>, gm: seq<GroupModelItem>,
                             aggModel: seq<AggModelItem>, expanded: Option<set<string>>)
    returns (flat: seq<RowView>, paths: seq<string>)
    ensures flat == GroupAndFlatten(rows, cols, gm, aggModel, expanded).0
    ensures paths == GroupAndFlatten(rows, cols, gm, aggModel, expanded).1
  {
    if |gm| == 0 {
      return DataRows(rows), [];
    }
    var colMap := BuildColMap(cols);
    var lookup := BuildAggLookup(aggModel);
    var tree := BuildGroupTree(rows, gm, colMap, lookup, 0, "");
    flat, paths := Flatten(tree, expanded, [], []);
  }

  // ---------------------------------------------------------------------
  // Properties of the group tree

  /** Counting the leaves gives the number of rows collected from them. */
  lemma {:induction false} LeafCountIsSize(nodes: seq<GroupNode>)
    decreases nodes
    ensures LeafCount(nodes) == |LeafRows(nodes)|
  {
    if nodes != [] {
      var n := nodes[|nodes| - 1];
      LeafCountIsSize(nodes[..|nodes| - 1]);
      if n.contents.Children? {
        LeafCountIsSize(n.contents.nodes);
      }
    }
  }

  /** A node's count is the number of data rows below it, and its aggregates are taken over exactly those rows. */
  lemma NodeCountAndAggs(k: string, keyRows: seq<Row>, gm: seq<GroupModelItem>, colMap: map<string, ColumnDef>,
                         lookup: Dict<AggModelItem>, level: nat, prefix: string)
    requires level < |gm|
    ensures var n := MakeNode(k, keyRows, gm, colMap, lookup, level, prefix);
      n.count == |ContentRows(n.contents)| && n.agg == Aggregates(ContentRows(n.contents), colMap, lookup)
  {
    var n := MakeNode(k, keyRows, gm, colMap, lookup, level, prefix);
    if n.contents.Children? {
      LeafCountIsSize(n.contents.nodes);
    }
  }

  /** The rows of the buckets `keys`, put together. */
  ghost function KeyedUnion(keys: seq<string>, rows: seq<Row>, col: Option<ColumnDef>): multiset<Row> {
    if keys == [] then multiset{}
    else KeyedUnion(keys[..|keys| - 1], rows, col) + multiset(Select(rows, KeyIs(col, keys[|keys| - 1])))
  }

  /** Distinct bucket keys gather each row at most once: exactly when its key is among them. */
  lemma {:induction false} KeyedUnionCount(keys: seq<string>, rows: seq<Row>, col: Option<ColumnDef>, x: Row)
    requires Distinct(keys)
    ensures KeyedUnion(keys, rows, col)[x] == if BucketKey(col, x) in keys then multiset(rows)[x] else 0
  {
    if keys != [] {
      var init, last := keys[..|keys| - 1], keys[|keys| - 1];
      DistinctSplit(keys);
      KeyedUnionCount(init, rows, col, x);
      SelectMultiset(rows, KeyIs(col, last), x);
    }
  }

  /** String comparison is a consistent comparator. */
  lemma StrCompareIsOrder()
    ensures Asymmetric(StrCompare) && Transitive(StrCompare)
  {
    forall a, b ensures StrCompare(a, b) > 0 ==> StrCompare(b, a) <= 0 {
      StrCompareFlip(a, b);
    }
    forall a, b, c | StrCompare(a, b) <= 0 && StrCompare(b, c) <= 0 ensures StrCompare(a, c) <= 0 {
      StrCompareTransitive(a, b, c);
    }
  }

  /** The sorted keys of a level list each bucket once. */
  lemma SortedKeysOnce(groups: Dict<seq<Row>>)
    requires Valid(groups)
    ensures forall k :: k in SortedKeys(groups) <==> k in groups.entries
    ensures Distinct(SortedKeys(groups))
  {
    var keys := SortedKeys(groups);
    InsertionSortPermutes(Keys(groups), StrCompare);
    KeysExactlyOnce(groups);
    forall k ensures k in keys <==> k in groups.entries {
      assert k in keys <==> multiset(keys)[k] > 0;
    }
    MultisetDistinct(keys);
  }

  /** The sorted keys of a level list each bucket once, in strictly ascending order. */
  lemma SortedKeysStrict(groups: Dict<seq<Row>>)
    requires Valid(groups)
    ensures forall k :: k in SortedKeys(groups) <==> k in groups.entries
    ensures Distinct(SortedKeys(groups))
    ensures forall i, j :: 0 <= i < j < |SortedKeys(groups)| ==>
      StrCompare(SortedKeys(groups)[i], SortedKeys(groups)[j]) < 0
  {
    var keys := SortedKeys(groups);
    SortedKeysOnce(groups);
    StrCompareIsOrder();
    InsertionSortAdjacentSorted(Keys(groups), StrCompare);
    AdjacentSortedIsSorted(keys, StrCompare);
    forall i, j | 0 <= i < j < |keys| ensures StrCompare(keys[i], keys[j]) < 0 {
      StrCompareZero(keys[i], keys[j]);
    }
  }

  /** The `i`-th node of `NodesFor(keys, ...)` is the node of the `i`-th key. */
  lemma {:induction false} NodesForAt(keys: seq<string>, groups: Dict<seq<Row>>, gm: seq<GroupModelItem>,
                                      colMap: map<string, ColumnDef>, lookup: Dict<AggModelItem>, level: nat,
                                      prefix: string, i: nat)
    requires level < |gm| && i < |keys|
    ensures NodesFor(keys, groups, gm, colMap, lookup, level, prefix)[i]
         == MakeNode(keys[i], BucketRows(groups, keys[i]), gm, colMap, lookup, level, prefix)
  {
    if i < |keys| - 1 {
      NodesForAt(keys[..|keys| - 1], groups, gm, colMap, lookup, level, prefix, i);
    }
  }

  /**
   * One level of the tree: one node per distinct bucket key, in strictly
   * ascending string order, each built from exactly the rows with that key
   * (in input order) under the path `prefix|key`.
   */
  lemma GroupLevelShape(rows: seq<Row>, gm: seq<GroupModelItem>, colMap: map<string, ColumnDef>,
                        lookup: Dict<AggModelItem>, level: nat, prefix: string)
    requires level < |gm| && gm[level].colId != ""
    ensures var col := FindColumn(colMap, gm[level].colId);
      var keys := SortedKeys(Buckets(rows, col));
      var nodes := GroupLevel(rows, gm, colMap, lookup, level, prefix);
      |nodes| == |keys|
      && (forall k :: k in keys <==> exists i :: 0 <= i < |rows| && BucketKey(col, rows[i]) == k)
      && (forall i, j :: 0 <= i < j < |keys| ==> StrCompare(keys[i], keys[j]) < 0)
      && (forall i :: 0 <= i < |keys| ==>
            nodes[i] == MakeNode(keys[i], Select(rows, KeyIs(col, keys[i])), gm, colMap, lookup, level, prefix))
  {
    var col := FindColumn(colMap, gm[level].colId);
    var groups := Buckets(rows, col);
    var keys := SortedKeys(groups);
    SortedKeysStrict(groups);
    forall k ensures k in keys <==> exists i :: 0 <= i < |rows| && BucketKey(col, rows[i]) == k {
      BucketsPartition(rows, col, k);
    }
    forall i | 0 <= i < |keys|
      ensures GroupLevel(rows, gm, colMap, lookup, level, prefix)[i]
           == MakeNode(keys[i], Select(rows, KeyIs(col, keys[i])), gm, colMap, lookup, level, prefix)
    {
      NodesForAt(keys, groups, gm, colMap, lookup, level, prefix, i);
      BucketsPartition(rows, col, keys[i]);
    }
  }

  /** Every grouping column from `level` on is set. */
  ghost predicate FullyGrouped(gm: seq<GroupModelItem>, level: nat) {
    forall j :: level <= j < |gm| ==> gm[j].colId != ""
  }

  /**
   * Grouping neither loses nor duplicates rows: the rows below the nodes of
   * a level are a permutation of its input rows.
   */
  lemma {:induction false} GroupLevelKeepsRows(rows: seq<Row>, gm: seq<GroupModelItem>, colMap: map<string, ColumnDef>,
                                               lookup: Dict<AggModelItem>, level: nat, prefix: string)
    requires level < |gm| && FullyGrouped(gm, level)
    decreases |gm| - level, 2
    ensures multiset(LeafRows(GroupLevel(rows, gm, colMap, lookup, level, prefix))) == multiset(rows)
  {
    var col := FindColumn(colMap, gm[level].colId);
    var groups := Buckets(rows, col);
    var keys := SortedKeys(groups);
    SortedKeysStrict(groups);
    NodesForKeepsRows(keys, rows, col, gm, colMap, lookup, level, prefix);
    forall x ensures KeyedUnion(keys, rows, col)[x] == multiset(rows)[x] {
      KeyedUnionCount(keys, rows, col, x);
      if x in rows {
        var i :| 0 <= i < |rows| && rows[i] == x;
        BucketsPartition(rows, col, BucketKey(col, x));
      }
    }
  }

  lemma {:induction false} NodesForKeepsRows(keys: seq<string>, rows: seq<Row>, col: Option<ColumnDef>,
                                             gm: seq<GroupModelItem>, colMap: map<string, ColumnDef>,
                                             lookup: Dict<AggModelItem>, level: nat, prefix: string)
    requires level < |gm| && FullyGrouped(gm, level + 1)
    decreases |gm| - level, 1, |keys|
    ensures multiset(LeafRows(NodesFor(keys, Buckets(rows, col), gm, colMap, lookup, level, prefix)))
         == KeyedUnion(keys, rows, col)
  {
    if keys != [] {
      var groups := Buckets(rows, col);
      var init, k := keys[..|keys| - 1], keys[|keys| - 1];
      NodesForKeepsRows(init, rows, col, gm, colMap, lookup, level, prefix);
      var nodes := NodesFor(keys, groups, gm, colMap, lookup, level, prefix);
      assert nodes[..|nodes| - 1] == NodesFor(init, groups, gm, colMap, lookup, level, prefix);
      MakeNodeKeepsRows(k, BucketRows(groups, k), gm, colMap, lookup, level, prefix);
      BucketsPartition(rows, col, k);
      assert nodes[|nodes| - 1] == MakeNode(k, BucketRows(groups, k), gm, colMap, lookup, level, prefix);
    }
  }

  lemma {:induction false} MakeNodeKeepsRows(k: string, keyRows: seq<Row>, gm: seq<GroupModelItem>,
                                             colMap: map<string, ColumnDef>, lookup: Dict<AggModelItem>,
                                             level: nat, prefix: string)
    requires level < |gm| && FullyGrouped(gm, level + 1)
    decreases |gm| - level, 0
    ensures multiset(ContentRows(MakeNode(k, keyRows, gm, colMap, lookup, level, prefix).contents)) == multiset(keyRows)
  {
    if level < |gm| - 1 {
      GroupLevelKeepsRows(keyRows, gm, colMap, lookup, level + 1, NodePath(prefix, k));
    }
  }

  /**
   * When every deeper group entry names a column, a node's count is the
   * size of its bucket, and its aggregates are over a permutation of it.
   */
  lemma MakeNodeCountIsBucket(k: string, keyRows: seq<Row>, gm: seq<GroupModelItem>, colMap: map<string, ColumnDef>,
                              lookup: Dict<AggModelItem>, level: nat, prefix: string)
    requires level < |gm| && FullyGrouped(gm, level + 1)
    ensures var n := MakeNode(k, keyRows, gm, colMap, lookup, level, prefix);
      n.count == |keyRows| && multiset(ContentRows(n.contents)) == multiset(keyRows)
  {
    var n := MakeNode(k, keyRows, gm, colMap, lookup, level, prefix);
    NodeCountAndAggs(k, keyRows, gm, colMap, lookup, level, prefix);
    MakeNodeKeepsRows(k, keyRows, gm, colMap, lookup, level, prefix);
    assert |multiset(ContentRows(n.contents))| == |multiset(keyRows)|;
  }

  /**
   * A node's key is the original cell of its bucket: null for the null
   * bucket, and otherwise a value whose string form is the bucket key.
   */
  lemma MakeNodeKeyIsCell(k: string, keyRows: seq<Row>, gm: seq<GroupModelItem>, colMap: map<string, ColumnDef>,
                          lookup: Dict<AggModelItem>, level: nat, prefix: string)
    requires level < |gm| && keyRows != []
    requires BucketKey(FindColumn(colMap, gm[level].colId), keyRows[0]) == k
    ensures var n := MakeNode(k, keyRows, gm, colMap, lookup, level, prefix);
      (k == NullKey ==> n.key == Null)
      && (k != NullKey ==> !IsNullish(n.key) && ToJsString(n.key) == k)
  {
  }

  /** Every node of a level starts from a row of its own bucket, so the key lemma applies to it. */
  lemma GroupLevelKeys(rows: seq<Row>, gm: seq<GroupModelItem>, colMap: map<string, ColumnDef>,
                       lookup: Dict<AggModelItem>, level: nat, prefix: string, i: nat)
    requires level < |gm| && gm[level].colId != ""
    requires i < |GroupLevel(rows, gm, colMap, lookup, level, prefix)|
    ensures var col := FindColumn(colMap, gm[level].colId);
      var k := SortedKeys(Buckets(rows, col))[i];
      var n := GroupLevel(rows, gm, colMap, lookup, level, prefix)[i];
      (k == NullKey ==> n.key == Null)
      && (k != NullKey ==> !IsNullish(n.key) && ToJsString(n.key) == k)
  {
    var col := FindColumn(colMap, gm[level].colId);
    var groups := Buckets(rows, col);
    var keys := SortedKeys(groups);
    var k := keys[i];
    NodesForAt(keys, groups, gm, colMap, lookup, level, prefix, i);
    SortedKeysOnce(groups);
    BucketsPartition(rows, col, k);
    var keyRows := BucketRows(groups, k);
    SelectSatisfies(rows, KeyIs(col, k));
    var j :| 0 <= j < |rows| && BucketKey(col, rows[j]) == k;
    SelectMultiset(rows, KeyIs(col, k), rows[j]);
    assert keyRows != [];
    assert KeyIs(col, k)(keyRows[0]);
    MakeNodeKeyIsCell(k, keyRows, gm, colMap, lookup, level, prefix);
  }

  /** The counts of the top-level groups add up to the number of input rows. */
  lemma TreeCountsAllRows(rows: seq<Row>, gm: seq<GroupModelItem>, colMap: map<string, ColumnDef>, lookup: Dict<AggModelItem>)
    requires gm != [] && FullyGrouped(gm, 0)
    ensures LeafCount(GroupLevel(rows, gm, colMap, lookup, 0, "")) == |rows|
  {
    var tree := GroupLevel(rows, gm, colMap, lookup, 0, "");
    GroupLevelKeepsRows(rows, gm, colMap, lookup, 0, "");
    LeafCountIsSize(tree);
    assert |multiset(LeafRows(tree))| == |multiset(rows)|;
  }

  // ---------------------------------------------------------------------
  // Properties of flattening

  /** The paths of the group rows among some displayed rows, in order. */
  function GroupPaths(views: seq<RowView>): seq<string> {
    if views == [] then []
    else
      var v := views[|views| - 1];
      GroupPaths(views[..|views| - 1]) + if v.GroupRow? then [v.group.path] else []
  }

  /** The data rows among some displayed rows, in order. */
  function DataOf(views: seq<RowView>): seq<Row> {
    if views == [] then []
    else
      var v := views[|views| - 1];
      DataOf(views[..|views| - 1]) + if v.DataRow? then [v.row] else []
  }

  lemma {:induction false} GroupPathsAppend(a: seq<RowView>, b: seq<RowView>)
    ensures GroupPaths(a + b) == GroupPaths(a) + GroupPaths(b)
  {
    if b != [] {
      GroupPathsAppend(a, b[..|b| - 1]);
      assert (a + b)[..|a + b| - 1] == a + b[..|b| - 1];
    } else {
      assert a + b == a;
    }
  }

  lemma {:induction false} DataOfAppend(a: seq<RowView>, b: seq<RowView>)
    ensures DataOf(a + b) == DataOf(a) + DataOf(b)
  {
    if b != [] {
      DataOfAppend(a, b[..|b| - 1]);
      assert (a + b)[..|a + b| - 1] == a + b[..|b| - 1];
    } else {
      assert a + b == a;
    }
  }

  lemma {:induction false} DataRowsViews(rows: seq<Row>)
    ensures GroupPaths(DataRows(rows)) == [] && DataOf(DataRows(rows)) == rows
  {
    if rows != [] {
      DataRowsViews(rows[..|rows| - 1]);
      assert DataRows(rows)[..|rows| - 1] == DataRows(rows[..|rows| - 1]);
    }
  }

  /** The paths `flatten` records are exactly the paths of the group rows it emits, in the same order. */
  lemma {:induction false} FlatPathsAreGroupRows(nodes: seq<GroupNode>, expanded: Option<set<string>>)
    decreases nodes
    ensures FlatPaths(nodes, expanded) == GroupPaths(FlatRows(nodes, expanded))
  {
    if nodes != [] {
      var init, n := nodes[..|nodes| - 1], nodes[|nodes| - 1];
      FlatPathsAreGroupRows(init, expanded);
      BelowPathsAreGroupRows(n, expanded);
      GroupPathsAppend(FlatRows(init, expanded), [GroupRow(Marker(n))]);
      GroupPathsAppend(FlatRows(init, expanded) + [GroupRow(Marker(n))], RowsBelow(n, expanded));
      assert GroupPaths([GroupRow(Marker(n))]) == [n.path];
    }
  }

  lemma {:induction false} BelowPathsAreGroupRows(n: GroupNode, expanded: Option<set<string>>)
    decreases n
    ensures PathsBelow(n, expanded) == GroupPaths(RowsBelow(n, expanded))
  {
    if IsExpanded(expanded, n.path) {
      match n.contents
      case Children(ns) =>
        FlatPathsAreGroupRows(ns, expanded);
      case Leaves(rs) =>
        DataRowsViews(rs);
    }
  }

  /** With every group expanded, the data rows shown are the tree's rows, in tree order. */
  lemma {:induction false} ExpandedShowsAllRows(nodes: seq<GroupNode>)
    decreases nodes
    ensures DataOf(FlatRows(nodes, None)) == LeafRows(nodes)
  {
    if nodes != [] {
      var init, n := nodes[..|nodes| - 1], nodes[|nodes| - 1];
      ExpandedShowsAllRows(init);
      ExpandedShowsRowsBelow(n);
      DataOfAppend(FlatRows(init, None), [GroupRow(Marker(n))]);
      DataOfAppend(FlatRows(init, None) + [GroupRow(Marker(n))], RowsBelow(n, None));
      assert DataOf([GroupRow(Marker(n))]) == [];
    }
  }

  lemma {:induction false} ExpandedShowsRowsBelow(n: GroupNode)
    decreases n
    ensures DataOf(RowsBelow(n, None)) == ContentRows(n.contents)
  {
    match n.contents
    case Children(ns) =>
      ExpandedShowsAllRows(ns);
    case Leaves(rs) =>
      DataRowsViews(rs);
  }

  /** A collapsed group shows its group row and nothing of what is below it. */
  lemma CollapsedShowsGroupRowOnly(n: GroupNode, expanded: Option<set<string>>)
    requires !IsExpanded(expanded, n.path)
    ensures FlatRows([n], expanded) == [GroupRow(Marker(n))]
    ensures FlatPaths([n], expanded) == [n.path]
  {
    assert [n][..0] == [];
  }

  /**
   * `groupAndFlattenRows` end to end: without grouping the rows are shown as
   * they are; with grouping the returned paths are those of the group rows
   * shown, and when every group is expanded the data rows shown are a
   * permutation of the input rows.
   */
  lemma GroupAndFlattenRowsShown(rows: seq<Row>, cols: seq<ColumnDef>, gm: seq<GroupModelItem>,
                                 aggModel: seq<AggModelItem>, expanded: Option<set<string>>)
    ensures gm == [] ==> GroupAndFlatten(rows, cols, gm, aggModel, expanded) == (DataRows(rows), [])
    ensures gm != [] ==> GroupAndFlatten(rows, cols, gm, aggModel, expanded).1
                         == GroupPaths(GroupAndFlatten(rows, cols, gm, aggModel, expanded).0)
    ensures gm != [] && FullyGrouped(gm, 0) && expanded.None? ==>
      multiset(DataOf(GroupAndFlatten(rows, cols, gm, aggModel, expanded).0)) == multiset(rows)
  {
    if gm != [] {
      var tree := GroupLevel(rows, gm, ColMap(cols), AggLookup(aggModel), 0, "");
      FlatPathsAreGroupRows(tree, expanded);
      if FullyGrouped(gm, 0) && expanded.None? {
        ExpandedShowsAllRows(tree);
        GroupLevelKeepsRows(rows, gm, ColMap(cols), AggLookup(aggModel), 0, "");
      }
    }
  }

  // ---------------------------------------------------------------------
  // Group entries without a column

  /**
   * A group entry with an empty column id ends the tree at its level.
   * At the top, nothing at all is shown.
   */
  lemma EmptyGroupColumnAtTop(rows: seq<Row>, cols: seq<ColumnDef>, gm: seq<GroupModelItem>,
                              aggModel: seq<AggModelItem>, expanded: Option<set<string>>)
    requires gm != [] && gm[0].colId == ""
    ensures GroupAndFlatten(rows, cols, gm, aggModel, expanded) == ([], [])
  {
  }

  /** The nodes of a level whose next entry has no column have no rows below them. */
  lemma {:induction false} NodesForOverEmptyLevel(keys: seq<string>, groups: Dict<seq<Row>>, gm: seq<GroupModelItem>,
                                                  colMap: map<string, ColumnDef>, lookup: Dict<AggModelItem>,
                                                  level: nat, prefix: string)
    requires level + 1 < |gm| && gm[level + 1].colId == ""
    ensures LeafRows(NodesFor(keys, groups, gm, colMap, lookup, level, prefix)) == []
  {
    if keys != [] {
      var init, k := keys[..|keys| - 1], keys[|keys| - 1];
      NodesForOverEmptyLevel(init, groups, gm, colMap, lookup, level, prefix);
      var nodes := NodesFor(keys, groups, gm, colMap, lookup, level, prefix);
      assert nodes[..|nodes| - 1] == NodesFor(init, groups, gm, colMap, lookup, level, prefix);
      var keyRows := BucketRows(groups, k);
      assert nodes[|nodes| - 1] == MakeNode(k, keyRows, gm, colMap, lookup, level, prefix);
      assert GroupLevel(keyRows, gm, colMap, lookup, level + 1, NodePath(prefix, k)) == [];
    }
  }

  /**
   * One level down, the groups of the top level are still built, one per
   * key, but every one of them is empty: their leaf counts are 0 and no data
   * row is shown, even with every group expanded.
   */
  lemma EmptyGroupColumnBelow(rows: seq<Row>, cols: seq<ColumnDef>, gm: seq<GroupModelItem>, aggModel: seq<AggModelItem>)
    requires |gm| >= 2 && gm[0].colId != "" && gm[1].colId == ""
    ensures var tree := GroupLevel(rows, gm, ColMap(cols), AggLookup(aggModel), 0, "");
      (rows != [] ==> tree != [])
      && LeafCount(tree) == 0
      && DataOf(GroupAndFlatten(rows, cols, gm, aggModel, None).0) == []
  {
    var colMap, lookup := ColMap(cols), AggLookup(aggModel);
    var tree := GroupLevel(rows, gm, colMap, lookup, 0, "");
    GroupLevelOverEmptyLevel(rows, gm, colMap, lookup, 0, "");
    if rows != [] {
      GroupLevelNonEmpty(rows, gm, colMap, lookup, 0, "");
    }
    LeafCountIsSize(tree);
    ExpandedShowsAllRows(tree);
    assert GroupAndFlatten(rows, cols, gm, aggModel, None).0 == FlatRows(tree, None);
  }

  /** Below a level whose next group entry has no column, the level holds no rows. */
  lemma GroupLevelOverEmptyLevel(rows: seq<Row>, gm: seq<GroupModelItem>, colMap: map<string, ColumnDef>,
                                 lookup: Dict<AggModelItem>, level: nat, prefix: string)
    requires level + 1 < |gm| && gm[level].colId != "" && gm[level + 1].colId == ""
    ensures LeafRows(GroupLevel(rows, gm, colMap, lookup, level, prefix)) == []
  {
    var groups := Buckets(rows, FindColumn(colMap, gm[level].colId));
    NodesForOverEmptyLevel(SortedKeys(groups), groups, gm, colMap, lookup, level, prefix);
  }

  /** A level whose group entry names a column has a group for non-empty input. */
  lemma GroupLevelNonEmpty(rows: seq<Row>, gm: seq<GroupModelItem>, colMap: map<string, ColumnDef>,
                           lookup: Dict<AggModelItem>, level: nat, prefix: string)
    requires level < |gm| && gm[level].colId != "" && rows != []
    ensures GroupLevel(rows, gm, colMap, lookup, level, prefix) != []
  {
    var col := FindColumn(colMap, gm[level].colId);
    var groups := Buckets(rows, col);
    var k := BucketKey(col, rows[0]);
    BucketsMembers(rows, col, k);
    SortedKeysOnce(groups);
    assert k in SortedKeys(groups);
  }

  // ---------------------------------------------------------------------
  // Keys that collide

  /** A null cell and the text "__null__" fall in the same bucket, whose key is then `null`. */
  lemma NullKeyCollision(col: ColumnDef, r1: Row, r2: Row)
    requires GetCellValue(Some(col), r1) == Null && GetCellValue(Some(col), r2) == Str(NullKey)
    ensures BucketKey(Some(col), r1) == BucketKey(Some(col), r2) == NullKey
  {
  }

  /**
   * Paths are not unique: the child "x" of a top-level group with the empty
   * key has the same path as the top-level group "x", and a key containing
   * "|" reads like a deeper path.
   */
  lemma PathsCanCollide()
    ensures NodePath(NodePath("", ""), "x") == NodePath("", "x")
    ensures NodePath(NodePath("", "a"), "b") == NodePath("", "a|b")
  {
    assert "a" + "|" + "b" == "a|b";
  }
}

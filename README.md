# og-grid core, modelled in Dafny

og-grid is a data grid. Its logic sits in a presentation-free row engine
(`og-grid-core`) and in an Angular component that edits the models driving
that engine. This project models both parts:

- the engine's column merge and cell lookup;
- the cascading multi-key sort with its null-first default comparator;
- the AND-ed multi-column filter with number, date and text semantics;
- grouping into a tree of nodes carrying `sum`/`min`/`max`/`avg`/`count` aggregates;
- the depth-first flatten gated by the expanded-path set;
- the pivot cross-tab;
- the CSV export;
- the grid component's state machine: `recompute` and the sort, filter, group, value-column and selection editors.

The modules follow the program's structure:

- `JsValues`: JavaScript values: `null`, `undefined`, integers, strings, booleans, objects. It also holds `String(v)`, `Number(v)` and code-unit string order.
- `JsObject`: the key order of `Object.keys` on a plain object used as a dictionary.
- `Columns`: `mergeColDef`, `getCellValue` and the column map.
- `SortStage`, `FilterStage`, `Aggregation`, `Grouping`, `Pivot`, `Csv`: the engine functions.
- `Grid`: the component. It is a class whose fields are the component's fields, and each of its methods is proved against a function of the old state (`Recomputed`, `LaidOut`).
- `Sequences`: generic helpers: filtering a sequence by a predicate, subsequences, `findIndex`, `splice` and toggling an element, an insertion sort proved correct, and its in-place counterpart on an array.

Where the engine loops (sortRows, filterRows, buildGroupTree, collectLeafRows, countLeaves, computeAggs, flatten, pivotRows, toCsv), the model has a method with the same loop. Each such method is proved equal to a specification function, and the properties are lemmas about that function.

Caller callbacks are function-typed parameters:

- `valueGetter`;
- the column `comparator`;
- the custom filter predicate;
- `filterComparator`;
- a function `aggFunc`;
- `valueFormatter`.

Date parsing (`new Date(x).getTime()`) is a `parseDate: string -> Option<int>` parameter of the filter and of the grid.

## Model

| member | source | states |
|---|---|---|
| JsValues.GetField | projects/og-grid-core/src/lib/engine.ts:19-24 | reading a property of a non-object, or a missing property, gives `undefined` |
| JsValues.NatToString | projects/og-grid-core/src/lib/engine.ts:151-153 | the decimal text of a number is a non-empty digit string with no leading zero except for 0 itself |
| JsValues.DigitsValueOfNatToString | projects/og-grid-core/src/lib/engine.ts:155-159 | reading back the decimal text of n gives n |
| JsValues.IntToStringRoundTrip | projects/og-grid-core/src/lib/engine.ts:155-159 | `Number(String(n)) == n` for every integer n, negative ones included |
| JsValues.TrimStart | projects/og-grid-core/src/lib/engine.ts:155-159 | the result is a suffix of the input that does not start with white space |
| JsValues.TrimEnd | projects/og-grid-core/src/lib/engine.ts:155-159 | the result is a prefix of the input that does not end with white space |
| JsValues.ToLower | projects/og-grid-core/src/lib/engine.ts:142-148 | lower-casing keeps the length and maps each character on its own |
| JsValues.StrCompare | projects/og-grid-core/src/lib/engine.ts:54-55 | string comparison answers -1, 0 or 1 |
| JsValues.StrCompareFlip | projects/og-grid-core/src/lib/engine.ts:236 | swapping the operands negates the comparison |
| JsValues.StrCompareZero | projects/og-grid-core/src/lib/engine.ts:236 | two strings compare equal exactly when they are the same string |
| JsValues.StrCompareTransitive | projects/og-grid-core/src/lib/engine.ts:236 | the string order is transitive |
| JsObject.EmptyDict | dist/og-grid-core/bundles/og-grid-core.umd.js:282 | an empty dictionary object is well formed and has no entries |
| JsObject.Put | projects/og-grid-core/src/lib/engine.ts:229-234 | assigning a key keeps the other entries; a new key goes to the end of the insertion order, an existing key keeps its place |
| JsObject.KeysPermutation | projects/og-grid-core/src/lib/engine.ts:236 | `Object.keys` lists the inserted keys in some order |
| JsObject.KeysExactlyOnce | projects/og-grid-core/src/lib/engine.ts:236 | every key with an entry appears in `Object.keys` exactly once, and no other key appears |
| JsObject.KeysInEntries | projects/og-grid-core/src/lib/engine.ts:236 | every listed key has an entry |
| JsObject.KeysCoverEntries | projects/og-grid-core/src/lib/engine.ts:236 | a key is listed if and only if it has an entry |
| JsObject.KeysLayout | dist/og-grid-core/bundles/og-grid-core.umd.js:308 | `Object.keys` puts array-index keys first, in ascending numeric order, then the other keys in insertion order |
| JsObject.KeysWithoutIndices | dist/og-grid-core/bundles/og-grid-core.umd.js:308 | without array-index keys, `Object.keys` is the insertion order |
| JsObject.KeysReorderYears | dist/og-grid-core/bundles/og-grid-core.umd.js:308 | keys "2021" then "2020" are listed as "2020", "2021" |
| Columns.MergeColDefPrecedence | projects/og-grid-core/src/lib/engine.ts:13-17 | each property of the merged definition is the column's own when it is set, else the default's |
| Columns.MergeColDefNoDefault | projects/og-grid-core/src/lib/engine.ts:13-17 | merging with no default leaves the column unchanged |
| Columns.MergeColDefIdempotent | projects/og-grid-core/src/lib/engine.ts:13-17 | merging the same default twice changes nothing more |
| Columns.GetCellValueMissing | projects/og-grid-core/src/lib/engine.ts:19-24 | without a value getter, a row that is not an object or lacks the field gives `undefined` |
| Columns.BuildColMap | projects/og-grid-core/src/lib/engine.ts:34-37 | the loop builds the column map keyed by `String(field)` |
| Columns.ColMapLastWins | projects/og-grid-core/src/lib/engine.ts:34-37 | when two columns share an id, the map holds the last of them |
| Columns.ColMapMissing | projects/og-grid-core/src/lib/engine.ts:34-37 | an id that no column has is absent from the map |
| SortStage.DefaultCompareAntisymmetric | projects/og-grid-core/src/lib/engine.ts:46-56 | swapping the operands of the default comparator negates its answer |
| SortStage.DefaultCompareOrder | projects/og-grid-core/src/lib/engine.ts:46-56 | null and undefined come before every other value; numbers compare by value; two strings tie only when equal |
| SortStage.DefaultCompareNotTransitive | projects/og-grid-core/src/lib/engine.ts:50-55 | the default comparator is not transitive on mixed numbers and strings (10 < "9" by text, 9 < 10 by value) |
| SortStage.ActiveKeysResolve | projects/og-grid-core/src/lib/engine.ts:39-59 | the active keys are the model entries whose column exists and is sortable, in model order; there are none exactly when no entry resolves |
| SortStage.CascadeFirstDifference | projects/og-grid-core/src/lib/engine.ts:64-73 | the first key that does not tie decides the comparison, with `desc` negating it |
| SortStage.CascadeAllTie | projects/og-grid-core/src/lib/engine.ts:64-73 | rows that tie on every key compare equal |
| SortStage.CascadeAntisymmetric | projects/og-grid-core/src/lib/engine.ts:64-73 | with antisymmetric column comparators, the cascade is antisymmetric |
| SortStage.RowComparatorAsymmetric | projects/og-grid-core/src/lib/engine.ts:64-73 | with antisymmetric column comparators, a row never sorts strictly before a row that sorts strictly before it |
| SortStage.SortRows | projects/og-grid-core/src/lib/engine.ts:26-75 | the method returns the specified sort of the rows: a copy of the input when it is empty or no key is active, otherwise a clone sorted in place |
| SortStage.SortRowsPermutes | projects/og-grid-core/src/lib/engine.ts:26-75 | the sorted rows are a permutation of the input |
| SortStage.SortRowsOrdered | projects/og-grid-core/src/lib/engine.ts:64-73 | with antisymmetric comparators, every adjacent pair of sorted rows is ordered by the cascaded comparator |
| SortStage.InsertionSortOfSorted | projects/og-grid-core/src/lib/engine.ts:64-73 | sorting rows that are already in order leaves them as they are |
| SortStage.SortRowsKeepsSortedInput | projects/og-grid-core/src/lib/engine.ts:26-75 | input that is already ordered by the active keys comes back unchanged |
| SortStage.SortByNumberColumn | projects/og-grid-core/src/lib/engine.ts:39-73 | sorting on one sortable numeric column with the default comparator orders the rows by that number, ascending or descending |
| SortStage.SingleActiveKey | projects/og-grid-core/src/lib/engine.ts:39-59 | a one-entry model on a sortable column without a comparator yields one key, using the default comparator and the model's direction |
| SortStage.CellsStayNumbers | projects/og-grid-core/src/lib/engine.ts:26-75 | a permutation of rows whose cells are all numbers has cells that are all numbers |
| SortStage.NumberKeyOrder | projects/og-grid-core/src/lib/engine.ts:46-50 | for one numeric key, a row that sorts no later than another has a cell that is no greater (ascending) or no smaller (descending) |
| Sequences.SortInPlace | projects/og-grid-core/src/lib/engine.ts:64-74 | sorting the cloned array in place gives the insertion-sort order |
| FilterStage.NumberRangeFilter | projects/og-grid-core/src/lib/engine.ts:120-129 | with both bounds, a number filter passes exactly the cells that coerce to a number within the bounds, both inclusive |
| FilterStage.NumberFilterWithoutBounds | projects/og-grid-core/src/lib/engine.ts:121 | a number filter with neither bound passes every cell |
| FilterStage.NumberFilterRejectsNonNumbers | projects/og-grid-core/src/lib/engine.ts:121-123 | with some bound set, a cell that is empty or not a number is rejected |
| FilterStage.DateRangeFilter | projects/og-grid-core/src/lib/engine.ts:131-140 | with two date texts as bounds, a date filter passes exactly the cells whose time lies between the parsed bounds, both inclusive |
| FilterStage.DateFilterWithoutBounds | projects/og-grid-core/src/lib/engine.ts:132 | a date filter with no truthy bound passes every cell |
| FilterStage.DateFilterRejectsUndated | projects/og-grid-core/src/lib/engine.ts:132-134 | with a truthy bound, a cell without a time is rejected |
| FilterStage.DateValOfNumbers | projects/og-grid-core/src/lib/engine.ts:161-167 | a number is its own time within the `Date` range, and 0 counts; null, undefined and `''` have no time |
| FilterStage.TextFilterWithoutText | projects/og-grid-core/src/lib/engine.ts:143 | a text filter whose value is null, undefined or `''` passes every cell |
| FilterStage.TextFilterModes | projects/og-grid-core/src/lib/engine.ts:142-148 | a text filter passes exactly the cells whose lower-cased text equals, starts with, or (by default) contains the lower-cased filter text |
| FilterStage.RowPasses | projects/og-grid-core/src/lib/engine.ts:90-110 | the row loop accepts a row exactly when every filter entry passes it |
| FilterStage.AllEntriesPass | projects/og-grid-core/src/lib/engine.ts:90-110 | the callback given to `Array.filter` is true exactly when every entry passes the row |
| FilterStage.FilterRows | projects/og-grid-core/src/lib/engine.ts:77-111 | the method returns the specified filter of the rows |
| FilterStage.FilterRowsKeepsPassing | projects/og-grid-core/src/lib/engine.ts:77-111 | the result is a subsequence of the input, and holds each passing row as often as the input does and no failing row |
| FilterStage.FilterRowsConjunction | projects/og-grid-core/src/lib/engine.ts:90-110 | filtering by two models joined is filtering by one, then the other |
| FilterStage.FilterRowsSkipsUnknownColumn | projects/og-grid-core/src/lib/engine.ts:93-94 | an entry whose column id no column has changes nothing |
| FilterStage.CustomPredicateDecides | projects/og-grid-core/src/lib/engine.ts:99-102 | a function-valued column filter alone decides the entry |
| Aggregation.Numerics | projects/og-grid-core/src/lib/engine.ts:321-327 | no more numbers than values, and every number is what `Number` makes of one of the values |
| Aggregation.CountAggregation | projects/og-grid-core/src/lib/engine.ts:358-362 | `count`, and every name that is not a built-in numeric one, gives the number of values |
| Aggregation.NumericAggregationOfNothing | projects/og-grid-core/src/lib/engine.ts:321-356 | `sum`, `min`, `max` and `avg` over values none of which is numeric give null |
| Aggregation.NumericsAppend | projects/og-grid-core/src/lib/engine.ts:321-327 | appending a value appends the number `Number` makes of it, or nothing when that is NaN |
| Aggregation.NumericsSkipsNaN | projects/og-grid-core/src/lib/engine.ts:321-327 | `undefined` and every string `Number` reads as NaN are skipped, and `null` counts as 0 |
| Aggregation.WordIsNaN | projects/og-grid-core/src/lib/engine.ts:321-327 | a word such as `"x"` is such a string |
| Aggregation.NumericsOfNumbers | projects/og-grid-core/src/lib/engine.ts:321-327 | numbers pass through coercion unchanged and in order |
| Aggregation.MinOfIsLeast | projects/og-grid-core/src/lib/engine.ts:337-340 | the minimum is one of the numbers and no number is smaller |
| Aggregation.MaxOfIsGreatest | projects/og-grid-core/src/lib/engine.ts:341-344 | the maximum is one of the numbers and no number is greater |
| Aggregation.SumBetween | projects/og-grid-core/src/lib/engine.ts:345-357 | the sum lies between count × minimum and count × maximum |
| Aggregation.TruncDivBetween | projects/og-grid-core/src/lib/engine.ts:345-357 | a quotient truncated toward zero keeps the bounds of the exact quotient |
| Aggregation.NumericAggregations | projects/og-grid-core/src/lib/engine.ts:333-357 | over at least one number, `sum` is the sum of the coerced values, `min` and `max` their `MinOf` and `MaxOf`, and `avg` the sum divided by their number, truncated (least and greatest are proved by MinOfIsLeast, MaxOfIsGreatest and NumericAggregationBounds) |
| Aggregation.NumericAggregationBounds | projects/og-grid-core/src/lib/engine.ts:333-357 | `min` and `max` are attained and bound every numeric value, and `avg` lies between them |
| Aggregation.Aggregates | projects/og-grid-core/src/lib/engine.ts:293-312 | no rows give an empty record; otherwise the record has one entry per aggregated column |
| Aggregation.AggsOverKeys | projects/og-grid-core/src/lib/engine.ts:300-311 | the record has an entry for exactly the listed columns, each the column's aggregate over the rows |
| Aggregation.ComputeAggs | projects/og-grid-core/src/lib/engine.ts:293-312 | the method returns the specified aggregate record |
| Aggregation.AggregateEach | projects/og-grid-core/src/lib/engine.ts:300-311 | the loop over the lookup's keys fills the record entry by entry |
| Aggregation.AggsOverAll | projects/og-grid-core/src/lib/engine.ts:300-311 | iterating over `Object.keys` of the lookup gives the whole record |
| Aggregation.AggLookup | projects/og-grid-core/src/lib/engine.ts:198-201 | the aggregation lookup is a well-formed dictionary |
| Aggregation.BuildAggLookup | projects/og-grid-core/src/lib/engine.ts:198-201 | the loop builds the aggregation lookup |
| Aggregation.AggLookupLastWins | projects/og-grid-core/src/lib/engine.ts:198-201 | a column is in the lookup exactly when some entry names it; the lookup holds the last such entry |
| Aggregation.AggLookupNames | projects/og-grid-core/src/lib/engine.ts:198-201 | a column is in the lookup exactly when some entry names it |
| Aggregation.AggLookupLast | projects/og-grid-core/src/lib/engine.ts:198-201 | the lookup holds the last entry naming a column |
| Grouping.Buckets | projects/og-grid-core/src/lib/engine.ts:229-234 | bucketing rows gives a well-formed dictionary |
| Grouping.BucketsPartition | projects/og-grid-core/src/lib/engine.ts:229-234 | a key has a bucket exactly when some row has that key, and the bucket holds exactly those rows in input order |
| Grouping.BucketsMembers | projects/og-grid-core/src/lib/engine.ts:229-234 | a key has a bucket exactly when some row has that key |
| Grouping.BucketsContents | projects/og-grid-core/src/lib/engine.ts:229-234 | a bucket holds exactly the rows with its key, in input order |
| Grouping.BucketsFirstSeen | projects/og-grid-core/src/lib/engine.ts:229-234 | buckets are created in the order their keys are first seen |
| Grouping.NodesFor | projects/og-grid-core/src/lib/engine.ts:239-263 | one node per sorted key |
| Grouping.CollectLeafRows | projects/og-grid-core/src/lib/engine.ts:273-281 | the loop gathers the rows below the nodes, in tree order |
| Grouping.CountLeaves | projects/og-grid-core/src/lib/engine.ts:283-291 | the loop sums the leaf counts of the nodes |
| Grouping.BucketRowsBy | projects/og-grid-core/src/lib/engine.ts:229-234 | the loop builds the buckets |
| Grouping.SortBucketKeys | projects/og-grid-core/src/lib/engine.ts:236 | the keys of the buckets are sorted in place into the specified order |
| Grouping.BuildGroupTree | projects/og-grid-core/src/lib/engine.ts:216-266 | the method builds the specified tree level |
| Grouping.BuildNodes | projects/og-grid-core/src/lib/engine.ts:239-263 | the node loop builds one node per key |
| Grouping.BuildNode | projects/og-grid-core/src/lib/engine.ts:240-262 | the loop body builds the specified node: path, key, children or leaves, count and aggregates |
| Grouping.Flatten | projects/og-grid-core/src/lib/engine.ts:366-393 | the method appends the flattened view and the marker paths of the nodes to the caller's arrays |
| Grouping.FlatPrefix | projects/og-grid-core/src/lib/engine.ts:372-392 | each node contributes its marker, then what lies below it, after the nodes before it |
| Grouping.FlattenNode | projects/og-grid-core/src/lib/engine.ts:372-392 | one loop step appends the node's marker and, if it is expanded, what lies below it |
| Grouping.GroupAndFlattenRows | projects/og-grid-core/src/lib/engine.ts:182-214 | the method returns the specified flat view and path list |
| Grouping.LeafCountIsSize | projects/og-grid-core/src/lib/engine.ts:283-291 | for any nodes, `countLeaves` equals the number of rows `collectLeafRows` gathers from them |
| Grouping.NodeCountAndAggs | projects/og-grid-core/src/lib/engine.ts:251-258 | a node's count is the number of rows below it (`collectLeafRows` of its children, or its bucket at the last level), and its aggregates are computed over those rows in tree order |
| Grouping.MakeNodeCountIsBucket | projects/og-grid-core/src/lib/engine.ts:245-258 | when every deeper group entry names a column, a node's count is the size of its bucket and the rows below it are a permutation of the bucket |
| Grouping.MakeNodeKeyIsCell | projects/og-grid-core/src/lib/engine.ts:254-271 | a node's key is null for the null bucket, and otherwise a non-null value whose string form is the bucket key |
| Grouping.GroupLevelKeys | projects/og-grid-core/src/lib/engine.ts:229-271 | the same for every node a level builds, from the first row of its bucket |
| Grouping.KeyedUnionCount | projects/og-grid-core/src/lib/engine.ts:229-263 | the buckets of distinct keys together hold each row as often as the input does, if its key is among them |
| Grouping.StrCompareIsOrder | projects/og-grid-core/src/lib/engine.ts:236 | the key comparison is a strict order |
| Grouping.SortedKeysOnce | projects/og-grid-core/src/lib/engine.ts:236 | the sorted keys list each bucket key exactly once |
| Grouping.SortedKeysStrict | projects/og-grid-core/src/lib/engine.ts:236 | the sorted keys are in strictly ascending string order |
| Grouping.NodesForAt | projects/og-grid-core/src/lib/engine.ts:239-263 | node i is built from key i |
| Grouping.GroupLevelShape | projects/og-grid-core/src/lib/engine.ts:216-266 | sibling nodes follow the distinct keys in ascending string order, each built from the rows with its key, in input order |
| Grouping.GroupLevelKeepsRows | projects/og-grid-core/src/lib/engine.ts:216-266 | when every group entry from this level on names a column, the rows below a level of the tree are a permutation of its input rows |
| Grouping.NodesForKeepsRows | projects/og-grid-core/src/lib/engine.ts:239-263 | when every deeper group entry names a column, the nodes of all keys together hold the input rows, neither losing nor duplicating any |
| Grouping.MakeNodeKeepsRows | projects/og-grid-core/src/lib/engine.ts:245-251 | when every deeper group entry names a column, the rows below a node are a permutation of its bucket |
| Grouping.TreeCountsAllRows | projects/og-grid-core/src/lib/engine.ts:283-291 | when every group entry names a column, `countLeaves` of the whole tree (the leaf rows counted level by level, not the nodes' `count` fields; those are NodeCountAndAggs) is the number of input rows |
| Grouping.GroupPathsAppend | projects/og-grid-core/src/lib/engine.ts:366-393 | the marker paths of two views joined are the paths of each, joined |
| Grouping.DataOfAppend | projects/og-grid-core/src/lib/engine.ts:366-393 | the data rows of two views joined are the data rows of each, joined |
| Grouping.DataRowsViews | projects/og-grid-core/src/lib/engine.ts:189-191 | plain view rows hold no markers, and their data rows are the rows |
| Grouping.FlatPathsAreGroupRows | projects/og-grid-core/src/lib/engine.ts:372-392 | the path list is exactly the sequence of marker paths in the flat view |
| Grouping.BelowPathsAreGroupRows | projects/og-grid-core/src/lib/engine.ts:372-392 | below a node, too, the paths are the marker paths of the view |
| Grouping.ExpandedShowsAllRows | projects/og-grid-core/src/lib/engine.ts:207-210 | with no expansion set, every node is expanded and the view's data rows are all the rows of the tree, in tree order |
| Grouping.ExpandedShowsRowsBelow | projects/og-grid-core/src/lib/engine.ts:207-210 | with no expansion set, the data rows below a node are its rows |
| Grouping.CollapsedShowsGroupRowOnly | projects/og-grid-core/src/lib/engine.ts:382-391 | a collapsed node contributes its marker and its path only |
| Grouping.GroupAndFlattenRowsShown | projects/og-grid-core/src/lib/engine.ts:182-214 | with no grouping, the view is the rows and there are no paths; otherwise the paths are the markers' paths, and, when every group entry names a column and everything is expanded, the data rows are a permutation of the input |
| Grouping.EmptyGroupColumnAtTop | projects/og-grid-core/src/lib/engine.ts:224-225 | a first group entry with an empty column id leaves no rows and no paths at all |
| Grouping.NodesForOverEmptyLevel | projects/og-grid-core/src/lib/engine.ts:224-251 | the nodes of a level whose next group entry has an empty column id have no rows below them |
| Grouping.GroupLevelOverEmptyLevel | projects/og-grid-core/src/lib/engine.ts:216-266 | a level whose next group entry has an empty column id holds no rows below its nodes |
| Grouping.GroupLevelNonEmpty | projects/og-grid-core/src/lib/engine.ts:224-241 | a level whose group entry names a column has at least one group for non-empty input |
| Grouping.EmptyGroupColumnBelow | projects/og-grid-core/src/lib/engine.ts:216-266 | with a second group entry whose column id is empty, the top-level groups still exist for non-empty input, but their leaf count is 0 and no data row is shown even fully expanded |
| Grouping.NullKeyCollision | projects/og-grid-core/src/lib/engine.ts:231 | a null cell and the text `"__null__"` land in the same bucket |
| Grouping.PathsCanCollide | projects/og-grid-core/src/lib/engine.ts:241 | distinct nodes can share a path: an empty root key, or a key containing `|` |
| Pivot.ColumnsFor | dist/og-grid-core/bundles/og-grid-core.umd.js:296-305 | one dynamic column per value column for a pivot value |
| Pivot.PivotedRows | dist/og-grid-core/bundles/og-grid-core.umd.js:308-322 | one output row per pivot value |
| Pivot.PivotRows | dist/og-grid-core/bundles/og-grid-core.umd.js:270-324 | the method returns the specified pivot result |
| Pivot.CollectPivotBuckets | dist/og-grid-core/bundles/og-grid-core.umd.js:282-292 | the loop buckets the rows by pivot value, and the value list is the buckets' first-seen order |
| Pivot.BuildDynamicCols | dist/og-grid-core/bundles/og-grid-core.umd.js:294-306 | the nested loop builds the dynamic columns, pivot value major |
| Pivot.BuildPivotedRows | dist/og-grid-core/bundles/og-grid-core.umd.js:308-322 | the loop builds one row per `Object.keys` entry of the buckets |
| Pivot.BuildPivotFields | dist/og-grid-core/bundles/og-grid-core.umd.js:310-321 | the inner loop fills one output row |
| Pivot.PivotFieldDistinct | dist/og-grid-core/bundles/og-grid-core.umd.js:299-311 | a dynamic field never clashes with `__pivotKey`, and within one pivot value distinct value columns get distinct fields |
| Pivot.PivotFieldAmbiguous | dist/og-grid-core/bundles/og-grid-core.umd.js:299 | pivot values or column ids containing `:` can give two columns the same field |
| Pivot.PivotFieldsContent | dist/og-grid-core/bundles/og-grid-core.umd.js:310-321 | an output row has `__pivotKey` and exactly one field per value column, for its own pivot value only |
| Pivot.PivotFieldsValue | dist/og-grid-core/bundles/og-grid-core.umd.js:314-319 | each such field is the column's aggregate over the bucket |
| Pivot.PivotedRowsAt | dist/og-grid-core/bundles/og-grid-core.umd.js:308-322 | row i aggregates the bucket of pivot value i |
| Pivot.ColumnsForAt | dist/og-grid-core/bundles/og-grid-core.umd.js:296-305 | column j of a pivot value is built from value column j |
| Pivot.DynamicColsLength | dist/og-grid-core/bundles/og-grid-core.umd.js:294-306 | there are (pivot values) × (value columns) dynamic columns |
| Pivot.DynamicColsAt | dist/og-grid-core/bundles/og-grid-core.umd.js:294-306 | dynamic column i × (value columns) + j is value column j under pivot value i |
| Pivot.DynamicColsLayout | dist/og-grid-core/bundles/og-grid-core.umd.js:294-306 | the dynamic columns are all pairs, pivot value major, with field `pv:<pv>:<id>`, header `<name> <pv or (blank)>`, not sortable, number filter, width 140 |
| Pivot.PivotInactive | dist/og-grid-core/bundles/og-grid-core.umd.js:271-280 | the path list is always empty; without `enabled`, a pivot column and value columns, or when the pivot column is unknown, the rows come back unchanged with no columns |
| Pivot.PivotActiveShape | dist/og-grid-core/bundles/og-grid-core.umd.js:282-323 | an active pivot has columns in first-seen pivot-value order, and one row per pivot value in `Object.keys` order, aggregating exactly that value's rows |
| Pivot.PivotRowsInColumnOrder | dist/og-grid-core/bundles/og-grid-core.umd.js:308 | when no pivot value is an array index, the rows follow the columns' order |
| Csv.RowLines | projects/og-grid-core/src/lib/csv.ts:21-29 | one line per row |
| Csv.ToCsv | projects/og-grid-core/src/lib/csv.ts:13-32 | the loop builds the specified document |
| Csv.EscapeNullish | projects/og-grid-core/src/lib/csv.ts:5 | null and undefined escape to the empty text |
| Csv.QuotingAppend | projects/og-grid-core/src/lib/csv.ts:9 | two texts joined need quotes exactly when one of them does |
| Csv.DoubleQuotesSpecial | projects/og-grid-core/src/lib/csv.ts:7-9 | doubling quotes neither adds nor removes the need to quote |
| Csv.EscapeTextQuoting | projects/og-grid-core/src/lib/csv.ts:7-9 | a field with `"`, `,`, LF or CR is wrapped in quotes with its quotes doubled; any other field is output unchanged |
| Csv.NoQuotesUnchanged | projects/og-grid-core/src/lib/csv.ts:7 | a text with no quote is not changed by doubling |
| Csv.FeedEscaped | projects/og-grid-core/src/lib/csv.ts:4-11 | reading an escaped field gives back the original text |
| Csv.FeedLine | projects/og-grid-core/src/lib/csv.ts:19-28 | reading a line of escaped fields joined by `,` gives back the fields |
| Csv.LinesSplit | projects/og-grid-core/src/lib/csv.ts:31 | the document is the earlier lines, a line feed and the last line |
| Csv.FeedLines | projects/og-grid-core/src/lib/csv.ts:31 | reading the lines joined by line feeds gives back every record read so far |
| Csv.HeaderLineIsLine | projects/og-grid-core/src/lib/csv.ts:14-19 | the header line is the header record escaped and joined |
| Csv.RowLineIsLine | projects/og-grid-core/src/lib/csv.ts:22-28 | a row's line is its record escaped and joined |
| Csv.RowLinesAt | projects/og-grid-core/src/lib/csv.ts:21-29 | line i of the rows is row i's line |
| Csv.ExportLineAt | projects/og-grid-core/src/lib/csv.ts:18-29 | line i of the export is record i, escaped and joined |
| Csv.ExportLines | projects/og-grid-core/src/lib/csv.ts:18-29 | the export's lines are the records' lines: the header, then one per row |
| Csv.ReadLines | projects/og-grid-core/src/lib/csv.ts:31 | reading back records joined by line feeds gives the records |
| Csv.ReadExport | projects/og-grid-core/src/lib/csv.ts:13-32 | with at least one column, reading the exported text gives back the header texts and every row's cell texts, each row with one field per column |
| Csv.RecordsWidth | projects/og-grid-core/src/lib/csv.ts:14-27 | every record has exactly one field per column |
| Sequences.FirstIndex | projects/og-grid-angular/src/lib/og-grid.component.ts:248-250 | `findIndex`: -1 exactly when no element matches, otherwise the first match |
| Sequences.ToggleSelect | projects/og-grid-angular/src/lib/og-grid.component.ts:384-393 | toggling an entry keeps the other entries in order and adds it when absent, or removes one copy when present |
| Sequences.ToggleSelectAbsent | projects/og-grid-angular/src/lib/og-grid.component.ts:384-393 | appending an absent entry adds exactly one such entry |
| Sequences.ToggleSelectPresent | projects/og-grid-angular/src/lib/og-grid.component.ts:384-393 | splicing out a matching entry removes one such entry and keeps the others in order |
| Sequences.ToggleTwice | projects/og-grid-angular/src/lib/og-grid.component.ts:384-393 | toggling an absent entry twice restores the list |
| Grid.SortFirstPlacesColumn | projects/og-grid-angular/src/lib/og-grid.component.ts:487-503 | after sortAsc/sortDesc the column has one entry, at index 0, with the chosen direction, and the other entries keep their order |
| Grid.WithoutSortRemovesColumn | projects/og-grid-angular/src/lib/og-grid.component.ts:505-510 | clearSort removes every entry for the column and nothing else, keeping the order |
| Grid.HeaderCycleCycles | projects/og-grid-angular/src/lib/og-grid.component.ts:247-258 | the corrected cycle (see "## Findings"; as written a click leaves the sort model unchanged): clicking an unsorted column's header three times goes ascending, descending, unsorted; in single-sort mode the other columns' sorts are dropped |
| Grid.CycleClicks | projects/og-grid-angular/src/lib/og-grid.component.ts:248-258 | one header step on a list without the column appends it ascending, turns ascending into descending, and removes descending |
| Grid.HeaderCycleAsWrittenRestarts | projects/og-grid-angular/src/lib/og-grid.component.ts:247 | as written, in single-sort mode a second click on an ascending column yields ascending again; the corrected cycle yields descending |
| Grid.HeaderClickShouldSort | projects/og-grid-angular/src/lib/og-grid.component.ts:247-260 | a click on an unsorted column should sort it ascending |
| Grid.ChangedFiltersShape | projects/og-grid-angular/src/lib/og-grid.component.ts:321-337 | the column's old entries are removed, and one new entry appended only when a value or an upper value is present; other entries keep their order |
| Grid.ToggledGroupsToggle | projects/og-grid-angular/src/lib/og-grid.component.ts:384-393 | when the group model has at most one entry for the column, toggling it adds it when absent and removes it when present, keeping the others in order |
| Grid.ToggledGroupsTwice | projects/og-grid-angular/src/lib/og-grid.component.ts:384-393 | toggling an absent group column twice restores the group model |
| Grid.ToggledValueColsToggle | projects/og-grid-angular/src/lib/og-grid.component.ts:449-457 | when the value columns have at most one entry for the column, toggling it adds it when absent and removes it when present, keeping the others in order |
| Grid.ToggledValueColsTwice | projects/og-grid-angular/src/lib/og-grid.component.ts:449-457 | toggling an absent value column twice restores the value columns |
| Grid.NullishRowIsLeaf | projects/og-grid-angular/src/lib/og-grid.component.ts:399-400 | a null or undefined data row is not a group row here, so it is a leaf of the view (where the component throws) |
| Grid.LeafRowsOfMembers | projects/og-grid-angular/src/lib/og-grid.component.ts:399-419 | a row is a leaf of the view exactly when it is a data row of the view without a truthy `__group` |
| Grid.LeafRowsOfDataRows | projects/og-grid-angular/src/lib/og-grid.component.ts:417-419 | when no row has a truthy `__group`, the leaves of plain rows are the rows |
| Grid.ToggledSelection | projects/og-grid-angular/src/lib/og-grid.component.ts:276-290 | in single mode the selection becomes exactly the row; in multiple mode the row's membership flips and the rest stays |
| Grid.DistinctSetSize | projects/og-grid-angular/src/lib/og-grid.component.ts:297 | the set of distinct rows has as many members as the rows |
| Grid.ToggledAllTwice | projects/og-grid-angular/src/lib/og-grid.component.ts:292-304 | with distinct leaves, toggleAll selects all of them, and a second toggleAll clears the selection |
| Grid.ToggledAllRepeatedRow | projects/og-grid-angular/src/lib/og-grid.component.ts:297-303 | when a row repeats among the leaves, the size test never matches and toggleAll keeps reselecting |
| Grid.AggModelAggregates | projects/og-grid-angular/src/lib/og-grid.component.ts:421-433 | for the last column with its id, the group aggregate is its own aggFunc over its cells when set; otherwise, if the first row holds a number there, the sum of the cells that coerce to a number (null when none does), and else the number of rows |
| Grid.RecomputedSelectionAndExpansion | projects/og-grid-angular/src/lib/og-grid.component.ts:211-234 | after recompute the selection is the old selection less the non-leaves; in grouped mode the old expanded paths stay and every emitted path joins; in pivot or plain mode the set is emptied |
| Grid.PlainViewShowsFilteredRows | projects/og-grid-angular/src/lib/og-grid.component.ts:208-226 | without pivot or grouping, and when no row has a truthy `__group` property, the view's leaves are a permutation of the rows that pass the filters |
| Grid.PivotOnUnknownColumn | projects/og-grid-angular/src/lib/og-grid.component.ts:211-216 | pivoting on a column that does not exist leaves the grid with no columns and the sorted rows |
| Grid.Grid.constructor | projects/og-grid-angular/src/lib/og-grid.component.ts:42-67 | the initial state: empty models, nothing expanded, nothing selected, no menu open |
| Grid.Grid.PruneSelection | projects/og-grid-angular/src/lib/og-grid.component.ts:228-234 | the selection loop keeps just the selected rows that are leaves of the view, and nothing else changes |
| Grid.Grid.ExpandPaths | projects/og-grid-angular/src/lib/og-grid.component.ts:220 | every emitted path is added to the expanded set, and nothing else changes |
| Grid.Grid.Recompute | projects/og-grid-angular/src/lib/og-grid.component.ts:202-235 | the new state is the recomputation of the old one |
| Grid.Grid.LayOut | projects/og-grid-angular/src/lib/og-grid.component.ts:203-226 | columns merged, rows filtered and sorted, then laid out by pivot, by groups, or plainly |
| Grid.Grid.ShowPivot | projects/og-grid-angular/src/lib/og-grid.component.ts:211-216 | the pivot's rows and dynamic columns become the view, and the expanded set is cleared |
| Grid.Grid.ShowGroups | projects/og-grid-angular/src/lib/og-grid.component.ts:217-222 | the flat group view becomes the view, and every emitted path is expanded |
| Grid.Grid.OnHeaderClick | projects/og-grid-angular/src/lib/og-grid.component.ts:239-261 | as written: nothing happens for a non-sortable column or an open menu; otherwise only a recompute happens, and the sort model never changes |
| Grid.Grid.OnHeaderClickCorrected | projects/og-grid-angular/src/lib/og-grid.component.ts:239-261 | the header click with the computed sort model assigned before the recompute |
| Grid.Grid.GetSortIndicator | projects/og-grid-angular/src/lib/og-grid.component.ts:263-269 | empty exactly when the column is not sorted; otherwise the first entry's ▲ or ▼, followed by its 1-based rank when several columns are sorted |
| Grid.Grid.SortAscIndicator | projects/og-grid-angular/src/lib/og-grid.component.ts:263-269 | after sortAsc the column shows ▲, ranked 1 when other columns are sorted too |
| Grid.Grid.CloseMenu | projects/og-grid-angular/src/lib/og-grid.component.ts:482-485 | the menu is closed and nothing else changes |
| Grid.Grid.SortAsc | projects/og-grid-angular/src/lib/og-grid.component.ts:487-494 | the column sorted first ascending, the grid recomputed, the menu closed |
| Grid.Grid.SortDesc | projects/og-grid-angular/src/lib/og-grid.component.ts:496-503 | the column sorted first descending, the grid recomputed, the menu closed |
| Grid.Grid.ClearSort | projects/og-grid-angular/src/lib/og-grid.component.ts:505-510 | the column's sort entries removed, the grid recomputed, the menu closed |
| Grid.Grid.OnFilterChange | projects/og-grid-angular/src/lib/og-grid.component.ts:321-337 | the filter model replaced as `ChangedFilters` says, then the grid recomputed |
| Grid.Grid.ToggleGroup | projects/og-grid-angular/src/lib/og-grid.component.ts:384-393 | the group column toggled, the expanded set cleared when no grouping is left, then the grid recomputed |
| Grid.Grid.ToggleValueCol | projects/og-grid-angular/src/lib/og-grid.component.ts:449-457 | the value column toggled, with its aggFunc or `sum`, then the grid recomputed |
| Grid.Grid.ToggleRowSelection | projects/og-grid-angular/src/lib/og-grid.component.ts:276-290 | group rows and a hidden selection column are ignored; otherwise the selection is toggled by mode and nothing else changes |
| Grid.Grid.ToggleAll | projects/og-grid-angular/src/lib/og-grid.component.ts:292-304 | ignored when the selection column is hidden or there are no leaves; cleared when the selection has as many rows as there are leaves; otherwise exactly the leaves |

## Left out

- Numbers are integers. Floating point, `NaN`, the ±∞ seeds of `min`/`max`, and `Number(v)` on fractional or exponent text are not modelled: `Number` accepts optionally signed decimal integer text with surrounding white space. So hexadecimal, octal and binary literals (`Number("0x10")` is 16 in JavaScript and NaN here) and `"Infinity"` read as NaN; integers above 2^53 in magnitude keep their exact value where JavaScript rounds them; and `String(n)` stays in decimal digits from 1e21 on, where JavaScript switches to exponent form, so group keys and CSV text differ there.
- Aggregation.NumericAggregations: `avg` is the sum divided by the count, truncated toward zero, where the source divides in floating point.
- `toLowerCase` maps ASCII letters only. String order compares `char` values, where JavaScript compares UTF-16 code units.
- Objects have no prototype: inherited keys, and properties explicitly set to `undefined`, are not modelled.
- Selection works by row value; the source's `Set` and `indexOf` compare object references, so two equal rows are one row here.
- `Array.prototype.sort` is modelled by an insertion sort, which is stable. The source promises only a permutation ordered by the comparator, and that is what is proved about it.
- The `Value` type has no `Date` objects and no arrays, so the `v instanceof Date` branch of `dateVal` (engine.ts:163) is not modelled; a `Date`-valued cell or filter bound cannot be expressed.
- Date values come from the `parseDate` parameter; `new Date(x).getTime()` is not modelled beyond the time-value bound of ±8.64e15 ms.
- Caller callbacks are function values and assumed to terminate.
- pivotRows' `expanded` argument is unused by the source, and the model leaves it out.
- The component's `@Input() showSelection` is unused by its methods; the model reads `options.showSelection` as the source does.
- The component's DOM and Angular plumbing is not part of this model: the template, change detection, `ngOnChanges`, `onDocClick`, menus and `toggleMenu`, column resizing and `getColWidth`, and `trackBy`.
- Debounced text input (`onTextFilterInput`, `onTextModeChange`, `onRangeInput`, `getFilterValue`) is not modelled; the debounced call ends in `onFilterChange`, which is.
- `clearFilters`, `clearFilterFor`, `clearGroups`, `toggleGroupExpand`, `onPivotToggle` and `onPivotConfigChange` are not named as core operations and are left out.
- Column inference (`inferType`, `buildColumnDefs`, `setColumns`, `generateHeaderFromKey`), the download (`downloadTextFile`, `exportCsv`) and the `api` object are not modelled: they parse dates, run regexes or touch the DOM.
- Grid.NullishRowIsLeaf: `isGroupRow` reads `__group` without `?.`, so the component throws a TypeError on a null or undefined view row; the model has no exceptions and reads the property as undefined, so such a row is a leaf. The lines below name the contracts this affects.
- Grid.LeafRowsOfMembers: a null or undefined view row is counted a leaf, where the component's `getLeafRows` throws.
- Grid.LeafRowsOfDataRows: holds for null or undefined rows too, on which the component's `isGroupRow` throws.
- Grid.RecomputedSelectionAndExpansion: with a null or undefined row in the view, the component throws in `getLeafRows` after assigning `viewRows`, leaving the selection unpruned; the model prunes as usual.
- Grid.PlainViewShowsFilteredRows: a null or undefined row that passes the filters makes the component throw; the model shows it as a leaf.
- Grid.Grid.Recompute: the throw on a null or undefined view row (after `viewRows` is assigned, before the selection is pruned) is not modelled; the new state is the normal recomputation.
- Grid.Grid.PruneSelection: the `getLeafRows` call it models throws on a null or undefined view row; the model prunes normally.
- Grid.Grid.ToggleRowSelection: with the selection column shown, the component's `isGroupRow` check throws for a null or undefined row; the model toggles the row.
- Grid.Grid.ToggleAll: with the selection column shown, `getLeafRows` throws when a view row is null or undefined; the model selects or clears as usual.
- Csv.ReadExport: the source has no CSV reader; `ReadCsv` is this model's own reader, the inverse of the export, and the round trip needs at least one column, since with none every line is empty.

Behaviour of the source that the model keeps:

- Newly created groups show collapsed at first. Flatten consults the expanded set as it was before the recompute, and the emitted paths join it only afterwards, so new groups expand on the next recompute.
- Pivoting on an unknown column leaves the grid with no columns at all (`mergedCols` becomes the empty dynamic column list).
- A data row with a truthy `__group` property is taken for a group row by the component.
- `toggleAll` never clears the selection when a row repeats among the leaves.
- Group paths can collide (an empty root key, a key containing `|`), and a cell holding the text `"__null__"` joins the null bucket.
- Pivot output rows follow `Object.keys` order, which puts array-index pivot values first, so they can differ from the dynamic column order.
- `sum` of no numeric values is null, not 0.
- A group entry with an empty column id ends the tree at its level (`if (!colId) return []`): at the top nothing is shown, and below the top every group of the level above is empty, so no data row is shown (Grouping.EmptyGroupColumnAtTop, Grouping.EmptyGroupColumnBelow).

## Findings

| source | as written | input that shows it | evidently intended | confidence | as-written member | corrected member |
|---|---|---|---|---|---|---|
| projects/og-grid-angular/src/lib/og-grid.component.ts:247-260 | `onHeaderClick` computes the next sort model into a local `next` and never assigns it, so a header click leaves the sort model unchanged | a sortable column `price`, empty sort model, one click: the model stays `[]` | assign `next` to `sortModel` before `recompute`, so clicks cycle ascending, descending, unsorted | not executed | Grid.Grid.OnHeaderClick (with Grid.HeaderClickShouldSort) | Grid.Grid.OnHeaderClickCorrected (with Grid.HeaderCycleCycles) |
| projects/og-grid-angular/src/lib/og-grid.component.ts:247 | in single-sort mode `next` starts from `[]`, so the column's own entry is never found and every click yields ascending | sort model `[price asc]`, single-sort mode, a click on `price`: the cycle yields `[price asc]` again | start from the column's own entry when not in multi-sort mode, so the second click yields descending | not executed | Grid.HeaderCycleAsWrittenRestarts | Grid.HeaderCycleCycles |

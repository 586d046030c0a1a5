/**
 * The grid component's state and the operations that edit it: the sort,
 * filter, group and pivot models the caller holds, the set of expanded
 * group paths, and the row selection, together with `recompute`, which
 * runs the row engine (filter, then sort, then pivot, group or pass
 * through) over the current models and prunes the selection.
 */
module Grid {
  import opened JsValues
  import opened Sequences
  import opened Columns
  import opened SortStage
  import opened FilterStage
  import opened Aggregation
  import opened Grouping
  import opened Pivot

  // ---------------------------------------------------------------------
  // Editing the sort model

  function IsSortFor(id: string): SortModelItem -> bool {
    (m: SortModelItem) => m.colId == id
  }

  /** `sortModel.filter(m => m.colId !== id)`. */
  function WithoutSort(model: seq<SortModelItem>, id: string): seq<SortModelItem> {
    Select(model, Not(IsSortFor(id)))
  }

  /** The sort model `sortAsc`/`sortDesc` assign: the column's entry first, then every other column's entry. */
  function SortFirst(model: seq<SortModelItem>, id: string, dir: SortDirection): seq<SortModelItem> {
    [SortModelItem(id, dir)] + WithoutSort(model, id)
  }

  /**
   * After `sortAsc`/`sortDesc` the column has exactly one entry, at the
   * front, with the chosen direction; the other columns' entries are the
   * old ones in their old order.
   */
  lemma SortFirstPlacesColumn(model: seq<SortModelItem>, id: string, dir: SortDirection)
    ensures SortFirst(model, id, dir)[0] == SortModelItem(id, dir)
    ensures Select(SortFirst(model, id, dir), IsSortFor(id)) == [SortModelItem(id, dir)]
    ensures Select(SortFirst(model, id, dir), Not(IsSortFor(id))) == Select(model, Not(IsSortFor(id)))
  {
    var e, w := SortModelItem(id, dir), WithoutSort(model, id);
    SelectAppend([e], w, IsSortFor(id));
    SelectAppend([e], w, Not(IsSortFor(id)));
    SelectSingleton(e, IsSortFor(id));
    SelectSingleton(e, Not(IsSortFor(id)));
    SelectSatisfies(model, Not(IsSortFor(id)));
    SelectNone(w, IsSortFor(id));
    SelectAll(w, Not(IsSortFor(id)));
  }

  /** `clearSort` removes every entry of the column and keeps every other entry, in order. */
  lemma WithoutSortRemovesColumn(model: seq<SortModelItem>, id: string)
    ensures Select(WithoutSort(model, id), IsSortFor(id)) == []
    ensures forall m :: multiset(WithoutSort(model, id))[m] == if m.colId == id then 0 else multiset(model)[m]
    ensures IsSubsequence(WithoutSort(model, id), model)
  {
    SelectSatisfies(model, Not(IsSortFor(id)));
    SelectNone(WithoutSort(model, id), IsSortFor(id));
    forall m ensures multiset(WithoutSort(model, id))[m] == if m.colId == id then 0 else multiset(model)[m] {
      SelectMultiset(model, Not(IsSortFor(id)), m);
    }
    SelectIsSubsequence(model, Not(IsSortFor(id)));
  }

  /** One step of the asc, desc, unsorted cycle for a column on the model `next`. */
  function CycleFrom(next: seq<SortModelItem>, id: string): seq<SortModelItem> {
    var idx := FirstIndex(next, IsSortFor(id));
    if idx == -1 then next + [SortModelItem(id, Asc)]
    else if next[idx].sort == Asc then next[idx := SortModelItem(id, Desc)]
    else RemoveAt(next, idx)
  }

  /** The model `onHeaderClick` computes: in single-sort mode it starts the cycle from an empty model. */
  function HeaderCycleAsWritten(model: seq<SortModelItem>, id: string, multi: bool): seq<SortModelItem> {
    CycleFrom(if multi then model else [], id)
  }

  /** The cycle as intended: in single-sort mode it starts from the column's own entry, dropping the others. */
  function HeaderCycle(model: seq<SortModelItem>, id: string, multi: bool): seq<SortModelItem> {
    CycleFrom(if multi then model else Select(model, IsSortFor(id)), id)
  }

  /**
   * Three clicks on an unsorted column sort it ascending, then descending,
   * then not at all; with multi-sort the other columns' entries stay
   * where they were, without it they are dropped.
   */
  lemma HeaderCycleCycles(model: seq<SortModelItem>, id: string, multi: bool)
    requires forall i :: 0 <= i < |model| ==> model[i].colId != id
    ensures var base := if multi then model else [];
      var one := HeaderCycle(model, id, multi);
      var two := HeaderCycle(one, id, multi);
      one == base + [SortModelItem(id, Asc)]
      && two == base + [SortModelItem(id, Desc)]
      && HeaderCycle(two, id, multi) == base
  {
    var asc, desc := SortModelItem(id, Asc), SortModelItem(id, Desc);
    if multi {
      CycleClicks(model, id);
    } else {
      SelectNone(model, IsSortFor(id));
      SelectSingleton(asc, IsSortFor(id));
      SelectSingleton(desc, IsSortFor(id));
      CycleClicks([], id);
    }
  }

  /** On a model without the column, three steps of the cycle append it ascending, turn it descending and remove it. */
  lemma CycleClicks(base: seq<SortModelItem>, id: string)
    requires forall i :: 0 <= i < |base| ==> base[i].colId != id
    ensures CycleFrom(base, id) == base + [SortModelItem(id, Asc)]
    ensures CycleFrom(base + [SortModelItem(id, Asc)], id) == base + [SortModelItem(id, Desc)]
    ensures CycleFrom(base + [SortModelItem(id, Desc)], id) == base
  {
    var asc, desc := SortModelItem(id, Asc), SortModelItem(id, Desc);
    FirstIndexAfter(base, IsSortFor(id), asc);
    FirstIndexAfter(base, IsSortFor(id), desc);
    assert (base + [asc])[|base| := desc] == base + [desc];
    assert RemoveAt(base + [desc], |base|) == base;
  }

  /** As written, a single-sort click on a column sorted ascending sorts it ascending again. */
  lemma HeaderCycleAsWrittenRestarts()
    ensures HeaderCycleAsWritten([SortModelItem("price", Asc)], "price", false) == [SortModelItem("price", Asc)]
    ensures HeaderCycle([SortModelItem("price", Asc)], "price", false) == [SortModelItem("price", Desc)]
  {
    var asc, desc := SortModelItem("price", Asc), SortModelItem("price", Desc);
    assert FirstIndex([], IsSortFor("price")) == -1;
    SelectSingleton(asc, IsSortFor("price"));
    assert FirstIndex([asc], IsSortFor("price")) == 0;
    assert [asc][0 := desc] == [desc];
  }

  /** A click on an unsorted sortable column, with an empty model, should sort it ascending. */
  lemma HeaderClickShouldSort()
    ensures HeaderCycle([], "price", false) == [SortModelItem("price", Asc)]
  {
  }

  /** `▲` or `▼`. */
  function SortMark(dir: SortDirection): char {
    if dir == Asc then '\U{25B2}' else '\U{25BC}'
  }

  // ---------------------------------------------------------------------
  // Editing the filter model

  function IsFilterFor(id: string): FilterModelItem -> bool {
    (f: FilterModelItem) => f.colId == id
  }

  /** `v !== undefined && v !== null && v !== ''`. */
  predicate Present(v: Value) {
    !IsNullish(v) && v != Str("")
  }

  /** The column's text match mode: the one chosen in the grid, else the column's own, else "contains". */
  function FilterModeFor(modes: map<string, TextFilterMode>, col: ColumnDef): TextFilterMode {
    var id := ColId(col);
    if id in modes then modes[id]
    else if col.filterMatchMode.Some? then col.filterMatchMode.value
    else ModeContains
  }

  /** `typeof col.filter === 'string' ? col.filter : undefined`. */
  function FilterTypeOf(col: ColumnDef): Option<string> {
    if col.filter.Some? && col.filter.value.FilterKind? then Some(col.filter.value.kind) else None
  }

  /** The entry `onFilterChange` appends. */
  function FilterEntry(modes: map<string, TextFilterMode>, col: ColumnDef, value: Value, valueTo: Value): FilterModelItem {
    FilterModelItem(ColId(col), FilterTypeOf(col), value, valueTo, Some(FilterModeFor(modes, col)))
  }

  /** The filter model `onFilterChange` assigns. */
  function ChangedFilters(model: seq<FilterModelItem>, modes: map<string, TextFilterMode>, col: ColumnDef,
                          value: Value, valueTo: Value): seq<FilterModelItem> {
    var next := Select(model, Not(IsFilterFor(ColId(col))));
    if Present(value) || Present(valueTo) then next + [FilterEntry(modes, col, value, valueTo)] else next
  }

  /**
   * After `onFilterChange` the other columns' entries are the old ones in
   * their old order, and the column has one entry, the new one, when a
   * bound is present and none otherwise.
   */
  lemma ChangedFiltersShape(model: seq<FilterModelItem>, modes: map<string, TextFilterMode>, col: ColumnDef,
                            value: Value, valueTo: Value)
    ensures var r, id := ChangedFilters(model, modes, col, value, valueTo), ColId(col);
      Select(r, Not(IsFilterFor(id))) == Select(model, Not(IsFilterFor(id)))
      && Select(r, IsFilterFor(id)) == if Present(value) || Present(valueTo) then [FilterEntry(modes, col, value, valueTo)] else []
  {
    var id := ColId(col);
    var next := Select(model, Not(IsFilterFor(id)));
    var e := FilterEntry(modes, col, value, valueTo);
    SelectSatisfies(model, Not(IsFilterFor(id)));
    SelectNone(next, IsFilterFor(id));
    SelectAll(next, Not(IsFilterFor(id)));
    SelectAppend(next, [e], IsFilterFor(id));
    SelectAppend(next, [e], Not(IsFilterFor(id)));
    SelectSingleton(e, IsFilterFor(id));
    SelectSingleton(e, Not(IsFilterFor(id)));
  }

  // ---------------------------------------------------------------------
  // Editing the group model and the pivot value columns

  function IsGroupFor(id: string): GroupModelItem -> bool {
    (g: GroupModelItem) => g.colId == id
  }

  /** The group model `toggleGroup` assigns. */
  function ToggledGroups(gm: seq<GroupModelItem>, id: string): seq<GroupModelItem> {
    Toggle(gm, IsGroupFor(id), GroupModelItem(id))
  }

  /**
   * With at most one entry per column, `toggleGroup` groups by the column
   * exactly when it did not before, and keeps the other entries in order.
   */
  lemma ToggledGroupsToggle(gm: seq<GroupModelItem>, id: string)
    requires |Select(gm, IsGroupFor(id))| <= 1
    ensures Select(ToggledGroups(gm, id), Not(IsGroupFor(id))) == Select(gm, Not(IsGroupFor(id)))
    ensures |Select(ToggledGroups(gm, id), IsGroupFor(id))| == 1 - |Select(gm, IsGroupFor(id))|
  {
    ToggleSelect(gm, IsGroupFor(id), GroupModelItem(id));
  }

  /** Grouping by a new column and toggling it again restores the group model. */
  lemma ToggledGroupsTwice(gm: seq<GroupModelItem>, id: string)
    requires forall i :: 0 <= i < |gm| ==> gm[i].colId != id
    ensures ToggledGroups(ToggledGroups(gm, id), id) == gm
  {
    ToggleTwice(gm, IsGroupFor(id), GroupModelItem(id));
  }

  function IsValueFor(id: string): AggModelItem -> bool {
    (v: AggModelItem) => v.colId == id
  }

  /** `col.aggFunc` is truthy. */
  predicate HasAggFunc(col: ColumnDef) {
    col.aggFunc.Some? && (col.aggFunc.value.Named? ==> col.aggFunc.value.name != "")
  }

  /** The entry `toggleValueCol` appends: the column's aggregation, or "sum". */
  function ValueEntry(col: ColumnDef): AggModelItem {
    AggModelItem(ColId(col), if HasAggFunc(col) then col.aggFunc.value else Named("sum"))
  }

  /** The value columns `toggleValueCol` assigns. */
  function ToggledValueCols(vcs: seq<AggModelItem>, col: ColumnDef): seq<AggModelItem> {
    Toggle(vcs, IsValueFor(ColId(col)), ValueEntry(col))
  }

  /**
   * With at most one entry per column, `toggleValueCol` makes the column a
   * value column exactly when it was not one, and keeps the others in order.
   */
  lemma ToggledValueColsToggle(vcs: seq<AggModelItem>, col: ColumnDef)
    requires |Select(vcs, IsValueFor(ColId(col)))| <= 1
    ensures Select(ToggledValueCols(vcs, col), Not(IsValueFor(ColId(col)))) == Select(vcs, Not(IsValueFor(ColId(col))))
    ensures |Select(ToggledValueCols(vcs, col), IsValueFor(ColId(col)))| == 1 - |Select(vcs, IsValueFor(ColId(col)))|
  {
    ToggleSelect(vcs, IsValueFor(ColId(col)), ValueEntry(col));
  }

  /** Adding a value column and toggling it again restores the value columns. */
  lemma ToggledValueColsTwice(vcs: seq<AggModelItem>, col: ColumnDef)
    requires forall i :: 0 <= i < |vcs| ==> vcs[i].colId != ColId(col)
    ensures ToggledValueCols(ToggledValueCols(vcs, col), col) == vcs
  {
    ToggleTwice(vcs, IsValueFor(ColId(col)), ValueEntry(col));
  }

  // ---------------------------------------------------------------------
  // The view and the selection

  /** The property that marks a view row as a group row. */
  const GroupFlag := "__group"

  /** `isGroupRow`: a truthy `__group` property, which every group row has and a data row may have too. */
  predicate IsGroupRow(v: RowView) {
    match v
    case GroupRow(_) => true
    case DataRow(r) => Truthy(GetField(r, GroupFlag))
  }

  /** `getLeafRows`: the view rows that are not group rows. */
  function LeafRowsOf(views: seq<RowView>): seq<Row> {
    if views == [] then []
    else
      var v := views[|views| - 1];
      LeafRowsOf(views[..|views| - 1]) + if IsGroupRow(v) then [] else [v.row]
  }

  /**
   * A null or undefined data row has no `__group` here, so it is a leaf;
   * the component's `isGroupRow` reads `__group` without `?.` and throws on it.
   */
  lemma NullishRowIsLeaf(r: Row)
    requires IsNullish(r)
    ensures !IsGroupRow(DataRow(r))
    ensures LeafRowsOf([DataRow(r)]) == [r]
  {
    assert [DataRow(r)][..0] == [];
  }

  /** A row is a leaf exactly when it is shown as a data row without a truthy `__group` property. */
  lemma {:induction false} LeafRowsOfMembers(views: seq<RowView>, r: Row)
    ensures r in LeafRowsOf(views) <==> DataRow(r) in views && !Truthy(GetField(r, GroupFlag))
  {
    if views != [] {
      var init, v := views[..|views| - 1], views[|views| - 1];
      LeafRowsOfMembers(init, r);
      SplitLast(views);
      assert DataRow(r) in views <==> DataRow(r) in init || v == DataRow(r);
    }
  }

  /** Rows shown as data rows, none with a truthy `__group` property, are exactly the leaves. */
  lemma {:induction false} LeafRowsOfDataRows(rows: seq<Row>)
    requires forall i :: 0 <= i < |rows| ==> !Truthy(GetField(rows[i], GroupFlag))
    ensures LeafRowsOf(DataRows(rows)) == rows
  {
    if rows != [] {
      var init := rows[..|rows| - 1];
      assert DataRows(rows)[..|rows| - 1] == DataRows(init);
      LeafRowsOfDataRows(init);
      assert rows == init + [rows[|rows| - 1]];
    }
  }

  /** `options.rowSelection || 'single'`. */
  datatype SelectionMode = Single | Multiple

  /** The selection after `toggleRowSelection` of a data row. */
  function ToggledSelection(selected: set<Row>, r: Row, mode: SelectionMode): (s: set<Row>)
    ensures mode == Single ==> s == {r}
    ensures mode == Multiple ==> (r in s <==> r !in selected) && s - {r} == selected - {r}
  {
    if mode == Single then {r}
    else if r in selected then selected - {r} else selected + {r}
  }

  function SetOf(s: seq<Row>): set<Row> {
    set r | r in s
  }

  /** The selection after `toggleAll`: cleared when its size is the number of leaves, otherwise every leaf. */
  function ToggledAll(selected: set<Row>, leaves: seq<Row>): set<Row> {
    if |leaves| == 0 then selected
    else if |selected| == |leaves| then {}
    else SetOf(leaves)
  }

  lemma {:induction false} DistinctSetSize(s: seq<Row>)
    requires Distinct(s)
    ensures |SetOf(s)| == |s|
  {
    if s != [] {
      var init, last := s[..|s| - 1], s[|s| - 1];
      DistinctSplit(s);
      DistinctSetSize(init);
      assert SetOf(s) == SetOf(init) + {last};
    }
  }

  /**
   * With distinct leaves, `toggleAll` from a selection of another size
   * selects every leaf, and a second `toggleAll` clears the selection.
   */
  lemma ToggledAllTwice(selected: set<Row>, leaves: seq<Row>)
    requires Distinct(leaves) && |leaves| > 0 && |selected| != |leaves|
    ensures ToggledAll(selected, leaves) == SetOf(leaves)
    ensures ToggledAll(ToggledAll(selected, leaves), leaves) == {}
  {
    DistinctSetSize(leaves);
  }

  /** With a row shown twice, selecting every leaf never reaches the leaf count, so `toggleAll` never clears. */
  lemma ToggledAllRepeatedRow(r: Row)
    ensures ToggledAll(SetOf([r, r]), [r, r]) == {r}
  {
    assert SetOf([r, r]) == {r};
  }

  /** `this.selected` pruned to the rows that are still leaves of the view. */
  function KeepLeaves(selected: set<Row>, views: seq<RowView>): (s: set<Row>)
    ensures forall r :: r in s <==> r in selected && r in LeafRowsOf(views)
  {
    set r | r in selected && r in LeafRowsOf(views)
  }

  // ---------------------------------------------------------------------
  // Recompute

  datatype GridOptions = GridOptions(
    defaultColDef: Option<ColumnDef>,
    multiSort: bool,
    rowSelection: Option<SelectionMode>,
    showSelection: Option<bool>)

  function SelectionModeOf(options: GridOptions): SelectionMode {
    if options.rowSelection.Some? then options.rowSelection.value else Single
  }

  /** `showSelectionColumn`: the selection column is shown unless turned off explicitly. */
  predicate ShowSelection(options: GridOptions) {
    options.showSelection != Some(false)
  }

  /** `columnDefs.map(c => mergeColDef(c, def))`. */
  function MergedColumns(cols: seq<ColumnDef>, def: Option<ColumnDef>): (r: seq<ColumnDef>)
    ensures |r| == |cols| && forall i :: 0 <= i < |cols| ==> r[i] == MergeColDef(cols[i], def)
  {
    seq(|cols|, i requires 0 <= i < |cols| => MergeColDef(cols[i], def))
  }

  /**
   * `buildAggModel`: one entry per column, keyed by its id, with the
   * column's own aggregation when it has one and otherwise, after looking
   * at the first row, "sum" for a number and "count" for anything else.
   */
  function BuildAggModel(cols: seq<ColumnDef>, rowData: seq<Row>): (m: seq<AggModelItem>)
    ensures |m| == |cols|
    ensures forall i :: 0 <= i < |cols| ==> m[i].colId == ColId(cols[i])
    ensures forall i :: 0 <= i < |cols| && HasAggFunc(cols[i]) ==> m[i].aggFunc == cols[i].aggFunc.value
    ensures forall i :: 0 <= i < |cols| && !HasAggFunc(cols[i]) ==>
      m[i].aggFunc == if |rowData| > 0 && Truthy(rowData[0]) && GetCellValue(Some(cols[i]), rowData[0]).Num?
        then Named("sum") else Named("count")
  {
    seq(|cols|, i requires 0 <= i < |cols| =>
      var c := cols[i];
      var agg :=
        if HasAggFunc(c) then c.aggFunc.value
        else if |rowData| > 0 && Truthy(rowData[0]) then
          (if GetCellValue(Some(c), rowData[0]).Num? then Named("sum") else Named("count"))
        else Named("count");
      AggModelItem(ColId(c), agg))
  }

  /**
   * What the group aggregates then hold for a column (the last with its
   * id): its own aggregation over its cells when it has one; otherwise the
   * sum of the cells that are numbers (null when none is) if the first row
   * held a number there, and the number of rows if not.
   */
  lemma AggModelAggregates(cols: seq<ColumnDef>, rowData: seq<Row>, rows: seq<Row>, i: int)
    requires 0 <= i < |cols| && rows != []
    requires forall j :: i < j < |cols| ==> ColId(cols[j]) != ColId(cols[i])
    ensures var agg := Aggregates(rows, ColMap(cols), AggLookup(BuildAggModel(cols, rowData)));
      var cells := ColumnValues(rows, Some(cols[i]));
      var nums := Numerics(cells);
      ColId(cols[i]) in agg
      && agg[ColId(cols[i])] ==
        if HasAggFunc(cols[i]) then ResolveAggFunc(cols[i].aggFunc.value)(cells)
        else if |rowData| > 0 && Truthy(rowData[0]) && GetCellValue(Some(cols[i]), rowData[0]).Num? then
          (if nums == [] then Null else Num(Sum(nums)))
        else Num(|rows|)
  {
    var m := BuildAggModel(cols, rowData);
    var id := ColId(cols[i]);
    AggLookupLast(m, id, i);
    ColMapLastWins(cols, id, i);
  }

  function PathSet(paths: seq<string>): set<string> {
    set p | p in paths
  }

  /** Everything the grid holds. */
  datatype GridState = GridState(
    columnDefs: seq<ColumnDef>,
    rowData: seq<Row>,
    options: GridOptions,
    mergedCols: seq<ColumnDef>,
    viewRows: seq<RowView>,
    sortModel: seq<SortModelItem>,
    filterModel: seq<FilterModelItem>,
    groupModel: seq<GroupModelItem>,
    pivotModel: PivotModel,
    expandedGroups: set<string>,
    filterModes: map<string, TextFilterMode>,
    menuOpenFor: Option<string>,
    selected: set<Row>)

  /** The rows of the grid, filtered and then sorted by its models. */
  function SortedRows(st: GridState, parseDate: string -> Option<int>): seq<Row> {
    var cols := MergedColumns(st.columnDefs, st.options.defaultColDef);
    SortRowsSpec(FilterRowsSpec(st.rowData, cols, st.filterModel, parseDate), cols, st.sortModel)
  }

  /** The state after `recompute` has laid out the view, before it prunes the selection. */
  function LaidOut(st: GridState, parseDate: string -> Option<int>): GridState {
    var cols := MergedColumns(st.columnDefs, st.options.defaultColDef);
    var sorted := SortedRows(st, parseDate);
    if PivotActive(st.pivotModel) then
      var p := PivotSpec(sorted, cols, st.pivotModel);
      st.(mergedCols := p.dynamicCols, viewRows := DataRows(p.rows), expandedGroups := {})
    else if st.groupModel != [] then
      var g := GroupAndFlatten(sorted, cols, st.groupModel, BuildAggModel(cols, st.rowData), Some(st.expandedGroups));
      st.(mergedCols := cols, viewRows := g.0, expandedGroups := st.expandedGroups + PathSet(g.1))
    else
      st.(mergedCols := cols, viewRows := DataRows(sorted), expandedGroups := {})
  }

  /** The state after `recompute`. */
  function Recomputed(st: GridState, parseDate: string -> Option<int>): GridState {
    var laid := LaidOut(st, parseDate);
    laid.(selected := KeepLeaves(st.selected, laid.viewRows))
  }

  /**
   * After `recompute` the selection is the old selection less the rows
   * that are no longer leaves of the view; in grouped mode every emitted
   * group path joins the expanded set, and otherwise the set is emptied.
   */
  lemma RecomputedSelectionAndExpansion(st: GridState, parseDate: string -> Option<int>)
    ensures var r := Recomputed(st, parseDate);
      (forall x :: x in r.selected <==> x in st.selected && x in LeafRowsOf(r.viewRows))
      && (PivotActive(st.pivotModel) || st.groupModel == [] ==> r.expandedGroups == {})
      && (!PivotActive(st.pivotModel) && st.groupModel != [] ==>
            st.expandedGroups <= r.expandedGroups
            && forall p :: p in GroupPaths(r.viewRows) ==> p in r.expandedGroups)
  {
    var r := Recomputed(st, parseDate);
    if !PivotActive(st.pivotModel) && st.groupModel != [] {
      var cols := MergedColumns(st.columnDefs, st.options.defaultColDef);
      GroupAndFlattenRowsShown(SortedRows(st, parseDate), cols, st.groupModel,
                               BuildAggModel(cols, st.rowData), Some(st.expandedGroups));
    }
  }

  /**
   * Without pivoting or grouping the view is the filtered rows in sorted
   * order: when no row has a truthy `__group` property, the leaves are a
   * rearrangement of the rows that pass the filters.
   */
  lemma PlainViewShowsFilteredRows(st: GridState, parseDate: string -> Option<int>)
    requires !PivotActive(st.pivotModel) && st.groupModel == []
    requires forall i :: 0 <= i < |st.rowData| ==> !Truthy(GetField(st.rowData[i], GroupFlag))
    ensures var cols := MergedColumns(st.columnDefs, st.options.defaultColDef);
      multiset(LeafRowsOf(Recomputed(st, parseDate).viewRows))
        == multiset(FilterRowsSpec(st.rowData, cols, st.filterModel, parseDate))
  {
    var cols := MergedColumns(st.columnDefs, st.options.defaultColDef);
    var filtered := FilterRowsSpec(st.rowData, cols, st.filterModel, parseDate);
    var sorted := SortedRows(st, parseDate);
    SortRowsPermutes(filtered, cols, st.sortModel);
    assert forall i :: 0 <= i < |filtered| ==> !Truthy(GetField(filtered[i], GroupFlag)) by {
      if st.filterModel != [] {
        forall i | 0 <= i < |filtered| ensures !Truthy(GetField(filtered[i], GroupFlag)) {
          SelectMultiset(st.rowData, RowFilter(ColMap(cols), st.filterModel, parseDate), filtered[i]);
          assert filtered[i] in multiset(st.rowData);
        }
      }
    }
    assert forall i :: 0 <= i < |sorted| ==> !Truthy(GetField(sorted[i], GroupFlag)) by {
      forall i | 0 <= i < |sorted| ensures !Truthy(GetField(sorted[i], GroupFlag)) {
        assert sorted[i] in multiset(filtered);
      }
    }
    LeafRowsOfDataRows(sorted);
  }

  /** Pivoting on a column the grid does not have leaves the grid with no columns. */
  lemma PivotOnUnknownColumn(st: GridState, parseDate: string -> Option<int>)
    requires PivotActive(st.pivotModel)
    requires st.pivotModel.pivotCol.value !in ColMap(MergedColumns(st.columnDefs, st.options.defaultColDef))
    ensures Recomputed(st, parseDate).mergedCols == []
    ensures Recomputed(st, parseDate).viewRows == DataRows(SortedRows(st, parseDate))
  {
  }

  // ---------------------------------------------------------------------
  // The component

  class Grid {
    var columnDefs: seq<ColumnDef>
    var rowData: seq<Row>
    var options: GridOptions
    var mergedCols: seq<ColumnDef>
    var viewRows: seq<RowView>
    var sortModel: seq<SortModelItem>
    var filterModel: seq<FilterModelItem>
    var groupModel: seq<GroupModelItem>
    var pivotModel: PivotModel
    var expandedGroups: set<string>
    var filterModes: map<string, TextFilterMode>
    var menuOpenFor: Option<string>
    var selected: set<Row>
    /** How the date filter reads a date. */
    const parseDate: string -> Option<int>

    ghost function State(): GridState
      reads this
    {
      GridState(columnDefs, rowData, options, mergedCols, viewRows, sortModel, filterModel, groupModel,
                pivotModel, expandedGroups, filterModes, menuOpenFor, selected)
    }

    /** A grid with the given inputs and every model empty. */
    constructor(columnDefs: seq<ColumnDef>, rowData: seq<Row>, options: GridOptions, parseDate: string -> Option<int>)
      ensures State() == GridState(columnDefs, rowData, options, [], [], [], [], [],
                                   PivotModel([], None, [], false), {}, map[], None, {})
      ensures this.parseDate == parseDate
    {
      this.columnDefs := columnDefs;
      this.rowData := rowData;
      this.options := options;
      this.parseDate := parseDate;
      mergedCols := [];
      viewRows := [];
      sortModel := [];
      filterModel := [];
      groupModel := [];
      pivotModel := PivotModel([], None, [], false);
      expandedGroups := {};
      filterModes := map[];
      menuOpenFor := None;
      selected := {};
    }

    /** Keeps the selected rows that are leaves of the view. */
    method PruneSelection()
      modifies this
      ensures State() == old(State()).(selected := KeepLeaves(old(selected), viewRows))
    {
      var leaves := LeafRowsOf(viewRows);
      var next: set<Row> := {};
      var rest := selected;
      while rest != {}
        invariant rest <= selected
        invariant forall r :: r in next <==> r in selected && r !in rest && r in leaves
        decreases rest
      {
        var r :| r in rest;
        if r in leaves {
          next := next + {r};
        }
        rest := rest - {r};
      }
      selected := next;
    }

    /** Adds every path to the expanded set. */
    method ExpandPaths(paths: seq<string>)
      modifies this
      ensures State() == old(State()).(expandedGroups := old(expandedGroups) + PathSet(paths))
    {
      for i := 0 to |paths|
        invariant State() == old(State()).(expandedGroups := old(expandedGroups) + PathSet(paths[..i]))
      {
        assert PathSet(paths[..i + 1]) == PathSet(paths[..i]) + {paths[i]} by {
          assert paths[..i + 1] == paths[..i] + [paths[i]];
        }
        expandedGroups := expandedGroups + {paths[i]};
      }
      assert paths[..|paths|] == paths;
    }

    /** `recompute`. */
    method Recompute()
      modifies this
      ensures State() == Recomputed(old(State()), parseDate)
    {
      LayOut();
      PruneSelection();
    }

    /** The part of `recompute` before the selection is pruned: filter, sort, then pivot, group or pass through. */
    method LayOut()
      modifies this
      ensures State() == LaidOut(old(State()), parseDate)
    {
      var cols := MergedColumns(columnDefs, options.defaultColDef);
      mergedCols := cols;
      var filtered := FilterRows(rowData, cols, filterModel, parseDate);
      var sorted := SortRows(filtered, cols, sortModel);
      assert sorted == SortedRows(old(State()), parseDate);
      if PivotActive(pivotModel) {
        ShowPivot(sorted, cols);
      } else if |groupModel| > 0 {
        ShowGroups(sorted, cols);
      } else {
        viewRows := DataRows(sorted);
        expandedGroups := {};
      }
    }

    /** The pivot branch of `recompute`: the pivot's rows and columns replace the view and its columns. */
    method ShowPivot(sorted: seq<Row>, cols: seq<ColumnDef>)
      modifies this
      ensures var p := PivotSpec(sorted, cols, old(pivotModel));
        State() == old(State()).(mergedCols := p.dynamicCols, viewRows := DataRows(p.rows), expandedGroups := {})
    {
      var pivoted := PivotRows(sorted, cols, pivotModel);
      viewRows := DataRows(pivoted.rows);
      mergedCols := pivoted.dynamicCols;
      expandedGroups := {};
    }

    /** The grouping branch of `recompute`: the flattened tree is the view, and its group paths join the expanded set. */
    method ShowGroups(sorted: seq<Row>, cols: seq<ColumnDef>)
      modifies this
      ensures var g := GroupAndFlatten(sorted, cols, old(groupModel), BuildAggModel(cols, old(rowData)), Some(old(expandedGroups)));
        State() == old(State()).(viewRows := g.0, expandedGroups := old(expandedGroups) + PathSet(g.1))
    {
      var aggModel := BuildAggModel(cols, rowData);
      var flat, paths := GroupAndFlattenRows(sorted, cols, groupModel, aggModel, Some(expandedGroups));
      ExpandPaths(paths);
      viewRows := flat;
    }

    /**
     * `onHeaderClick`, as written: a column that is not sortable, or whose
     * menu is open, is ignored; otherwise the next sort model is computed
     * but never assigned, so only the view is recomputed.
     */
    method OnHeaderClick(col: ColumnDef, shiftKey: bool)
      modifies this
      ensures col.sortable != Some(true) || old(menuOpenFor) == Some(ColId(col)) ==> State() == old(State())
      ensures col.sortable == Some(true) && old(menuOpenFor) != Some(ColId(col)) ==>
        State() == Recomputed(old(State()), parseDate)
      ensures sortModel == old(sortModel)
    {
      if col.sortable != Some(true) {
        return;
      }
      if menuOpenFor == Some(ColId(col)) {
        return;
      }
      var multi := options.multiSort || shiftKey;
      var next := HeaderCycleAsWritten(sortModel, ColId(col), multi);
      Recompute();
    }

    /** `onHeaderClick` with the computed model assigned, cycling asc, desc, unsorted in either sort mode. */
    method OnHeaderClickCorrected(col: ColumnDef, shiftKey: bool)
      modifies this
      ensures col.sortable != Some(true) || old(menuOpenFor) == Some(ColId(col)) ==> State() == old(State())
      ensures col.sortable == Some(true) && old(menuOpenFor) != Some(ColId(col)) ==>
        State() == Recomputed(old(State()).(sortModel := HeaderCycle(old(sortModel), ColId(col), old(options).multiSort || shiftKey)), parseDate)
    {
      if col.sortable != Some(true) {
        return;
      }
      if menuOpenFor == Some(ColId(col)) {
        return;
      }
      var multi := options.multiSort || shiftKey;
      sortModel := HeaderCycle(sortModel, ColId(col), multi);
      Recompute();
    }

    /**
     * `getSortIndicator`: empty for a column that is not sorted; otherwise
     * the arrow of its first entry, followed, when several columns are
     * sorted, by a space and the entry's 1-based position.
     */
    function GetSortIndicator(col: ColumnDef): (s: string)
      reads this
      ensures s == "" <==> forall i :: 0 <= i < |sortModel| ==> sortModel[i].colId != ColId(col)
      ensures s != "" ==>
        var k := FirstIndex(sortModel, IsSortFor(ColId(col)));
        s[0] == SortMark(sortModel[k].sort)
        && (|sortModel| == 1 ==> |s| == 1)
        && (|sortModel| > 1 ==> |s| >= 3 && s[1] == ' ' && AllDigits(s[2..]) && DigitsValue(s[2..]) == k + 1)
    {
      if |sortModel| == 0 then ""
      else
        var idx := FirstIndex(sortModel, IsSortFor(ColId(col)));
        if idx == -1 then ""
        else
          var mark := [SortMark(sortModel[idx].sort)];
          if |sortModel| > 1 then
            DigitsValueOfNatToString(idx + 1);
            assert (mark + " " + NatToString(idx + 1))[2..] == NatToString(idx + 1);
            mark + " " + NatToString(idx + 1)
          else mark
    }

    /** `closeMenu`. */
    method CloseMenu()
      modifies this
      ensures State() == old(State()).(menuOpenFor := None)
    {
      menuOpenFor := None;
    }

    /** `sortAsc`. */
    method SortAsc(col: ColumnDef)
      modifies this
      ensures State() == Recomputed(old(State()).(sortModel := SortFirst(old(sortModel), ColId(col), Asc)), parseDate).(menuOpenFor := None)
    {
      var id := ColId(col);
      var next := WithoutSort(sortModel, id);
      next := [SortModelItem(id, Asc)] + next;
      sortModel := next;
      Recompute();
      CloseMenu();
    }

    /** `sortDesc`. */
    method SortDesc(col: ColumnDef)
      modifies this
      ensures State() == Recomputed(old(State()).(sortModel := SortFirst(old(sortModel), ColId(col), Desc)), parseDate).(menuOpenFor := None)
    {
      var id := ColId(col);
      var next := WithoutSort(sortModel, id);
      next := [SortModelItem(id, Desc)] + next;
      sortModel := next;
      Recompute();
      CloseMenu();
    }

    /** `clearSort`. */
    method ClearSort(col: ColumnDef)
      modifies this
      ensures State() == Recomputed(old(State()).(sortModel := WithoutSort(old(sortModel), ColId(col))), parseDate).(menuOpenFor := None)
    {
      sortModel := WithoutSort(sortModel, ColId(col));
      Recompute();
      CloseMenu();
    }

    /** `onFilterChange`. */
    method OnFilterChange(col: ColumnDef, value: Value, valueTo: Value)
      modifies this
      ensures State() == Recomputed(old(State()).(filterModel := ChangedFilters(old(filterModel), old(filterModes), col, value, valueTo)), parseDate)
    {
      var colId := ColId(col);
      var next := Select(filterModel, Not(IsFilterFor(colId)));
      var hasRange := !IsNullish(valueTo) && valueTo != Str("");
      var hasValue := !IsNullish(value) && value != Str("");
      if hasValue || hasRange {
        next := next + [FilterModelItem(colId, FilterTypeOf(col), value, valueTo, Some(FilterModeFor(filterModes, col)))];
      }
      assert next == ChangedFilters(filterModel, filterModes, col, value, valueTo);
      filterModel := next;
      Recompute();
    }

    /** `toggleGroup`. */
    method ToggleGroup(col: ColumnDef)
      modifies this
      ensures var gm := ToggledGroups(old(groupModel), ColId(col));
        State() == Recomputed(old(State()).(groupModel := gm, expandedGroups := if gm == [] then {} else old(expandedGroups)), parseDate)
    {
      var colId := ColId(col);
      var idx := FirstIndex(groupModel, IsGroupFor(colId));
      var next := groupModel;
      if idx == -1 {
        next := next + [GroupModelItem(colId)];
      } else {
        next := RemoveAt(next, idx);
      }
      groupModel := next;
      if |next| == 0 {
        expandedGroups := {};
      }
      Recompute();
    }

    /** `toggleValueCol`. */
    method ToggleValueCol(col: ColumnDef)
      modifies this
      ensures State() == Recomputed(old(State()).(pivotModel := old(pivotModel).(valueCols := ToggledValueCols(old(pivotModel).valueCols, col))), parseDate)
    {
      var id := ColId(col);
      var next := pivotModel.valueCols;
      var idx := FirstIndex(next, IsValueFor(id));
      if idx == -1 {
        next := next + [ValueEntry(col)];
      } else {
        next := RemoveAt(next, idx);
      }
      pivotModel := pivotModel.(valueCols := next);
      Recompute();
    }

    /** `toggleRowSelection`: ignored for group rows and when the selection column is hidden. */
    method ToggleRowSelection(row: RowView)
      modifies this
      ensures !ShowSelection(old(options)) || IsGroupRow(row) ==> State() == old(State())
      ensures ShowSelection(old(options)) && !IsGroupRow(row) ==>
        State() == old(State()).(selected := ToggledSelection(old(selected), row.row, SelectionModeOf(old(options))))
    {
      if !ShowSelection(options) {
        return;
      }
      if IsGroupRow(row) {
        return;
      }
      var mode := SelectionModeOf(options);
      if mode == Single {
        selected := {};
        selected := selected + {row.row};
        return;
      }
      if row.row in selected {
        selected := selected - {row.row};
      } else {
        selected := selected + {row.row};
      }
    }

    /** `toggleAll`: ignored when the selection column is hidden. */
    method ToggleAll()
      modifies this
      ensures !ShowSelection(old(options)) ==> State() == old(State())
      ensures ShowSelection(old(options)) ==>
        State() == old(State()).(selected := ToggledAll(old(selected), LeafRowsOf(old(viewRows))))
    {
      if !ShowSelection(options) {
        return;
      }
      var leaves := LeafRowsOf(viewRows);
      if |leaves| == 0 {
        return;
      }
      if |selected| == |leaves| {
        selected := {};
        return;
      }
      selected := {};
      for i := 0 to |leaves|
        invariant selected == SetOf(leaves[..i])
        invariant State() == old(State()).(selected := selected)
      {
        assert SetOf(leaves[..i + 1]) == SetOf(leaves[..i]) + {leaves[i]} by {
          assert leaves[..i + 1] == leaves[..i] + [leaves[i]];
        }
        selected := selected + {leaves[i]};
      }
      assert leaves[..|leaves|] == leaves;
    }

    /** After `sortAsc`, the column's indicator is an upward arrow, numbered 1 when other columns are sorted too. */
    lemma SortAscIndicator(col: ColumnDef, model: seq<SortModelItem>)
      requires sortModel == SortFirst(model, ColId(col), Asc)
      ensures GetSortIndicator(col) == if |sortModel| == 1 then ['\U{25B2}'] else ['\U{25B2}', ' ', '1']
    {
      assert FirstIndex(sortModel, IsSortFor(ColId(col))) == 0;
      assert NatToString(1) == "1";
    }
  }
}

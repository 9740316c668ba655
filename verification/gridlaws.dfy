/** What a user of the spreadsheet can rely on: undo, and the effect of each operation. */
module GridLaws {
  import opened Options
  import opened Table
  import opened Batches
  import opened Plans
  import opened Builders
  import Clipboard

  // ------------------------------------------------- distinct targets, undo

  /** A plan whose indexes strictly increase targets no cell twice. */
  lemma IncreasingIsDistinct(p: Plan)
    requires Within(p) && Valid(p.table)
    requires forall i, j :: 0 <= i < j < |p.rows| ==> p.rows[i] < p.rows[j]
    requires forall i, j :: 0 <= i < j < |p.columns| ==> p.columns[i] < p.columns[j]
    ensures Distinct(p)
  {
  }

  lemma ClearDistinct(t: Table, b: Bound)
    requires Valid(t)
    ensures Distinct(ClearPlan(t, b))
  {
    FilterIncreasing(ShownRows(t), b.minRow, b.maxRow + 1);
    FilterIncreasing(SelectableColumns(t), b.minColumn, b.maxColumn + 1);
    IncreasingIsDistinct(ClearPlan(t, b));
  }

  lemma PasteDistinct(t: Table, b: Bound, block: Clipboard.Grid)
    requires Valid(t) && Ordered(b) && block != []
    ensures Distinct(PastePlan(t, b, block))
  {
    FilterIncreasing(ShownRows(t), b.minRow, |t.rows|);
    FilterIncreasing(SelectableColumns(t), b.minColumn, |t.columns|);
    IncreasingIsDistinct(PastePlan(t, b, block));
  }

  lemma FillDistinct(t: Table, visible: set<string>, b: Bound, extension: Extension)
    requires Valid(t) && Ordered(b) && FillRows(t, visible, b) != []
    ensures Distinct(FillPlan(t, visible, b, extension))
  {
    var v := FillTable(t, visible);
    FilterIncreasing(ShownRows(v), b.minRow, b.maxRow + 1);
    FilterIncreasing(ShownRows(v), b.maxRow + 1, |t.rows|);
    FilterIncreasing(FillableColumns(t), b.minColumn, b.maxColumn + 1);
    match extension
    case Down(count) =>
      IncreasingIsDistinct(FillPlan(t, visible, b, extension));
    case Right(count) =>
      FilterIncreasing(FillableColumns(t), b.maxColumn + 1, b.maxColumn + 1 + count);
      IncreasingIsDistinct(FillPlan(t, visible, b, extension));
  }

  lemma {:induction false} ClearFaithful(t: Table, bounds: seq<Bound>)
    ensures Faithful(t.data, ClearChanges(t, bounds))
  {
    if bounds != [] {
      ClearFaithful(t, bounds[..|bounds| - 1]);
      BatchFaithful(ClearPlan(t, bounds[|bounds| - 1]), ClearSource);
    }
  }

  /** Undo after a clear or cut, whether or not the selected regions overlap. */
  lemma ClearUndoes(t: Table, source: Source, bounds: seq<Bound>)
    ensures var d := Details(source, ClearChanges(t, bounds), []);
      SameData(Apply(Apply(t.data, d.changes), Invert(d).changes), t.data)
  {
    ClearFaithful(t, bounds);
    UndoRestores(t.data, Details(source, ClearChanges(t, bounds), []));
  }

  lemma PasteUndoes(t: Table, block: Clipboard.Grid)
    requires t.active.Some? ==> Ordered(t.active.value)
    requires PasteResult(t, block).Some?
    ensures var d := PasteResult(t, block).value;
      SameData(Apply(Apply(t.data, d.changes), Invert(d).changes), t.data)
  {
    BatchFaithful(PastePlan(t, t.active.value, block), PasteSource);
    UndoRestores(t.data, PasteResult(t, block).value);
  }

  lemma FillUndoes(t: Table, visible: set<string>, extension: Option<Extension>)
    requires t.active.Some? ==> Ordered(t.active.value)
    requires FillResult(t, visible, extension).Some?
    ensures var d := FillResult(t, visible, extension).value;
      SameData(Apply(Apply(t.data, d.changes), Invert(d).changes), t.data)
  {
    BatchFaithful(FillPlan(t, visible, t.active.value, extension.value), FillSource);
    UndoRestores(t.data, FillResult(t, visible, extension).value);
  }

  // ------------------------------------------------------------------ clear

  /** The cell lies in a selected region, is shown and selectable, and can be written. */
  predicate Clears(t: Table, b: Bound, r: nat, c: nat) {
    && b.minRow <= r <= b.maxRow && b.minColumn <= c <= b.maxColumn
    && r < |t.rows| && (t.rendered.None? || t.rows[r] in t.rendered.value)
    && c < |t.columns| && t.columns[c].selectable && Editable(t.columns[c], t.rows[r])
  }

  /** The column is edited here, always or in this row. */
  predicate Editable(column: Column, rowId: string) {
    column.edit.Some? &&
    match column.edit.value.editable
    case Always => true
    case Never => false
    case PerRow(allows) => allows(rowId)
  }

  function ClearedValue(column: Column): Value
    requires column.edit.Some?
  {
    if column.edit.value.clearValue.Undefined? then Null else column.edit.value.clearValue
  }

  lemma RegionClearWrites(t: Table, b: Bound, change: Change) returns (r: nat, c: nat)
    requires change in Batch(ClearPlan(t, b), ClearSource).changes
    ensures Clears(t, b, r, c) && change.cell == CellAt(t, r, c) && change.value == ClearedValue(t.columns[c])
  {
    var p := ClearPlan(t, b);
    ChangesOf(Walk(p, |p.rows|));
    WalkMembers(p, |p.rows|, Write(change));
    var i: nat, j: nat :| i < |p.rows| && j < |p.columns| && At(p, i, j) == Write(change);
    ClearAt(p, i, j);
    r, c := p.rows[i], p.columns[j];
    assert r in p.rows && c in p.columns;
    CopyCovers(t, b, r, c);
  }

  /** A cleared cell was selected, and gets its column's clear value. */
  lemma {:induction false} ClearWrites(t: Table, bounds: seq<Bound>, change: Change) returns (k: nat, r: nat, c: nat)
    requires change in ClearChanges(t, bounds)
    ensures k < |bounds| && Clears(t, bounds[k], r, c)
    ensures change.cell == CellAt(t, r, c) && change.value == ClearedValue(t.columns[c])
  {
    var n := |bounds| - 1;
    if change in ClearChanges(t, bounds[..n]) {
      k, r, c := ClearWrites(t, bounds[..n], change);
    } else {
      k := n;
      r, c := RegionClearWrites(t, bounds[n], change);
    }
  }

  lemma RegionClearReaches(t: Table, b: Bound, r: nat, c: nat)
    requires Clears(t, b, r, c)
    ensures Touches(Batch(ClearPlan(t, b), ClearSource).changes, CellAt(t, r, c))
  {
    var p := ClearPlan(t, b);
    FilterContains(ShownRows(t), b.minRow, b.maxRow + 1, r);
    FilterContains(SelectableColumns(t), b.minColumn, b.maxColumn + 1, c);
    var i :| 0 <= i < |p.rows| && p.rows[i] == r;
    var j :| 0 <= j < |p.columns| && p.columns[j] == c;
    ClearAt(p, i, j);
    WalkHas(p, |p.rows|, i, j);
  }

  lemma TouchesConcat(a: seq<Change>, b: seq<Change>, cell: Cell)
    ensures Touches(a + b, cell) <==> Touches(a, cell) || Touches(b, cell)
  {
    if i :| 0 <= i < |a| && a[i].cell == cell { assert (a + b)[i].cell == cell; }
    if i :| 0 <= i < |b| && b[i].cell == cell { assert (a + b)[|a| + i].cell == cell; }
  }

  lemma {:induction false} ClearReaches(t: Table, bounds: seq<Bound>, k: nat, r: nat, c: nat)
    requires k < |bounds| && Clears(t, bounds[k], r, c)
    ensures Touches(ClearChanges(t, bounds), CellAt(t, r, c))
  {
    var n := |bounds| - 1;
    if k < n {
      ClearReaches(t, bounds[..n], k, r, c);
    } else {
      RegionClearReaches(t, bounds[n], r, c);
    }
    TouchesConcat(ClearChanges(t, bounds[..n]), Batch(ClearPlan(t, bounds[n]), ClearSource).changes, CellAt(t, r, c));
  }

  /** A clear empties exactly the writable selected cells the view shows. */
  lemma ClearEffect(t: Table, bounds: seq<Bound>, r: nat, c: nat)
    requires Valid(t) && r < |t.rows| && c < |t.columns|
    ensures Read(Apply(t.data, ClearChanges(t, bounds)), CellAt(t, r, c))
         == if exists k :: 0 <= k < |bounds| && Clears(t, bounds[k], r, c)
            then ClearedValue(t.columns[c])
            else Read(t.data, CellAt(t, r, c))
  {
    var changes, cell := ClearChanges(t, bounds), CellAt(t, r, c);
    ApplyReads(t.data, changes, cell);
    forall change | change in changes && change.cell == cell
      ensures change.value == (if t.columns[c].edit.Some? then ClearedValue(t.columns[c]) else Undefined)
      ensures exists k :: 0 <= k < |bounds| && Clears(t, bounds[k], r, c)
    {
      var k, r', c' := ClearWrites(t, bounds, change);
      assert r' == r && c' == c;
    }
    if k :| 0 <= k < |bounds| && Clears(t, bounds[k], r, c) {
      ClearReaches(t, bounds, k, r, c);
    }
  }

  lemma {:induction false} CountConcatenated(a: seq<Change>, b: seq<Change>, cell: Cell)
    ensures CountChanges(a + b, cell) == CountChanges(a, cell) + CountChanges(b, cell)
    decreases |b|
  {
    if b == [] {
      assert a + b == a;
    } else {
      var n := |b| - 1;
      CountConcatenated(a, b[..n], cell);
      assert (a + b)[..|a| + n] == a + b[..n];
    }
  }

  lemma RegionClearsOnce(t: Table, b: Bound, i: nat, j: nat)
    requires Valid(t)
    requires var p := ClearPlan(t, b); i < |p.rows| && j < |p.columns|
    ensures var p := ClearPlan(t, b);
      CountChanges(Batch(p, ClearSource).changes, CellAt(t, p.rows[i], p.columns[j]))
      == if Editable(t.columns[p.columns[j]], t.rows[p.rows[i]]) then 1 else 0
  {
    ClearDistinct(t, b);
    ClearAt(ClearPlan(t, b), i, j);
    OneOutcomePerTarget(ClearPlan(t, b), ClearSource, i, j);
  }

  lemma RegionSpares(t: Table, b: Bound, r: nat, c: nat)
    requires Valid(t) && r < |t.rows| && c < |t.columns|
    requires r !in ClearPlan(t, b).rows || c !in ClearPlan(t, b).columns
    ensures CountChanges(Batch(ClearPlan(t, b), ClearSource).changes, CellAt(t, r, c)) == 0
  {
    var p := ClearPlan(t, b);
    forall i: nat, j: nat | i < |p.rows| && j < |p.columns| ensures Target(p, i, j) != CellAt(t, r, c) {
      assert p.rows[i] in p.rows && p.columns[j] in p.columns;
    }
    BatchFrame(p, ClearSource, CellAt(t, r, c));
  }

  /** One region clears a cell of its own once, and no other cell. */
  lemma RegionClearCount(t: Table, b: Bound, r: nat, c: nat)
    requires Valid(t) && r < |t.rows| && c < |t.columns|
    ensures CountChanges(Batch(ClearPlan(t, b), ClearSource).changes, CellAt(t, r, c))
         == if Clears(t, b, r, c) then 1 else 0
  {
    var p := ClearPlan(t, b);
    CopyCovers(t, b, r, c);
    if r in p.rows && c in p.columns {
      var i :| 0 <= i < |p.rows| && p.rows[i] == r;
      var j :| 0 <= j < |p.columns| && p.columns[j] == c;
      RegionClearsOnce(t, b, i, j);
    } else {
      RegionSpares(t, b, r, c);
    }
  }

  /** How many of the regions clear the cell. */
  function CountClears(t: Table, bounds: seq<Bound>, r: nat, c: nat): nat {
    if bounds == [] then 0
    else
      CountClears(t, bounds[..|bounds| - 1], r, c) + if Clears(t, bounds[|bounds| - 1], r, c) then 1 else 0
  }

  /** A clear names a cell once for each region that selects it. */
  lemma {:induction false} ClearCount(t: Table, bounds: seq<Bound>, r: nat, c: nat)
    requires Valid(t) && r < |t.rows| && c < |t.columns|
    ensures CountChanges(ClearChanges(t, bounds), CellAt(t, r, c)) == CountClears(t, bounds, r, c)
  {
    if bounds != [] {
      var n := |bounds| - 1;
      ClearCount(t, bounds[..n], r, c);
      RegionClearCount(t, bounds[n], r, c);
      var region := Batch(ClearPlan(t, bounds[n]), ClearSource).changes;
      CountConcatenated(ClearChanges(t, bounds[..n]), region, CellAt(t, r, c));
    }
  }

  /** Nothing is cleared exactly if no selected cell that is shown can be edited. */
  lemma ClearsNothingExactly(t: Table, bounds: seq<Bound>)
    ensures ClearChanges(t, bounds) == []
       <==> forall k: nat, r: nat, c: nat :: k < |bounds| ==> !Clears(t, bounds[k], r, c)
  {
    var changes := ClearChanges(t, bounds);
    if changes != [] {
      var k, r, c := ClearWrites(t, bounds, changes[0]);
      assert Clears(t, bounds[k], r, c);
    }
    if k: nat, r: nat, c: nat :| k < |bounds| && Clears(t, bounds[k], r, c) {
      ClearReaches(t, bounds, k, r, c);
    }
  }

  // ------------------------------------------------------------------ paste

  /** A rectangular block of h by w fields. */
  ghost predicate IsRectangle(block: Clipboard.Grid, h: nat, w: nat) {
    h > 0 && w > 0 && |block| == h && forall i :: 0 <= i < h ==> |block[i]| == w
  }

  /** Each pair of target row and column gets one outcome, whatever the shape of the block:
      that of the block's rows repeated, and of each row's fields repeated. */
  lemma PasteOutcomes(t: Table, block: Clipboard.Grid, i: nat, j: nat)
    requires Valid(t) && t.active.Some? && block != []
    requires var p := PastePlan(t, t.active.value, block); i < |p.rows| && j < |p.columns|
    ensures var p := PastePlan(t, t.active.value, block);
      var d := Batch(p, PasteSource);
      && CountChanges(d.changes, Target(p, i, j)) + CountRejections(d.rejected, Target(p, i, j)) == 1
      && At(p, i, j) == PasteOutcome(t, p.rows[i], p.columns[j], BlockAt(block, i, j))
      && Read(Apply(t.data, d.changes), Target(p, i, j))
           == if At(p, i, j).Write? then At(p, i, j).change.value else Read(t.data, Target(p, i, j))
  {
    var b := t.active.value;
    var p := PastePlan(t, b, block);
    PasteDistinct(t, b, block);
    PasteAt(p, i, j);
    assert IsTiledLine(block, i, |p.kind.tiled[i]|, p.kind.tiled[i]);
    OneOutcomePerTarget(p, PasteSource, i, j);
    BatchEffect(p, PasteSource, i, j);
  }

  /** For a rectangular block the target in row i and column j takes field (i mod h, j mod w). */
  lemma PasteCycles(t: Table, block: Clipboard.Grid, h: nat, w: nat, i: nat, j: nat)
    requires Valid(t) && t.active.Some? && IsRectangle(block, h, w)
    requires var p := PastePlan(t, t.active.value, block); i < |p.rows| && j < |p.columns|
    ensures var p := PastePlan(t, t.active.value, block);
      At(p, i, j) == PasteOutcome(t, p.rows[i], p.columns[j], block[i % h][j % w])
  {
    PasteOutcomes(t, block, i, j);
    assert block[i % h] != [];
  }

  /** What a paste leaves in a target cell and what it reports, in terms of the field that falls
      on it: a cell that is not editable or whose parse refuses keeps its value and is reported
      with the field; without a parse the field itself is stored. */
  lemma PasteEffect(t: Table, block: Clipboard.Grid, i: nat, j: nat)
    requires Valid(t) && t.active.Some? && block != []
    requires var p := PastePlan(t, t.active.value, block); i < |p.rows| && j < |p.columns|
    ensures var p := PastePlan(t, t.active.value, block);
      var d, line := Batch(p, PasteSource), block[i % |block|];
      var raw := if line == [] then "" else line[j % |line|];
      var r, c := p.rows[i], p.columns[j];
      && r < |t.rows| && c < |t.columns|
      && var cell, edit := CellAt(t, r, c), t.columns[c].edit;
      var own, after := Read(t.data, cell), Read(Apply(t.data, d.changes), cell);
      if !Editable(t.columns[c], t.rows[r]) then
        after == own && Rejection(cell, raw, ReadOnly) in d.rejected
      else if edit.value.parse.None? then after == Text(raw)
      else
        var value := (edit.value.parse.value)(raw, t.rows[r]);
        if value.Undefined? then after == own && Rejection(cell, raw, Invalid) in d.rejected else after == value
  {
    var p := PastePlan(t, t.active.value, block);
    PasteOutcomes(t, block, i, j);
    WalkHas(p, |p.rows|, i, j);
  }

  /** The width of a block: its longest line, at least one. */
  ghost predicate HasWidth(block: Clipboard.Grid, w: nat) {
    && w >= 1 && (forall k :: 0 <= k < |block| ==> |block[k]| <= w)
    && (w == 1 || exists k :: 0 <= k < |block| && |block[k]| == w)
  }

  lemma WidthIs(block: Clipboard.Grid, w: nat)
    requires HasWidth(block, w)
    ensures MaxWidth(block) == w
  {
  }

  /** The first n of the indexes that pass: those with fewer than n passing before them. */
  lemma FirstMembers(p: nat -> bool, lo: nat, hi: nat, n: nat, x: nat)
    ensures x in First(Filter(p, lo, hi), n) <==> lo <= x < hi && p(x) && |Filter(p, lo, x)| < n
  {
    var all := Filter(p, lo, hi);
    var first := First(all, n);
    FilterContains(p, lo, hi, x);
    FilterIncreasing(p, lo, hi);
    if lo <= x < hi && p(x) {
      FilterPosition(p, lo, x, hi);
      var k := |Filter(p, lo, x)|;
      assert all[k] == x;
      if k < n { assert first[k] == x; }
    }
  }

  /** How far a paste reaches. A single field, or a block whose height divides the number of
      region rows and whose width divides its selectable columns, is repeated over as many rows
      and columns as the region has; any other block is pasted once. Its targets are the next
      shown rows and selectable columns from the region's corner, cut at the grid's edge. */
  lemma PasteReaches(t: Table, b: Bound, block: Clipboard.Grid, w: nat, r: nat, c: nat)
    requires Ordered(b) && block != [] && HasWidth(block, w)
    ensures var p, h := PastePlan(t, b, block), |block|;
      var regionRows, regionColumns := b.maxRow - b.minRow + 1, |RegionColumns(t, b)|;
      var repeats := (h == 1 && w == 1) || (regionRows % h == 0 && regionColumns % w == 0);
      && (r in p.rows <==>
            && b.minRow <= r < |t.rows| && (t.rendered.None? || t.rows[r] in t.rendered.value)
            && |Filter(ShownRows(t), b.minRow, r)| < if repeats then regionRows else h)
      && (c in p.columns <==>
            && b.minColumn <= c < |t.columns| && t.columns[c].selectable
            && |Filter(SelectableColumns(t), b.minColumn, c)| < if repeats then regionColumns else w)
  {
    WidthIs(block, w);
    var (m, n) := PasteSize(t, b, block);
    FirstMembers(ShownRows(t), b.minRow, |t.rows|, m, r);
    FirstMembers(SelectableColumns(t), b.minColumn, |t.columns|, n, c);
  }

  /** The row is there, and in view if the view is limited. */
  predicate Visible(t: Table, r: nat) {
    r < |t.rows| && (t.rendered.None? || t.rows[r] in t.rendered.value)
  }

  lemma RowsOnScreen(t: Table, b: Bound)
    requires Ordered(b) && forall r: nat :: b.minRow <= r <= b.maxRow ==> Visible(t, r)
    ensures var rows := First(Filter(ShownRows(t), b.minRow, |t.rows|), b.maxRow - b.minRow + 1);
      |rows| == b.maxRow - b.minRow + 1 && forall k :: 0 <= k < |rows| ==> rows[k] == b.minRow + k
  {
    assert Visible(t, b.maxRow);
    FilterSplit(ShownRows(t), b.minRow, b.maxRow + 1, |t.rows|);
    forall r: nat | b.minRow <= r < b.maxRow + 1 ensures ShownRows(t)(r) {
      assert Visible(t, r);
    }
    FilterAll(ShownRows(t), b.minRow, b.maxRow + 1);
  }

  lemma ColumnsOwn(t: Table, b: Bound)
    requires Ordered(b)
    ensures First(Filter(SelectableColumns(t), b.minColumn, |t.columns|), |RegionColumns(t, b)|) == RegionColumns(t, b)
  {
    RegionColumnsFirst(t, b);
  }

  /** Over a region that is on screen: exactly its own rows and its own selectable columns if the
      block repeats into it. */
  lemma PasteFillsRegion(t: Table, b: Bound, block: Clipboard.Grid, w: nat)
    requires Ordered(b) && block != [] && HasWidth(block, w)
    requires forall r: nat :: b.minRow <= r <= b.maxRow ==> Visible(t, r)
    requires (|block| == 1 && w == 1)
             || ((b.maxRow - b.minRow + 1) % |block| == 0 && |RegionColumns(t, b)| % w == 0)
    ensures var p := PastePlan(t, b, block);
      && |p.rows| == b.maxRow - b.minRow + 1 && (forall k :: 0 <= k < |p.rows| ==> p.rows[k] == b.minRow + k)
      && p.columns == RegionColumns(t, b)
    ensures forall c: nat :: c in RegionColumns(t, b) <==>
              b.minColumn <= c <= b.maxColumn && c < |t.columns| && t.columns[c].selectable
  {
    WidthIs(block, w);
    RowsOnScreen(t, b);
    ColumnsOwn(t, b);
    forall c: nat
      ensures c in RegionColumns(t, b) <==>
                b.minColumn <= c <= b.maxColumn && c < |t.columns| && t.columns[c].selectable
    {
      FilterContains(SelectableColumns(t), b.minColumn, b.maxColumn + 1, c);
    }
  }

  /** A paste is dispatched exactly if there is a region with a selectable column and a shown row
      to put something into. */
  lemma PasteIsDispatched(t: Table, block: Clipboard.Grid)
    requires Valid(t) && t.active.Some? && block != []
    ensures PasteResult(t, block) ==
              if RegionColumns(t, t.active.value) == [] || PastePlan(t, t.active.value, block).rows == [] then None
              else Some(Batch(PastePlan(t, t.active.value, block), PasteSource))
    ensures PastePlan(t, t.active.value, block).rows == []
       <==> forall r: nat :: t.active.value.minRow <= r ==> !Visible(t, r)
  {
    var b := t.active.value;
    var p := PastePlan(t, b, block);
    RegionColumnsFirst(t, b);
    FilterBounds(ShownRows(t), b.minRow, |t.rows|);
    if RegionColumns(t, b) != [] && p.rows != [] {
      PasteOutcomes(t, block, 0, 0);
    }
    SomethingToDo(p, PasteSource);
    forall r: nat ensures r in Filter(ShownRows(t), b.minRow, |t.rows|) <==> b.minRow <= r && Visible(t, r) {
      FilterContains(ShownRows(t), b.minRow, |t.rows|, r);
    }
    var all := Filter(ShownRows(t), b.minRow, |t.rows|);
    assert all != [] ==> all[0] in all;
  }

  lemma PasteFrame(t: Table, block: Clipboard.Grid, cell: Cell)
    requires t.active.Some? && Ordered(t.active.value) && block != []
    requires var p := PastePlan(t, t.active.value, block);
      forall i: nat, j: nat :: i < |p.rows| && j < |p.columns| ==> Target(p, i, j) != cell
    ensures var d := Batch(PastePlan(t, t.active.value, block), PasteSource);
      && CountChanges(d.changes, cell) + CountRejections(d.rejected, cell) == 0
      && Read(Apply(t.data, d.changes), cell) == Read(t.data, cell)
  {
    BatchFrame(PastePlan(t, t.active.value, block), PasteSource, cell);
  }

  // ------------------------------------------------------------------- fill

  /** Filling down: the target at offset k takes source row k mod n of its own column. */
  lemma FillDownEffect(t: Table, visible: set<string>, b: Bound, count: nat, k: nat, l: nat)
    requires Valid(t) && Ordered(b) && FillRows(t, visible, b) != []
    requires var p := FillPlan(t, visible, b, Down(count)); k < |p.rows| && l < |p.columns|
    ensures var p, sources := FillPlan(t, visible, b, Down(count)), FillRows(t, visible, b);
      var r, c := p.rows[k], p.columns[l];
      && b.maxRow < r && b.minColumn <= c <= b.maxColumn
      && sources[k % |sources|] < |t.rows|
      && CountChanges(Batch(p, FillSource).changes, CellAt(t, r, c))
           == (if Editable(t.columns[c], t.rows[r]) then 1 else 0)
      && Read(Apply(t.data, Batch(p, FillSource).changes), CellAt(t, r, c))
           == Read(t.data, if Editable(t.columns[c], t.rows[r])
                           then CellAt(t, sources[k % |sources|], c) else CellAt(t, r, c))
  {
    var p := FillPlan(t, visible, b, Down(count));
    FillDistinct(t, visible, b, Down(count));
    FilterIncreasing(ShownRows(FillTable(t, visible)), b.maxRow + 1, |t.rows|);
    FilterIncreasing(FillableColumns(t), b.minColumn, b.maxColumn + 1);
    FillAt(p, k, l);
    OneOutcomePerTarget(p, FillSource, k, l);
    BatchEffect(p, FillSource, k, l);
  }

  /** The fill ends where the mouse was: on its row when it goes down, at its column when it
      goes right; and there is none while the mouse is not beyond the region. */
  lemma FillReachesMouse(t: Table, visible: set<string>, b: Bound, r: nat, c: nat)
    requires Ordered(b) && FillRows(t, visible, b) != [] && r < |t.rows| && t.rows[r] in visible && c < |t.columns|
    ensures match Extended(t, visible, b, r, c)
      case None => r <= b.maxRow && c <= b.maxColumn
      case Some(Down(n)) =>
        var rows := FillPlan(t, visible, b, Down(n)).rows;
        r > b.maxRow && |rows| == n && rows[n - 1] == r
      case Some(Right(n)) =>
        c > b.maxColumn
        && FillPlan(t, visible, b, Right(n)).columns == Filter(FillableColumns(t), b.maxColumn + 1, c + 1)
  {
    var p := ShownRows(FillTable(t, visible));
    if r > b.maxRow {
      FilterSplit(p, b.maxRow + 1, r + 1, |t.rows|);
      assert Filter(p, b.maxRow + 1, r + 1) == Filter(p, b.maxRow + 1, r) + [r];
    }
  }

  lemma FillRightPlace(t: Table, visible: set<string>, b: Bound, count: nat, k: nat, l: nat)
    requires Ordered(b) && FillRows(t, visible, b) != []
    requires var p := FillPlan(t, visible, b, Right(count)); k < |p.rows| && l < |p.columns|
    ensures var p := FillPlan(t, visible, b, Right(count));
      p.rows[k] == FillRows(t, visible, b)[k] && b.maxColumn < p.columns[l] <= b.maxColumn + count
  {
    FilterIncreasing(FillableColumns(t), b.maxColumn + 1, b.maxColumn + 1 + count);
  }

  /** Where a fill crosses into a column that parses, it does what pasting the source cell's
      copied text there would do; a cell that cannot be written is skipped, not rejected. */
  lemma FillRightIsPaste(t: Table, r: nat, source: nat, c: nat)
    requires Valid(t) && r < |t.rows| && source < c < |t.columns|
    ensures !WritableCell(t.columns[c], t.rows[r]) ==>
              FillRightOutcome(t, r, source, c).Skip? && PasteOutcome(t, r, c, Formatted(t, r, source)).Reject?
    ensures WritableCell(t.columns[c], t.rows[r]) && t.columns[c].edit.value.parse.Some? ==>
              FillRightOutcome(t, r, source, c) == PasteOutcome(t, r, c, Formatted(t, r, source))
    ensures WritableCell(t.columns[c], t.rows[r]) && t.columns[c].edit.value.parse.None? ==>
              FillRightOutcome(t, r, source, c)
              == Write(Change(CellAt(t, r, c), Read(t.data, CellAt(t, r, c)), Read(t.data, CellAt(t, r, source))))
  {
    assert t.columns[source].id != t.columns[c].id;
  }

  lemma FillRightOutcomes(t: Table, visible: set<string>, b: Bound, count: nat, k: nat, l: nat)
    requires Valid(t) && Ordered(b) && FillRows(t, visible, b) != []
    requires var p := FillPlan(t, visible, b, Right(count)); k < |p.rows| && l < |p.columns|
    ensures var p := FillPlan(t, visible, b, Right(count));
      var r, c := p.rows[k], p.columns[l];
      && b.maxColumn < c && At(p, k, l) == FillRightOutcome(t, r, FillSourceColumn(b, c), c)
      && CountChanges(Batch(p, FillSource).changes, CellAt(t, r, c)) == (if At(p, k, l).Write? then 1 else 0)
      && CountRejections(Batch(p, FillSource).rejected, CellAt(t, r, c)) == (if At(p, k, l).Reject? then 1 else 0)
      && Read(Apply(t.data, Batch(p, FillSource).changes), CellAt(t, r, c))
           == if At(p, k, l).Write? then At(p, k, l).change.value else Read(t.data, CellAt(t, r, c))
  {
    var p := FillPlan(t, visible, b, Right(count));
    FillRightPlace(t, visible, b, count, k, l);
    FillDistinct(t, visible, b, Right(count));
    FillAt(p, k, l);
    OneOutcomePerTarget(p, FillSource, k, l);
    BatchEffect(p, FillSource, k, l);
  }

  /** The text a copy takes of a value: the column's own format, or else its string form, empty
      for a missing one. */
  function Shown(column: Column, rowId: string, value: Value): string {
    if column.edit.Some? && column.edit.value.format.Some? then (column.edit.value.format.value)(value, rowId)
    else
      match value
      case Undefined => ""
      case Null => ""
      case Text(text) => text
      case Other(_, shown) => shown
  }

  /** A copy holds the text of every shown, selectable cell of the region, row by row. */
  lemma CopyTakes(t: Table, b: Bound, grid: Clipboard.Grid, i: nat, j: nat)
    requires IsCopyOf(t, b, grid) && i < |grid| && j < |RegionColumns(t, b)|
    ensures var rs, cs := RegionRows(t, b), RegionColumns(t, b);
      && |rs| == |grid| && |grid[i]| == |cs| && rs[i] < |t.rows| && cs[j] < |t.columns|
      && grid[i][j] == Shown(t.columns[cs[j]], t.rows[rs[i]], Read(t.data, CellAt(t, rs[i], cs[j])))
  {
    assert IsCopyOfRow(t, RegionRows(t, b)[i], RegionColumns(t, b), grid[i]);
  }

  /** Which rows and columns those are. */
  lemma CopyCovers(t: Table, b: Bound, r: nat, c: nat)
    ensures r in RegionRows(t, b) <==>
              b.minRow <= r <= b.maxRow && r < |t.rows| && (t.rendered.None? || t.rows[r] in t.rendered.value)
    ensures c in RegionColumns(t, b) <==>
              b.minColumn <= c <= b.maxColumn && c < |t.columns| && t.columns[c].selectable
    ensures forall i, j :: 0 <= i < j < |RegionRows(t, b)| ==> RegionRows(t, b)[i] < RegionRows(t, b)[j]
    ensures forall i, j :: 0 <= i < j < |RegionColumns(t, b)| ==> RegionColumns(t, b)[i] < RegionColumns(t, b)[j]
  {
    FilterContains(ShownRows(t), b.minRow, b.maxRow + 1, r);
    FilterContains(SelectableColumns(t), b.minColumn, b.maxColumn + 1, c);
    FilterIncreasing(ShownRows(t), b.minRow, b.maxRow + 1);
    FilterIncreasing(SelectableColumns(t), b.minColumn, b.maxColumn + 1);
  }

  /** What filling `from` into the cell at (r, c) of another column leaves there. */
  function Crossed(t: Table, r: nat, from: nat, c: nat): Value
    requires r < |t.rows| && from < |t.columns| && c < |t.columns|
  {
    var own, column := Read(t.data, CellAt(t, r, c)), t.columns[c];
    if !Editable(column, t.rows[r]) then own
    else if column.edit.value.parse.None? then Read(t.data, CellAt(t, r, from))
    else
      var raw := Shown(t.columns[from], t.rows[r], Read(t.data, CellAt(t, r, from)));
      var parsed := (column.edit.value.parse.value)(raw, t.rows[r]);
      if parsed.Undefined? then own else parsed
  }

  lemma CrossedOutcome(t: Table, r: nat, from: nat, c: nat)
    requires Valid(t) && r < |t.rows| && from < c < |t.columns|
    ensures var o := FillRightOutcome(t, r, from, c);
      && (if o.Write? then o.change.value else Read(t.data, CellAt(t, r, c))) == Crossed(t, r, from, c)
      && (o.Skip? <==> !WritableCell(t.columns[c], t.rows[r]))
  {
    FillRightIsPaste(t, r, from, c);
  }

  /** Filling right, in every source row: the column at offset k beyond the region takes the
      region's column k mod width, through that column's format and its own parse. A cell
      that cannot be written keeps its value silently, one whose parse refuses is reported. */
  lemma FillRightEffect(t: Table, visible: set<string>, b: Bound, count: nat, k: nat, l: nat)
    requires Valid(t) && Ordered(b) && FillRows(t, visible, b) != []
    requires var p := FillPlan(t, visible, b, Right(count)); k < |p.rows| && l < |p.columns|
    ensures var p := FillPlan(t, visible, b, Right(count));
      var r, c, d := p.rows[k], p.columns[l], Batch(p, FillSource);
      && r == FillRows(t, visible, b)[k] && r < |t.rows| && b.maxColumn < c <= b.maxColumn + count
      && var from := b.minColumn + (c - b.maxColumn - 1) % (b.maxColumn - b.minColumn + 1);
      && from < c < |t.columns|
      && Read(Apply(t.data, d.changes), CellAt(t, r, c)) == Crossed(t, r, from, c)
      && CountChanges(d.changes, CellAt(t, r, c)) + CountRejections(d.rejected, CellAt(t, r, c))
           == (if Editable(t.columns[c], t.rows[r]) then 1 else 0)
  {
    var p := FillPlan(t, visible, b, Right(count));
    FillRightPlace(t, visible, b, count, k, l);
    FillRightOutcomes(t, visible, b, count, k, l);
    CrossedOutcome(t, p.rows[k], FillSourceColumn(b, p.columns[l]), p.columns[l]);
  }

  /** The column takes part in fills: selectable, and edited in some row at least. */
  predicate FillsColumn(t: Table, c: nat) {
    c < |t.columns| && t.columns[c].selectable && t.columns[c].edit.Some? && !t.columns[c].edit.value.editable.Never?
  }

  /** The drag goes the way in which the mouse is farther from the region, counted in visible
      rows below it and in columns right of it; down, if it is as far both ways. */
  lemma DragGoesFarther(t: Table, visible: set<string>, b: Bound, r: nat, c: nat)
    requires Ordered(b) && r < |t.rows| && t.rows[r] in visible
    ensures var extension := Extended(t, visible, b, r, c);
      var below := set x: nat | x < |t.rows| && b.maxRow < x <= r && t.rows[x] in visible;
      var right := if c > b.maxColumn then c - b.maxColumn else 0;
      && (extension.None? <==> below == {} && right == 0)
      && (extension.Some? ==> extension.value == if |below| >= right then Down(|below|) else Right(right))
  {
    var p := ShownRows(FillTable(t, visible));
    var rows := Filter(p, b.maxRow + 1, r + 1);
    var below := set x: nat | x < |t.rows| && b.maxRow < x <= r && t.rows[x] in visible;
    FilterIncreasing(p, b.maxRow + 1, r + 1);
    IncreasingSize(rows);
    forall x: nat ensures x in rows <==> x in below {
      FilterContains(p, b.maxRow + 1, r + 1, x);
    }
    assert Members(rows) == below;
  }

  ghost function Members(rows: seq<nat>): set<nat> { set x | x in rows }

  lemma MembersSnoc(rows: seq<nat>, last: nat)
    requires forall i :: 0 <= i < |rows| ==> rows[i] < last
    ensures Members(rows + [last]) == Members(rows) + {last} && last !in Members(rows)
  {
  }

  lemma {:induction false} IncreasingSize(rows: seq<nat>)
    requires forall i, j :: 0 <= i < j < |rows| ==> rows[i] < rows[j]
    ensures |Members(rows)| == |rows|
  {
    if rows == [] {
      assert Members(rows) == {};
    } else {
      var n := |rows| - 1;
      IncreasingSize(rows[..n]);
      MembersSnoc(rows[..n], rows[n]);
      assert rows == rows[..n] + [rows[n]];
    }
  }

  /** After a fill the selection covers the old one and every target, and ends where the mouse was:
      on its row if the fill went down, at its column if it went right. */
  lemma SelectionEndsAtMouse(t: Table, visible: set<string>, b: Bound, r: nat, c: nat, selected: Bound)
    requires Ordered(b) && FillRows(t, visible, b) != [] && r < |t.rows| && t.rows[r] in visible && c < |t.columns|
    requires Extended(t, visible, b, r, c).Some?
    requires var extension := Extended(t, visible, b, r, c).value;
      Grown(selected, b, FillPlan(t, visible, b, extension), extension)
    ensures selected.minRow == b.minRow && selected.minColumn == b.minColumn
    ensures match Extended(t, visible, b, r, c).value
      case Down(_) => selected.maxRow == r && selected.maxColumn == b.maxColumn
      case Right(_) => selected.maxRow == b.maxRow && selected.maxColumn == c
  {
    FillReachesMouse(t, visible, b, r, c);
  }

  /** A fill is dispatched exactly if a single region is selected, the drag extended it, and some
      target is not skipped. */
  lemma FillIsDispatched(t: Table, visible: set<string>, extension: Option<Extension>)
    requires t.active.Some? ==> Ordered(t.active.value)
    ensures FillResult(t, visible, extension).Some?
       <==> && |t.bounds| <= 1 && t.active.Some? && extension.Some?
            && FillRows(t, visible, t.active.value) != []
            && var p := FillPlan(t, visible, t.active.value, extension.value);
               exists i: nat, j: nat :: i < |p.rows| && j < |p.columns| && !At(p, i, j).Skip?
    ensures FillResult(t, visible, extension).Some? ==>
              FillResult(t, visible, extension).value
              == Batch(FillPlan(t, visible, t.active.value, extension.value), FillSource)
  {
    if t.active.Some? && extension.Some? && FillRows(t, visible, t.active.value) != [] {
      SomethingToDo(FillPlan(t, visible, t.active.value, extension.value), FillSource);
    }
  }

  lemma SomethingToDo(p: Plan, source: Source)
    requires Within(p)
    ensures Batch(p, source).changes == [] && Batch(p, source).rejected == []
       <==> forall i: nat, j: nat :: i < |p.rows| && j < |p.columns| ==> At(p, i, j).Skip?
  {
    var all, d := Walk(p, |p.rows|), Batch(p, source);
    ChangesOf(all);
    if d.changes != [] {
      assert d.changes[0] in d.changes;
      WalkMembers(p, |p.rows|, Write(d.changes[0]));
    }
    if d.rejected != [] {
      assert d.rejected[0] in d.rejected;
      WalkMembers(p, |p.rows|, Reject(d.rejected[0]));
    }
    if i: nat, j: nat :| i < |p.rows| && j < |p.columns| && !At(p, i, j).Skip? {
      WalkHas(p, |p.rows|, i, j);
    }
  }

  /** A fill down is about the next `count` visible rows below the region in its columns. */
  lemma FillDownReaches(t: Table, visible: set<string>, b: Bound, count: nat, r: nat, c: nat)
    requires Ordered(b) && FillRows(t, visible, b) != []
    ensures var p := FillPlan(t, visible, b, Down(count));
      && (r in p.rows <==>
            b.maxRow < r < |t.rows| && t.rows[r] in visible
            && |Filter(ShownRows(FillTable(t, visible)), b.maxRow + 1, r)| < count)
      && (c in p.columns <==> b.minColumn <= c <= b.maxColumn && FillsColumn(t, c))
  {
    FirstMembers(ShownRows(FillTable(t, visible)), b.maxRow + 1, |t.rows|, count, r);
    FilterContains(FillableColumns(t), b.minColumn, b.maxColumn + 1, c);
  }

  /** A fill right is about the region's visible rows in the next `count` columns. */
  lemma FillRightReaches(t: Table, visible: set<string>, b: Bound, count: nat, r: nat, c: nat)
    requires Ordered(b) && FillRows(t, visible, b) != []
    ensures var p := FillPlan(t, visible, b, Right(count));
      && (r in p.rows <==> b.minRow <= r <= b.maxRow && r < |t.rows| && t.rows[r] in visible)
      && (c in p.columns <==> b.maxColumn < c <= b.maxColumn + count && FillsColumn(t, c))
  {
    FilterContains(ShownRows(FillTable(t, visible)), b.minRow, b.maxRow + 1, r);
    FilterContains(FillableColumns(t), b.maxColumn + 1, b.maxColumn + 1 + count, c);
  }

  /** No fill writes or rejects a cell of the region it copies from. */
  lemma FillSparesSource(t: Table, visible: set<string>, b: Bound, extension: Extension, r: nat, c: nat)
    requires Valid(t) && Ordered(b) && FillRows(t, visible, b) != []
    requires r < |t.rows| && c < |t.columns|
    requires b.minRow <= r <= b.maxRow && b.minColumn <= c <= b.maxColumn
    ensures var d := Batch(FillPlan(t, visible, b, extension), FillSource);
      && CountChanges(d.changes, CellAt(t, r, c)) + CountRejections(d.rejected, CellAt(t, r, c)) == 0
      && Read(Apply(t.data, d.changes), CellAt(t, r, c)) == Read(t.data, CellAt(t, r, c))
  {
    var p := FillPlan(t, visible, b, extension);
    FilterIncreasing(ShownRows(FillTable(t, visible)), b.maxRow + 1, |t.rows|);
    match extension {
      case Down(count) =>
        assert forall i :: 0 <= i < |p.rows| ==> b.maxRow < p.rows[i];
      case Right(count) =>
        FilterIncreasing(FillableColumns(t), b.maxColumn + 1, b.maxColumn + 1 + count);
        assert forall j :: 0 <= j < |p.columns| ==> b.maxColumn < p.columns[j];
    }
    forall i: nat, j: nat | i < |p.rows| && j < |p.columns| ensures Target(p, i, j) != CellAt(t, r, c) {
      assert p.rows[i] != r || p.columns[j] != c;
    }
    BatchFrame(p, FillSource, CellAt(t, r, c));
  }
}

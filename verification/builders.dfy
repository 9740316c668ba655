/** The builders behind copy, clear, cut, paste and the fill handle. */
module Builders {
  import opened Options
  import opened Table
  import opened Batches
  import opened Plans
  import Clipboard

  // ------------------------------------------------------------------- copy

  function RegionRows(t: Table, b: Bound): seq<nat> {
    Filter(ShownRows(t), b.minRow, b.maxRow + 1)
  }

  function RegionColumns(t: Table, b: Bound): seq<nat> {
    Filter(SelectableColumns(t), b.minColumn, b.maxColumn + 1)
  }

  /** The grid holds exactly the formatted cells of the shown rows and selectable columns. */
  ghost predicate IsCopyOf(t: Table, b: Bound, grid: Clipboard.Grid) {
    var rs, cs := RegionRows(t, b), RegionColumns(t, b);
    && |grid| == |rs|
    && forall i :: 0 <= i < |rs| ==> rs[i] < |t.rows| && IsCopyOfRow(t, rs[i], cs, grid[i])
  }

  ghost predicate IsCopyOfRow(t: Table, r: nat, cs: seq<nat>, line: seq<string>)
    requires r < |t.rows|
  {
    && |line| == |cs|
    && forall j :: 0 <= j < |cs| ==> cs[j] < |t.columns| && line[j] == Formatted(t, r, cs[j])
  }

  /** Where the walk over the region's rows stands after row r. */
  lemma NextRow(t: Table, b: Bound, r: nat)
    requires b.minRow <= r <= b.maxRow
    ensures var k, rs := |Filter(ShownRows(t), b.minRow, r)|, RegionRows(t, b);
      && |Filter(ShownRows(t), b.minRow, r + 1)| == (if ShowsRow(t, r) then k + 1 else k) <= |rs|
      && (ShowsRow(t, r) ==> k < |rs| && rs[k] == r)
  {
    FilterPosition(ShownRows(t), b.minRow, r, b.maxRow + 1);
    FilterSplit(ShownRows(t), b.minRow, r + 1, b.maxRow + 1);
  }

  method CopyRegion(t: Table) returns (out: Option<Clipboard.Grid>)
    ensures out.None? <==> t.active.None? || RegionRows(t, t.active.value) == []
    ensures out.Some? ==> IsCopyOf(t, t.active.value, out.value)
  {
    if t.active.None? { return None; }
    var b := t.active.value;
    var grid: Clipboard.Grid := [];
    ghost var rs := RegionRows(t, b);
    var r := b.minRow;
    while r <= b.maxRow
      invariant r <= b.maxRow + 1 || r == b.minRow
      invariant |grid| == |Filter(ShownRows(t), b.minRow, r)| <= |rs|
      invariant forall i :: 0 <= i < |grid| ==>
                  rs[i] < |t.rows| && IsCopyOfRow(t, rs[i], RegionColumns(t, b), grid[i])
    {
      NextRow(t, b, r);
      if ShowsRow(t, r) {
        var line := CopyRow(t, b, r);
        grid := grid + [line];
      }
      r := r + 1;
    }
    out := if grid == [] then None else Some(grid);
  }

  method CopyRow(t: Table, b: Bound, r: nat) returns (line: seq<string>)
    requires r < |t.rows|
    ensures IsCopyOfRow(t, r, RegionColumns(t, b), line)
  {
    line := [];
    ghost var cs := RegionColumns(t, b);
    var c := b.minColumn;
    while c <= b.maxColumn
      invariant c <= b.maxColumn + 1 || c == b.minColumn
      invariant |line| == |Filter(SelectableColumns(t), b.minColumn, c)| <= |cs|
      invariant forall j :: 0 <= j < |line| ==> cs[j] < |t.columns| && line[j] == Formatted(t, r, cs[j])
    {
      FilterPosition(SelectableColumns(t), b.minColumn, c, b.maxColumn + 1);
      if Selectable(t, c) {
        line := line + [Formatted(t, r, c)];
      }
      c := c + 1;
    }
  }

  // ------------------------------------------------------------------ clear

  lemma RegionWithin(t: Table, b: Bound)
    ensures Within(Plan(t, RegionRows(t, b), RegionColumns(t, b), Clear))
  {
    FilterIncreasing(ShownRows(t), b.minRow, b.maxRow + 1);
    FilterIncreasing(SelectableColumns(t), b.minColumn, b.maxColumn + 1);
  }

  function ClearPlan(t: Table, b: Bound): (p: Plan)
    ensures Within(p)
  {
    RegionWithin(t, b);
    Plan(t, RegionRows(t, b), RegionColumns(t, b), Clear)
  }

  /** The clears of all regions one after the other. */
  function ClearChanges(t: Table, bounds: seq<Bound>): seq<Change> {
    if bounds == [] then []
    else
      ClearChanges(t, bounds[..|bounds| - 1])
      + Batch(ClearPlan(t, bounds[|bounds| - 1]), ClearSource).changes
  }

  /** The regions a clear works on: all of them, or only the active one for a cut. */
  function ClearBounds(t: Table, activeRegionOnly: bool): seq<Bound> {
    if !activeRegionOnly then t.bounds
    else if t.active.Some? then [t.active.value] else []
  }

  method BuildClear(t: Table, source: Source, activeRegionOnly: bool) returns (out: Option<Details>)
    ensures var bounds := if !activeRegionOnly then t.bounds else if t.active.Some? then [t.active.value] else [];
      var changes := ClearChanges(t, bounds);
      out == if changes == [] then None else Some(Details(source, changes, []))
  {
    var bounds := ClearBounds(t, activeRegionOnly);
    if bounds == [] { return None; }
    var changes: seq<Change> := [];
    for k := 0 to |bounds|
      invariant changes == ClearChanges(t, bounds[..k])
    {
      var region := ClearRegion(t, bounds[k]);
      changes := changes + region;
      assert bounds[..k + 1][..k] == bounds[..k];
    }
    assert bounds[..|bounds|] == bounds;
    out := if changes == [] then None else Some(Details(source, changes, []));
  }

  /** One region of a clear. */
  method ClearRegion(t: Table, b: Bound) returns (changes: seq<Change>)
    ensures changes == Batch(ClearPlan(t, b), ClearSource).changes
  {
    changes := [];
    ghost var p, i := ClearPlan(t, b), 0;
    var r := b.minRow;
    while r <= b.maxRow
      invariant r <= b.maxRow + 1 || r == b.minRow
      invariant i == |Filter(ShownRows(t), b.minRow, r)| <= |p.rows|
      invariant changes == Changes(Walk(p, i))
    {
      NextRow(t, b, r);
      if ShowsRow(t, r) {
        var line := ClearRow(t, b, r, p, i);
        changes := changes + line;
        WalkStep(p, i);
        i := i + 1;
      }
      r := r + 1;
    }
  }

  /** The changes to one row in the selectable columns lo..hi. */
  function ClearedRow(t: Table, r: nat, lo: nat, hi: nat): seq<Change>
    requires r < |t.rows|
  {
    if hi <= lo then []
    else
      ClearedRow(t, r, lo, hi - 1)
      + if Selectable(t, hi - 1) && ClearOutcome(t, r, hi - 1).Write? then [ClearOutcome(t, r, hi - 1).change] else []
  }

  /** The change that clears one cell, none if it cannot be written. */
  method ClearCell(t: Table, r: nat, c: nat) returns (change: seq<Change>)
    requires r < |t.rows| && c < |t.columns|
    ensures var o := ClearOutcome(t, r, c); change == if o.Write? then [o.change] else []
  {
    var o := ClearOutcome(t, r, c);
    change := if o.Write? then [o.change] else [];
  }

  method ClearRow(t: Table, b: Bound, r: nat, ghost p: Plan, ghost i: nat) returns (changes: seq<Change>)
    requires Within(p) && p.kind.Clear? && p.table == t && p.columns == RegionColumns(t, b)
    requires i < |p.rows| && p.rows[i] == r < |t.rows|
    ensures changes == Changes(WalkLine(p, i, |p.columns|))
  {
    changes := [];
    var c := b.minColumn;
    while c <= b.maxColumn
      invariant c <= b.maxColumn + 1 || c == b.minColumn
      invariant changes == ClearedRow(t, r, b.minColumn, c)
    {
      if Selectable(t, c) {
        var change := ClearCell(t, r, c);
        changes := changes + change;
      }
      c := c + 1;
    }
    if b.minColumn <= b.maxColumn + 1 {
      ClearedIsWalk(t, b, r, b.maxColumn + 1, p, i, |p.columns|);
    }
  }

  /** Clearing column by column walks the plan's line. */
  lemma {:induction false} ClearedIsWalk(t: Table, b: Bound, r: nat, hi: nat, p: Plan, i: nat, j: nat)
    requires Within(p) && p.kind.Clear? && p.table == t && p.columns == RegionColumns(t, b)
    requires i < |p.rows| && p.rows[i] == r < |t.rows| && b.minColumn <= hi <= b.maxColumn + 1
    requires j == |Filter(SelectableColumns(t), b.minColumn, hi)| && j <= |p.columns|
    ensures ClearedRow(t, r, b.minColumn, hi) == Changes(WalkLine(p, i, j))
    decreases hi
  {
    if b.minColumn == hi {
      assert WalkLine(p, i, 0) == [];
    } else if Selectable(t, hi - 1) {
      ClearedIsWalk(t, b, r, hi - 1, p, i, j - 1);
      ClearStep(t, b, r, hi - 1, p, i, j - 1);
    } else {
      ClearedIsWalk(t, b, r, hi - 1, p, i, j);
    }
  }

  /** One more selectable column on the row being cleared. */
  lemma ClearStep(t: Table, b: Bound, r: nat, c: nat, p: Plan, i: nat, j: nat)
    requires Within(p) && p.kind.Clear? && p.table == t && p.columns == RegionColumns(t, b)
    requires i < |p.rows| && p.rows[i] == r < |t.rows|
    requires b.minColumn <= c <= b.maxColumn && Selectable(t, c) && j == |Filter(SelectableColumns(t), b.minColumn, c)|
    ensures j < |p.columns|
    ensures var o := ClearOutcome(t, r, c);
      Changes(WalkLine(p, i, j + 1)) == Changes(WalkLine(p, i, j)) + (if o.Write? then [o.change] else [])
  {
    FilterPosition(SelectableColumns(t), b.minColumn, c, b.maxColumn + 1);
    ClearAt(p, i, j);
    LineStep(p, i, j, ClearOutcome(t, r, c));
  }

  lemma ClearAt(p: Plan, i: nat, j: nat)
    requires Within(p) && p.kind.Clear? && i < |p.rows| && j < |p.columns|
    ensures At(p, i, j) == ClearOutcome(p.table, p.rows[i], p.columns[j])
  {
  }

  // ------------------------------------------------------------------ paste

  /** The block repeated cyclically; a missing field reads as empty. */
  function BlockAt(block: Clipboard.Grid, r: nat, c: nat): string {
    if block == [] then ""
    else
      var line := block[r % |block|];
      if line == [] then "" else line[c % |line|]
  }

  ghost predicate IsTiling(block: Clipboard.Grid, rowCount: nat, columnCount: nat, tiled: Clipboard.Grid) {
    && |tiled| == rowCount
    && forall r :: 0 <= r < rowCount ==> IsTiledLine(block, r, columnCount, tiled[r])
  }

  ghost predicate IsTiledLine(block: Clipboard.Grid, r: nat, columnCount: nat, line: seq<string>) {
    && |line| == columnCount
    && forall c :: 0 <= c < columnCount ==> line[c] == BlockAt(block, r, c)
  }

  function Tiled(block: Clipboard.Grid, rowCount: nat, columnCount: nat): (tiled: Clipboard.Grid)
    ensures IsTiling(block, rowCount, columnCount, tiled)
  {
    seq(rowCount, r requires 0 <= r < rowCount =>
      seq(columnCount, c requires 0 <= c < columnCount => BlockAt(block, r, c)))
  }

  method TileBlock(block: Clipboard.Grid, rowCount: nat, columnCount: nat) returns (tiled: Clipboard.Grid)
    ensures IsTiling(block, rowCount, columnCount, tiled)
  {
    tiled := [];
    for r := 0 to rowCount
      invariant |tiled| == r
      invariant forall k :: 0 <= k < r ==> IsTiledLine(block, k, columnCount, tiled[k])
    {
      var source: seq<string> := if block == [] then [] else block[r % |block|];
      var line: seq<string> := [];
      for c := 0 to columnCount
        invariant |line| == c
        invariant forall k :: 0 <= k < c ==> line[k] == BlockAt(block, r, k)
      {
        line := line + [if source == [] then "" else source[c % |source|]];
      }
      tiled := tiled + [line];
    }
  }

  function MaxWidth(block: Clipboard.Grid): (w: nat)
    ensures w >= 1 && forall k :: 0 <= k < |block| ==> |block[k]| <= w
    ensures w == 1 || exists k :: 0 <= k < |block| && |block[k]| == w
  {
    if block == [] then 1
    else
      var n := |block| - 1;
      var w := MaxWidth(block[..n]);
      assert forall k :: 0 <= k < n ==> block[..n][k] == block[k];
      if |block[n]| > w then |block[n]| else w
  }

  /** How many rows and columns a paste covers. */
  function PasteSize(t: Table, b: Bound, block: Clipboard.Grid): (nat, nat)
    requires Ordered(b) && block != []
  {
    var rows, columns := |block|, MaxWidth(block);
    var regionRows, regionColumns := b.maxRow - b.minRow + 1, |RegionColumns(t, b)|;
    if rows == 1 && columns == 1 then (regionRows, regionColumns)
    else if regionRows % rows == 0 && regionColumns % columns == 0 then (regionRows, regionColumns)
    else (rows, columns)
  }

  function First(s: seq<nat>, n: nat): seq<nat> {
    s[..if n < |s| then n else |s|]
  }

  lemma PasteWithin(t: Table, b: Bound, m: nat, n: nat, tiled: Clipboard.Grid)
    requires |tiled| == m && forall r :: 0 <= r < m ==> |tiled[r]| == n
    ensures Within(Plan(t, First(Filter(ShownRows(t), b.minRow, |t.rows|), m),
                        First(Filter(SelectableColumns(t), b.minColumn, |t.columns|), n), Paste(tiled)))
  {
    FilterIncreasing(ShownRows(t), b.minRow, |t.rows|);
    FilterIncreasing(SelectableColumns(t), b.minColumn, |t.columns|);
  }

  /** Targets: the next shown rows and selectable columns from the region's corner. */
  function PastePlan(t: Table, b: Bound, block: Clipboard.Grid): (p: Plan)
    requires Ordered(b) && block != []
    ensures Within(p)
  {
    var (m, n) := PasteSize(t, b, block);
    var tiled := Tiled(block, m, n);
    PasteWithin(t, b, m, n, tiled);
    Plan(t, First(Filter(ShownRows(t), b.minRow, |t.rows|), m),
         First(Filter(SelectableColumns(t), b.minColumn, |t.columns|), n), Paste(tiled))
  }

  /** The batch of a paste, or none when there is nowhere to put anything. */
  function PasteResult(t: Table, block: Clipboard.Grid): Option<Details>
    requires t.active.Some? ==> Ordered(t.active.value)
  {
    if block == [] || t.active.None? || RegionColumns(t, t.active.value) == [] then None
    else
      var d := Batch(PastePlan(t, t.active.value, block), PasteSource);
      if d.changes == [] && d.rejected == [] then None else Some(d)
  }

  /** The rectangle to select after a paste, in display indexes. */
  datatype PasteTarget = PasteTarget(startRow: nat, endRow: nat, rowCount: nat, startColumn: nat, endColumn: nat)

  /** The smallest rectangle around the targets of a plan; without a target row it is the
      top row of the region. */
  ghost predicate Surrounds(target: PasteTarget, p: Plan, b: Bound) {
    && target.startRow == b.minRow && target.rowCount == |p.rows|
    && (if p.rows == [] then target.endRow == b.minRow else target.endRow == p.rows[|p.rows| - 1])
    && p.columns != [] && target.startColumn == p.columns[0] && target.endColumn == p.columns[|p.columns| - 1]
    && (forall i :: 0 <= i < |p.rows| ==> target.startRow <= p.rows[i] <= target.endRow)
    && (forall j :: 0 <= j < |p.columns| ==> target.startColumn <= p.columns[j] <= target.endColumn)
  }

  method BuildPaste(t: Table, block: Clipboard.Grid) returns (out: Option<Details>, target: PasteTarget)
    requires t.active.Some? ==> Ordered(t.active.value)
    ensures out == PasteResult(t, block)
    ensures out.Some? ==> Surrounds(target, PastePlan(t, t.active.value, block), t.active.value)
  {
    target := PasteTarget(0, 0, 0, 0, 0);
    if block == [] || t.active.None? { return None, target; }
    var b := t.active.value;
    var targetColumns, regionColumns := PasteColumns(t, b);
    if regionColumns == 0 { return None, target; }

    var (m, n) := PasteSize(t, b, block);
    var tiled := TileBlock(block, m, n);
    var targetRows := PasteRows(t, b, m);
    ghost var p := PastePlan(t, b, block);
    assert tiled == p.kind.tiled by {
      SameTiling(block, m, n, tiled, p.kind.tiled);
    }

    var changes, rejected := PasteLines(t, targetRows, targetColumns, n, tiled, p);
    out := if changes == [] && rejected == [] then None else Some(Details(PasteSource, changes, rejected));
    target := TargetOf(t, b, block, targetRows, targetColumns, n);
  }

  lemma PasteTargetsOrdered(t: Table, b: Bound, block: Clipboard.Grid)
    requires Ordered(b) && block != []
    ensures var p := PastePlan(t, b, block);
      && (forall i, j :: 0 <= i <= j < |p.rows| ==> b.minRow <= p.rows[i] <= p.rows[j])
      && (forall i, j :: 0 <= i <= j < |p.columns| ==> p.columns[i] <= p.columns[j])
  {
    FilterIncreasing(ShownRows(t), b.minRow, |t.rows|);
    FilterIncreasing(SelectableColumns(t), b.minColumn, |t.columns|);
  }

  method TargetOf(t: Table, b: Bound, block: Clipboard.Grid, targetRows: seq<nat>, targetColumns: seq<nat>, n: nat)
    returns (target: PasteTarget)
    requires Ordered(b) && block != [] && RegionColumns(t, b) != []
    requires n == PasteSize(t, b, block).1 && targetRows == PastePlan(t, b, block).rows
    requires targetColumns == Filter(SelectableColumns(t), b.minColumn, |t.columns|)
    ensures Surrounds(target, PastePlan(t, b, block), b)
  {
    PasteTargetsOrdered(t, b, block);
    RegionColumnsFirst(t, b);
    var lastTarget := targetColumns[(if n < |targetColumns| then n else |targetColumns|) - 1];
    target := PasteTarget(b.minRow, if targetRows == [] then b.minRow else targetRows[|targetRows| - 1],
                          |targetRows|, targetColumns[0], lastTarget);
  }

  lemma SameTiling(block: Clipboard.Grid, m: nat, n: nat, a: Clipboard.Grid, b: Clipboard.Grid)
    requires IsTiling(block, m, n, a) && IsTiling(block, m, n, b)
    ensures a == b
  {
    forall r | 0 <= r < m ensures a[r] == b[r] {
      assert IsTiledLine(block, r, n, a[r]) && IsTiledLine(block, r, n, b[r]);
    }
  }

  /** The selectable columns from the region's first one on, and how many the region has. */
  method PasteColumns(t: Table, b: Bound) returns (targetColumns: seq<nat>, regionColumns: nat)
    ensures targetColumns == Filter(SelectableColumns(t), b.minColumn, |t.columns|)
    ensures regionColumns == |RegionColumns(t, b)|
  {
    var p := SelectableColumns(t);
    targetColumns, regionColumns := [], 0;
    var c := b.minColumn;
    while c < |t.columns|
      invariant b.minColumn <= c && (c <= |t.columns| || c == b.minColumn)
      invariant targetColumns == Filter(p, b.minColumn, c)
      invariant regionColumns == |Filter(p, b.minColumn, if c <= b.maxColumn then c else b.maxColumn + 1)|
    {
      if Selectable(t, c) {
        targetColumns := targetColumns + [c];
        if c <= b.maxColumn { regionColumns := regionColumns + 1; }
      }
      c := c + 1;
    }
    if c <= b.maxColumn { ColumnsEnd(t, b, c); }
  }

  lemma ColumnsEnd(t: Table, b: Bound, c: nat)
    requires b.minColumn <= c <= b.maxColumn && |t.columns| <= c
    ensures Filter(SelectableColumns(t), b.minColumn, c) == RegionColumns(t, b)
  {
    FilterSplit(SelectableColumns(t), b.minColumn, c, b.maxColumn + 1);
    NothingBeyond(t, c, b.maxColumn + 1);
  }

  /** The region's selectable columns are the first ones from its corner. */
  lemma RegionColumnsFirst(t: Table, b: Bound)
    requires Ordered(b)
    ensures Filter(SelectableColumns(t), b.minColumn, |t.columns|)
         == RegionColumns(t, b) + Filter(SelectableColumns(t), b.maxColumn + 1, |t.columns|)
    ensures RegionColumns(t, b) <= Filter(SelectableColumns(t), b.minColumn, |t.columns|)
  {
    var n := |t.columns|;
    if b.maxColumn < n {
      FilterSplit(SelectableColumns(t), b.minColumn, b.maxColumn + 1, n);
    } else if b.minColumn <= n {
      FilterSplit(SelectableColumns(t), b.minColumn, n, b.maxColumn + 1);
      NothingBeyond(t, n, b.maxColumn + 1);
    } else {
      NothingBeyond(t, b.minColumn, b.maxColumn + 1);
    }
  }

  /** Past the last column there is nothing selectable. */
  lemma NothingBeyond(t: Table, lo: nat, hi: nat)
    requires |t.columns| <= lo
    ensures Filter(SelectableColumns(t), lo, hi) == []
  {
    FilterIncreasing(SelectableColumns(t), lo, hi);
    assert forall c: nat :: lo <= c ==> !SelectableColumns(t)(c);
  }

  /** The next shown rows from the region's top. */
  method PasteRows(t: Table, b: Bound, rowCount: nat) returns (targetRows: seq<nat>)
    ensures targetRows == First(Filter(ShownRows(t), b.minRow, |t.rows|), rowCount)
  {
    targetRows := [];
    var r := b.minRow;
    while r < |t.rows| && |targetRows| != rowCount
      invariant b.minRow <= r && (r <= |t.rows| || r == b.minRow) && |targetRows| <= rowCount
      invariant targetRows == Filter(ShownRows(t), b.minRow, r)
    {
      if ShowsRow(t, r) { targetRows := targetRows + [r]; }
      r := r + 1;
    }
    if r < |t.rows| {
      FilterSplit(ShownRows(t), b.minRow, r, |t.rows|);
    }
  }

  method PasteLines(t: Table, targetRows: seq<nat>, targetColumns: seq<nat>, n: nat, tiled: Clipboard.Grid,
                    ghost p: Plan)
    returns (changes: seq<Change>, rejected: seq<Rejection>)
    requires Within(p) && p.table == t && p.rows == targetRows && p.columns == First(targetColumns, n)
    requires p.kind == Paste(tiled) && forall i :: 0 <= i < |tiled| ==> |tiled[i]| == n
    ensures changes == Changes(Walk(p, |p.rows|)) && rejected == Rejections(Walk(p, |p.rows|))
  {
    changes, rejected := [], [];
    for i := 0 to |targetRows|
      invariant changes == Changes(Walk(p, i)) && rejected == Rejections(Walk(p, i))
    {
      var lineChanges, lineRejected := PasteLine(t, targetRows[i], targetColumns, n, tiled[i], p, i);
      changes, rejected := changes + lineChanges, rejected + lineRejected;
      WalkStep(p, i);
    }
  }

  /** Files one outcome with the changes or the rejections. */
  method Dispatch(o: Outcome, changes: seq<Change>, rejected: seq<Rejection>)
    returns (changes': seq<Change>, rejected': seq<Rejection>)
    ensures changes' == changes + (if o.Write? then [o.change] else [])
    ensures rejected' == rejected + (if o.Reject? then [o.rejection] else [])
  {
    changes', rejected' := changes, rejected;
    match o {
      case Write(change) => changes' := changes + [change];
      case Reject(rejection) => rejected' := rejected + [rejection];
      case Skip =>
    }
  }

  method PasteLine(t: Table, r: nat, targetColumns: seq<nat>, n: nat, raws: seq<string>,
                   ghost p: Plan, ghost i: nat)
    returns (changes: seq<Change>, rejected: seq<Rejection>)
    requires Within(p) && p.table == t && p.columns == First(targetColumns, n) && p.kind.Paste?
    requires i < |p.rows| && r == p.rows[i] && |raws| == n && raws == p.kind.tiled[i]
    ensures changes == Changes(WalkLine(p, i, |p.columns|))
    ensures rejected == Rejections(WalkLine(p, i, |p.columns|))
  {
    changes, rejected := [], [];
    var c := 0;
    ghost var j := 0;
    while c < n
      invariant 0 <= c <= n && j == if c <= |targetColumns| then c else |targetColumns|
      invariant changes == Changes(WalkLine(p, i, j)) && rejected == Rejections(WalkLine(p, i, j))
    {
      if c < |targetColumns| {
        var o := PasteOutcome(t, r, targetColumns[c], raws[c]);
        PasteAt(p, i, c);
        LineStep(p, i, c, o);
        changes, rejected := Dispatch(o, changes, rejected);
        j := j + 1;
      }
      c := c + 1;
    }
  }

  lemma PasteAt(p: Plan, i: nat, j: nat)
    requires Within(p) && p.kind.Paste? && i < |p.rows| && j < |p.columns|
    ensures At(p, i, j) == PasteOutcome(p.table, p.rows[i], p.columns[j], p.kind.tiled[i][j])
  {
  }

  // ------------------------------------------------------------------- fill

  datatype Extension = Down(count: nat) | Right(count: nat)

  /** The rows a fill walks: those the body renders. */
  function FillTable(t: Table, visible: set<string>): Table {
    t.(rendered := Some(visible))
  }

  function FillRows(t: Table, visible: set<string>, b: Bound): seq<nat> {
    Filter(ShownRows(FillTable(t, visible)), b.minRow, b.maxRow + 1)
  }

  function FillPlan(t: Table, visible: set<string>, b: Bound, extension: Extension): (p: Plan)
    requires Ordered(b) && FillRows(t, visible, b) != []
    ensures Within(p)
  {
    var v := FillTable(t, visible);
    var sources := FillRows(t, visible, b);
    FilterIncreasing(ShownRows(v), b.minRow, b.maxRow + 1);
    FilterIncreasing(ShownRows(v), b.maxRow + 1, |t.rows|);
    match extension
    case Down(count) =>
      FilterIncreasing(FillableColumns(t), b.minColumn, b.maxColumn + 1);
      Plan(t, First(Filter(ShownRows(v), b.maxRow + 1, |t.rows|), count),
           Filter(FillableColumns(t), b.minColumn, b.maxColumn + 1), FillDown(sources))
    case Right(count) =>
      FilterIncreasing(FillableColumns(t), b.maxColumn + 1, b.maxColumn + 1 + count);
      Plan(t, sources, Filter(FillableColumns(t), b.maxColumn + 1, b.maxColumn + 1 + count), FillRight(b))
  }

  /** The extension while the mouse is over the visible row r and column c: as many visible
      rows below the region, or columns right of it, as it takes to get there, the longer way. */
  function Extended(t: Table, visible: set<string>, b: Bound, r: nat, c: nat): Option<Extension> {
    var rows := |Filter(ShownRows(FillTable(t, visible)), b.maxRow + 1, r + 1)|;
    var columns := if c > b.maxColumn then c - b.maxColumn else 0;
    if rows == 0 && columns == 0 then None
    else if rows >= columns then Some(Down(rows)) else Some(Right(columns))
  }

  /** How many visible rows come before the row with this id, none if it is not visible. */
  method VisibleIndex(t: Table, visible: set<string>, id: string) returns (index: Option<nat>)
    ensures index.None? <==> id !in visible || id !in t.rows
    ensures index.Some? ==> exists r: nat ::
              r < |t.rows| && t.rows[r] == id && index.value == |Filter(ShownRows(FillTable(t, visible)), 0, r)|
  {
    var count := 0;
    for r := 0 to |t.rows|
      invariant count == |Filter(ShownRows(FillTable(t, visible)), 0, r)|
      invariant forall k :: 0 <= k < r ==> t.rows[k] != id || id !in visible
    {
      if t.rows[r] in visible {
        if t.rows[r] == id { return Some(count); }
        count := count + 1;
      }
    }
    return None;
  }

  method ColumnIndex(t: Table, id: string) returns (index: Option<nat>)
    ensures index.None? <==> forall c :: 0 <= c < |t.columns| ==> t.columns[c].id != id
    ensures index.Some? ==> index.value < |t.columns| && t.columns[index.value].id == id
  {
    for c := 0 to |t.columns|
      invariant forall k :: 0 <= k < c ==> t.columns[k].id != id
    {
      if t.columns[c].id == id { return Some(c); }
    }
    return None;
  }

  /** The mouse moves over a cell while the handle is dragged. `sourceEnd` is the number of
      visible rows up to the end of the region, fixed when the drag starts. */
  method HandleMove(t: Table, visible: set<string>, b: Bound, sourceEnd: nat, rowId: string, columnId: string,
                    extension: Option<Extension>)
    returns (next: Option<Extension>)
    requires Valid(t) && sourceEnd == |Filter(ShownRows(FillTable(t, visible)), 0, b.maxRow + 1)|
    ensures forall r: nat, c: nat ::
              r < |t.rows| && c < |t.columns| && t.rows[r] == rowId && t.columns[c].id == columnId ==>
              next == if rowId in visible then Extended(t, visible, b, r, c) else extension
    ensures rowId !in t.rows || (forall c :: 0 <= c < |t.columns| ==> t.columns[c].id != columnId) ==> next == extension
  {
    var rowIndex := VisibleIndex(t, visible, rowId);
    var columnIndex := ColumnIndex(t, columnId);
    if rowIndex.None? || columnIndex.None? { return extension; }
    var rows := if rowIndex.value + 1 > sourceEnd then rowIndex.value + 1 - sourceEnd else 0;
    var c := columnIndex.value;
    var columns := if c > b.maxColumn then c - b.maxColumn else 0;
    next := if rows == 0 && columns == 0 then None
            else if rows >= columns then Some(Down(rows)) else Some(Right(columns));
    ghost var r: nat :|
      r < |t.rows| && t.rows[r] == rowId && rowIndex.value == |Filter(ShownRows(FillTable(t, visible)), 0, r)|;
    RowsBelow(t, visible, b, r);
    assert next == Extended(t, visible, b, r, c);
  }

  /** A visible row's distance below the region, counted in visible rows. */
  lemma RowsBelow(t: Table, visible: set<string>, b: Bound, r: nat)
    requires r < |t.rows| && t.rows[r] in visible
    ensures var p := ShownRows(FillTable(t, visible));
      var ahead, sourceEnd := |Filter(p, 0, r)|, |Filter(p, 0, b.maxRow + 1)|;
      |Filter(p, b.maxRow + 1, r + 1)| == if ahead + 1 > sourceEnd then ahead + 1 - sourceEnd else 0
  {
    var p := ShownRows(FillTable(t, visible));
    if r <= b.maxRow {
      FilterSplit(p, 0, r + 1, b.maxRow + 1);
    } else {
      FilterSplit(p, 0, b.maxRow + 1, r + 1);
    }
  }

  /** The release of the fill handle; none when no cell was dispatched. */
  function FillResult(t: Table, visible: set<string>, extension: Option<Extension>): Option<Details>
    requires t.active.Some? ==> Ordered(t.active.value)
  {
    if |t.bounds| > 1 || t.active.None? || extension.None? || FillRows(t, visible, t.active.value) == [] then None
    else
      var d := Batch(FillPlan(t, visible, t.active.value, extension.value), FillSource);
      if d.changes == [] && d.rejected == [] then None else Some(d)
  }

  /** The selection after a fill: the region grown over the cells filled. */
  ghost predicate Grown(selected: Bound, b: Bound, p: Plan, extension: Extension) {
    && selected.minRow == b.minRow && selected.minColumn == b.minColumn && p.rows != []
    && match extension
       case Down(_) => selected.maxRow == p.rows[|p.rows| - 1] > b.maxRow && selected.maxColumn == b.maxColumn
       case Right(count) => selected.maxRow == b.maxRow && selected.maxColumn == b.maxColumn + count
  }

  method CommitFill(t: Table, visible: set<string>, extension: Option<Extension>)
    returns (out: Option<Details>, selected: Option<Bound>)
    requires t.active.Some? ==> Ordered(t.active.value)
    ensures out == FillResult(t, visible, extension)
    ensures out.Some? ==> selected.Some?
    ensures selected.Some? ==>
              && t.active.Some? && extension.Some? && FillRows(t, visible, t.active.value) != []
              && Grown(selected.value, t.active.value,
                       FillPlan(t, visible, t.active.value, extension.value), extension.value)
  {
    selected := None;
    if |t.bounds| > 1 || t.active.None? { return None, None; }
    var b := t.active.value;
    var sourceRows, below := VisibleRows(t, visible, b);
    if sourceRows == [] || extension.None? { return None, None; }
    out, selected := FillRegion(t, visible, b, sourceRows, below, extension.value);
  }

  method FillRegion(t: Table, visible: set<string>, b: Bound, sourceRows: seq<nat>, below: seq<nat>,
                    extension: Extension)
    returns (out: Option<Details>, selected: Option<Bound>)
    requires Ordered(b) && sourceRows == FillRows(t, visible, b) != []
    requires below == Filter(ShownRows(FillTable(t, visible)), b.maxRow + 1, |t.rows|)
    ensures var d := Batch(FillPlan(t, visible, b, extension), FillSource);
      out == if d.changes == [] && d.rejected == [] then None else Some(d)
    ensures out.Some? ==> selected.Some?
    ensures selected.Some? ==> Grown(selected.value, b, FillPlan(t, visible, b, extension), extension)
  {
    ghost var p := FillPlan(t, visible, b, extension);
    var targetRows, targetColumns := FillTargets(t, visible, b, sourceRows, below, extension);
    if targetRows == [] { return None, None; }
    var changes, rejected := FillLines(t, targetRows, targetColumns, sourceRows, b, extension, p);
    out := if changes == [] && rejected == [] then None else Some(Details(FillSource, changes, rejected));
    selected := Some(GrownBound(b, extension, targetRows[|targetRows| - 1]));
    GrownHolds(t, visible, b, extension);
  }

  method FillTargets(t: Table, visible: set<string>, b: Bound, sourceRows: seq<nat>, below: seq<nat>,
                     extension: Extension)
    returns (targetRows: seq<nat>, targetColumns: seq<nat>)
    requires Ordered(b) && sourceRows == FillRows(t, visible, b) != []
    requires below == Filter(ShownRows(FillTable(t, visible)), b.maxRow + 1, |t.rows|)
    ensures targetRows == FillPlan(t, visible, b, extension).rows
    ensures targetColumns == FillPlan(t, visible, b, extension).columns
  {
    match extension {
      case Down(count) =>
        targetRows := First(below, count);
        targetColumns := FillableBetween(t, b.minColumn, b.maxColumn + 1);
      case Right(count) =>
        targetRows := sourceRows;
        targetColumns := FillableBetween(t, b.maxColumn + 1, b.maxColumn + 1 + count);
    }
  }

  lemma GrownHolds(t: Table, visible: set<string>, b: Bound, extension: Extension)
    requires Ordered(b) && FillRows(t, visible, b) != [] && FillPlan(t, visible, b, extension).rows != []
    ensures var p := FillPlan(t, visible, b, extension);
      Grown(GrownBound(b, extension, p.rows[|p.rows| - 1]), b, p, extension)
  {
    FilterIncreasing(ShownRows(FillTable(t, visible)), b.maxRow + 1, |t.rows|);
  }

  function GrownBound(b: Bound, extension: Extension, lastRow: nat): Bound {
    match extension
    case Down(_) => b.(maxRow := lastRow)
    case Right(count) => b.(maxColumn := b.maxColumn + count)
  }

  method FillLines(t: Table, targetRows: seq<nat>, targetColumns: seq<nat>, sourceRows: seq<nat>, b: Bound,
                   extension: Extension, ghost p: Plan)
    returns (changes: seq<Change>, rejected: seq<Rejection>)
    requires Within(p) && p.table == t && p.columns == targetColumns && p.rows == targetRows
    requires p.kind == if extension.Down? then FillDown(sourceRows) else FillRight(b)
    requires sourceRows != [] && (forall k :: 0 <= k < |sourceRows| ==> sourceRows[k] < |t.rows|) && Ordered(b)
    ensures changes == Changes(Walk(p, |p.rows|)) && rejected == Rejections(Walk(p, |p.rows|))
  {
    changes, rejected := [], [];
    for i := 0 to |targetRows|
      invariant changes == Changes(Walk(p, i)) && rejected == Rejections(Walk(p, i))
    {
      var lineChanges, lineRejected := FillLine(t, targetRows[i], i, targetColumns, sourceRows, b, extension, p);
      changes, rejected := changes + lineChanges, rejected + lineRejected;
      WalkStep(p, i);
    }
  }

  method FillLine(t: Table, r: nat, i: nat, targetColumns: seq<nat>, sourceRows: seq<nat>, b: Bound,
                  extension: Extension, ghost p: Plan)
    returns (changes: seq<Change>, rejected: seq<Rejection>)
    requires Within(p) && p.table == t && p.columns == targetColumns && i < |p.rows| && p.rows[i] == r
    requires p.kind == if extension.Down? then FillDown(sourceRows) else FillRight(b)
    requires sourceRows != [] && sourceRows[i % |sourceRows|] < |t.rows| && Ordered(b)
    ensures changes == Changes(WalkLine(p, i, |p.columns|))
    ensures rejected == Rejections(WalkLine(p, i, |p.columns|))
  {
    changes, rejected := [], [];
    for j := 0 to |targetColumns|
      invariant changes == Changes(WalkLine(p, i, j)) && rejected == Rejections(WalkLine(p, i, j))
    {
      var c := targetColumns[j];
      var o: Outcome;
      if extension.Down? {
        o := FillDownOutcome(t, sourceRows[i % |sourceRows|], r, c);
      } else {
        o := FillRightOutcome(t, r, FillSourceColumn(b, c), c);
      }
      FillAt(p, i, j);
      LineStep(p, i, j, o);
      changes, rejected := Dispatch(o, changes, rejected);
    }
  }

  lemma FillAt(p: Plan, i: nat, j: nat)
    requires Within(p) && i < |p.rows| && j < |p.columns|
    ensures p.kind.FillDown? ==>
              At(p, i, j) == FillDownOutcome(p.table, p.kind.sources[i % |p.kind.sources|], p.rows[i], p.columns[j])
    ensures p.kind.FillRight? ==>
              At(p, i, j)
              == FillRightOutcome(p.table, p.rows[i], FillSourceColumn(p.kind.bound, p.columns[j]), p.columns[j])
  {
  }

  /** The rendered rows inside the region, and those after the region's last rendered row. */
  method VisibleRows(t: Table, visible: set<string>, b: Bound) returns (sourceRows: seq<nat>, below: seq<nat>)
    requires Ordered(b)
    ensures sourceRows == FillRows(t, visible, b)
    ensures sourceRows != [] ==> below == Filter(ShownRows(FillTable(t, visible)), b.maxRow + 1, |t.rows|)
  {
    ghost var v := FillTable(t, visible);
    var visibleRows: seq<nat>, sourceEnd: nat := [], 0;
    sourceRows := [];
    for r := 0 to |t.rows|
      invariant visibleRows == Filter(ShownRows(v), 0, r)
      invariant sourceRows == Filter(ShownRows(v), b.minRow, UpTo(b, r))
      invariant sourceEnd <= |visibleRows|
      invariant sourceRows != [] ==> sourceEnd == |Filter(ShownRows(v), 0, UpTo(b, r))|
    {
      if t.rows[r] in visible {
        visibleRows := visibleRows + [r];
        if b.minRow <= r <= b.maxRow {
          sourceRows := sourceRows + [r];
          sourceEnd := |visibleRows|;
        }
      }
    }
    SourceEnd(v, b, sourceRows, sourceEnd);
    below := visibleRows[sourceEnd..];
  }

  /** The part of 0..r that is not below the region. */
  function UpTo(b: Bound, r: nat): nat {
    if r <= b.maxRow then r else b.maxRow + 1
  }

  /** The visible rows after the region's last one are exactly those below the region. */
  lemma SourceEnd(v: Table, b: Bound, sourceRows: seq<nat>, sourceEnd: nat)
    requires Ordered(b)
    requires sourceRows == Filter(ShownRows(v), b.minRow, UpTo(b, |v.rows|))
    requires sourceRows != [] ==> sourceEnd == |Filter(ShownRows(v), 0, UpTo(b, |v.rows|))|
    ensures sourceRows == Filter(ShownRows(v), b.minRow, b.maxRow + 1)
    ensures sourceRows != [] ==> sourceEnd <= |Filter(ShownRows(v), 0, |v.rows|)|
    ensures sourceRows != [] ==>
              Filter(ShownRows(v), 0, |v.rows|)[sourceEnd..] == Filter(ShownRows(v), b.maxRow + 1, |v.rows|)
  {
    var p, n := ShownRows(v), |v.rows|;
    if n <= b.maxRow {
      NoRowsBeyond(v, n, b.maxRow + 1);
      NoRowsBeyond(v, b.minRow, b.maxRow + 1);
      if b.minRow <= n {
        FilterSplit(p, b.minRow, n, b.maxRow + 1);
      }
    } else {
      FilterSplit(p, 0, b.maxRow + 1, n);
    }
  }

  lemma NoRowsBeyond(t: Table, lo: nat, hi: nat)
    ensures |t.rows| <= lo ==> Filter(ShownRows(t), lo, hi) == []
  {
    FilterIncreasing(ShownRows(t), lo, hi);
    assert forall r: nat :: |t.rows| <= r ==> !ShownRows(t)(r);
  }

  method FillableBetween(t: Table, lo: nat, hi: nat) returns (columns: seq<nat>)
    requires lo <= hi
    ensures columns == Filter(FillableColumns(t), lo, hi)
  {
    columns := [];
    for c := lo to hi
      invariant columns == Filter(FillableColumns(t), lo, c)
    {
      if Fillable(t, c) { columns := columns + [c]; }
    }
  }
}

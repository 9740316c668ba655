/** Pasting a copied region back onto itself, and where a paste ends up. */
module PasteBack {
  import opened Options
  import opened Table
  import opened Batches
  import opened Plans
  import opened Builders
  import opened GridLaws
  import Clipboard

  /** Data after pasting clipboard text; empty text is ignored. */
  function PasteText(t: Table, text: string): Data
    requires t.active.Some? ==> Ordered(t.active.value)
  {
    if text == "" then t.data
    else
      var result := PasteResult(t, Clipboard.Parse(text));
      if result.None? then t.data else Apply(t.data, result.value.changes)
  }

  /** The grid is what a copy of the active region takes. */
  ghost predicate Copied(t: Table, b: Bound, grid: Clipboard.Grid) {
    && Valid(t) && t.active == Some(b) && Ordered(b)
    && RegionColumns(t, b) != [] && grid != [] && IsCopyOf(t, b, grid)
  }

  /** Parsing a cell's own text gives the cell's value back, or is refused. */
  ghost predicate ParseInvertsFormat(t: Table, b: Bound) {
    forall r: nat, c: nat ::
      r < |t.rows| && c < |t.columns| && r in RegionRows(t, b) && c in RegionColumns(t, b) ==>
      Keeps(t, r, c, Formatted(t, r, c))
  }

  /** Pasting this text into this one cell changes nothing. */
  predicate Keeps(t: Table, r: nat, c: nat, raw: string) {
    r < |t.rows| && c < |t.columns| ==>
      var o := PasteOutcome(t, r, c, raw);
      o.Write? ==> o.change.value == Read(t.data, CellAt(t, r, c))
  }

  // --------------------------------------------------------------- geometry

  /** The region's shown rows are the first ones from its corner. */
  lemma RegionRowsFirst(t: Table, b: Bound)
    requires Ordered(b)
    ensures Filter(ShownRows(t), b.minRow, |t.rows|) == RegionRows(t, b) + Filter(ShownRows(t), b.maxRow + 1, |t.rows|)
  {
    var n := |t.rows|;
    if b.maxRow < n {
      FilterSplit(ShownRows(t), b.minRow, b.maxRow + 1, n);
    } else if b.minRow <= n {
      FilterSplit(ShownRows(t), b.minRow, n, b.maxRow + 1);
      NoRowsBeyond(t, n, b.maxRow + 1);
    } else {
      NoRowsBeyond(t, b.minRow, b.maxRow + 1);
    }
  }

  lemma FirstOfPrefix(part: seq<nat>, whole: seq<nat>, n: nat)
    requires part <= whole && n <= |part|
    ensures First(whole, n) == part[..n]
  {
  }

  /** The first n of own + below reach below exactly if own is too short for them. */
  lemma FirstReaches(own: seq<nat>, below: seq<nat>, n: nat, last: nat)
    requires forall x :: x in own ==> x <= last
    requires forall x :: x in below ==> last < x
    ensures (forall x :: x in First(own + below, n) ==> x <= last) <==> n <= |own| || below == []
  {
    var all := own + below;
    if n > |own| && below != [] {
      assert First(all, n)[|own|] == below[0];
      assert below[0] in below && below[0] in First(all, n);
    } else {
      var first := First(all, n);
      forall x | x in first ensures x <= last {
        var i :| 0 <= i < |first| && first[i] == x;
        assert x == own[i] && own[i] in own;
      }
    }
  }

  lemma PasteColumnsInside(t: Table, b: Bound, block: Clipboard.Grid)
    requires Ordered(b) && block != []
    ensures var p := PastePlan(t, b, block);
      (forall c :: c in p.columns ==> c <= b.maxColumn)
      <==> PasteSize(t, b, block).1 <= |RegionColumns(t, b)|
           || Filter(SelectableColumns(t), b.maxColumn + 1, |t.columns|) == []
  {
    RegionColumnsFirst(t, b);
    FilterBounds(SelectableColumns(t), b.minColumn, b.maxColumn + 1);
    FilterBounds(SelectableColumns(t), b.maxColumn + 1, |t.columns|);
    var beyond := Filter(SelectableColumns(t), b.maxColumn + 1, |t.columns|);
    FirstReaches(RegionColumns(t, b), beyond, PasteSize(t, b, block).1, b.maxColumn);
    assert PastePlan(t, b, block).columns == First(RegionColumns(t, b) + beyond, PasteSize(t, b, block).1);
  }

  lemma PasteRowsInside(t: Table, b: Bound, block: Clipboard.Grid)
    requires Ordered(b) && block != []
    ensures var p := PastePlan(t, b, block);
      (forall r :: r in p.rows ==> r <= b.maxRow)
      <==> PasteSize(t, b, block).0 <= |RegionRows(t, b)| || Filter(ShownRows(t), b.maxRow + 1, |t.rows|) == []
  {
    RegionRowsFirst(t, b);
    FilterBounds(ShownRows(t), b.minRow, b.maxRow + 1);
    FilterBounds(ShownRows(t), b.maxRow + 1, |t.rows|);
    var below := Filter(ShownRows(t), b.maxRow + 1, |t.rows|);
    FirstReaches(RegionRows(t, b), below, PasteSize(t, b, block).0, b.maxRow);
    assert PastePlan(t, b, block).rows == First(RegionRows(t, b) + below, PasteSize(t, b, block).0);
  }

  /** A paste stays within the rows of its region exactly when it covers no more rows than the
      region shows, or no row is shown below, and likewise for the columns. The region's hidden
      rows are counted when a block is repeated, so a block that fits a region with hidden rows
      runs out of it. */
  lemma PasteStaysInside(t: Table, b: Bound, block: Clipboard.Grid)
    requires Ordered(b) && block != []
    ensures var p := PastePlan(t, b, block);
      (forall r :: r in p.rows ==> r <= b.maxRow)
      <==> PasteSize(t, b, block).0 <= |RegionRows(t, b)| || Filter(ShownRows(t), b.maxRow + 1, |t.rows|) == []
    ensures var p := PastePlan(t, b, block);
      (forall c :: c in p.columns ==> c <= b.maxColumn)
      <==> PasteSize(t, b, block).1 <= |RegionColumns(t, b)|
           || Filter(SelectableColumns(t), b.maxColumn + 1, |t.columns|) == []
  {
    PasteRowsInside(t, b, block);
    PasteColumnsInside(t, b, block);
  }

  lemma Widths(grid: Clipboard.Grid, w: nat)
    requires w > 0 && forall i :: 0 <= i < |grid| ==> |grid[i]| == w
    ensures grid != [] ==> MaxWidth(grid) == w
  {
    if grid != [] { assert |grid[0]| == w; }
  }

  // ----------------------------------------------------- effect of a paste

  lemma TargetKeeps(t: Table, b: Bound, block: Clipboard.Grid, i: nat, j: nat)
    requires Valid(t) && Ordered(b) && block != []
    requires var p := PastePlan(t, b, block); i < |p.rows| && j < |p.columns|
    ensures var p := PastePlan(t, b, block);
      Read(Apply(t.data, Batch(p, PasteSource).changes), Target(p, i, j)) == Read(t.data, Target(p, i, j))
      <==> Keeps(t, p.rows[i], p.columns[j], p.kind.tiled[i][j])
  {
    var p := PastePlan(t, b, block);
    PasteDistinct(t, b, block);
    BatchEffect(p, PasteSource, i, j);
    PasteAt(p, i, j);
  }

  /** A paste changes nothing exactly when every one of its targets keeps its value. */
  lemma PasteKeeps(t: Table, b: Bound, block: Clipboard.Grid)
    requires Valid(t) && Ordered(b) && block != []
    ensures var p := PastePlan(t, b, block);
      SameData(Apply(t.data, Batch(p, PasteSource).changes), t.data)
      <==> forall i: nat, j: nat :: i < |p.rows| && j < |p.columns| ==>
             Keeps(t, p.rows[i], p.columns[j], p.kind.tiled[i][j])
  {
    var p := PastePlan(t, b, block);
    var after := Apply(t.data, Batch(p, PasteSource).changes);
    if forall i: nat, j: nat :: i < |p.rows| && j < |p.columns| ==>
         Keeps(t, p.rows[i], p.columns[j], p.kind.tiled[i][j]) {
      forall cell: Cell ensures Read(after, cell) == Read(t.data, cell) {
        if i: nat, j: nat :| i < |p.rows| && j < |p.columns| && Target(p, i, j) == cell {
          TargetKeeps(t, b, block, i, j);
          assert Keeps(t, p.rows[i], p.columns[j], p.kind.tiled[i][j]);
        } else {
          BatchFrame(p, PasteSource, cell);
        }
      }
    } else {
      var i: nat, j: nat :| i < |p.rows| && j < |p.columns|
        && !Keeps(t, p.rows[i], p.columns[j], p.kind.tiled[i][j]);
      TargetKeeps(t, b, block, i, j);
      assert Read(after, Target(p, i, j)) != Read(t.data, Target(p, i, j));
    }
  }

  lemma SmallModulus(k: nat, n: nat)
    requires k < n
    ensures k % n == k
  {
  }

  /** Inside the block itself nothing is repeated. */
  lemma BlockUntiled(grid: Clipboard.Grid, m: nat, i: nat, j: nat)
    requires i < m <= |grid| && j < |grid[i]|
    ensures BlockAt(grid[..m], i, j) == grid[i][j]
  {
    SmallModulus(i, m);
    SmallModulus(j, |grid[i]|);
  }

  // ------------------------------------------------------------- the copy

  /** The block the clipboard text parses back to. */
  function Block(grid: Clipboard.Grid): Clipboard.Grid {
    Clipboard.DropTrailingEmptyRow(grid)
  }

  lemma CopyShape(t: Table, b: Bound, grid: Clipboard.Grid)
    requires Copied(t, b, grid)
    ensures |grid| == |RegionRows(t, b)| && 0 < |Block(grid)| <= |grid| && Block(grid) == grid[..|Block(grid)|]
    ensures forall i :: 0 <= i < |grid| ==> |grid[i]| == |RegionColumns(t, b)|
    ensures MaxWidth(Block(grid)) == |RegionColumns(t, b)|
  {
    var rs, cs := RegionRows(t, b), RegionColumns(t, b);
    forall i | 0 <= i < |grid| ensures |grid[i]| == |cs| {
      assert IsCopyOfRow(t, rs[i], cs, grid[i]);
    }
    assert grid == grid[..|grid|];
    Widths(Block(grid), |cs|);
  }

  /** How many rows pasting the copy back covers: all of the region's, hidden ones counted,
      if the block repeats into them, and else its own. */
  function BackSize(t: Table, b: Bound, grid: Clipboard.Grid): nat
    requires Ordered(b) && grid != []
  {
    var m, regionRows := |Block(grid)|, b.maxRow - b.minRow + 1;
    if (m == 1 && |RegionColumns(t, b)| == 1) || regionRows % m == 0 then regionRows else m
  }

  /** The rows it is pasted into. */
  function BackRows(t: Table, b: Bound, grid: Clipboard.Grid): seq<nat>
    requires Ordered(b) && grid != []
  {
    First(Filter(ShownRows(t), b.minRow, |t.rows|), BackSize(t, b, grid))
  }

  lemma SameModulus(n: nat)
    requires n > 0
    ensures n % n == 0
  {
  }

  lemma BackPlan(t: Table, b: Bound, grid: Clipboard.Grid)
    requires Copied(t, b, grid)
    ensures var p := PastePlan(t, b, Block(grid));
      && p.rows == BackRows(t, b, grid) && p.columns == RegionColumns(t, b)
      && forall i: nat, j: nat :: i < |p.rows| && j < |p.columns| ==> p.kind.tiled[i][j] == BlockAt(Block(grid), i, j)
  {
    var cs, p := RegionColumns(t, b), PastePlan(t, b, Block(grid));
    CopyShape(t, b, grid);
    SameModulus(|cs|);
    assert PasteSize(t, b, Block(grid)) == (BackSize(t, b, grid), |cs|);
    RegionColumnsFirst(t, b);
    FirstOfPrefix(cs, Filter(SelectableColumns(t), b.minColumn, |t.columns|), |cs|);
    assert cs[..|cs|] == cs;
    forall i: nat, j: nat | i < |p.rows| && j < |p.columns|
      ensures p.kind.tiled[i][j] == BlockAt(Block(grid), i, j)
    {
      assert IsTiledLine(Block(grid), i, |cs|, p.kind.tiled[i]);
    }
  }

  /** A row of the block goes back into the row it was copied from. */
  lemma BlockRowBack(t: Table, b: Bound, grid: Clipboard.Grid, i: nat, j: nat)
    requires Copied(t, b, grid) && ParseInvertsFormat(t, b)
    requires i < |Block(grid)| && i < |BackRows(t, b, grid)| && j < |RegionColumns(t, b)|
    ensures Keeps(t, BackRows(t, b, grid)[i], RegionColumns(t, b)[j], BlockAt(Block(grid), i, j))
  {
    var rs, cs := RegionRows(t, b), RegionColumns(t, b);
    CopyShape(t, b, grid);
    RegionRowsFirst(t, b);
    assert BackRows(t, b, grid)[i] == rs[i];
    assert IsCopyOfRow(t, rs[i], cs, grid[i]);
    BlockUntiled(grid, |Block(grid)|, i, j);
    assert rs[i] in rs && cs[j] in cs;
  }

  // ---------------------------------------------------------------- theorem

  /** Every cell the paste reaches beyond the rows of the block, where the block is repeated,
      keeps its value under the text it gets. */
  ghost predicate RepeatsKeep(t: Table, b: Bound, grid: Clipboard.Grid)
    requires Ordered(b) && grid != []
  {
    forall i: nat, j: nat :: |Block(grid)| <= i < |BackRows(t, b, grid)| && j < |RegionColumns(t, b)| ==>
      Keeps(t, BackRows(t, b, grid)[i], RegionColumns(t, b)[j], BlockAt(Block(grid), i, j))
  }

  /** The rows of the block itself are no threat. */
  lemma BlockKeeps(t: Table, b: Bound, grid: Clipboard.Grid)
    requires Copied(t, b, grid) && ParseInvertsFormat(t, b)
    ensures RepeatsKeep(t, b, grid)
       <==> forall i: nat, j: nat :: i < |BackRows(t, b, grid)| && j < |RegionColumns(t, b)| ==>
              Keeps(t, BackRows(t, b, grid)[i], RegionColumns(t, b)[j], BlockAt(Block(grid), i, j))
  {
    forall i: nat, j: nat | i < |Block(grid)| && i < |BackRows(t, b, grid)| && j < |RegionColumns(t, b)|
      ensures Keeps(t, BackRows(t, b, grid)[i], RegionColumns(t, b)[j], BlockAt(Block(grid), i, j))
    {
      BlockRowBack(t, b, grid, i, j);
    }
  }

  lemma BackKeeps(t: Table, b: Bound, grid: Clipboard.Grid)
    requires Copied(t, b, grid) && ParseInvertsFormat(t, b)
    ensures SameData(Apply(t.data, Batch(PastePlan(t, b, Block(grid)), PasteSource).changes), t.data)
       <==> RepeatsKeep(t, b, grid)
  {
    BackPlan(t, b, grid);
    PasteKeeps(t, b, Block(grid));
    BlockKeeps(t, b, grid);
  }

  lemma PasteTextData(t: Table, b: Bound, grid: Clipboard.Grid)
    requires Copied(t, b, grid) && Clipboard.SerializeText(grid) != ""
    ensures PasteText(t, Clipboard.SerializeText(grid))
         == Apply(t.data, Batch(PastePlan(t, b, Block(grid)), PasteSource).changes)
  {
    CopyShape(t, b, grid);
    Clipboard.RoundTrip(grid, Clipboard.CRLF);
    var d := Batch(PastePlan(t, b, Block(grid)), PasteSource);
    assert PasteResult(t, Block(grid)) == if d.changes == [] && d.rejected == [] then None else Some(d);
    assert d.changes == [] ==> Apply(t.data, d.changes) == t.data;
  }

  /** Copying any region, on or off screen, and pasting the text back changes nothing exactly
      if the repeats of the block do no harm. An empty clipboard is not pasted at all. */
  lemma PasteBackExactly(t: Table, b: Bound, grid: Clipboard.Grid)
    requires Copied(t, b, grid) && ParseInvertsFormat(t, b)
    ensures SameData(PasteText(t, Clipboard.SerializeText(grid)), t.data)
       <==> Clipboard.SerializeText(grid) == "" || RepeatsKeep(t, b, grid)
  {
    var text := Clipboard.SerializeText(grid);
    BackKeeps(t, b, grid);
    if text != "" {
      PasteTextData(t, b, grid);
    }
  }

  /** A block that is not repeated is safe, hidden rows or not. */
  lemma UnrepeatedIsSafe(t: Table, b: Bound, grid: Clipboard.Grid)
    requires Copied(t, b, grid) && ParseInvertsFormat(t, b)
    requires BackSize(t, b, grid) == |Block(grid)|
    ensures SameData(PasteText(t, Clipboard.SerializeText(grid)), t.data)
  {
    PasteBackExactly(t, b, grid);
  }

  /** Every row of the region is on screen. */
  ghost predicate OnScreen(t: Table, b: Bound) {
    forall r: nat :: b.minRow <= r <= b.maxRow ==> ShowsRow(t, r)
  }

  /** The one shape a paste can damage in a region that is on screen: two rows of a single
      selectable column whose second cell prints as nothing, so the clipboard keeps only the
      first. */
  ghost predicate LosesLastRow(t: Table, b: Bound, grid: Clipboard.Grid) {
    |RegionColumns(t, b)| == 1 && |grid| == 2 && grid[1] == [""]
  }

  lemma OnScreenSize(t: Table, b: Bound, grid: Clipboard.Grid)
    requires Copied(t, b, grid) && OnScreen(t, b)
    ensures |grid| == b.maxRow - b.minRow + 1
    ensures LosesLastRow(t, b, grid) ==> |Block(grid)| == 1 && BackRows(t, b, grid) == [b.minRow, b.maxRow]
    ensures !LosesLastRow(t, b, grid) ==> BackSize(t, b, grid) == |Block(grid)|
  {
    CopyShape(t, b, grid);
    FilterAll(ShownRows(t), b.minRow, b.maxRow + 1);
    RegionRowsFirst(t, b);
    var h := |grid|;
    SameModulus(h);
    if |Block(grid)| == h - 1 && h > 2 {
      NotAMultiple(h);
    }
  }

  /** For a region that is on screen: copying it and pasting the text back changes nothing,
      except for the shape above when the first row's text would give the second cell another
      value. */
  lemma PasteBackUnchanged(t: Table, b: Bound, grid: Clipboard.Grid)
    requires Copied(t, b, grid) && OnScreen(t, b) && ParseInvertsFormat(t, b)
    ensures grid[0] != []
    ensures SameData(PasteText(t, Clipboard.SerializeText(grid)), t.data)
       <==> !LosesLastRow(t, b, grid) || Keeps(t, b.maxRow, RegionColumns(t, b)[0], grid[0][0])
  {
    CopyShape(t, b, grid);
    OnScreenSize(t, b, grid);
    PasteBackExactly(t, b, grid);
    if LosesLastRow(t, b, grid) {
      EmptyText(grid);
      LostRowRepeats(t, b, grid);
    }
  }

  lemma LostRowRepeats(t: Table, b: Bound, grid: Clipboard.Grid)
    requires Copied(t, b, grid) && LosesLastRow(t, b, grid) && grid[0] != []
    requires |Block(grid)| == 1 && BackRows(t, b, grid) == [b.minRow, b.maxRow]
    ensures RepeatsKeep(t, b, grid) <==> Keeps(t, b.maxRow, RegionColumns(t, b)[0], grid[0][0])
  {
    var rows, column, block := BackRows(t, b, grid), RegionColumns(t, b)[0], Block(grid);
    CopyShape(t, b, grid);
    assert BlockAt(block, 1, 0) == grid[0][0];
    assert RepeatsKeep(t, b, grid) ==> Keeps(t, rows[1], column, BlockAt(block, 1, 0));
  }

  lemma NotAMultiple(h: nat)
    requires h > 2
    ensures h % (h - 1) == 1
  {
    assert h == (h - 1) * 1 + 1;
  }

  /** Only a single line can print as no text at all. */
  lemma EmptyText(grid: Clipboard.Grid)
    ensures |grid| > 1 ==> Clipboard.SerializeText(grid) != ""
  {
    if |grid| > 1 {
      assert |Clipboard.SerializeText(grid)| >= |Clipboard.CRLF|;
    }
  }

  // ------------------------------------------------ where it does go wrong

  const PLAIN := Column("c", true, Some(CellEdit(Always, None, None, Undefined)))

  /** One column of plain text without callbacks, rows 0 to last selected. */
  ghost predicate IsSheet(t: Table, last: nat) {
    && t.columns == [PLAIN] && t.bounds == [Rows(last)] && t.active == Some(Rows(last))
    && (forall i, j :: 0 <= i < j < |t.rows| ==> t.rows[i] != t.rows[j])
    && forall r: nat :: r < |t.rows| ==> Read(t.data, CellAt(t, r, 0)).Text?
  }

  function Rows(last: nat): Bound { Bound(0, last, 0, 0) }

  lemma SheetCopied(t: Table, last: nat, grid: Clipboard.Grid)
    requires IsSheet(t, last) && grid != [] && |grid| == |RegionRows(t, Rows(last))|
    requires forall i :: 0 <= i < |grid| ==>
               RegionRows(t, Rows(last))[i] < |t.rows|
               && grid[i] == [Read(t.data, CellAt(t, RegionRows(t, Rows(last))[i], 0)).text]
    ensures Copied(t, Rows(last), grid) && ParseInvertsFormat(t, Rows(last)) && RegionColumns(t, Rows(last)) == [0]
  {
    FilterAll(SelectableColumns(t), 0, 1);
    assert RegionColumns(t, Rows(last)) == [0];
    var rs := RegionRows(t, Rows(last));
    forall i | 0 <= i < |grid| ensures IsCopyOfRow(t, rs[i], [0], grid[i]) {
      assert Formatted(t, rs[i], 0) == grid[i][0];
    }
  }

  /** Two cells, the lower one empty: the copy is pasted back as its first field, twice. */
  lemma LastRowLost(t: Table)
    requires IsSheet(t, 1) && |t.rows| == 2 && t.rendered.None?
    requires Read(t.data, CellAt(t, 0, 0)) != Read(t.data, CellAt(t, 1, 0)) == Text("")
    ensures var grid := [[Read(t.data, CellAt(t, 0, 0)).text], [""]];
      && Copied(t, Rows(1), grid) && OnScreen(t, Rows(1))
      && ParseInvertsFormat(t, Rows(1)) && LosesLastRow(t, Rows(1), grid)
      && !SameData(PasteText(t, Clipboard.SerializeText(grid)), t.data)
  {
    var grid := [[Read(t.data, CellAt(t, 0, 0)).text], [""]];
    FilterAll(ShownRows(t), 0, 2);
    assert RegionRows(t, Rows(1)) == [0, 1];
    SheetCopied(t, 1, grid);
    assert OnScreen(t, Rows(1)) && LosesLastRow(t, Rows(1), grid);
    assert !Keeps(t, 1, 0, grid[0][0]) by {
      assert PasteOutcome(t, 1, 0, grid[0][0]).Write?;
    }
    PasteBackUnchanged(t, Rows(1), grid);
  }

  /** Four selected rows of which the inner two are hidden, above a row that is shown: the two
      copied cells are pasted into four rows, the third of which lies below the region. */
  lemma PasteLeavesRegion(t: Table)
    requires IsSheet(t, 3) && HidesInner(t)
    requires Read(t.data, CellAt(t, 0, 0)) != Read(t.data, CellAt(t, 4, 0))
    requires Read(t.data, CellAt(t, 3, 0)) != Text("")
    ensures var grid := [[Read(t.data, CellAt(t, 0, 0)).text], [Read(t.data, CellAt(t, 3, 0)).text]];
      && Copied(t, Rows(3), grid) && ParseInvertsFormat(t, Rows(3))
      && Read(PasteText(t, Clipboard.SerializeText(grid)), CellAt(t, 4, 0)) != Read(t.data, CellAt(t, 4, 0))
  {
    var grid := [[Read(t.data, CellAt(t, 0, 0)).text], [Read(t.data, CellAt(t, 3, 0)).text]];
    HiddenRows(t);
    SheetCopied(t, 3, grid);
    EmptyText(grid);
    PasteTextData(t, Rows(3), grid);
    ThirdTarget(t, grid);
  }

  ghost predicate HidesInner(t: Table) {
    |t.rows| == 5 && t.rendered == Some({t.rows[0], t.rows[3], t.rows[4]})
  }

  lemma HiddenRows(t: Table)
    requires IsSheet(t, 3) && HidesInner(t)
    ensures RegionRows(t, Rows(3)) == [0, 3] && Filter(ShownRows(t), 4, 5) == [4]
  {
    assert ShowsRow(t, 0) && !ShowsRow(t, 1) && !ShowsRow(t, 2) && ShowsRow(t, 3) && ShowsRow(t, 4);
    FilterAll(ShownRows(t), 0, 1);
    assert Filter(ShownRows(t), 0, 2) == [0] && Filter(ShownRows(t), 0, 3) == [0];
    FilterAll(ShownRows(t), 4, 5);
  }

  lemma HiddenTargets(t: Table, grid: Clipboard.Grid)
    requires IsSheet(t, 3) && HidesInner(t)
    requires Copied(t, Rows(3), grid) && RegionColumns(t, Rows(3)) == [0] && |grid| == 2 && grid[1] != [""]
    ensures var p := PastePlan(t, Rows(3), grid);
      p.rows == [0, 3, 4] && p.columns == [0]
  {
    HiddenRows(t);
    BackPlan(t, Rows(3), grid);
    RegionRowsFirst(t, Rows(3));
    assert Block(grid) == grid && BackSize(t, Rows(3), grid) == 4;
  }

  /** The row below the region gets the block's first field. */
  lemma ThirdTarget(t: Table, grid: Clipboard.Grid)
    requires IsSheet(t, 3) && HidesInner(t)
    requires Copied(t, Rows(3), grid) && RegionColumns(t, Rows(3)) == [0]
    requires |grid| == 2 && |grid[0]| == |grid[1]| == 1 && grid[1] != [""]
    ensures Read(Apply(t.data, Batch(PastePlan(t, Rows(3), grid), PasteSource).changes), CellAt(t, 4, 0))
         == Text(grid[0][0])
  {
    HiddenTargets(t, grid);
    PasteOutcomes(t, grid, 2, 0);
    assert BlockAt(grid, 2, 0) == grid[0][0];
  }

  /** Both go wrong somewhere: sheets that meet the two lemmas. */
  lemma PasteBackFails() returns (lost: Table, grid: Clipboard.Grid, left: Table, copy: Clipboard.Grid)
    ensures Copied(lost, Rows(1), grid) && OnScreen(lost, Rows(1)) && ParseInvertsFormat(lost, Rows(1))
    ensures !SameData(PasteText(lost, Clipboard.SerializeText(grid)), lost.data)
    ensures Copied(left, Rows(3), copy) && ParseInvertsFormat(left, Rows(3)) && |left.rows| == 5
    ensures var below := CellAt(left, 4, 0);
      Read(PasteText(left, Clipboard.SerializeText(copy)), below) != Read(left.data, below)
  {
    lost, left := Sheets();
    grid := [[Read(lost.data, CellAt(lost, 0, 0)).text], [""]];
    LastRowLost(lost);
    copy := [[Read(left.data, CellAt(left, 0, 0)).text], [Read(left.data, CellAt(left, 3, 0)).text]];
    PasteLeavesRegion(left);
  }

  lemma Sheets() returns (two: Table, five: Table)
    ensures IsSheet(two, 1) && |two.rows| == 2 && two.rendered.None?
    ensures Read(two.data, CellAt(two, 0, 0)) != Read(two.data, CellAt(two, 1, 0)) == Text("")
    ensures IsSheet(five, 3) && HidesInner(five)
    ensures Read(five.data, CellAt(five, 0, 0)) != Read(five.data, CellAt(five, 4, 0))
    ensures Read(five.data, CellAt(five, 3, 0)) != Text("")
  {
    var v, w, x, y, z := Cell("v", "c"), Cell("w", "c"), Cell("x", "c"), Cell("y", "c"), Cell("z", "c");
    two := Table(["x", "y"], [PLAIN], None, [Rows(1)], Some(Rows(1)), map[x := Text("a"), y := Text("")]);
    five := Table(["v", "w", "x", "y", "z"], [PLAIN], Some({"v", "y", "z"}), [Rows(3)], Some(Rows(3)),
                  map[v := Text("a"), w := Text("b"), x := Text("c"), y := Text("d"), z := Text("e")]);
    assert "v"[0] == 'v' && "w"[0] == 'w' && "x"[0] == 'x' && "y"[0] == 'y' && "z"[0] == 'z';
  }
}

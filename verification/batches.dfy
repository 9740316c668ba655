/** Cell change batches: what one spreadsheet operation asks the consumer to write,
    applying it, and inverting it. */
module Batches {
  import opened Table

  datatype Change = Change(cell: Cell, previousValue: Value, value: Value)

  datatype Reason = ReadOnly | Invalid

  datatype Rejection = Rejection(cell: Cell, raw: string, reason: Reason)

  datatype Source = PasteSource | CutSource | ClearSource | FillSource

  datatype Details = Details(source: Source, changes: seq<Change>, rejected: seq<Rejection>)

  /** The consumer's state update: one overwrite per change, in order. */
  function Apply(data: Data, changes: seq<Change>): Data {
    if changes == [] then data
    else
      var last := changes[|changes| - 1];
      Apply(data, changes[..|changes| - 1])[last.cell := last.value]
  }

  function Swap(c: Change): Change {
    c.(value := c.previousValue, previousValue := c.value)
  }

  /** The inverse batch: every change swapped, rejections dropped. */
  function Invert(d: Details): Details {
    Details(d.source, seq(|d.changes|, i requires 0 <= i < |d.changes| => Swap(d.changes[i])), [])
  }

  predicate Touches(changes: seq<Change>, cell: Cell) {
    exists i :: 0 <= i < |changes| && changes[i].cell == cell
  }

  /** Every change remembers the value its cell had when the batch was built. */
  ghost predicate Faithful(data: Data, changes: seq<Change>) {
    forall i :: 0 <= i < |changes| ==> changes[i].previousValue == Read(data, changes[i].cell)
  }

  /** Applying leaves other cells alone; a touched cell holds the value of the last change
      made to it. */
  lemma {:induction false} ApplyReads(data: Data, changes: seq<Change>, cell: Cell)
    ensures !Touches(changes, cell) ==> Read(Apply(data, changes), cell) == Read(data, cell)
    ensures Touches(changes, cell) ==>
              exists i :: 0 <= i < |changes| && changes[i].cell == cell && !Touches(changes[i + 1..], cell)
                          && Read(Apply(data, changes), cell) == changes[i].value
  {
    if changes != [] {
      var n := |changes| - 1;
      ApplyReads(data, changes[..n], cell);
      if changes[n].cell == cell {
        assert Read(Apply(data, changes), cell) == changes[n].value;
      } else if Touches(changes, cell) {
        var k :| 0 <= k < |changes| && changes[k].cell == cell;
        assert changes[..n][k].cell == cell;
        var i :| 0 <= i < n && changes[..n][i].cell == cell && !Touches(changes[..n][i + 1..], cell)
                 && Read(Apply(data, changes[..n]), cell) == changes[..n][i].value;
        LastStays(changes, i, cell);
        assert changes[i].cell == cell && Read(Apply(data, changes), cell) == changes[i].value;
      }
    }
  }

  lemma LastStays(changes: seq<Change>, i: nat, cell: Cell)
    requires i < |changes| - 1 && changes[|changes| - 1].cell != cell
    requires !Touches(changes[..|changes| - 1][i + 1..], cell)
    ensures !Touches(changes[i + 1..], cell)
  {
    var before, after := changes[..|changes| - 1][i + 1..], changes[i + 1..];
    assert after == before + [changes[|changes| - 1]];
  }

  /** Undo: a batch and then its inverse restores the data, even when a cell occurs twice. */
  lemma UndoRestores(data: Data, details: Details)
    requires Faithful(data, details.changes)
    ensures SameData(Apply(Apply(data, details.changes), Invert(details).changes), data)
  {
    var after, inverse := Apply(data, details.changes), Invert(details).changes;
    forall cell: Cell ensures Read(Apply(after, inverse), cell) == Read(data, cell) {
      ApplyReads(data, details.changes, cell);
      ApplyReads(after, inverse, cell);
      if Touches(details.changes, cell) {
        var i :| 0 <= i < |details.changes| && details.changes[i].cell == cell;
        assert inverse[i].cell == cell;
      }
    }
  }

  /** Redo: inverting the inverse asks for the same writes, so it reproduces the first result. */
  lemma RedoRepeats(data: Data, details: Details)
    ensures Invert(Invert(details)) == details.(rejected := [])
    ensures Apply(data, Invert(Invert(details)).changes) == Apply(data, details.changes)
  {
    var twice := Invert(Invert(details)).changes;
    assert forall i :: 0 <= i < |twice| ==> twice[i] == details.changes[i];
    assert twice == details.changes;
  }

  // ------------------------------------------------------------ undo stacks

  /** Batches applied one after the other, each built on the data it found. */
  ghost predicate FaithfulRun(data: Data, batches: seq<Details>)
    decreases |batches|
  {
    batches == [] ||
    (Faithful(data, batches[0].changes) && FaithfulRun(Apply(data, batches[0].changes), batches[1..]))
  }

  function ApplyRun(data: Data, batches: seq<Details>): Data
    decreases |batches|
  {
    if batches == [] then data else ApplyRun(Apply(data, batches[0].changes), batches[1..])
  }

  /** Undoing the batches newest first. */
  function UndoRun(data: Data, batches: seq<Details>): Data {
    if batches == [] then data
    else Apply(UndoRun(data, batches[1..]), Invert(batches[0]).changes)
  }

  lemma {:induction false} ApplySame(a: Data, b: Data, changes: seq<Change>)
    requires SameData(a, b)
    ensures SameData(Apply(a, changes), Apply(b, changes))
  {
    if changes != [] {
      var n := |changes| - 1;
      ApplySame(a, b, changes[..n]);
      forall cell: Cell ensures Read(Apply(a, changes), cell) == Read(Apply(b, changes), cell) {
        assert Read(Apply(a, changes[..n]), cell) == Read(Apply(b, changes[..n]), cell);
      }
    }
  }

  /** Undoing a whole history newest first restores the data it started from. */
  lemma {:induction false} UndoStackRestores(data: Data, batches: seq<Details>)
    requires FaithfulRun(data, batches)
    ensures SameData(UndoRun(ApplyRun(data, batches), batches), data)
    decreases |batches|
  {
    if batches != [] {
      var first := batches[0];
      var next := Apply(data, first.changes);
      UndoStackRestores(next, batches[1..]);
      var back := UndoRun(ApplyRun(data, batches), batches[1..]);
      ApplySame(back, next, Invert(first).changes);
      UndoRestores(data, first);
    }
  }
}

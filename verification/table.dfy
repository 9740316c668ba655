/** The spreadsheet table as the batch builders see it: rows and columns in display
    order, the rows the view shows, the selected regions, and the consumer's data. */
module Table {
  import opened Options

  /** A cell value; `Other` is any value that is not text, with its string form. */
  datatype Value = Undefined | Null | Text(text: string) | Other(id: int, shown: string)

  /** The string form of a value, empty for a missing one. */
  function Display(v: Value): string {
    match v
    case Undefined => ""
    case Null => ""
    case Text(text) => text
    case Other(_, shown) => shown
  }

  datatype Cell = Cell(rowId: string, columnId: string)

  type Data = map<Cell, Value>

  function Read(data: Data, cell: Cell): Value {
    if cell in data then data[cell] else Undefined
  }

  /** Two states of the data that no accessor can tell apart. */
  ghost predicate SameData(a: Data, b: Data) {
    forall cell: Cell :: Read(a, cell) == Read(b, cell)
  }

  // The callbacks also receive the row object; it is fixed while a batch is built,
  // so its id stands in for it.
  datatype Editable = Always | Never | PerRow(allows: string -> bool)

  datatype CellEdit = CellEdit(
    editable: Editable,
    parse: Option<(string, string) -> Value>,
    format: Option<(Value, string) -> string>,
    clearValue: Value)

  datatype Column = Column(id: string, selectable: bool, edit: Option<CellEdit>)

  datatype Bound = Bound(minRow: nat, maxRow: nat, minColumn: nat, maxColumn: nat)

  datatype Table = Table(
    rows: seq<string>,
    columns: seq<Column>,
    rendered: Option<set<string>>,
    bounds: seq<Bound>,
    active: Option<Bound>,
    data: Data)

  ghost predicate Valid(t: Table) {
    && (forall i, j :: 0 <= i < j < |t.rows| ==> t.rows[i] != t.rows[j])
    && (forall i, j :: 0 <= i < j < |t.columns| ==> t.columns[i].id != t.columns[j].id)
    && (forall k :: 0 <= k < |t.bounds| ==> Ordered(t.bounds[k]))
    && (t.active.None? <==> t.bounds == [])
    && (t.active.Some? ==> t.active.value in t.bounds)
  }

  predicate Ordered(b: Bound) {
    b.minRow <= b.maxRow && b.minColumn <= b.maxColumn
  }

  predicate ShowsRow(t: Table, r: nat) {
    r < |t.rows| && (t.rendered.None? || t.rows[r] in t.rendered.value)
  }

  predicate Selectable(t: Table, c: nat) {
    c < |t.columns| && t.columns[c].selectable
  }

  /** The column can be written in principle, for some row at least. */
  predicate WritableColumn(column: Column) {
    column.edit.Some? && !column.edit.value.editable.Never?
  }

  predicate WritableCell(column: Column, rowId: string) {
    && WritableColumn(column)
    && (column.edit.value.editable.PerRow? ==> column.edit.value.editable.allows(rowId))
  }

  predicate Fillable(t: Table, c: nat) {
    Selectable(t, c) && WritableColumn(t.columns[c])
  }

  function CellAt(t: Table, r: nat, c: nat): Cell
    requires r < |t.rows| && c < |t.columns|
  {
    Cell(t.rows[r], t.columns[c].id)
  }

  function Format(column: Column, v: Value, rowId: string): string {
    if column.edit.Some? && column.edit.value.format.Some?
    then (column.edit.value.format.value)(v, rowId)
    else Display(v)
  }

  /** The text a copy takes from one cell. */
  function Formatted(t: Table, r: nat, c: nat): string
    requires r < |t.rows| && c < |t.columns|
  {
    Format(t.columns[c], Read(t.data, CellAt(t, r, c)), t.rows[r])
  }

  function ParseRaw(edit: CellEdit, raw: string, rowId: string): Value {
    if edit.parse.Some? then (edit.parse.value)(raw, rowId) else Text(raw)
  }

  // ------------------------------------------------- filtered display indexes

  function ShownRows(t: Table): nat -> bool {
    (r: nat) => ShowsRow(t, r)
  }

  function SelectableColumns(t: Table): nat -> bool {
    (c: nat) => Selectable(t, c)
  }

  function FillableColumns(t: Table): nat -> bool {
    (c: nat) => Fillable(t, c)
  }

  /** The indexes of lo..hi that pass the filter, in order. */
  function Filter(p: nat -> bool, lo: nat, hi: nat): seq<nat> {
    if hi <= lo then [] else Filter(p, lo, hi - 1) + (if p(hi - 1) then [hi - 1] else [])
  }

  lemma {:induction false} FilterContains(p: nat -> bool, lo: nat, hi: nat, x: nat)
    ensures x in Filter(p, lo, hi) <==> lo <= x < hi && p(x)
    decreases hi
  {
    if lo < hi { FilterContains(p, lo, hi - 1, x); }
  }

  lemma {:induction false} FilterIncreasing(p: nat -> bool, lo: nat, hi: nat)
    ensures forall i, j :: 0 <= i < j < |Filter(p, lo, hi)| ==> Filter(p, lo, hi)[i] < Filter(p, lo, hi)[j]
    ensures forall i :: 0 <= i < |Filter(p, lo, hi)| ==>
              lo <= Filter(p, lo, hi)[i] < hi && p(Filter(p, lo, hi)[i])
    decreases hi
  {
    if lo < hi { FilterIncreasing(p, lo, hi - 1); }
  }

  lemma FilterBounds(p: nat -> bool, lo: nat, hi: nat)
    ensures forall x :: x in Filter(p, lo, hi) ==> lo <= x < hi
  {
    FilterIncreasing(p, lo, hi);
  }

  lemma {:induction false} FilterSplit(p: nat -> bool, lo: nat, mid: nat, hi: nat)
    requires lo <= mid <= hi
    ensures Filter(p, lo, hi) == Filter(p, lo, mid) + Filter(p, mid, hi)
    decreases hi
  {
    if mid < hi { FilterSplit(p, lo, mid, hi - 1); }
  }

  /** Where an index that passes the filter sits. */
  lemma FilterPosition(p: nat -> bool, lo: nat, mid: nat, hi: nat)
    requires lo <= mid < hi
    ensures Filter(p, lo, mid) <= Filter(p, lo, hi)
    ensures p(mid) ==> |Filter(p, lo, mid)| < |Filter(p, lo, hi)|
                       && Filter(p, lo, hi)[|Filter(p, lo, mid)|] == mid
  {
    FilterSplit(p, lo, mid, hi);
    FilterSplit(p, mid, mid + 1, hi);
    assert Filter(p, mid, mid) == [];
  }

  lemma {:induction false} FilterAll(p: nat -> bool, lo: nat, hi: nat)
    requires lo <= hi && forall x :: lo <= x < hi ==> p(x)
    ensures |Filter(p, lo, hi)| == hi - lo
    ensures forall k :: 0 <= k < hi - lo ==> Filter(p, lo, hi)[k] == lo + k
    decreases hi
  {
    if lo < hi { FilterAll(p, lo, hi - 1); }
  }
}

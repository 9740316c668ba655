/** The outcome every builder decides for each pair of target row and target column,
    and the walk that collects the outcomes row by row. */
module Plans {
  import opened Table
  import opened Batches

  datatype Outcome = Write(change: Change) | Reject(rejection: Rejection) | Skip

  datatype Kind =
    | Clear
    | Paste(tiled: seq<seq<string>>)
    | FillDown(sources: seq<nat>)
    | FillRight(bound: Bound)

  /** Display indexes of the target rows and columns, and what to put there. */
  datatype Plan = Plan(table: Table, rows: seq<nat>, columns: seq<nat>, kind: Kind)

  predicate Within(p: Plan) {
    && (forall i :: 0 <= i < |p.rows| ==> p.rows[i] < |p.table.rows|)
    && (forall j :: 0 <= j < |p.columns| ==> p.columns[j] < |p.table.columns|)
    && match p.kind {
         case Clear => true
         case Paste(tiled) => |p.rows| <= |tiled| && forall i :: 0 <= i < |tiled| ==> |p.columns| <= |tiled[i]|
         case FillDown(sources) => sources != [] && forall k :: 0 <= k < |sources| ==> sources[k] < |p.table.rows|
         case FillRight(b) => Ordered(b) && forall j :: 0 <= j < |p.columns| ==> b.maxColumn < p.columns[j]
       }
  }

  function Target(p: Plan, i: nat, j: nat): Cell
    requires Within(p) && i < |p.rows| && j < |p.columns|
  {
    CellAt(p.table, p.rows[i], p.columns[j])
  }

  function ClearOutcome(t: Table, r: nat, c: nat): Outcome
    requires r < |t.rows| && c < |t.columns|
  {
    var cell, column := CellAt(t, r, c), t.columns[c];
    if !WritableCell(column, t.rows[r]) then Skip
    else
      var clear := column.edit.value.clearValue;
      Write(Change(cell, Read(t.data, cell), if clear.Undefined? then Null else clear))
  }

  function PasteOutcome(t: Table, r: nat, c: nat, raw: string): Outcome
    requires r < |t.rows| && c < |t.columns|
  {
    var cell, column := CellAt(t, r, c), t.columns[c];
    if !WritableCell(column, t.rows[r]) then Reject(Rejection(cell, raw, ReadOnly))
    else
      var value := ParseRaw(column.edit.value, raw, t.rows[r]);
      if value.Undefined? then Reject(Rejection(cell, raw, Invalid))
      else Write(Change(cell, Read(t.data, cell), value))
  }

  function FillDownOutcome(t: Table, source: nat, r: nat, c: nat): Outcome
    requires source < |t.rows| && r < |t.rows| && c < |t.columns|
  {
    var cell := CellAt(t, r, c);
    if !WritableCell(t.columns[c], t.rows[r]) then Skip
    else Write(Change(cell, Read(t.data, cell), Read(t.data, CellAt(t, source, c))))
  }

  function FillRightOutcome(t: Table, r: nat, source: nat, c: nat): Outcome
    requires r < |t.rows| && source < |t.columns| && c < |t.columns|
  {
    var cell, column := CellAt(t, r, c), t.columns[c];
    if !WritableCell(column, t.rows[r]) then Skip
    else if column.id != t.columns[source].id && column.edit.value.parse.Some? then
      // Crossing columns goes through the source's format and the target's parse.
      var raw := Formatted(t, r, source);
      var value := (column.edit.value.parse.value)(raw, t.rows[r]);
      if value.Undefined? then Reject(Rejection(cell, raw, Invalid))
      else Write(Change(cell, Read(t.data, cell), value))
    else Write(Change(cell, Read(t.data, cell), Read(t.data, CellAt(t, r, source))))
  }

  /** The source column of a fill to the right: the region's columns, repeated. */
  function FillSourceColumn(b: Bound, c: nat): (source: nat)
    requires Ordered(b) && b.maxColumn < c
    ensures b.minColumn <= source <= b.maxColumn
  {
    b.minColumn + (c - (b.maxColumn + 1)) % (b.maxColumn - b.minColumn + 1)
  }

  /** What happens to the target in row i and column j of the plan. */
  function At(p: Plan, i: nat, j: nat): Outcome
    requires Within(p) && i < |p.rows| && j < |p.columns|
  {
    var r, c := p.rows[i], p.columns[j];
    match p.kind
    case Clear => ClearOutcome(p.table, r, c)
    case Paste(tiled) => PasteOutcome(p.table, r, c, tiled[i][j])
    case FillDown(sources) => FillDownOutcome(p.table, sources[i % |sources|], r, c)
    case FillRight(b) => FillRightOutcome(p.table, r, FillSourceColumn(b, c), c)
  }

  function WalkLine(p: Plan, i: nat, n: nat): seq<Outcome>
    requires Within(p) && i < |p.rows| && n <= |p.columns|
  {
    if n == 0 then [] else WalkLine(p, i, n - 1) + [At(p, i, n - 1)]
  }

  /** The outcomes of the first m rows. */
  function Walk(p: Plan, m: nat): seq<Outcome>
    requires Within(p) && m <= |p.rows|
  {
    if m == 0 then [] else Walk(p, m - 1) + WalkLine(p, m - 1, |p.columns|)
  }

  function Changes(outcomes: seq<Outcome>): seq<Change> {
    if outcomes == [] then []
    else
      var last := outcomes[|outcomes| - 1];
      Changes(outcomes[..|outcomes| - 1]) + (if last.Write? then [last.change] else [])
  }

  function Rejections(outcomes: seq<Outcome>): seq<Rejection> {
    if outcomes == [] then []
    else
      var last := outcomes[|outcomes| - 1];
      Rejections(outcomes[..|outcomes| - 1]) + (if last.Reject? then [last.rejection] else [])
  }

  lemma Snoc(outcomes: seq<Outcome>, o: Outcome)
    ensures Changes(outcomes + [o]) == Changes(outcomes) + (if o.Write? then [o.change] else [])
    ensures Rejections(outcomes + [o]) == Rejections(outcomes) + (if o.Reject? then [o.rejection] else [])
  {
    assert (outcomes + [o])[..|outcomes|] == outcomes;
  }

  lemma {:induction false} Concat(a: seq<Outcome>, b: seq<Outcome>)
    ensures Changes(a + b) == Changes(a) + Changes(b)
    ensures Rejections(a + b) == Rejections(a) + Rejections(b)
    decreases |b|
  {
    if b == [] {
      assert a + b == a;
    } else {
      var n := |b| - 1;
      Concat(a, b[..n]);
      Snoc(a + b[..n], b[n]);
      assert (a + b[..n]) + [b[n]] == a + b;
    }
  }

  /** One more outcome on the line being walked. */
  lemma LineStep(p: Plan, i: nat, j: nat, o: Outcome)
    requires Within(p) && i < |p.rows| && j < |p.columns| && o == At(p, i, j)
    ensures Changes(WalkLine(p, i, j + 1)) == Changes(WalkLine(p, i, j)) + (if o.Write? then [o.change] else [])
    ensures Rejections(WalkLine(p, i, j + 1))
         == Rejections(WalkLine(p, i, j)) + (if o.Reject? then [o.rejection] else [])
  {
    Snoc(WalkLine(p, i, j), o);
  }

  /** One more line on the walk. */
  lemma WalkStep(p: Plan, i: nat)
    requires Within(p) && i < |p.rows|
    ensures Changes(Walk(p, i + 1)) == Changes(Walk(p, i)) + Changes(WalkLine(p, i, |p.columns|))
    ensures Rejections(Walk(p, i + 1)) == Rejections(Walk(p, i)) + Rejections(WalkLine(p, i, |p.columns|))
  {
    Concat(Walk(p, i), WalkLine(p, i, |p.columns|));
  }

  /** The batch a plan asks for. */
  function Batch(p: Plan, source: Source): Details
    requires Within(p)
  {
    Details(source, Changes(Walk(p, |p.rows|)), Rejections(Walk(p, |p.rows|)))
  }

  // ------------------------------------------------------------- accounting

  predicate Concerns(o: Outcome, cell: Cell) {
    (o.Write? && o.change.cell == cell) || (o.Reject? && o.rejection.cell == cell)
  }

  function CountChanges(changes: seq<Change>, cell: Cell): nat {
    if changes == [] then 0
    else CountChanges(changes[..|changes| - 1], cell) + if changes[|changes| - 1].cell == cell then 1 else 0
  }

  function CountRejections(rejected: seq<Rejection>, cell: Cell): nat {
    if rejected == [] then 0
    else CountRejections(rejected[..|rejected| - 1], cell) + if rejected[|rejected| - 1].cell == cell then 1 else 0
  }

  function CountOutcomes(outcomes: seq<Outcome>, cell: Cell): nat {
    if outcomes == [] then 0
    else CountOutcomes(outcomes[..|outcomes| - 1], cell) + if Concerns(outcomes[|outcomes| - 1], cell) then 1 else 0
  }

  lemma CountChangesSnoc(changes: seq<Change>, c: Change, cell: Cell)
    ensures CountChanges(changes + [c], cell) == CountChanges(changes, cell) + if c.cell == cell then 1 else 0
  {
    assert (changes + [c])[..|changes|] == changes;
  }

  lemma CountRejectionsSnoc(rejected: seq<Rejection>, r: Rejection, cell: Cell)
    ensures CountRejections(rejected + [r], cell) == CountRejections(rejected, cell) + if r.cell == cell then 1 else 0
  {
    assert (rejected + [r])[..|rejected|] == rejected;
  }

  lemma {:induction false} CountSplits(outcomes: seq<Outcome>, cell: Cell)
    ensures CountOutcomes(outcomes, cell)
         == CountChanges(Changes(outcomes), cell) + CountRejections(Rejections(outcomes), cell)
  {
    if outcomes != [] {
      var n := |outcomes| - 1;
      var cs, rs := Changes(outcomes[..n]), Rejections(outcomes[..n]);
      CountSplits(outcomes[..n], cell);
      assert cs + [] == cs && rs + [] == rs;
      match outcomes[n]
      case Write(c) => CountChangesSnoc(cs, c, cell);
      case Reject(r) => CountRejectionsSnoc(rs, r, cell);
      case Skip =>
    }
  }

  lemma {:induction false} CountConcat(a: seq<Outcome>, b: seq<Outcome>, cell: Cell)
    ensures CountOutcomes(a + b, cell) == CountOutcomes(a, cell) + CountOutcomes(b, cell)
    decreases |b|
  {
    if b == [] {
      assert a + b == a;
    } else {
      var n := |b| - 1;
      CountConcat(a, b[..n], cell);
      assert (a + b)[..|a| + n] == a + b[..n];
    }
  }

  /** No row and no column is targeted twice. */
  ghost predicate Distinct(p: Plan) {
    && Within(p) && Valid(p.table)
    && (forall i, j :: 0 <= i < j < |p.rows| ==> p.rows[i] != p.rows[j])
    && (forall i, j :: 0 <= i < j < |p.columns| ==> p.columns[i] != p.columns[j])
  }

  lemma TargetsDiffer(p: Plan, i: nat, j: nat, k: nat, l: nat)
    requires Distinct(p) && i < |p.rows| && k < |p.rows| && j < |p.columns| && l < |p.columns|
    ensures Target(p, i, j) == Target(p, k, l) <==> i == k && j == l
  {
  }

  /** Whatever is decided for a target concerns that target's cell. */
  lemma OutcomeCell(p: Plan, i: nat, j: nat, cell: Cell)
    requires Within(p) && i < |p.rows| && j < |p.columns|
    ensures Concerns(At(p, i, j), cell) <==> !At(p, i, j).Skip? && cell == Target(p, i, j)
    ensures At(p, i, j).Write? ==>
              At(p, i, j).change.previousValue == Read(p.table.data, Target(p, i, j))
  {
  }

  lemma OutcomeAt(p: Plan, i: nat, j: nat, k: nat, l: nat)
    requires Distinct(p) && i < |p.rows| && k < |p.rows| && j < |p.columns| && l < |p.columns|
    ensures Concerns(At(p, i, j), Target(p, k, l)) <==> i == k && j == l && !At(p, k, l).Skip?
  {
    OutcomeCell(p, i, j, Target(p, k, l));
    TargetsDiffer(p, i, j, k, l);
  }

  lemma {:induction false} LineLength(p: Plan, i: nat, n: nat)
    requires Within(p) && i < |p.rows| && n <= |p.columns|
    ensures |WalkLine(p, i, n)| == n
    ensures forall j :: 0 <= j < n ==> WalkLine(p, i, n)[j] == At(p, i, j)
    decreases n
  {
    if n > 0 { LineLength(p, i, n - 1); }
  }

  /** Outcomes of which only the l-th concerns the cell, if any does. */
  lemma {:induction false} OneConcerned(outcomes: seq<Outcome>, cell: Cell, here: bool, l: nat)
    requires forall j :: 0 <= j < |outcomes| ==> (Concerns(outcomes[j], cell) <==> here && j == l)
    ensures CountOutcomes(outcomes, cell) == if here && l < |outcomes| then 1 else 0
  {
    if outcomes != [] {
      OneConcerned(outcomes[..|outcomes| - 1], cell, here, l);
    }
  }

  lemma LineCount(p: Plan, i: nat, k: nat, l: nat)
    requires Distinct(p) && i < |p.rows| && k < |p.rows| && l < |p.columns|
    ensures CountOutcomes(WalkLine(p, i, |p.columns|), Target(p, k, l))
         == if i == k && !At(p, k, l).Skip? then 1 else 0
  {
    var line, cell := WalkLine(p, i, |p.columns|), Target(p, k, l);
    LineLength(p, i, |p.columns|);
    forall j | 0 <= j < |line| ensures Concerns(line[j], cell) <==> (i == k && !At(p, k, l).Skip?) && j == l {
      OutcomeAt(p, i, j, k, l);
    }
    OneConcerned(line, cell, i == k && !At(p, k, l).Skip?, l);
  }

  lemma {:induction false} WalkCount(p: Plan, m: nat, k: nat, l: nat)
    requires Distinct(p) && m <= |p.rows| && k < |p.rows| && l < |p.columns|
    ensures CountOutcomes(Walk(p, m), Target(p, k, l)) == if k < m && !At(p, k, l).Skip? then 1 else 0
    decreases m
  {
    if m > 0 {
      WalkCount(p, m - 1, k, l);
      LineCount(p, m - 1, k, l);
      CountConcat(Walk(p, m - 1), WalkLine(p, m - 1, |p.columns|), Target(p, k, l));
    }
  }

  /** Each target that is not skipped appears exactly once: as a change or as a rejection. */
  lemma OneOutcomePerTarget(p: Plan, source: Source, k: nat, l: nat)
    requires Distinct(p) && k < |p.rows| && l < |p.columns|
    ensures CountChanges(Batch(p, source).changes, Target(p, k, l)) == (if At(p, k, l).Write? then 1 else 0)
    ensures CountRejections(Batch(p, source).rejected, Target(p, k, l)) == (if At(p, k, l).Reject? then 1 else 0)
  {
    var all, cell := Walk(p, |p.rows|), Target(p, k, l);
    WalkCount(p, |p.rows|, k, l);
    CountSplits(all, cell);
    WalkHas(p, |p.rows|, k, l);
    if At(p, k, l).Write? { ChangeCounted(Changes(all), At(p, k, l).change); }
    if At(p, k, l).Reject? { RejectionCounted(Rejections(all), At(p, k, l).rejection); }
  }

  lemma {:induction false} ChangeCounted(changes: seq<Change>, c: Change)
    requires c in changes
    ensures CountChanges(changes, c.cell) >= 1
  {
    var n := |changes| - 1;
    if changes[n] != c { ChangeCounted(changes[..n], c); }
  }

  lemma {:induction false} RejectionCounted(rejected: seq<Rejection>, r: Rejection)
    requires r in rejected
    ensures CountRejections(rejected, r.cell) >= 1
  {
    var n := |rejected| - 1;
    if rejected[n] != r { RejectionCounted(rejected[..n], r); }
  }

  // -------------------------------------------------- contents of the batch

  lemma {:induction false} ChangesOf(outcomes: seq<Outcome>)
    ensures forall c: Change :: c in Changes(outcomes) <==> Write(c) in outcomes
    ensures forall r: Rejection :: r in Rejections(outcomes) <==> Reject(r) in outcomes
  {
    if outcomes != [] {
      var n := |outcomes| - 1;
      ChangesOf(outcomes[..n]);
      assert outcomes == outcomes[..n] + [outcomes[n]];
    }
  }

  lemma LineHas(p: Plan, i: nat, o: Outcome)
    requires Within(p) && i < |p.rows|
    ensures o in WalkLine(p, i, |p.columns|) <==> exists j: nat :: j < |p.columns| && At(p, i, j) == o
  {
    var line := WalkLine(p, i, |p.columns|);
    LineLength(p, i, |p.columns|);
    if o in line {
      var j :| 0 <= j < |line| && line[j] == o;
      assert At(p, i, j) == o;
    }
    if j: nat :| j < |p.columns| && At(p, i, j) == o {
      assert line[j] == o;
    }
  }

  lemma {:induction false} WalkMembers(p: Plan, m: nat, o: Outcome)
    requires Within(p) && m <= |p.rows|
    ensures o in Walk(p, m) <==>
              exists i: nat, j: nat :: i < m && j < |p.columns| && At(p, i, j) == o
    decreases m
  {
    if m > 0 {
      WalkMembers(p, m - 1, o);
      LineHas(p, m - 1, o);
      assert o in Walk(p, m) <==> o in Walk(p, m - 1) || o in WalkLine(p, m - 1, |p.columns|);
    }
  }

  lemma WalkHas(p: Plan, m: nat, k: nat, l: nat)
    requires Within(p) && m <= |p.rows| && k < m && l < |p.columns|
    ensures At(p, k, l).Write? ==> At(p, k, l).change in Changes(Walk(p, m))
    ensures At(p, k, l).Reject? ==> At(p, k, l).rejection in Rejections(Walk(p, m))
  {
    WalkMembers(p, m, At(p, k, l));
    ChangesOf(Walk(p, m));
  }

  lemma BatchFaithful(p: Plan, source: Source)
    requires Within(p)
    ensures Faithful(p.table.data, Batch(p, source).changes)
  {
    var all := Walk(p, |p.rows|);
    forall k | 0 <= k < |Changes(all)|
      ensures Changes(all)[k].previousValue == Read(p.table.data, Changes(all)[k].cell)
    {
      ChangesOf(all);
      var o := Write(Changes(all)[k]);
      WalkMembers(p, |p.rows|, o);
      var i: nat, j: nat :| i < |p.rows| && j < |p.columns| && At(p, i, j) == o;
      OutcomeCell(p, i, j, o.change.cell);
    }
  }

  // ------------------------------------------------- effect of applying it

  /** Applying the batch writes each written target's value and nothing else. */
  lemma BatchEffect(p: Plan, source: Source, k: nat, l: nat)
    requires Distinct(p) && k < |p.rows| && l < |p.columns|
    ensures Read(Apply(p.table.data, Batch(p, source).changes), Target(p, k, l))
         == if At(p, k, l).Write? then At(p, k, l).change.value else Read(p.table.data, Target(p, k, l))
  {
    var all, cell := Walk(p, |p.rows|), Target(p, k, l);
    ApplyReads(p.table.data, Changes(all), cell);
    ChangesOf(all);
    forall c | c in Changes(all) && c.cell == cell ensures At(p, k, l) == Write(c) {
      WalkMembers(p, |p.rows|, Write(c));
      var i: nat, j: nat :| i < |p.rows| && j < |p.columns| && At(p, i, j) == Write(c);
      OutcomeCell(p, i, j, cell);
      TargetsDiffer(p, i, j, k, l);
    }
    WalkHas(p, |p.rows|, k, l);
  }

  lemma BatchFrame(p: Plan, source: Source, cell: Cell)
    requires Within(p)
    requires forall i: nat, j: nat :: i < |p.rows| && j < |p.columns| ==> Target(p, i, j) != cell
    ensures Read(Apply(p.table.data, Batch(p, source).changes), cell) == Read(p.table.data, cell)
    ensures CountChanges(Batch(p, source).changes, cell) == 0
    ensures CountRejections(Batch(p, source).rejected, cell) == 0
  {
    var all := Walk(p, |p.rows|);
    ApplyReads(p.table.data, Changes(all), cell);
    ChangesOf(all);
    forall o | o in all ensures !Concerns(o, cell) {
      WalkMembers(p, |p.rows|, o);
      var i: nat, j: nat :| i < |p.rows| && j < |p.columns| && At(p, i, j) == o;
      OutcomeCell(p, i, j, cell);
    }
    forall c | c in Changes(all) ensures c.cell != cell {
      assert !Concerns(Write(c), cell);
    }
    NoneCounted(all, cell);
    CountSplits(all, cell);
  }

  lemma {:induction false} NoneCounted(outcomes: seq<Outcome>, cell: Cell)
    requires forall o :: o in outcomes ==> !Concerns(o, cell)
    ensures CountOutcomes(outcomes, cell) == 0
  {
    if outcomes != [] { NoneCounted(outcomes[..|outcomes| - 1], cell); }
  }
}

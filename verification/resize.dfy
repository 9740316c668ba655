/** Dragging a column edge: every leaf column under the header scales by one factor,
    clamped so that no leaf leaves its own size limits. */
module Resize {
  import opened Options
  import opened Reals

  datatype Leaf = Leaf(size: real, minSize: Option<real>, maxSize: Option<real>)

  const SMALLEST_DELTA := -0.999999

  // A missing upper limit is an unbounded one.
  datatype Range = Range(lo: real, hi: Option<real>)

  /** One leaf's limits, expressed as a change relative to its size. */
  function Narrow(range: Range, leaf: Leaf): Range {
    if leaf.size <= 0.0 then range
    else
      var lo := if leaf.minSize.Some? then Max(range.lo, leaf.minSize.value / leaf.size - 1.0) else range.lo;
      var hi :=
        if leaf.maxSize.None? then range.hi
        else
          var limit := leaf.maxSize.value / leaf.size - 1.0;
          Some(if range.hi.Some? then Min(range.hi.value, limit) else limit);
      Range(lo, hi)
  }

  function Limits(leaves: seq<Leaf>): Range {
    if leaves == [] then Range(SMALLEST_DELTA, None)
    else Narrow(Limits(leaves[..|leaves| - 1]), leaves[|leaves| - 1])
  }

  function Clamp(range: Range, requested: real): real {
    var raised := Max(requested, range.lo);
    if range.hi.Some? then Min(raised, range.hi.value) else raised
  }

  /** Math.round(x * 100) / 100. */
  function RoundToHundredth(x: real): real {
    (x * 100.0 + 0.5).Floor as real / 100.0
  }

  /** A leaf's size before rounding. */
  function Scaled(leaf: Leaf, delta: real): real {
    Max(leaf.size + leaf.size * delta, 0.0)
  }

  function Sizes(leaves: seq<Leaf>, delta: real): (sizes: seq<real>)
    ensures |sizes| == |leaves|
    ensures forall i :: 0 <= i < |leaves| ==> sizes[i] == RoundToHundredth(Scaled(leaves[i], delta))
  {
    seq(|leaves|, i requires 0 <= i < |leaves| => RoundToHundredth(Scaled(leaves[i], delta)))
  }

  // --------------------------------------------------------------- session

  /** One drag, from the press on the header edge to the release. */
  class Session {
    const leaves: seq<Leaf>
    const startX: real
    const startSize: real
    const mirrored: bool
    const direction: real
    var limits: Range
    var lastX: real
    var ended: bool
    var preview: seq<real>
    var committed: Option<seq<real>>

    constructor (leaves: seq<Leaf>, startX: real, startSize: real, mirrored: bool)
      ensures this.leaves == leaves && this.startX == startX && this.startSize == startSize
      ensures this.mirrored == mirrored && Started()
      ensures lastX == startX && !ended && committed.None?
    {
      this.leaves, this.startX, this.startSize, this.mirrored := leaves, startX, startSize, mirrored;
      direction := if mirrored then -1.0 else 1.0;
      lastX, ended, preview, committed := startX, false, [], None;
      limits := Range(SMALLEST_DELTA, None);
      new;
      for i := 0 to |leaves|
        invariant limits == Limits(leaves[..i])
        invariant lastX == startX && !ended && committed.None?
      {
        var leaf := leaves[i];
        if leaf.size > 0.0 {
          var lo, hi := limits.lo, limits.hi;
          if leaf.minSize.Some? {
            lo := Max(lo, leaf.minSize.value / leaf.size - 1.0);
          }
          if leaf.maxSize.Some? {
            var limit := leaf.maxSize.value / leaf.size - 1.0;
            hi := Some(if hi.Some? then Min(hi.value, limit) else limit);
          }
          limits := Range(lo, hi);
        }
        assert leaves[..i + 1][..i] == leaves[..i];
      }
      assert leaves[..|leaves|] == leaves;
    }

    /** How a session begins: with the limits of its leaves, and its direction. */
    ghost predicate Started()
      reads this`limits
    {
      limits == Limits(leaves) && direction == if mirrored then -1.0 else 1.0
    }

    /** The change the drag asks for, clamped. */
    function DeltaAt(x: real): real
      requires startSize != 0.0
      reads this`limits
    {
      Clamp(limits, (x - startX) * direction / startSize)
    }

    method UpdateOffset(x: Option<real>, commit: bool)
      requires startSize != 0.0
      modifies this`lastX, this`preview, this`committed
      ensures x.None? ==> lastX == old(lastX) && preview == old(preview) && committed == old(committed)
      ensures x.Some? ==> lastX == x.value && preview == Sizes(leaves, DeltaAt(x.value))
      ensures x.Some? ==> committed == if commit then Some(Sizes(leaves, DeltaAt(x.value))) else old(committed)
    {
      if x.None? { return; }
      lastX := x.value;
      var delta := DeltaAt(x.value);
      var next: seq<real> := [];
      for i := 0 to |leaves|
        invariant |next| == i
        invariant forall k :: 0 <= k < i ==> next[k] == RoundToHundredth(Scaled(leaves[k], delta))
      {
        next := next + [RoundToHundredth(Scaled(leaves[i], delta))];
      }
      preview := next;
      if commit { committed := Some(next); }
    }

    /** Release, blur and unmount can race: only the first one commits. */
    method EndResize(x: Option<real>)
      requires startSize != 0.0
      modifies this`lastX, this`preview, this`committed, this`ended
      ensures ended
      ensures old(ended) ==> lastX == old(lastX) && preview == old(preview) && committed == old(committed)
      ensures !old(ended) && x.Some? ==> lastX == x.value && committed == Some(Sizes(leaves, DeltaAt(x.value)))
      ensures !old(ended) && x.None? ==> committed == old(committed)
    {
      if ended { return; }
      ended := true;
      UpdateOffset(x, true);
    }
  }

  // ------------------------------------------------------------------ laws

  /** The leaf has a positive size within its limits. */
  predicate Fits(leaf: Leaf) {
    leaf.size > 0.0 && Allows(leaf, leaf.size)
  }

  /** The size is one the leaf may take. */
  predicate Allows(leaf: Leaf, size: real) {
    && (leaf.minSize.Some? ==> leaf.minSize.value <= size)
    && (leaf.maxSize.Some? ==> size <= leaf.maxSize.value)
  }

  predicate InRange(range: Range, delta: real) {
    range.lo <= delta && (range.hi.Some? ==> delta <= range.hi.value)
  }

  lemma Monotone(size: real, a: real, b: real)
    requires size > 0.0
    ensures a <= b <==> size * a <= size * b
  {
    if a <= b {
      assert size * (b - a) >= 0.0;
    } else {
      assert size * (a - b) > 0.0;
    }
  }

  lemma Quotient(size: real, limit: real, delta: real)
    requires size > 0.0
    ensures limit / size - 1.0 <= delta <==> limit <= size + size * delta
    ensures delta <= limit / size - 1.0 <==> size + size * delta <= limit
  {
    var q := limit / size;
    assert size * q == limit;
    assert size * (1.0 + delta) == size + size * delta;
    Monotone(size, q, 1.0 + delta);
    Monotone(size, 1.0 + delta, q);
  }

  lemma NarrowExact(range: Range, leaf: Leaf, delta: real)
    requires leaf.size > 0.0
    ensures InRange(Narrow(range, leaf), delta)
       <==> InRange(range, delta) && AllowsChange(leaf, delta)
  {
    if leaf.minSize.Some? { Quotient(leaf.size, leaf.minSize.value, delta); }
    if leaf.maxSize.Some? { Quotient(leaf.size, leaf.maxSize.value, delta); }
  }

  /** The limits say exactly which changes keep every leaf inside its own limits. */
  lemma {:induction false} LimitsExact(leaves: seq<Leaf>, delta: real)
    requires forall i :: 0 <= i < |leaves| ==> leaves[i].size > 0.0
    ensures InRange(Limits(leaves), delta) <==> SMALLEST_DELTA <= delta && AllAllow(leaves, delta)
  {
    if leaves != [] {
      var n := |leaves| - 1;
      var before := Limits(leaves[..n]);
      LimitsExact(leaves[..n], delta);
      NarrowExact(before, leaves[n], delta);
      AllAllowSnoc(leaves, delta);
    }
  }

  lemma AllAllowSnoc(leaves: seq<Leaf>, delta: real)
    requires leaves != []
    ensures var n := |leaves| - 1;
      AllAllow(leaves, delta) <==> AllAllow(leaves[..n], delta) && AllowsChange(leaves[n], delta)
  {
    assert leaves == leaves[..|leaves| - 1] + [leaves[|leaves| - 1]];
  }

  predicate AllowsChange(leaf: Leaf, delta: real) {
    Allows(leaf, leaf.size + leaf.size * delta)
  }

  /** Every leaf may take the size this change gives it. */
  predicate AllAllow(leaves: seq<Leaf>, delta: real) {
    forall leaf :: leaf in leaves ==> AllowsChange(leaf, delta)
  }

  lemma RestFits(leaves: seq<Leaf>)
    requires forall k :: 0 <= k < |leaves| ==> Fits(leaves[k])
    ensures InRange(Limits(leaves), 0.0)
  {
    LimitsExact(leaves, 0.0);
    forall leaf | leaf in leaves ensures AllowsChange(leaf, 0.0) {
      assert leaf.size + leaf.size * 0.0 == leaf.size;
    }
  }

  /** A range that contains no change at all also contains whatever is clamped to it. */
  lemma ClampInRange(range: Range, requested: real)
    requires InRange(range, 0.0)
    ensures InRange(range, Clamp(range, requested))
    ensures Clamp(range, requested) == requested <==> InRange(range, requested)
  {
  }

  /** Wherever the mouse goes, every leaf stays inside its own limits, and all leaves
      are scaled by one common positive factor. */
  lemma DragStaysWithinLimits(leaves: seq<Leaf>, requested: real, i: nat) returns (factor: real)
    requires forall k :: 0 <= k < |leaves| ==> Fits(leaves[k])
    requires i < |leaves|
    ensures Allows(leaves[i], Scaled(leaves[i], Clamp(Limits(leaves), requested)))
    ensures factor == 1.0 + Clamp(Limits(leaves), requested) > 0.0
    ensures Scaled(leaves[i], Clamp(Limits(leaves), requested)) == Times(leaves[i].size, factor)
  {
    var delta := ClampedDelta(leaves, requested);
    ScaledWithin(leaves[i], delta);
    factor := 1.0 + delta;
  }

  function Times(size: real, factor: real): real { size * factor }

  lemma ClampedDelta(leaves: seq<Leaf>, requested: real) returns (delta: real)
    requires forall k :: 0 <= k < |leaves| ==> Fits(leaves[k])
    ensures delta == Clamp(Limits(leaves), requested)
    ensures SMALLEST_DELTA <= delta && AllAllow(leaves, delta)
  {
    delta := Clamp(Limits(leaves), requested);
    RestFits(leaves);
    ClampInRange(Limits(leaves), requested);
    LimitsExact(leaves, delta);
  }

  lemma ScaledWithin(leaf: Leaf, delta: real)
    requires leaf.size > 0.0 && SMALLEST_DELTA <= delta && AllowsChange(leaf, delta)
    ensures Allows(leaf, Scaled(leaf, delta)) && Scaled(leaf, delta) == Times(leaf.size, 1.0 + delta)
  {
    Monotone(leaf.size, 0.0, 1.0 + delta);
  }

  /** The drag follows the mouse exactly as long as no leaf is at a limit. */
  lemma DragFollowsMouse(leaves: seq<Leaf>, requested: real)
    requires forall k :: 0 <= k < |leaves| ==> Fits(leaves[k])
    ensures Clamp(Limits(leaves), requested) == requested
       <==> -0.999999 <= requested && AllAllow(leaves, requested)
  {
    RestFits(leaves);
    ClampInRange(Limits(leaves), requested);
    LimitsExact(leaves, requested);
  }

  predicate IsHundredths(x: real) {
    (x * 100.0).Floor as real == x * 100.0
  }

  lemma IntegerOrder(a: int, b: int)
    requires (a as real) < b as real + 1.0
    ensures a <= b
  {
  }

  lemma RoundingKeepsOrder(x: real, limit: real)
    requires IsHundredths(limit)
    ensures x <= limit ==> RoundToHundredth(x) <= limit
    ensures limit <= x ==> limit <= RoundToHundredth(x)
  {
    var y, l := x * 100.0, limit * 100.0;
    var k, r := l.Floor, (y + 0.5).Floor;
    assert r as real <= y + 0.5 < r as real + 1.0;
    if x <= limit { IntegerOrder(r, k); }
    if limit <= x { IntegerOrder(k, r); }
  }

  /** Limits given to the hundredth also hold for the rounded sizes that are committed. */
  lemma CommitStaysWithinLimits(leaves: seq<Leaf>, requested: real, i: nat)
    requires forall k :: 0 <= k < |leaves| ==> Fits(leaves[k])
    requires i < |leaves|
    requires leaves[i].minSize.Some? ==> IsHundredths(leaves[i].minSize.value)
    requires leaves[i].maxSize.Some? ==> IsHundredths(leaves[i].maxSize.value)
    ensures Allows(leaves[i], Sizes(leaves, Clamp(Limits(leaves), requested))[i])
  {
    var scaled := Scaled(leaves[i], Clamp(Limits(leaves), requested));
    var _ := DragStaysWithinLimits(leaves, requested, i);
    if leaves[i].minSize.Some? { RoundingKeepsOrder(scaled, leaves[i].minSize.value); }
    if leaves[i].maxSize.Some? { RoundingKeepsOrder(scaled, leaves[i].maxSize.value); }
  }

  function Distance(a: real, b: real): real { if a < b then b - a else a - b }

  /** Where the mouse asks for more than the limits allow, the drag goes as far as they let it:
      no admissible change is nearer to the one asked for. */
  lemma DragGoesAsFarAsItCan(leaves: seq<Leaf>, requested: real, other: real)
    requires forall k :: 0 <= k < |leaves| ==> Fits(leaves[k])
    requires -0.999999 <= other && AllAllow(leaves, other)
    ensures Distance(requested, Clamp(Limits(leaves), requested)) <= Distance(requested, other)
  {
    RestFits(leaves);
    LimitsExact(leaves, other);
  }

  /** What the mouse moves: without a limit in the way, dragging the edge of a single column
      changes its width by exactly the way of the mouse, mirrored if the edge is. */
  lemma EdgeFollowsMouse(s: Session, x: real)
    requires s.leaves == [Leaf(s.startSize, None, None)] && s.startSize > 0.0
    requires s.Started()
    requires var way := if s.mirrored then s.startX - x else x - s.startX;
      s.startSize + way >= s.startSize * 0.000001
    ensures var way := if s.mirrored then s.startX - x else x - s.startX;
      Scaled(s.leaves[0], s.DeltaAt(x)) == s.startSize + way
  {
    var way := if s.mirrored then s.startX - x else x - s.startX;
    var delta := way / s.startSize;
    assert s.startSize * delta == way;
    assert (x - s.startX) * s.direction == way;
    assert s.leaves[..0] == [];
    assert Limits(s.leaves[..0]) == Range(SMALLEST_DELTA, None);
    assert Limits(s.leaves) == Narrow(Limits(s.leaves[..0]), s.leaves[0]);
    Monotone(s.startSize, 0.000001, 1.0 + delta);
    assert s.startSize * (1.0 + delta) == s.startSize + way;
  }

  /** What is shown and committed is the nearest hundredth. */
  lemma RoundsToNearest(x: real)
    ensures IsHundredths(RoundToHundredth(x))
    ensures -0.005 < RoundToHundredth(x) - x <= 0.005
  {
    var k := (x * 100.0 + 0.5).Floor;
    assert RoundToHundredth(x) * 100.0 == k as real;
  }
}

/** The controller that lets one auto-size column absorb a grid's free space: it measures,
    commits a width, is measured again, and stands down when the user drags the column. */
module AutoSize {
  import opened Options
  import opened Reals

  const SETTLE_MS := 150

  /** The auto-size column; a missing upper limit is an unbounded one. */
  datatype Column = Column(defaultSize: real, minSize: Option<real>, maxSize: Option<real>)

  datatype Applied = Applied(base: real, grown: real)

  /** The controller's bookkeeping and the column's entry in the sizing store. */
  datatype State = State(
    applied: Option<Applied>,
    settleTimer: Option<int>,
    pendingFreeSpace: real,
    lastCommitAt: int,
    sizing: Option<real>)

  /** The width the table renders for a stored size. */
  function Width(col: Column, sizing: Option<real>): real {
    var size := if sizing.Some? then sizing.value else col.defaultSize;
    var raised := if col.minSize.Some? then Max(col.minSize.value, size) else size;
    if col.maxSize.Some? then Min(raised, col.maxSize.value) else raised
  }

  function Floor(col: Column, applied: Applied): real {
    if col.minSize.Some? then col.minSize.value else applied.base
  }

  function Target(col: Column, applied: Applied, freeSpace: real): real {
    Max(Floor(col, applied), applied.base + (freeSpace + (applied.grown - applied.base)))
  }

  /** The re-absorption for one measurement; true when a width was committed. */
  function ReflowStep(col: Column, shown: bool, s: State, freeSpace: real): (State, bool) {
    if s.applied.None? || !shown then (s, false)
    else if s.sizing.Some? && s.sizing.value != s.applied.value.grown then (s, false)
    else
      var target := Target(col, s.applied.value, freeSpace);
      if Abs(target - s.applied.value.grown) < 1.0 then (s, false)
      else (s.(applied := Some(s.applied.value.(grown := target)), sizing := Some(target)), true)
  }

  /** A reset of the column forgets what was absorbed. */
  function Rearm(s: State): State {
    if s.applied.Some? && s.sizing.None? then s.(applied := None) else s
  }

  /** One measurement. */
  function ApplyStep(col: Column, shown: bool, s0: State, freeSpace: real, now: int): (State, bool) {
    var s := Rearm(s0);
    if shown && s.applied.Some? then
      var s1 := s.(pendingFreeSpace := freeSpace);
      if now - s.lastCommitAt > SETTLE_MS then
        ReflowStep(col, shown, s1.(lastCommitAt := now), freeSpace)
      else (s1.(settleTimer := Some(now + SETTLE_MS)), false)
    else if freeSpace <= 0.0 || !shown then (s, false)
    else if s.sizing.Some? then (s, false)
    else
      var base := Width(col, s.sizing);
      (s.(applied := Some(Applied(base, base + freeSpace)), sizing := Some(base + freeSpace)), true)
  }

  /** The trailing timer. */
  function TimerStep(col: Column, shown: bool, s: State, now: int): (State, bool) {
    ReflowStep(col, shown, s.(settleTimer := None, lastCommitAt := now), s.pendingFreeSpace)
  }

  // ------------------------------------------------------------ controller

  class Controller {
    const column: Column
    var applied: Option<Applied>
    var settleTimer: Option<int>
    var pendingFreeSpace: real
    var lastCommitAt: int
    var sizing: Option<real>

    constructor (column: Column, sizing: Option<real>)
      ensures this.column == column
      ensures Now() == State(None, None, 0.0, 0, sizing)
    {
      this.column := column;
      applied, settleTimer, pendingFreeSpace, lastCommitAt := None, None, 0.0, 0;
      this.sizing := sizing;
    }

    ghost function Now(): State
      reads this
    {
      State(applied, settleTimer, pendingFreeSpace, lastCommitAt, sizing)
    }

    method Reflow(freeSpace: real, shown: bool) returns (committed: bool)
      modifies this
      ensures (Now(), committed) == ReflowStep(column, shown, old(Now()), freeSpace)
    {
      if applied.None? || !shown { return false; }
      if sizing.Some? && sizing.value != applied.value.grown { return false; }
      var freeAtBase := freeSpace + (applied.value.grown - applied.value.base);
      var floor := if column.minSize.Some? then column.minSize.value else applied.value.base;
      var target := Max(floor, applied.value.base + freeAtBase);
      if Abs(target - applied.value.grown) < 1.0 { return false; }
      applied := Some(applied.value.(grown := target));
      sizing := Some(target);
      committed := true;
    }

    method Apply(freeSpace: real, shown: bool, now: int) returns (committed: bool)
      modifies this
      ensures (Now(), committed) == ApplyStep(column, shown, old(Now()), freeSpace, now)
    {
      if applied.Some? && sizing.None? { applied := None; }
      if shown && applied.Some? {
        pendingFreeSpace := freeSpace;
        if now - lastCommitAt > SETTLE_MS {
          lastCommitAt := now;
          committed := Reflow(freeSpace, shown);
          return;
        }
        settleTimer := Some(now + SETTLE_MS);
        return false;
      }
      var fillWidth := Max(0.0, freeSpace);
      if fillWidth <= 0.0 || !shown { return false; }
      // Nothing is remembered for the column here, so a stored width is the user's.
      if sizing.Some? { return false; }
      var base := Width(column, sizing);
      var grown := base + fillWidth;
      applied := Some(Applied(base, grown));
      sizing := Some(grown);
      committed := true;
    }

    method TimerFires(shown: bool, now: int) returns (committed: bool)
      modifies this
      ensures (Now(), committed) == TimerStep(column, shown, old(Now()), now)
    {
      settleTimer := None;
      lastCommitAt := now;
      committed := Reflow(pendingFreeSpace, shown);
    }
  }

  // ------------------------------------------------------------ whole runs

  /** The controller in its surroundings. `current` says that nothing has changed since
      the last measurement. */
  datatype World = World(container: real, others: real, shown: bool, state: State, current: bool)

  datatype Event =
    | Container(width: real)
    | Others(width: real)
    | Show(shown: bool)
    | Drag(width: real)
    | Reset
    | Measure(now: int)
    | Timer(now: int)

  /** The signed free space a measurement sees. */
  function Free(col: Column, w: World): real {
    w.container - (w.others + if w.shown then Width(col, w.state.sizing) else 0.0)
  }

  function Next(col: Column, w: World, e: Event): World {
    match e
    case Container(width) => w.(container := width, current := false)
    case Others(width) => w.(others := width, current := false)
    case Show(shown) => w.(shown := shown, current := false)
    case Drag(width) => w.(state := w.state.(sizing := Some(width)), current := false)
    case Reset => w.(state := w.state.(sizing := None), current := false)
    case Measure(now) =>
      var (s, committed) := ApplyStep(col, w.shown, w.state, Free(col, w), now);
      w.(state := s, current := !committed)
    case Timer(now) =>
      if w.state.settleTimer.None? then w
      else
        var (s, committed) := TimerStep(col, w.shown, w.state, now);
        w.(state := s, current := w.current && !committed)
  }

  function Run(col: Column, w: World, events: seq<Event>): World {
    if events == [] then w
    else Next(col, Run(col, w, events[..|events| - 1]), events[|events| - 1])
  }

  /** The column is on screen at a width this controller committed. */
  predicate Managed(w: World) {
    && w.shown && w.state.applied.Some?
    && w.state.sizing == Some(w.state.applied.value.grown)
  }

  /** The width that fills the container, but never below the floor. */
  function Ideal(col: Column, w: World): real
    requires w.state.applied.Some?
  {
    Max(Floor(col, w.state.applied.value), Space(w))
  }

  /** The room the other columns leave. */
  function Space(w: World): real { w.container - w.others }

  /** Limits that can be met, a floor among them. */
  predicate SaneFloor(col: Column, floor: real) {
    && (col.minSize.Some? ==> floor == col.minSize.value)
    && (col.maxSize.Some? ==> floor <= col.maxSize.value)
  }

  /** The limits are in order, the starting width the controller remembers obeyed them, and
      it never went below the floor. Any limits in order will do while nothing is remembered. */
  predicate Sane(col: Column, w: World) {
    && (col.minSize.Some? && col.maxSize.Some? ==> col.minSize.value <= col.maxSize.value)
    && (w.state.applied.Some? ==>
          && SaneFloor(col, Floor(col, w.state.applied.value))
          && Floor(col, w.state.applied.value) <= w.state.applied.value.grown)
  }

  /** A fresh measurement of a column managed at this width would commit nothing. */
  predicate Quiet(col: Column, floor: real, space: real, grown: real) {
    Abs(Retarget(col, floor, space, grown) - grown) < 1.0
  }

  /** The width it would go for. */
  function Retarget(col: Column, floor: real, space: real, grown: real): real {
    Max(floor, grown + (space - Width(col, Some(grown))))
  }

  predicate Calm(col: Column, w: World) {
    w.state.applied.Some? && Quiet(col, Floor(col, w.state.applied.value), Space(w), w.state.applied.value.grown)
  }

  /** What the controller does with a fresh measurement, in terms of widths only. */
  lemma FreshReflow(col: Column, w: World)
    requires Managed(w)
    ensures var a := w.state.applied.value;
      var (s, committed) := ReflowStep(col, w.shown, w.state, Free(col, w));
      var target := Retarget(col, Floor(col, a), Space(w), a.grown);
      && (committed <==> !Calm(col, w))
      && s == if committed then w.state.(applied := Some(a.(grown := target)), sizing := Some(target)) else w.state
  {
  }

  /** Nothing is waiting: the last measurement is current and no timer is armed. */
  predicate Settled(w: World) {
    w.current && w.state.settleTimer.None?
  }

  /** A current measurement of a managed column is waiting in the timer or has been used up. */
  predicate Invariant(col: Column, w: World) {
    && Sane(col, w)
    && (w.current && Managed(w) ==>
          if w.state.settleTimer.Some? then w.state.pendingFreeSpace == Free(col, w) else Calm(col, w))
  }

  lemma EveryStepKeeps(col: Column, w: World, e: Event)
    requires Invariant(col, w)
    ensures Invariant(col, Next(col, w, e))
  {
    match e
    case Measure(now) => MeasureKeeps(col, w, now);
    case Timer(now) => if Managed(w) { FreshReflow(col, w); }
    case _ =>
  }

  lemma MeasureKeeps(col: Column, w: World, now: int)
    requires Invariant(col, w)
    ensures Invariant(col, Next(col, w, Measure(now)))
  {
    if Managed(w) {
      FreshReflow(col, w);
    } else if w.shown && w.state.sizing.None? {
      AbsorbKeeps(col, w, now);
    }
  }

  lemma AbsorbKeeps(col: Column, w: World, now: int)
    requires Sane(col, w) && w.shown && w.state.sizing.None?
    ensures Invariant(col, Next(col, w, Measure(now)))
  {
    var base := Width(col, None);
    if Free(col, w) > 0.0 {
      assert Next(col, w, Measure(now)).state.applied == Some(Applied(base, base + Free(col, w)));
    }
  }

  lemma {:induction false} EveryRunKeeps(col: Column, w: World, events: seq<Event>)
    requires !w.current && Sane(col, w)
    ensures Invariant(col, Run(col, w, events))
  {
    if events != [] {
      EveryRunKeeps(col, w, events[..|events| - 1]);
      EveryStepKeeps(col, Run(col, w, events[..|events| - 1]), events[|events| - 1]);
    }
  }

  lemma CalmIsNearIdeal(col: Column, floor: real, space: real, grown: real)
    requires SaneFloor(col, floor) && Quiet(col, floor, space, grown)
    ensures Abs(Width(col, Some(grown)) - Max(floor, space)) < 1.0
  {
  }

  /** Whatever happened before, a settled column is rendered to within a pixel of the width
      that fills the container, or of its floor, even where its stored width is beyond its
      limits. */
  lemma SettledFillsContainer(col: Column, w: World, events: seq<Event>)
    requires !w.current && Sane(col, w)
    requires Settled(Run(col, w, events)) && Managed(Run(col, w, events))
    ensures var end := Run(col, w, events);
      Abs(Width(col, end.state.sizing) - Ideal(col, end)) < 1.0
  {
    EveryRunKeeps(col, w, events);
    var end := Run(col, w, events);
    CalmIsNearIdeal(col, Floor(col, end.state.applied.value), Space(end), end.state.applied.value.grown);
  }

  /** Measuring a settled column again commits nothing, at once or when the timer fires. */
  lemma SettledStaysPut(col: Column, w: World, events: seq<Event>, now: int, later: int)
    requires !w.current && Sane(col, w)
    requires Settled(Run(col, w, events)) && Managed(Run(col, w, events))
    ensures var end := Run(col, w, events);
      var measured := Next(col, end, Measure(now));
      var fired := Next(col, measured, Timer(later));
      && measured.current && measured.state.sizing == end.state.sizing
      && Settled(fired) && fired.state.sizing == end.state.sizing
  {
    EveryRunKeeps(col, w, events);
    FreshReflow(col, Run(col, w, events));
  }

  // --------------------------------------------------------- coming to rest

  /** A measurement, repeated at once when it committed a width: every sizing change is
      rendered and measured again. */
  function Observe(col: Column, w: World, now: int): World {
    var measured := Next(col, w, Measure(now));
    if measured.current then measured else Next(col, measured, Measure(now))
  }

  /** The trailing timer, followed by the measurement its commit causes. */
  function Fire(col: Column, w: World, now: int): World {
    var fired := Next(col, w, Timer(now));
    if fired.current then fired else Observe(col, fired, now)
  }

  function Fires(col: Column, w: World, times: seq<int>): World {
    if times == [] then w
    else Fire(col, Fires(col, w, times[..|times| - 1]), times[|times| - 1])
  }

  /** The space to fill is less than one pixel above the maximum size, if there is one. */
  predicate Fits(col: Column, w: World) {
    col.maxSize.Some? ==> Space(w) < col.maxSize.value + 1.0
  }

  predicate AtMost(col: Column, grown: real, k: nat) {
    col.maxSize.Some? ==> grown <= col.maxSize.value + k as real
  }

  /** A commit calms the column, or takes a whole pixel off a stored width above the maximum. */
  lemma ReflowCalms(col: Column, floor: real, space: real, grown: real, k: nat)
    requires SaneFloor(col, floor) && floor <= grown && !Quiet(col, floor, space, grown) && AtMost(col, grown, k)
    requires col.maxSize.Some? ==> space < col.maxSize.value + 1.0
    ensures var target := Retarget(col, floor, space, grown);
      Quiet(col, floor, space, target) || (k > 0 && AtMost(col, target, k - 1))
  {
  }

  /** The same column with the same room, measured and waiting for at most m timers. */
  predicate Approaches(col: Column, start: World, w: World, m: nat) {
    && w.current && Managed(w) && Invariant(col, w) && Space(w) == Space(start)
    && start.state.applied.Some? && w.state.applied.value.base == start.state.applied.value.base
    && (Settled(w) || (m >= 1 && Calm(col, w)) || (m >= 2 && AtMost(col, w.state.applied.value.grown, m - 2)))
  }

  /** One measurement, with the second one a commit brings about. */
  lemma ObserveApproaches(col: Column, w: World, now: int, k: nat)
    requires Managed(w) && Sane(col, w) && Fits(col, w) && AtMost(col, w.state.applied.value.grown, k)
    ensures Approaches(col, w, Observe(col, w, now), k + 2)
  {
    var measured := Next(col, w, Measure(now));
    FreshReflow(col, w);
    if !measured.current {
      var a := w.state.applied.value;
      ReflowCalms(col, Floor(col, a), Space(w), a.grown, k);
      assert Managed(measured);
    }
  }

  /** One timer, with the measurement its commit brings about. */
  lemma FireApproaches(col: Column, start: World, w: World, now: int, m: nat)
    requires Approaches(col, start, w, m) && m > 0 && Fits(col, start)
    ensures Approaches(col, start, Fire(col, w, now), m - 1)
  {
    var fired := Next(col, w, Timer(now));
    FreshReflow(col, w);
    if !fired.current {
      var a := w.state.applied.value;
      ReflowCalms(col, Floor(col, a), Space(w), a.grown, m - 2);
      assert Managed(fired) && fired.state.lastCommitAt == now;
    }
  }

  lemma {:induction false} FiresApproach(col: Column, start: World, w: World, times: seq<int>)
    requires Approaches(col, start, w, |times|) && Fits(col, start)
    ensures Approaches(col, start, Fires(col, w, times), 0)
  {
    FiresApproachFrom(col, start, w, times, |times|);
  }

  lemma {:induction false} FiresApproachFrom(col: Column, start: World, w: World, times: seq<int>, m: nat)
    requires Approaches(col, start, w, m) && Fits(col, start) && |times| <= m
    ensures Approaches(col, start, Fires(col, w, times), m - |times|)
  {
    if times != [] {
      var n := |times| - 1;
      FiresApproachFrom(col, start, w, times[..n], m);
      FireApproaches(col, start, Fires(col, w, times[..n]), times[n], m - n);
    }
  }

  /** One measurement and two timers bring a managed column to rest, with one more timer for
      every pixel its stored width starts above the maximum size. */
  lemma ComesToRest(col: Column, w: World, now: int, times: seq<int>)
    requires Managed(w) && Sane(col, w) && Fits(col, w)
    requires |times| >= 2 && AtMost(col, w.state.applied.value.grown, |times| - 2)
    ensures var end := Fires(col, Observe(col, w, now), times);
      Settled(end) && Managed(end) && Abs(Width(col, end.state.sizing) - Ideal(col, w)) < 1.0
  {
    ObserveApproaches(col, w, now, |times| - 2);
    FiresApproach(col, w, Observe(col, w, now), times);
    var end := Fires(col, Observe(col, w, now), times);
    CalmIsNearIdeal(col, Floor(col, end.state.applied.value), Space(end), end.state.applied.value.grown);
  }

  lemma CalmFits(col: Column, floor: real, space: real, grown: real)
    requires Quiet(col, floor, space, grown)
    ensures col.maxSize.Some? ==> space < col.maxSize.value + 1.0
  {
  }

  lemma {:induction false} FiresKeep(col: Column, start: World, w: World, times: seq<int>)
    requires w.current && Managed(w) && Invariant(col, w) && Space(w) == Space(start)
    ensures var end := Fires(col, w, times);
      end.current && Managed(end) && Invariant(col, end) && Space(end) == Space(start)
  {
    if times != [] {
      var n := |times| - 1;
      FiresKeep(col, start, w, times[..n]);
      FireKeeps(col, Fires(col, w, times[..n]), times[n]);
    }
  }

  lemma FireKeeps(col: Column, w: World, now: int)
    requires w.current && Managed(w) && Invariant(col, w)
    ensures var f := Fire(col, w, now);
      f.current && Managed(f) && Invariant(col, f) && Space(f) == Space(w)
  {
    FreshReflow(col, w);
    var fired := Next(col, w, Timer(now));
    if !fired.current {
      assert Managed(fired) && Sane(col, fired);
      ObserveKeeps(col, fired, now);
    }
  }

  lemma ObserveKeeps(col: Column, w: World, now: int)
    requires Managed(w) && Sane(col, w)
    ensures var o := Observe(col, w, now);
      o.current && Managed(o) && Invariant(col, o) && Space(o) == Space(w)
  {
    FreshReflow(col, w);
  }

  /** From any managed state the controller comes to rest exactly if the space to fill is less
      than one pixel above the maximum size. */
  lemma RestReachedExactly(col: Column, w: World, now: int)
    requires Managed(w) && Sane(col, w)
    ensures (exists times: seq<int> :: Settled(Fires(col, Observe(col, w, now), times))) <==> Fits(col, w)
  {
    if Fits(col, w) {
      var grown := w.state.applied.value.grown;
      var above := if col.maxSize.Some? && grown > col.maxSize.value then (grown - col.maxSize.value).Floor + 1 else 0;
      var times := seq(above + 2, _ => now);
      ComesToRest(col, w, now, times);
    } else {
      ObserveKeeps(col, w, now);
      forall times: seq<int> ensures !Settled(Fires(col, Observe(col, w, now), times)) {
        FiresKeep(col, w, Observe(col, w, now), times);
        var end := Fires(col, Observe(col, w, now), times);
        if Settled(end) {
          CalmFits(col, Floor(col, end.state.applied.value), Space(end), end.state.applied.value.grown);
        }
      }
    }
  }

  // ------------------------------------------------------------ user widths

  /** A width somebody else wrote: not the one this controller remembers. */
  predicate Foreign(s: State) {
    s.sizing.Some? && (s.applied.None? || s.applied.value.grown != s.sizing.value)
  }

  /** Neither measurements nor timers nor layout changes overwrite a width the user chose. */
  lemma {:induction false} UserWidthSurvives(col: Column, w: World, events: seq<Event>)
    requires Foreign(w.state)
    requires forall i :: 0 <= i < |events| ==> !events[i].Drag? && !events[i].Reset?
    ensures var end := Run(col, w, events);
      Foreign(end.state) && end.state.sizing == w.state.sizing
  {
    if events != [] {
      UserWidthSurvives(col, w, events[..|events| - 1]);
    }
  }

  /** After a reset the next measurement with room to spare absorbs it all again. */
  lemma ResetRefills(col: Column, w: World, now: int)
    requires w.shown
    ensures var reset := Next(col, w, Reset);
      var o := Next(col, reset, Measure(now));
      Free(col, reset) > 0.0 ==>
        Managed(o) && o.state.sizing == Some(Width(col, None) + Free(col, reset))
        && o.state.sizing.value == w.container - w.others
  {
  }

  // ---------------------------------------------------- widths in plain words

  /** The width a column starts from: its default size, raised to the minimum and cut at the
      maximum. */
  function Starting(col: Column): real {
    var raised :=
      if col.minSize.Some? && col.defaultSize < col.minSize.value then col.minSize.value else col.defaultSize;
    if col.maxSize.Some? && raised > col.maxSize.value then col.maxSize.value else raised
  }

  /** Whatever is remembered started from that width, and was never narrower than the minimum
      or, without one, than that width. */
  ghost predicate FromStart(col: Column, s: State) {
    s.applied.Some? ==>
      && s.applied.value.base == Starting(col)
      && s.applied.value.grown >= if col.minSize.Some? then col.minSize.value else Starting(col)
  }

  predicate Ordered(col: Column) {
    col.minSize.Some? && col.maxSize.Some? ==> col.minSize.value <= col.maxSize.value
  }

  lemma ReflowFromStart(col: Column, shown: bool, s: State, freeSpace: real)
    requires FromStart(col, s)
    ensures FromStart(col, ReflowStep(col, shown, s, freeSpace).0)
  {
  }

  lemma StepFromStart(col: Column, w: World, e: Event)
    requires Ordered(col) && FromStart(col, w.state)
    ensures FromStart(col, Next(col, w, e).state)
  {
    match e
    case Measure(now) =>
      var s := Rearm(w.state).(pendingFreeSpace := Free(col, w));
      ReflowFromStart(col, w.shown, s.(lastCommitAt := now), Free(col, w));
    case Timer(now) =>
      ReflowFromStart(col, w.shown, w.state.(settleTimer := None, lastCommitAt := now), w.state.pendingFreeSpace);
    case _ =>
  }

  /** In every run the controller never commits a width below the minimum size or, for a column
      without one, below the width it started from. */
  lemma {:induction false} NeverBelowStart(col: Column, w: World, events: seq<Event>)
    requires Ordered(col) && w.state.applied.None?
    ensures FromStart(col, Run(col, w, events).state)
  {
    if events != [] {
      NeverBelowStart(col, w, events[..|events| - 1]);
      StepFromStart(col, Run(col, w, events[..|events| - 1]), events[|events| - 1]);
    }
  }

  /** A settled column of a fresh controller is rendered to within a pixel of the room the other
      columns leave, or of its minimum size, or, without one, of the width it started from. */
  lemma SettledWidth(col: Column, w: World, events: seq<Event>)
    requires Ordered(col) && w.state.applied.None? && !w.current
    requires Settled(Run(col, w, events)) && Managed(Run(col, w, events))
    ensures var end := Run(col, w, events);
      var least := if col.minSize.Some? then col.minSize.value else Starting(col);
      var ideal := if end.container - end.others < least then least else end.container - end.others;
      var rendered := Width(col, end.state.sizing);
      && ideal - 1.0 < rendered < ideal + 1.0
      && (col.maxSize.Some? ==> rendered <= col.maxSize.value)
      && (InLimits(col, end.state.sizing.value) ==> rendered == end.state.sizing.value)
  {
    NeverBelowStart(col, w, events);
    SettledFillsContainer(col, w, events);
  }

  /** A size the column may take. */
  predicate InLimits(col: Column, size: real) {
    (col.minSize.Some? ==> col.minSize.value <= size) && (col.maxSize.Some? ==> size <= col.maxSize.value)
  }

  /** Measurements within 150 ms of the last commit wait for a timer that comes 150 ms after the
      latest of them; later ones commit at once. */
  lemma Coalesces(col: Column, w: World, now: int)
    requires Managed(w)
    ensures var m := Next(col, w, Measure(now));
      if now - w.state.lastCommitAt <= 150
      then m.state.sizing == w.state.sizing && m.state.settleTimer == Some(now + 150)
           && m.state.pendingFreeSpace == Free(col, w)
      else m.state.settleTimer == w.state.settleTimer && m.state.lastCommitAt == now && (m.current <==> Calm(col, w))
  {
    FreshReflow(col, w);
  }

  // ---------------------------------------------------------- a maximum size

  /** With more space every current measurement commits a width at least a pixel larger, though
      the rendered width no longer changes: the controller never comes to rest. */
  lemma MaxSizeNeverRests(col: Column, w: World)
    requires Managed(w) && col.maxSize.Some?
    requires col.minSize.Some? ==> col.minSize.value <= col.maxSize.value
    requires col.maxSize.value <= w.state.applied.value.grown
    requires Floor(col, w.state.applied.value) <= col.maxSize.value
    requires col.maxSize.value + 1.0 <= w.container - w.others
    ensures var (s, committed) := ReflowStep(col, w.shown, w.state, Free(col, w));
      && committed && s.applied.value.grown >= w.state.applied.value.grown + 1.0
      && Managed(w.(state := s)) && Floor(col, s.applied.value) == Floor(col, w.state.applied.value)
      && Width(col, s.sizing) == Width(col, w.state.sizing) == col.maxSize.value
  {
  }

  /** It happens to a new column wherever there is that much space. */
  lemma WideContainerDrifts(now: int)
    ensures var col := Column(100.0, None, Some(100.0));
      var start := World(300.0, 0.0, true, State(None, None, 0.0, 0, None), false);
      var w := Next(col, start, Measure(now));
      Managed(w) && Sane(col, w) && !Fits(col, w) && col.maxSize.value <= w.state.applied.value.grown
  {
  }

  /** Measuring and committing n times over. */
  function Reflows(col: Column, w: World, n: nat): World {
    if n == 0 then w
    else
      var before := Reflows(col, w, n - 1);
      before.(state := ReflowStep(col, before.shown, before.state, Free(col, before)).0)
  }

  /** The stored width then grows without bound. */
  lemma {:induction false} MaxSizeDrifts(col: Column, w: World, n: nat)
    requires Managed(w) && col.maxSize.Some?
    requires col.minSize.Some? ==> col.minSize.value <= col.maxSize.value
    requires col.maxSize.value <= w.state.applied.value.grown
    requires Floor(col, w.state.applied.value) <= col.maxSize.value
    requires col.maxSize.value + 1.0 <= w.container - w.others
    ensures var end := Reflows(col, w, n);
      && Managed(end) && end.container == w.container && end.others == w.others
      && Floor(col, end.state.applied.value) == Floor(col, w.state.applied.value)
      && end.state.applied.value.grown >= w.state.applied.value.grown + n as real
  {
    if n > 0 {
      MaxSizeDrifts(col, w, n - 1);
      MaxSizeNeverRests(col, Reflows(col, w, n - 1));
    }
  }
}

/** What every run of the store keeps: two TXT rows per registration holding the newest
    values, other registrations untouched, and recoverable copies that match their hash. */
module StoreLaws {
  import opened Options
  import opened Text
  import opened Store

  // ------------------------------------------------------------------ slots

  lemma {:induction false} SlotsAppend(a: seq<TxtRow>, b: seq<TxtRow>, sub: string)
    ensures Slots(a + b, sub) == Slots(a, sub) + Slots(b, sub)
    decreases |b|
  {
    if b == [] {
      assert a + b == a;
    } else {
      var n := |b| - 1;
      SlotsAppend(a, b[..n], sub);
      assert (a + b)[..|a| + n] == a + b[..n];
    }
  }

  lemma {:induction false} SlotsOwn(txt: seq<TxtRow>, sub: string)
    ensures forall k :: 0 <= k < |Slots(txt, sub)| ==> Slots(txt, sub)[k].subdomain == sub && Slots(txt, sub)[k] in txt
  {
    if txt != [] {
      SlotsOwn(txt[..|txt| - 1], sub);
    }
  }

  lemma {:induction false} SlotsWithout(txt: seq<TxtRow>, gone: string, sub: string)
    ensures Slots(WithoutSlots(txt, gone), sub) == if sub == gone then [] else Slots(txt, sub)
  {
    if txt != [] {
      var n := |txt| - 1;
      SlotsWithout(txt[..n], gone, sub);
      var rest, last := WithoutSlots(txt[..n], gone), txt[n];
      SlotsAppend(rest, if last.subdomain == gone then [] else [last], sub);
      SlotOne(last, sub);
    }
  }

  lemma SlotOne(row: TxtRow, sub: string)
    ensures Slots([row], sub) == if row.subdomain == sub then [row] else []
    ensures Slots([], sub) == []
  {
    assert [row][..0] == [];
  }

  lemma SwapOne(a: seq<TxtRow>, b: seq<TxtRow>, x: TxtRow, y: TxtRow)
    ensures x in multiset(a + ([x] + b))
    ensures multiset(a + ([y] + b)) == multiset(a + ([x] + b)) - multiset{x} + multiset{y}
  {
    assert multiset(a + ([x] + b)) == multiset(a) + multiset([x]) + multiset(b);
    assert multiset(a + ([y] + b)) == multiset(a) + multiset([y]) + multiset(b);
  }

  lemma SlotsAround(txt: seq<TxtRow>, i: nat, row: TxtRow, sub: string)
    requires i < |txt|
    ensures Slots(txt[i := row], sub)
         == Slots(txt[..i], sub) + ((if row.subdomain == sub then [row] else []) + Slots(txt[i + 1..], sub))
  {
    var a, b := txt[..i], txt[i + 1..];
    assert txt[i := row] == a + ([row] + b);
    SlotsAppend(a, [row] + b, sub);
    SlotsAppend([row], b, sub);
    SlotOne(row, sub);
  }

  /** Overwriting a row of a subdomain in place. */
  lemma SlotsOverwrite(txt: seq<TxtRow>, i: nat, row: TxtRow, sub: string)
    requires i < |txt| && txt[i].subdomain == row.subdomain
    ensures sub != row.subdomain ==> Slots(txt[i := row], sub) == Slots(txt, sub)
    ensures |Slots(txt[i := row], sub)| == |Slots(txt, sub)|
    ensures sub == row.subdomain ==>
              txt[i] in multiset(Slots(txt, sub))
              && multiset(Slots(txt[i := row], sub)) == multiset(Slots(txt, sub)) - multiset{txt[i]} + multiset{row}
  {
    SlotsAround(txt, i, row, sub);
    SlotsAround(txt, i, txt[i], sub);
    assert txt[i := txt[i]] == txt;
    SwapOne(Slots(txt[..i], sub), Slots(txt[i + 1..], sub), txt[i], row);
  }

  /** An update of a known subdomain replaces one of its oldest rows. */
  lemma UpdateReplaces(txt: seq<TxtRow>, txt': seq<TxtRow>, sub: string, value: string, now: int)
    returns (gone: TxtRow)
    requires Updates(txt, txt', sub, value, now) && Slots(txt, sub) != []
    ensures gone in Slots(txt, sub)
    ensures forall k :: 0 <= k < |Slots(txt, sub)| ==> gone.lastUpdate <= Slots(txt, sub)[k].lastUpdate
    ensures multiset(Slots(txt', sub)) == multiset(Slots(txt, sub)) - multiset{gone} + multiset{TxtRow(sub, value, now)}
  {
    var i: nat :| Oldest(txt, sub, i) && txt' == txt[i := TxtRow(sub, value, now)];
    gone := txt[i];
    SlotsOverwrite(txt, i, TxtRow(sub, value, now), sub);
    SlotsOwn(txt, sub);
    assert gone in multiset(Slots(txt, sub));
  }

  lemma UpdateFrame(txt: seq<TxtRow>, txt': seq<TxtRow>, sub: string, value: string, now: int, other: string)
    requires Updates(txt, txt', sub, value, now)
    ensures |Slots(txt', other)| == |Slots(txt, other)|
    ensures other != sub ==> Slots(txt', other) == Slots(txt, other)
  {
    if Slots(txt, sub) != [] {
      var i: nat :| Oldest(txt, sub, i) && txt' == txt[i := TxtRow(sub, value, now)];
      SlotsOverwrite(txt, i, TxtRow(sub, value, now), other);
    }
  }

  // ----------------------------------------------------------------- records

  lemma {:induction false} WithoutRecordKeeps(records: seq<Record>, gone: string, r: Record)
    ensures r in WithoutRecord(records, gone) <==> r in records && r.subdomain != gone
  {
    if records != [] {
      var n := |records| - 1;
      WithoutRecordKeeps(records[..n], gone, r);
      assert records == records[..n] + [records[n]];
    }
  }

  lemma HasSubdomainIn(records: seq<Record>, sub: string)
    ensures HasSubdomain(records, sub) <==> exists r :: r in records && r.subdomain == sub
  {
  }

  lemma DeleteUnregisters(records: seq<Record>, gone: string, sub: string)
    ensures HasSubdomain(WithoutRecord(records, gone), sub) <==> HasSubdomain(records, sub) && sub != gone
  {
    HasSubdomainIn(records, sub);
    HasSubdomainIn(WithoutRecord(records, gone), sub);
    forall r | r in records || r in WithoutRecord(records, gone)
      ensures r in WithoutRecord(records, gone) <==> r in records && r.subdomain != gone
    {
      WithoutRecordKeeps(records, gone, r);
    }
  }

  /** Changing a record in a way that keeps its subdomain registers and unregisters nobody. */
  lemma ChangeKeepsSubdomains(records: seq<Record>, sub: string, change: Record -> Record, other: string)
    requires forall r: Record :: change(r).subdomain == r.subdomain
    ensures HasSubdomain(ChangeRecords(records, sub, change), other) <==> HasSubdomain(records, other)
  {
    var changed := ChangeRecords(records, sub, change);
    assert forall i :: 0 <= i < |records| ==> changed[i].subdomain == records[i].subdomain;
    if i :| 0 <= i < |records| && records[i].subdomain == other {
      assert changed[i].subdomain == other;
    }
  }

  // -------------------------------------------- two rows per registration

  /** Every registered subdomain has two rows, every other one none. */
  ghost predicate TwoRows(t: Tables) {
    forall sub :: |Slots(t.txt, sub)| == if HasSubdomain(t.records, sub) then 2 else 0
  }

  /** A registration is stored although the insert of one of its slots failed. */
  predicate LosesSlot(engine: Engine, t: Tables, op: Op) {
    && op.RegisterOp? && RegisterStores(engine, t.records, op.record, op.faults)
    && (op.faults.firstSlot || op.faults.secondSlot)
  }

  lemma NewSlotsOf(owner: string, f: RegisterFaults, sub: string)
    ensures Slots(NewSlots(owner, f), sub) == if sub == owner then NewSlots(owner, f) else []
  {
    var e := EmptySlot(owner);
    SlotsAppend(if f.firstSlot then [] else [e], if f.secondSlot then [] else [e], sub);
    SlotOne(e, sub);
  }

  lemma AppendRegisters(records: seq<Record>, r: Record, sub: string)
    ensures HasSubdomain(records + [r], sub) == (HasSubdomain(records, sub) || sub == r.subdomain)
  {
    var all := records + [r];
    assert all[|records|] == r;
    if i :| 0 <= i < |records| && records[i].subdomain == sub { assert all[i].subdomain == sub; }
  }

  lemma RegisterSlots(engine: Engine, t: Tables, r: Record, f: RegisterFaults, sub: string)
    requires RegisterStores(engine, t.records, r, f)
    ensures var t' := Register(engine, t, r, f);
      && HasSubdomain(t'.records, sub) == (HasSubdomain(t.records, sub) || sub == r.subdomain)
      && Slots(t'.txt, sub) == Slots(t.txt, sub) + (if sub == r.subdomain then NewSlots(sub, f) else [])
  {
    SlotsAppend(t.txt, NewSlots(r.subdomain, f), sub);
    NewSlotsOf(r.subdomain, f, sub);
    AppendRegisters(t.records, r, sub);
  }

  /** How one operation moves a subdomain's registration and its number of rows. */
  lemma StepCounts(engine: Engine, t: Tables, t': Tables, op: Op, sub: string)
    requires Step(engine, t, t', op) && TwoRows(t) && !LosesSlot(engine, t, op)
    ensures |Slots(t'.txt, sub)| == if HasSubdomain(t'.records, sub) then 2 else 0
  {
    assert |Slots(t.txt, sub)| == if HasSubdomain(t.records, sub) then 2 else 0;
    match op
    case RegisterOp(r, f) =>
      if RegisterStores(engine, t.records, r, f) { RegisterSlots(engine, t, r, f, sub); }
    case UpdateOp(s, value, now, fails) =>
      if !fails { UpdateFrame(t.txt, t'.txt, s, value, now, sub); }
    case RotateOp(s, hash, enc, now, fails) => ChangeKeepsSubdomains(t.records, s, Rehashed(hash, enc, now), sub);
    case RenameOp(s, name, now, fails) => ChangeKeepsSubdomains(t.records, s, Renamed(name, now), sub);
    case SourceOp(s, ip, fails) => ChangeKeepsSubdomains(t.records, s, Sourced(ip), sub);
    case DeleteOp(s, f) =>
      SlotsWithout(t.txt, s, sub);
      DeleteUnregisters(t.records, s, sub);
  }

  /** Every operation keeps two rows per registration, except exactly a registration that is
      committed on SQLite although one of its two slot inserts failed. */
  lemma TwoRowsKeptExactly(engine: Engine, t: Tables, t': Tables, op: Op)
    requires Step(engine, t, t', op) && TwoRows(t)
    ensures TwoRows(t') <==> !LosesSlot(engine, t, op)
    ensures LosesSlot(engine, t, op) ==> engine.Sqlite?
  {
    if LosesSlot(engine, t, op) {
      var sub := op.record.subdomain;
      RegisterSlots(engine, t, op.record, op.faults, sub);
      assert !HasSubdomain(t.records, sub);
      assert |Slots(t.txt, sub)| == 0;
      assert |Slots(t'.txt, sub)| < 2;
    } else {
      forall sub ensures |Slots(t'.txt, sub)| == if HasSubdomain(t'.records, sub) then 2 else 0 {
        StepCounts(engine, t, t', op, sub);
      }
    }
  }

  predicate Mentions(op: Op, sub: string) {
    match op
    case RegisterOp(r, _) => r.subdomain == sub
    case _ => op.sub == sub
  }

  /** No operation touches another subdomain's rows or records. */
  lemma OthersUntouched(engine: Engine, t: Tables, t': Tables, op: Op, sub: string, r: Record)
    requires Step(engine, t, t', op) && !Mentions(op, sub) && r.subdomain == sub
    ensures Slots(t'.txt, sub) == Slots(t.txt, sub)
    ensures r in t'.records <==> r in t.records
  {
    match op
    case RegisterOp(q, f) =>
      if RegisterStores(engine, t.records, q, f) { RegisterSlots(engine, t, q, f, sub); }
    case UpdateOp(s, value, now, fails) =>
      if !fails { UpdateFrame(t.txt, t'.txt, s, value, now, sub); }
    case RotateOp(s, hash, enc, now, fails) => ChangeSpares(t.records, s, Rehashed(hash, enc, now), r);
    case RenameOp(s, name, now, fails) => ChangeSpares(t.records, s, Renamed(name, now), r);
    case SourceOp(s, ip, fails) => ChangeSpares(t.records, s, Sourced(ip), r);
    case DeleteOp(s, f) =>
      SlotsWithout(t.txt, s, sub);
      WithoutRecordKeeps(t.records, s, r);
  }

  lemma ChangeSpares(records: seq<Record>, sub: string, change: Record -> Record, r: Record)
    requires forall q: Record :: change(q).subdomain == q.subdomain
    requires r.subdomain != sub
    ensures r in ChangeRecords(records, sub, change) <==> r in records
  {
    var changed := ChangeRecords(records, sub, change);
    if i :| 0 <= i < |records| && records[i] == r { assert changed[i] == r; }
    if i :| 0 <= i < |changed| && changed[i] == r { assert records[i] == r; }
  }

  /** The first registration of a SQLite database can be such a one. */
  lemma SlotLost(r: Record)
    ensures var op := RegisterOp(r, RegisterFaults(false, false, false, false, true, false, false));
      var empty := Tables([], []);
      var t' := Register(Sqlite, empty, r, op.faults);
      TwoRows(empty) && Step(Sqlite, empty, t', op) && LosesSlot(Sqlite, empty, op) && !TwoRows(t')
  {
    var f := RegisterFaults(false, false, false, false, true, false, false);
    TwoRowsKeptExactly(Sqlite, Tables([], []), Register(Sqlite, Tables([], []), r, f), RegisterOp(r, f));
  }

  // ------------------------------------------------------------------- runs

  /** A run of the store: the tables before the first operation and after each one. */
  ghost predicate Behaviour(engine: Engine, trace: seq<Tables>, ops: seq<Op>) {
    |trace| == |ops| + 1 && forall i :: 0 <= i < |ops| ==> Step(engine, trace[i], trace[i + 1], ops[i])
  }

  lemma {:induction false} TwoRowsAlways(engine: Engine, trace: seq<Tables>, ops: seq<Op>, n: nat)
    requires Behaviour(engine, trace, ops) && n < |trace| && TwoRows(trace[0])
    requires forall i :: 0 <= i < |ops| ==> !LosesSlot(engine, trace[i], ops[i])
    ensures TwoRows(trace[n])
    decreases n
  {
    if n > 0 {
      TwoRowsAlways(engine, trace, ops, n - 1);
      TwoRowsKeptExactly(engine, trace[n - 1], trace[n], ops[n - 1]);
    }
  }

  // ------------------------------------------------------- the newest values

  /** The rows written to a subdomain, oldest first. */
  function Writes(ops: seq<Op>, sub: string): seq<TxtRow> {
    if ops == [] then []
    else
      var last := ops[|ops| - 1];
      Writes(ops[..|ops| - 1], sub)
      + (if last.UpdateOp? && last.sub == sub && !last.fails then [TxtRow(sub, last.value, last.now)] else [])
  }

  ghost predicate StrictlyLater(writes: seq<TxtRow>) {
    && (forall i :: 0 <= i < |writes| ==> writes[i].lastUpdate > 0)
    && (forall i, j :: 0 <= i < j < |writes| ==> writes[i].lastUpdate < writes[j].lastUpdate)
  }

  /** The last two rows written, counting the two empty ones a registration starts with. */
  function LastTwo(sub: string, writes: seq<TxtRow>): multiset<TxtRow> {
    var all := [EmptySlot(sub), EmptySlot(sub)] + writes;
    multiset{all[|writes|], all[|writes| + 1]}
  }

  /** Replacing the oldest of the last two by the next write gives the last two again. */
  lemma LastTwoNext(sub: string, writes: seq<TxtRow>, next: TxtRow, gone: TxtRow)
    requires StrictlyLater(writes)
    requires gone in LastTwo(sub, writes)
    requires forall row :: row in LastTwo(sub, writes) ==> gone.lastUpdate <= row.lastUpdate
    ensures LastTwo(sub, writes) - multiset{gone} + multiset{next} == LastTwo(sub, writes + [next])
  {
    var e, n := EmptySlot(sub), |writes|;
    var all, all' := [e, e] + writes, [e, e] + (writes + [next]);
    assert all' == all + [next];
    assert all[n] in LastTwo(sub, writes) && all[n + 1] in LastTwo(sub, writes);
    assert gone == all[n];
  }

  lemma LaterPrefix(a: seq<TxtRow>, b: seq<TxtRow>)
    requires a <= b && StrictlyLater(b)
    ensures StrictlyLater(a)
  {
    assert forall i :: 0 <= i < |a| ==> a[i] == b[i];
  }

  lemma BehaviourPrefix(engine: Engine, trace: seq<Tables>, ops: seq<Op>)
    requires Behaviour(engine, trace, ops) && ops != []
    ensures Behaviour(engine, trace[..|ops|], ops[..|ops| - 1])
    ensures forall i :: 0 <= i < |ops| ==> trace[..|ops|][i] == trace[i]
  {
  }

  /** In every run, while a subdomain stays registered and its writes carry strictly
      increasing times, its two rows are exactly the last two written. */
  lemma {:induction false} HoldsLastTwo(engine: Engine, trace: seq<Tables>, ops: seq<Op>, sub: string)
    requires Behaviour(engine, trace, ops)
    requires Slots(trace[0].txt, sub) == [EmptySlot(sub), EmptySlot(sub)]
    requires forall i :: 0 <= i < |trace| ==> HasSubdomain(trace[i].records, sub)
    requires StrictlyLater(Writes(ops, sub))
    ensures multiset(Slots(trace[|ops|].txt, sub)) == LastTwo(sub, Writes(ops, sub))
    decreases |ops|
  {
    if ops != [] {
      var n := |ops| - 1;
      var writes := Writes(ops[..n], sub);
      LaterPrefix(writes, Writes(ops, sub));
      BehaviourPrefix(engine, trace, ops);
      HoldsLastTwo(engine, trace[..n + 1], ops[..n], sub);
      StepHoldsLastTwo(engine, trace[n], trace[n + 1], ops[n], sub, writes);
    }
  }

  lemma StepHoldsLastTwo(engine: Engine, t: Tables, t': Tables, op: Op, sub: string, writes: seq<TxtRow>)
    requires Step(engine, t, t', op) && HasSubdomain(t.records, sub) && HasSubdomain(t'.records, sub)
    requires StrictlyLater(writes) && multiset(Slots(t.txt, sub)) == LastTwo(sub, writes)
    ensures multiset(Slots(t'.txt, sub))
         == LastTwo(sub, writes + if op.UpdateOp? && op.sub == sub && !op.fails
                                  then [TxtRow(sub, op.value, op.now)] else [])
  {
    var slots := Slots(t.txt, sub);
    if op.UpdateOp? && op.sub == sub && !op.fails {
      assert |multiset(slots)| == 2;
      var gone := UpdateReplaces(t.txt, t'.txt, sub, op.value, op.now);
      assert gone in multiset(slots);
      forall row | row in LastTwo(sub, writes) ensures gone.lastUpdate <= row.lastUpdate {
        assert row in multiset(slots);
        assert row in slots;
      }
      LastTwoNext(sub, writes, TxtRow(sub, op.value, op.now), gone);
    } else {
      assert writes + [] == writes;
      SlotsKept(engine, t, t', op, sub);
    }
  }

  /** A subdomain that stays registered keeps its rows through everything but an update. */
  lemma SlotsKept(engine: Engine, t: Tables, t': Tables, op: Op, sub: string)
    requires Step(engine, t, t', op) && HasSubdomain(t.records, sub) && HasSubdomain(t'.records, sub)
    requires !(op.UpdateOp? && op.sub == sub && !op.fails)
    ensures Slots(t'.txt, sub) == Slots(t.txt, sub)
  {
    match op
    case RegisterOp(r, f) =>
      if RegisterStores(engine, t.records, r, f) {
        RegisterSlots(engine, t, r, f, sub);
      }
    case UpdateOp(s, value, now, fails) =>
      if !fails { UpdateFrame(t.txt, t'.txt, s, value, now, sub); }
    case DeleteOp(s, f) =>
      SlotsWithout(t.txt, s, sub);
      DeleteUnregisters(t.records, s, sub);
    case _ =>
  }

  /** Whatever the clock says, the value just written is there, and one write (such as the
      DNS check's) removes at most one value. */
  lemma NewestPresentOneLost(engine: Engine, t: Tables, t': Tables, op: Op)
    requires Step(engine, t, t', op) && op.UpdateOp? && !op.fails && Slots(t.txt, op.sub) != []
    ensures TxtRow(op.sub, op.value, op.now) in Slots(t'.txt, op.sub)
    ensures exists gone ::
              multiset(Slots(t.txt, op.sub))
              == multiset(Slots(t'.txt, op.sub)) - multiset{TxtRow(op.sub, op.value, op.now)} + multiset{gone}
  {
    var gone := UpdateReplaces(t.txt, t'.txt, op.sub, op.value, op.now);
    var row := TxtRow(op.sub, op.value, op.now);
    assert row in multiset(Slots(t'.txt, op.sub));
    assert gone in multiset(Slots(t.txt, op.sub));
    assert multiset(Slots(t.txt, op.sub)) == multiset(Slots(t'.txt, op.sub)) - multiset{row} + multiset{gone};
  }

  lemma NewerSurvives(txt: seq<TxtRow>, txt': seq<TxtRow>, sub: string, older: TxtRow, newer: TxtRow,
                      value: string, now: int)
    requires multiset(Slots(txt, sub)) == multiset{older, newer} && Updates(txt, txt', sub, value, now)
    requires older.lastUpdate < newer.lastUpdate
    ensures newer in Slots(txt', sub)
  {
    assert older in multiset(Slots(txt, sub));
    var gone := UpdateReplaces(txt, txt', sub, value, now);
    assert gone.lastUpdate <= older.lastUpdate;
    PairMinus(older, newer, gone, TxtRow(sub, value, now));
    assert newer in multiset(Slots(txt', sub));
  }

  lemma PairMinus(a: TxtRow, b: TxtRow, gone: TxtRow, row: TxtRow)
    requires gone != b
    ensures b in multiset{a, b} - multiset{gone} + multiset{row}
  {
  }

  lemma OldestOfPair(txt: seq<TxtRow>, sub: string, older: TxtRow, newer: TxtRow) returns (i: nat)
    requires multiset(Slots(txt, sub)) == multiset{older, newer} && newer.lastUpdate <= older.lastUpdate
    ensures Oldest(txt, sub, i) && txt[i] == newer
  {
    var slots := Slots(txt, sub);
    assert newer in multiset(slots);
    SlotsOwn(txt, sub);
    var k :| 0 <= k < |slots| && slots[k] == newer;
    i :| 0 <= i < |txt| && txt[i] == newer;
    forall j | 0 <= j < |txt| && txt[j].subdomain == sub ensures newer.lastUpdate <= txt[j].lastUpdate {
      SlotsHave(txt, sub, j);
      assert txt[j] in multiset(slots);
    }
  }

  lemma NewerDropped(txt: seq<TxtRow>, sub: string, older: TxtRow, newer: TxtRow, value: string, now: int)
    returns (txt': seq<TxtRow>)
    requires multiset(Slots(txt, sub)) == multiset{older, newer}
    requires older != newer && newer != TxtRow(sub, value, now)
    requires newer.lastUpdate <= older.lastUpdate
    ensures Updates(txt, txt', sub, value, now) && newer !in Slots(txt', sub)
  {
    var row := TxtRow(sub, value, now);
    var i := OldestOfPair(txt, sub, older, newer);
    txt' := txt[i := row];
    SlotsOverwrite(txt, i, row, sub);
    assert multiset{older, newer} - multiset{newer} + multiset{row} == multiset{older, row};
    assert newer !in multiset(Slots(txt', sub));
  }

  /** Exactly when the next update is sure to keep the newer of two values: when it carries
      the later time. Equal times leave the choice to the engine, a clock that went back
      makes the update drop the newer value. */
  lemma NewerKeptExactly(txt: seq<TxtRow>, sub: string, older: TxtRow, newer: TxtRow, value: string, now: int)
    requires multiset(Slots(txt, sub)) == multiset{older, newer}
    requires older != newer && newer != TxtRow(sub, value, now)
    ensures (forall txt' :: Updates(txt, txt', sub, value, now) ==> newer in Slots(txt', sub))
       <==> older.lastUpdate < newer.lastUpdate
  {
    if older.lastUpdate < newer.lastUpdate {
      forall txt' | Updates(txt, txt', sub, value, now) ensures newer in Slots(txt', sub) {
        NewerSurvives(txt, txt', sub, older, newer, value, now);
      }
    } else {
      var txt' := NewerDropped(txt, sub, older, newer, value, now);
    }
  }

  /** With equal times it can be lost. */
  lemma NewerLost(sub: string, time: int)
    ensures var older, newer := TxtRow(sub, "a", time), TxtRow(sub, "b", time);
      exists txt' :: Updates([older, newer], txt', sub, "c", time + 1) && newer !in Slots(txt', sub)
  {
    var older, newer := TxtRow(sub, "a", time), TxtRow(sub, "b", time);
    assert multiset(Slots([older, newer], sub)) == multiset{older, newer} by {
      assert [older, newer] == [older] + [newer];
      SlotsAppend([older], [newer], sub);
      SlotOne(older, sub);
      SlotOne(newer, sub);
    }
    assert older.value != newer.value && newer.value != "c";
    var txt' := NewerDropped([older, newer], sub, older, newer, "c", time + 1);
  }

  lemma {:induction false} SlotsHave(txt: seq<TxtRow>, sub: string, i: nat)
    requires i < |txt| && txt[i].subdomain == sub
    ensures txt[i] in Slots(txt, sub)
  {
    if i < |txt| - 1 { SlotsHave(txt[..|txt| - 1], sub, i); }
  }

  /** What the management interface calls last active is the newest write. */
  lemma {:induction false} LastWriteIsNewest(slots: seq<TxtRow>)
    ensures forall row :: row in slots ==> row.lastUpdate <= LastWrite(slots)
    ensures slots != [] ==> exists row :: row in slots && row.lastUpdate == LastWrite(slots)
  {
    if |slots| == 1 {
      assert slots[0] in slots;
    } else if |slots| > 1 {
      var n := |slots| - 1;
      LastWriteIsNewest(slots[..n]);
      assert slots == slots[..n] + [slots[n]];
      var row :| row in slots[..n] && row.lastUpdate == LastWrite(slots[..n]);
      assert slots[n] in slots && row in slots;
    }
  }

  // -------------------------------------------------------------- credentials

  /** The recoverable copy is missing, or holds the very password that was hashed. */
  predicate Recoverable(r: Record) {
    r.enc.Sealed? ==> r.enc.plain == r.hash.password && ValidKey(r.enc.plain)
  }

  ghost predicate CredentialsSound(t: Tables) {
    && (forall r :: r in t.records ==> Recoverable(r))
    && UniqueUsers(t.records)
  }

  ghost predicate UniqueUsers(records: seq<Record>) {
    forall i, j :: 0 <= i < j < |records| ==> records[i].username != records[j].username
  }

  /** Registration and rotation hash and seal one freshly generated password, under whatever
      key is configured at that moment. */
  ghost predicate Drawn(op: Op) {
    match op
    case RegisterOp(r, _) => DrawnPair(r.hash, r.enc)
    case RotateOp(_, hash, enc, _, _) => DrawnPair(hash, enc)
    case _ => true
  }

  ghost predicate DrawnPair(hash: Hash, enc: Blob) {
    exists draws: seq<nat>, cipher: Cipher, nonce: Option<int> ::
      AreDraws(draws, 40) && hash.password == FromDraws(draws) && enc == EncryptOrEmpty(cipher, FromDraws(draws), nonce)
  }

  lemma DrawnPairRecoverable(hash: Hash, enc: Blob)
    requires DrawnPair(hash, enc)
    ensures enc.Sealed? ==> enc.plain == hash.password && ValidKey(enc.plain)
  {
    var draws: seq<nat>, cipher: Cipher, nonce: Option<int> :|
      && AreDraws(draws, 40) && hash.password == FromDraws(draws)
      && enc == EncryptOrEmpty(cipher, FromDraws(draws), nonce);
    DrawnIsValid(draws);
  }

  lemma ChangeKeepsCredentials(t: Tables, sub: string, change: Record -> Record)
    requires CredentialsSound(t)
    requires forall r: Record :: change(r).username == r.username
    requires forall r: Record :: Recoverable(r) ==> Recoverable(change(r))
    ensures CredentialsSound(t.(records := ChangeRecords(t.records, sub, change)))
  {
    var changed := ChangeRecords(t.records, sub, change);
    forall i | 0 <= i < |changed| ensures Recoverable(changed[i]) {
      assert t.records[i] in t.records;
    }
  }

  lemma {:induction false} WithoutRecordUnique(records: seq<Record>, gone: string)
    requires UniqueUsers(records)
    ensures UniqueUsers(WithoutRecord(records, gone))
    ensures forall r :: r in WithoutRecord(records, gone) ==> r in records
  {
    if records != [] {
      var n := |records| - 1;
      WithoutRecordUnique(records[..n], gone);
      var before := WithoutRecord(records[..n], gone);
      forall i | 0 <= i < |before| ensures before[i] in records && before[i].username != records[n].username {
        assert before[i] in records[..n];
        var k :| 0 <= k < n && records[k] == before[i];
      }
    }
  }

  lemma CredentialsKept(engine: Engine, t: Tables, t': Tables, op: Op)
    requires Step(engine, t, t', op) && Drawn(op) && CredentialsSound(t)
    ensures CredentialsSound(t')
  {
    match op
    case RegisterOp(r, f) =>
      if RegisterStores(engine, t.records, r, f) {
        DrawnPairRecoverable(r.hash, r.enc);
        assert forall i :: 0 <= i < |t.records| ==> t'.records[i] == t.records[i];
      }
    case UpdateOp(_, _, _, _) =>
    case RotateOp(s, hash, enc, now, fails) =>
      DrawnPairRecoverable(hash, enc);
      ChangeKeepsCredentials(t, s, Rehashed(hash, enc, now));
    case RenameOp(s, name, now, fails) => ChangeKeepsCredentials(t, s, Renamed(name, now));
    case SourceOp(s, ip, fails) => ChangeKeepsCredentials(t, s, Sourced(ip));
    case DeleteOp(s, f) => WithoutRecordUnique(t.records, s);
  }

  /** In every run, whatever keys the server was restarted with in between. */
  lemma {:induction false} CredentialsAlways(engine: Engine, trace: seq<Tables>, ops: seq<Op>, n: nat)
    requires Behaviour(engine, trace, ops) && n < |trace| && CredentialsSound(trace[0])
    requires forall i :: 0 <= i < |ops| ==> Drawn(ops[i])
    ensures CredentialsSound(trace[n])
    decreases n
  {
    if n > 0 {
      CredentialsAlways(engine, trace, ops, n - 1);
      CredentialsKept(engine, trace[n - 1], trace[n], ops[n - 1]);
    }
  }

  // ---------------------------------------------------------- in plain words

  /** Some statement of the call fails, or its commit does. */
  predicate Fails(engine: Engine, op: Op) {
    match op
    case RegisterOp(_, f) =>
      f.begin || f.hash || f.prepare || f.insert || f.commit || (engine.Postgres? && (f.firstSlot || f.secondSlot))
    case DeleteOp(_, f) => f.begin || f.records || f.txt || f.commit
    case UpdateOp(_, _, _, fails) => fails
    case RotateOp(_, _, _, _, fails) => fails
    case RenameOp(_, _, _, fails) => fails
    case SourceOp(_, _, fails) => fails
  }

  /** A call that fails changes nothing. */
  lemma FailedChangesNothing(engine: Engine, t: Tables, t': Tables, op: Op)
    requires Step(engine, t, t', op) && Fails(engine, op)
    ensures t' == t
  {
  }

  /** A registration that does not fail, with a new user, hash and subdomain, adds its record and
      two empty slots. */
  lemma Registers(engine: Engine, t: Tables, t': Tables, r: Record, f: RegisterFaults)
    requires Step(engine, t, t', RegisterOp(r, f)) && !Fails(engine, RegisterOp(r, f)) && !f.firstSlot && !f.secondSlot
    requires forall q :: q in t.records ==>
               q.username != r.username && q.hash != r.hash && q.subdomain != r.subdomain
    ensures t'.records == t.records + [r]
    ensures t'.txt == t.txt + [TxtRow(r.subdomain, "", 0), TxtRow(r.subdomain, "", 0)]
  {
    assert !Conflicts(t.records, r);
    var e := TxtRow(r.subdomain, "", 0);
    assert [e] + [e] == [e, e];
  }

  /** One that would repeat a user, a hash or a subdomain adds nothing. */
  lemma RefusesRepeats(engine: Engine, t: Tables, t': Tables, r: Record, f: RegisterFaults, q: Record)
    requires Step(engine, t, t', RegisterOp(r, f)) && q in t.records
    requires q.username == r.username || q.hash == r.hash || q.subdomain == r.subdomain
    ensures t' == t
  {
    var i :| 0 <= i < |t.records| && t.records[i] == q;
    assert Conflicts(t.records, r);
  }

  /** What rotation, relabelling and the note of a source change: these fields of the records of
      that subdomain. */
  lemma ChangesFields(engine: Engine, t: Tables, t': Tables, op: Op, i: nat)
    requires Step(engine, t, t', op) && i < |t.records| && !Fails(engine, op)
    requires op.RotateOp? || op.RenameOp? || op.SourceOp?
    ensures |t'.records| == |t.records| && t'.txt == t.txt
    ensures var r := t.records[i];
      t'.records[i] ==
        if r.subdomain != op.sub then r
        else match op
          case RotateOp(_, hash, enc, now, _) =>
            Record(r.username, hash, r.subdomain, r.allowFrom, r.domainName, r.createdAt, now, enc, r.lastIP)
          case RenameOp(_, name, now, _) =>
            Record(r.username, r.hash, r.subdomain, r.allowFrom, name, r.createdAt, now, r.enc, r.lastIP)
          case SourceOp(_, ip, _) =>
            Record(r.username, r.hash, r.subdomain, r.allowFrom, r.domainName, r.createdAt, r.updatedAt, r.enc,
                   if ip == "" then r.lastIP else ip)
          case _ => r
  {
  }

  /** A deletion that does not fail leaves nothing of the subdomain, and everything else. */
  lemma DeletesAll(engine: Engine, t: Tables, t': Tables, gone: string, f: DeleteFaults, r: Record, sub: string)
    requires Step(engine, t, t', DeleteOp(gone, f)) && !Fails(engine, DeleteOp(gone, f))
    requires HasSubdomain(t.records, gone)
    ensures r in t'.records <==> r in t.records && r.subdomain != gone
    ensures Slots(t'.txt, sub) == if sub == gone then [] else Slots(t.txt, sub)
  {
    WithoutRecordKeeps(t.records, gone, r);
    SlotsWithout(t.txt, gone, sub);
  }

  /** A copy sealed while a credentials key is set, and randomness is to be had, opens again under
      that key and under no other; without a key or randomness nothing is stored. */
  lemma SealedOpens(secret: string, other: string, plain: string, nonce: Option<int>)
    ensures var blob := EncryptOrEmpty(NewCredentialCipher(secret), plain, nonce);
      && (secret != "" && nonce.Some? ==> DecryptOrEmpty(NewCredentialCipher(secret), blob) == plain)
      && (other != secret ==> DecryptOrEmpty(NewCredentialCipher(other), blob) == "")
      && (secret == "" || nonce.None? ==> blob == NoBlob)
  {
  }

  /** So a password generated under a key is shown again, as long as its record keeps its copy and
      the server runs with that key. */
  lemma GeneratedIsShown(secret: string, nonce: int, t: Tables, r: Record)
    requires secret != ""
    requires r.enc == EncryptOrEmpty(NewCredentialCipher(secret), r.hash.password, Some(nonce))
    ensures ScanDomain(NewCredentialCipher(secret), t, r).password == r.hash.password
  {
  }

  /** The management interface shows a registration's own fields, its password if its copy opens
      under the present key, and the time of its newest write. */
  lemma ShowsFields(cipher: Cipher, t: Tables, r: Record)
    ensures var d := ScanDomain(cipher, t, r);
      && d.username == r.username && d.subdomain == r.subdomain && d.allowFrom == r.allowFrom
      && d.domainName == r.domainName && d.createdAt == r.createdAt && d.updatedAt == r.updatedAt
      && d.lastIP == r.lastIP
      && d.password == (if r.enc.Sealed? && cipher == Some(r.enc.key) then r.enc.plain else "")
      && (forall row :: row in Slots(t.txt, r.subdomain) ==> row.lastUpdate <= d.lastActive)
      && (Slots(t.txt, r.subdomain) == [] ==> d.lastActive == 0)
      && (Slots(t.txt, r.subdomain) != [] ==>
            exists row :: row in Slots(t.txt, r.subdomain) && row.lastUpdate == d.lastActive)
  {
    LastWriteIsNewest(Slots(t.txt, r.subdomain));
  }
}

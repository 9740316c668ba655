/** Opening a database of any earlier version: the upgrade chain, its transactions, and
    what survives crashes and restarts in the middle of it. */
module Upgrade {
  import opened Options
  import opened Store
  import opened StoreLaws

  const DB_VERSION := 4

  /** The columns of the records table that came after its first version. */
  datatype Column = DomainName | CreatedAt | UpdatedAt | EncPassword | LastIP

  /** What is on disk: the db_version rows, the later columns of the records table (none if
      there is no such table), the registrations, and the TXT rows. A registration's fields
      for columns that do not exist yet hold the column defaults. */
  datatype Disk = Disk(
    versionTable: bool,
    versions: seq<nat>,
    columns: Option<set<Column>>,
    records: seq<Record>,
    txtTable: bool,
    txt: seq<TxtRow>)

  const ALL_COLUMNS := {DomainName, CreatedAt, UpdatedAt, EncPassword, LastIP}

  /** No row means version 0. */
  function Version(d: Disk): nat {
    if d.versions == [] then 0 else d.versions[0]
  }

  /** UPDATE acmedns SET Value=... WHERE Name='db_version'. */
  function SetVersions(versions: seq<nat>, v: nat): (out: seq<nat>)
    ensures |out| == |versions| && forall i :: 0 <= i < |out| ==> out[i] == v
  {
    seq(|versions|, _ => v)
  }

  // ------------------------------------------------------------ the upgrades

  /** The columns the upgrade from this version adds. */
  function Added(from: nat): seq<Column> {
    if from == 1 then [DomainName, CreatedAt, UpdatedAt]
    else if from == 2 then [EncPassword]
    else if from == 3 then [LastIP]
    else []
  }

  /** The later columns a database of this version has. */
  function Needed(version: nat): set<Column> {
    (if version >= 2 then {DomainName, CreatedAt, UpdatedAt} else {})
    + (if version >= 3 then {EncPassword} else {})
    + (if version >= 4 then {LastIP} else {})
  }

  /** Which statements fail. `alter` is the position of the first ALTER that fails, if any.
      A lost commit goes unnoticed. */
  datatype AddFaults = AddFaults(begin: bool, alter: Option<nat>, version: bool, commitLost: bool)

  /** Adding columns fails as a whole when the table is missing or a statement fails. */
  predicate AddFails(d: Disk, columns: seq<Column>, f: AddFaults) {
    || f.begin
    || d.columns.None?
    || (f.alter.Some? && f.alter.value < |columns| && columns[f.alter.value] !in d.columns.value)
    || f.version || !d.versionTable
  }

  function AddColumnsTo(d: Disk, columns: seq<Column>, newVersion: nat, f: AddFaults): Disk
    requires !AddFails(d, columns, f)
  {
    if f.commitLost then d
    else d.(columns := Some(d.columns.value + (set c | c in columns)), versions := SetVersions(d.versions, newVersion))
  }

  /** `delete` and `slots` are statements whose failure is ignored on SQLite and dooms the
      transaction on PostgreSQL. slots[2 * i] and slots[2 * i + 1] are the inserts for the
      i-th registration. */
  datatype To1Faults = To1Faults(query: bool, delete: bool, slots: seq<bool>, version: bool, commitLost: bool)

  predicate SlotFails(f: To1Faults, k: nat) { k < |f.slots| && f.slots[k] }

  /** Some statement whose error is dropped fails. */
  predicate Silent(d: Disk, f: To1Faults) {
    f.delete || !d.txtTable || exists k :: 0 <= k < |f.slots| && f.slots[k]
  }

  predicate To1Fails(engine: Engine, d: Disk, f: To1Faults) {
    f.query || d.columns.None? || f.version || !d.versionTable || (engine.Postgres? && Silent(d, f))
  }

  /** The slots inserted for the i-th registration. */
  function InsertedFor(sub: string, f: To1Faults, i: nat): seq<TxtRow> {
    if sub == "" then []
    else
      (if SlotFails(f, 2 * i) then [] else [EmptySlot(sub)])
      + (if SlotFails(f, 2 * i + 1) then [] else [EmptySlot(sub)])
  }

  /** The slots inserted for the first n registrations. */
  function Inserted(records: seq<Record>, f: To1Faults, n: nat): seq<TxtRow>
    requires n <= |records|
  {
    if n == 0 then [] else Inserted(records, f, n - 1) + InsertedFor(records[n - 1].subdomain, f, n - 1)
  }

  function UpgradeTo1(engine: Engine, d: Disk, f: To1Faults): Disk
    requires !To1Fails(engine, d, f)
  {
    if f.commitLost then d
    else if !d.txtTable then d.(versions := SetVersions(d.versions, 1))
    else d.(txt := (if f.delete then d.txt else []) + Inserted(d.records, f, |d.records|),
            versions := SetVersions(d.versions, 1))
  }

  /** Two empty slots for every registration. */
  function Rebuilt(records: seq<Record>): seq<TxtRow> {
    if records == [] then []
    else
      var sub := records[|records| - 1].subdomain;
      Rebuilt(records[..|records| - 1]) + (if sub == "" then [] else [EmptySlot(sub), EmptySlot(sub)])
  }

  // ------------------------------------------------------------ the program

  /** Where the start-up of the server stands. `seen` is the version it read at the start,
      `at` the version it believes the database to have reached. */
  datatype Stage =
    | Off
    | Creating(seen: nat, done: nat)
    | Upgrading(seen: nat, at: nat)
    | Recording(seen: nat)
    | Ready

  datatype Boot = Boot(disk: Disk, stage: Stage)

  datatype Event =
    | Start(readFails: bool)
    | Create(fails: bool)
    | ToOne(to1: To1Faults)
    | Add(add: AddFaults)
    | Skip
    | Finish(fails: bool)
    | Crash

  predicate Enabled(b: Boot, e: Event) {
    match e
    case Start(_) => b.stage.Off?
    case Create(_) => b.stage.Creating? && b.stage.done < 3
    case ToOne(_) => b.stage.Upgrading? && b.stage.at == 0
    case Add(_) => b.stage.Upgrading? && 1 <= b.stage.at <= 3
    case Skip => (b.stage.Creating? && b.stage.done == 3) || (b.stage.Upgrading? && b.stage.at >= 4)
    case Finish(_) => b.stage.Recording?
    case Crash => true
  }

  /** CREATE TABLE IF NOT EXISTS, in order: version table, records, TXT rows. */
  function CreateTable(d: Disk, k: nat): Disk {
    if k == 0 then d.(versionTable := true)
    else if k == 1 then (if d.columns.None? then d.(columns := Some(ALL_COLUMNS), records := []) else d)
    else if d.txtTable then d else d.(txtTable := true, txt := [])
  }

  function Next(engine: Engine, b: Boot, e: Event): Boot
    requires Enabled(b, e)
  {
    match e
    case Start(readFails) => Boot(b.disk, Creating(if readFails then 0 else Version(b.disk), 0))
    case Create(fails) =>
      Boot(if fails then b.disk else CreateTable(b.disk, b.stage.done), Creating(b.stage.seen, b.stage.done + 1))
    case ToOne(f) =>
      if To1Fails(engine, b.disk, f) then Boot(b.disk, Off)
      else Boot(UpgradeTo1(engine, b.disk, f), Upgrading(b.stage.seen, 1))
    case Add(f) =>
      var at := b.stage.at;
      if AddFails(b.disk, Added(at), f) then Boot(b.disk, Off)
      else Boot(AddColumnsTo(b.disk, Added(at), at + 1, f), Upgrading(b.stage.seen, at + 1))
    case Skip =>
      var seen := b.stage.seen;
      Boot(b.disk, if b.stage.Creating? then Upgrading(seen, seen) else Recording(seen))
    case Finish(fails) =>
      if b.stage.seen != 0 then Boot(b.disk, Ready)
      else if fails || !b.disk.versionTable then Boot(b.disk, Off)
      else Boot(b.disk.(versions := b.disk.versions + [DB_VERSION]), Ready)
    case Crash => Boot(b.disk, Off)
  }

  function Run(engine: Engine, b: Boot, events: seq<Event>): Option<Boot> {
    if events == [] then Some(b)
    else
      match Run(engine, b, events[..|events| - 1])
      case None => None
      case Some(mid) =>
        var e := events[|events| - 1];
        if Enabled(mid, e) then Some(Next(engine, mid, e)) else None
  }

  lemma RunSnoc(engine: Engine, b: Boot, events: seq<Event>, e: Event)
    requires Run(engine, b, events).Some? && Enabled(Run(engine, b, events).value, e)
    ensures Run(engine, b, events + [e]) == Some(Next(engine, Run(engine, b, events).value, e))
  {
    assert (events + [e])[..|events|] == events;
  }

  // -------------------------------------------------------------- the server

  class Database {
    const engine: Engine
    var disk: Disk

    constructor (engine: Engine, disk: Disk)
      ensures this.engine == engine && this.disk == disk
    {
      this.engine := engine;
      this.disk := disk;
    }

    /** One transaction: the columns that are missing, then the new version. */
    method AddColumns(columns: seq<Column>, newVersion: nat, f: AddFaults) returns (ok: bool)
      modifies this
      ensures ok == !AddFails(old(disk), columns, f)
      ensures disk == if ok then AddColumnsTo(old(disk), columns, newVersion, f) else old(disk)
    {
      if f.begin || disk.columns.None? { return false; }
      var present := disk.columns.value;
      for i := 0 to |columns|
        invariant disk == old(disk)
        invariant present == disk.columns.value + Taken(columns, i)
        invariant f.alter.Some? && f.alter.value < i ==> columns[f.alter.value] in disk.columns.value
      {
        TakenNext(columns, i);
        if columns[i] in disk.columns.value { continue; }
        if f.alter == Some(i) { return false; }
        present := present + {columns[i]};
      }
      TakenAll(columns);
      if f.version || !disk.versionTable { return false; }
      if !f.commitLost {
        disk := disk.(columns := Some(present), versions := SetVersions(disk.versions, newVersion));
      }
      return true;
    }

    method HandleUpgradeTo1(f: To1Faults) returns (ok: bool)
      modifies this
      ensures ok == !To1Fails(engine, old(disk), f)
      ensures disk == if ok then UpgradeTo1(engine, old(disk), f) else old(disk)
    {
      if f.query || disk.columns.None? { return false; }
      var txt := InsertSlots(f);
      if f.version || !disk.versionTable { return false; }
      if engine.Postgres? && Silent(disk, f) { return false; }
      if !f.commitLost {
        disk := disk.(txt := txt, versions := SetVersions(disk.versions, 1));
      }
      return true;
    }

    /** The TXT rows as the transaction leaves them. */
    method InsertSlots(f: To1Faults) returns (txt: seq<TxtRow>)
      ensures txt == if !disk.txtTable then disk.txt
                     else (if f.delete then disk.txt else []) + Inserted(disk.records, f, |disk.records|)
    {
      if !disk.txtTable { return disk.txt; }
      var kept := if f.delete then disk.txt else [];
      var inserted: seq<TxtRow> := [];
      for i := 0 to |disk.records|
        invariant inserted == Inserted(disk.records, f, i)
      {
        var slots := SlotsOf(disk.records[i].subdomain, f, i);
        inserted := inserted + slots;
      }
      return kept + inserted;
    }

    /** The slots of the i-th registration; a blank name gets none. */
    method SlotsOf(sub: string, f: To1Faults, i: nat) returns (slots: seq<TxtRow>)
      ensures slots == InsertedFor(sub, f, i)
    {
      slots := [];
      if sub != "" {
        slots := NewTXTValues(sub, SlotFails(f, 2 * i), SlotFails(f, 2 * i + 1));
      }
    }

    /** Two inserts; what fails is dropped. */
    method NewTXTValues(sub: string, firstFails: bool, secondFails: bool) returns (pair: seq<TxtRow>)
      ensures pair == (if firstFails then [] else [EmptySlot(sub)]) + (if secondFails then [] else [EmptySlot(sub)])
    {
      pair := [];
      if !firstFails { pair := pair + [EmptySlot(sub)]; }
      if !secondFails { pair := pair + [EmptySlot(sub)]; }
    }

    /** The whole start-up, with the events it stands for. */
    method Init(readFails: bool, createFails: (bool, bool, bool), to1: To1Faults, adds: seq<AddFaults>,
                finishFails: bool)
      returns (ok: bool, ghost events: seq<Event>)
      requires |adds| == 3
      modifies this
      ensures Run(engine, Boot(old(disk), Off), events) == Some(Boot(disk, if ok then Ready else Off))
      ensures Consistent(old(disk)) && !readFails && createFails == (false, false, false)
              && SmoothFaults(to1, adds) && !finishFails
              ==> ok && Version(disk) == 4 && Complete(disk) && (old(disk).versions == [] ==> disk.versions == [4])
    {
      ghost var d := disk;
      var seen := if readFails then 0 else Version(disk);
      events := CreateTables(readFails, createFails);
      ghost var chain;
      ok, chain := HandleUpgrades(seen, seen, to1, adds);
      RunConcat(engine, Boot(d, Off), events, chain);
      ghost var smooth := Consistent(d) && AllSmooth(events) && AllSmooth(chain);
      events := events + chain;
      if smooth { SmoothRunGoesOn(engine, d, events); }
      if !ok { return; }
      if seen == 0 {
        if finishFails || !disk.versionTable {
          ok := false;
        } else {
          disk := disk.(versions := disk.versions + [DB_VERSION]);
        }
      }
      RunSnoc(engine, Boot(d, Off), events, Finish(finishFails));
      events := events + [Finish(finishFails)];
      if smooth && !finishFails { SmoothRunGoesOn(engine, d, events); }
    }

    /** One CREATE TABLE IF NOT EXISTS, whose error is dropped. */
    method CreateOne(k: nat, fails: bool, ghost seen: nat, ghost start: Boot, ghost before: seq<Event>)
      returns (ghost events: seq<Event>)
      requires k < 3 && Run(engine, start, before) == Some(Boot(disk, Creating(seen, k)))
      modifies this
      ensures Run(engine, start, events) == Some(Boot(disk, Creating(seen, k + 1)))
      ensures AllSmooth(before) && !fails ==> AllSmooth(events)
    {
      if !fails {
        if k == 0 {
          disk := disk.(versionTable := true);
        } else if k == 1 {
          if disk.columns.None? { disk := disk.(columns := Some(ALL_COLUMNS), records := []); }
        } else {
          if !disk.txtTable { disk := disk.(txtTable := true, txt := []); }
        }
      }
      RunSnoc(engine, start, before, Create(fails));
      events := before + [Create(fails)];
    }

    method CreateTables(readFails: bool, createFails: (bool, bool, bool)) returns (ghost events: seq<Event>)
      modifies this
      ensures var seen := if readFails then 0 else Version(old(disk));
        Run(engine, Boot(old(disk), Off), events) == Some(Boot(disk, Upgrading(seen, seen)))
      ensures !readFails && createFails == (false, false, false) ==> AllSmooth(events)
    {
      ghost var start, seen := Boot(disk, Off), if readFails then 0 else Version(disk);
      RunSnoc(engine, start, [], Start(readFails));
      events := [] + [Start(readFails)];
      events := CreateOne(0, createFails.0, seen, start, events);
      events := CreateOne(1, createFails.1, seen, start, events);
      events := CreateOne(2, createFails.2, seen, start, events);
      RunSnoc(engine, start, events, Skip);
      events := events + [Skip];
    }

    /** The upgrade to version 1, as a step of the run so far. */
    method StepToOne(f: To1Faults, ghost seen: nat, ghost start: Boot, ghost before: seq<Event>)
      returns (ok: bool, ghost events: seq<Event>)
      requires Run(engine, start, before) == Some(Boot(disk, Upgrading(seen, 0)))
      modifies this
      ensures Run(engine, start, events) == Some(Boot(disk, if ok then Upgrading(seen, 1) else Off))
      ensures events == before + [ToOne(f)]
    {
      ok := HandleUpgradeTo1(f);
      RunSnoc(engine, start, before, ToOne(f));
      events := before + [ToOne(f)];
    }

    /** An upgrade that adds columns, as a step of the run so far. */
    method StepAdding(from: nat, f: AddFaults, ghost seen: nat, ghost start: Boot, ghost before: seq<Event>)
      returns (ok: bool, ghost events: seq<Event>)
      requires 1 <= from <= 3 && Run(engine, start, before) == Some(Boot(disk, Upgrading(seen, from)))
      modifies this
      ensures Run(engine, start, events) == Some(Boot(disk, if ok then Upgrading(seen, from + 1) else Off))
      ensures events == before + [Add(f)]
    {
      ok := AddColumns(Added(from), from + 1, f);
      RunSnoc(engine, start, before, Add(f));
      events := before + [Add(f)];
    }

    /** That upgrade if the database is believed to be at its version, and else nothing. */
    method AddIfAt(from: nat, at: nat, f: AddFaults, ghost seen: nat, ghost start: Boot, ghost before: seq<Event>)
      returns (ok: bool, ghost events: seq<Event>)
      requires 1 <= from <= 3 && Run(engine, start, before) == Some(Boot(disk, Upgrading(seen, at)))
      modifies this
      ensures Run(engine, start, events)
           == Some(Boot(disk, if ok then Upgrading(seen, if at == from then from + 1 else at) else Off))
      ensures AllSmooth(before) && Smooth(Add(f)) ==> AllSmooth(events)
    {
      if at != from { return true, before; }
      ok, events := StepAdding(from, f, seen, start, before);
    }

    /** The upgrade chain, with the events it stands for. */
    method HandleUpgrades(seen: nat, version: nat, to1: To1Faults, adds: seq<AddFaults>)
      returns (ok: bool, ghost events: seq<Event>)
      requires |adds| == 3
      modifies this
      ensures Run(engine, Boot(old(disk), Upgrading(seen, version)), events)
           == Some(Boot(disk, if ok then Recording(seen) else Off))
      ensures SmoothFaults(to1, adds) ==> AllSmooth(events)
    {
      ghost var start := Boot(disk, Upgrading(seen, version));
      var at := version;
      events := [];
      if at == 0 {
        ok, events := StepToOne(to1, seen, start, events);
        if !ok { return; }
        at := 1;
      }
      ok, events := AddChain(at, adds, seen, start, events);
    }

    /** The upgrades that add columns, from the version reached on. */
    method AddChain(version: nat, adds: seq<AddFaults>, ghost seen: nat, ghost start: Boot, ghost before: seq<Event>)
      returns (ok: bool, ghost events: seq<Event>)
      requires |adds| == 3 && version >= 1 && Run(engine, start, before) == Some(Boot(disk, Upgrading(seen, version)))
      modifies this
      ensures Run(engine, start, events) == Some(Boot(disk, if ok then Recording(seen) else Off))
      ensures AllSmooth(before) && (forall i :: 0 <= i < 3 ==> Smooth(Add(adds[i]))) ==> AllSmooth(events)
    {
      var at := version;
      ok, events := AddIfAt(1, at, adds[0], seen, start, before);
      if !ok { return; }
      at := if at == 1 then 2 else at;
      ok, events := AddIfAt(2, at, adds[1], seen, start, events);
      if !ok { return; }
      at := if at == 2 then 3 else at;
      ok, events := AddIfAt(3, at, adds[2], seen, start, events);
      if !ok { return; }
      at := if at == 3 then 4 else at;
      RunSnoc(engine, start, events, Skip);
      events := events + [Skip];
    }
  }

  ghost function Taken(columns: seq<Column>, n: nat): set<Column>
    requires n <= |columns|
  {
    set c | c in columns[..n]
  }

  lemma TakenNext(columns: seq<Column>, i: nat)
    requires i < |columns|
    ensures Taken(columns, i + 1) == Taken(columns, i) + {columns[i]}
  {
    assert columns[..i + 1] == columns[..i] + [columns[i]];
  }

  lemma TakenAll(columns: seq<Column>)
    ensures Taken(columns, |columns|) == (set c | c in columns)
    ensures Taken(columns, 0) == {}
  {
    assert columns[..|columns|] == columns;
  }

  lemma Extend(engine: Engine, d: Disk, events: seq<Event>, b: Boot, e: Event) returns (events': seq<Event>, b': Boot)
    requires Run(engine, Boot(d, Off), events) == Some(b) && Enabled(b, e)
    ensures events' == events + [e] && b' == Next(engine, b, e)
    ensures Run(engine, Boot(d, Off), events') == Some(b')
  {
    RunSnoc(engine, Boot(d, Off), events, e);
    events', b' := events + [e], Next(engine, b, e);
  }

  lemma RunLast(engine: Engine, b: Boot, events: seq<Event>, e: Event)
    ensures Run(engine, b, events + [e])
         == match Run(engine, b, events)
            case None => None
            case Some(mid) => if Enabled(mid, e) then Some(Next(engine, mid, e)) else None
  {
    assert (events + [e])[..|events|] == events;
  }

  lemma {:induction false} RunConcat(engine: Engine, b: Boot, first: seq<Event>, second: seq<Event>)
    requires Run(engine, b, first).Some?
    ensures Run(engine, b, first + second) == Run(engine, Run(engine, b, first).value, second)
    decreases |second|
  {
    if second == [] {
      assert first + second == first;
    } else {
      var n := |second| - 1;
      RunConcat(engine, b, first, second[..n]);
      assert first + second == (first + second[..n]) + [second[n]];
      RunLast(engine, b, first + second[..n], second[n]);
    }
  }

  // ------------------------------------------------------ what is on disk

  predicate HasColumns(d: Disk, version: nat) {
    version >= 1 ==> d.columns.Some? && Needed(version) <= d.columns.value
  }

  /** Every recorded version has its columns. */
  ghost predicate Backed(d: Disk) {
    forall i :: 0 <= i < |d.versions| ==> d.versions[i] <= DB_VERSION && HasColumns(d, d.versions[i])
  }

  /** A database of some version: whatever is recorded is there. */
  ghost predicate Consistent(d: Disk) {
    && Backed(d)
    && (d.versions != [] ==> d.versionTable)
    && (Version(d) >= 1 ==> d.txtTable)
    && (d.columns.None? ==> d.records == [])
    && (!d.txtTable ==> d.txt == [])
  }

  // -------------------------------------------------------- registrations

  /** Tables and columns once there stay, and so do registrations. */
  predicate Keeps(d0: Disk, d: Disk) {
    && d.records == d0.records
    && (d.columns.None? ==> d.records == [])
    && (d0.columns.Some? ==> d.columns.Some? && d0.columns.value <= d.columns.value)
    && (d0.txtTable ==> d.txtTable)
    && (d0.versions != [] ==> d.versions != [])
  }

  /** In every run whatever, with every kind of fault, registrations survive unchanged and
      no column is lost. */
  lemma {:induction false} RegistrationsSurvive(engine: Engine, d0: Disk, events: seq<Event>)
    requires Consistent(d0) && Run(engine, Boot(d0, Off), events).Some?
    ensures Keeps(d0, Run(engine, Boot(d0, Off), events).value.disk)
  {
    if events != [] {
      RegistrationsSurvive(engine, d0, events[..|events| - 1]);
    }
  }

  // ----------------------------------------------------------- TXT values

  /** Every start that reads the version gets an answer. */
  predicate ReadsSucceed(events: seq<Event>) {
    forall i :: 0 <= i < |events| && events[i].Start? ==> !events[i].readFails
  }

  /** A recorded version is seen, so the step to version 1 is never taken again. */
  predicate PastOne(b: Boot) {
    && b.disk.txtTable && Version(b.disk) >= 1
    && (b.stage.Creating? || b.stage.Upgrading? ==> b.stage.seen >= 1)
    && (b.stage.Upgrading? ==> b.stage.at >= 1)
  }

  lemma {:induction false} StaysPastOne(engine: Engine, d0: Disk, events: seq<Event>)
    requires Consistent(d0) && Version(d0) >= 1 && ReadsSucceed(events)
    requires Run(engine, Boot(d0, Off), events).Some?
    ensures var b := Run(engine, Boot(d0, Off), events).value; PastOne(b) && b.disk.txt == d0.txt
  {
    if events != [] {
      var n := |events| - 1;
      StaysPastOne(engine, d0, events[..n]);
      StepPastOne(engine, Run(engine, Boot(d0, Off), events[..n]).value, events[n]);
    }
  }

  lemma StepPastOne(engine: Engine, b: Boot, e: Event)
    requires PastOne(b) && Enabled(b, e) && (e.Start? ==> !e.readFails)
    ensures PastOne(Next(engine, b, e)) && Next(engine, b, e).disk.txt == b.disk.txt
  {
  }

  /** The TXT rows of a database that has a version are untouched in every run in which no
      read of the version fails, whatever commits, statements and creations fail. */
  lemma ValuesSurvive(engine: Engine, d0: Disk, events: seq<Event>)
    requires Consistent(d0) && Version(d0) >= 1 && ReadsSucceed(events)
    requires Run(engine, Boot(d0, Off), events).Some?
    ensures Run(engine, Boot(d0, Off), events).value.disk.txt == d0.txt
  {
    StaysPastOne(engine, d0, events);
  }

  // --------------------------------------------------- versions and columns

  /** No commit of added columns is lost. */
  predicate AddsCommit(events: seq<Event>) {
    forall i :: 0 <= i < |events| && events[i].Add? ==> !events[i].add.commitLost
  }

  /** The columns of the believed version are there, and what is recorded keeps up with what
      is believed, unless the step to version 1 was not recorded. */
  ghost predicate Abreast(b: Boot) {
    && Backed(b.disk)
    && match b.stage
       case Off => true
       case Creating(seen, _) =>
         seen <= DB_VERSION && HasColumns(b.disk, seen) && (seen >= 1 ==> Version(b.disk) == seen)
       case Upgrading(seen, at) =>
         && seen <= at <= DB_VERSION && HasColumns(b.disk, at)
         && (b.disk.versions == [] ==> seen == 0)
         && (b.disk.versions != [] ==> Version(b.disk) == at || (seen == 0 && at <= 1))
       case Recording(seen) =>
         && HasColumns(b.disk, DB_VERSION)
         && (if b.disk.versions == [] then seen == 0 else Version(b.disk) == DB_VERSION)
       case Ready => HasColumns(b.disk, DB_VERSION) && Version(b.disk) == DB_VERSION
  }

  lemma NeededNext(at: nat, columns: set<Column>)
    requires 1 <= at <= 3 && Needed(at) <= columns
    ensures Needed(at + 1) <= columns + (set c | c in Added(at))
  {
    forall c | c in Needed(at + 1) ensures c in columns || c in Added(at) {
      assert c in Needed(at) || c in Added(at);
    }
  }

  lemma AddStaysAbreast(engine: Engine, b: Boot, f: AddFaults)
    requires Abreast(b) && Enabled(b, Add(f)) && !f.commitLost
    ensures Abreast(Next(engine, b, Add(f)))
  {
    var at := b.stage.at;
    if !AddFails(b.disk, Added(at), f) {
      NeededNext(at, b.disk.columns.value);
      var after := AddColumnsTo(b.disk, Added(at), at + 1, f);
      assert HasColumns(after, at + 1);
      assert forall i :: 0 <= i < |after.versions| ==> after.versions[i] == at + 1;
    }
  }

  lemma ToOneStaysAbreast(engine: Engine, b: Boot, f: To1Faults)
    requires Abreast(b) && Enabled(b, ToOne(f))
    ensures Abreast(Next(engine, b, ToOne(f)))
  {
    if !To1Fails(engine, b.disk, f) && !f.commitLost {
      var after := UpgradeTo1(engine, b.disk, f);
      assert HasColumns(after, 1);
      assert forall i :: 0 <= i < |after.versions| ==> after.versions[i] == 1;
    }
  }

  lemma StepStaysAbreast(engine: Engine, b: Boot, e: Event)
    requires Abreast(b) && Enabled(b, e) && (e.Add? ==> !e.add.commitLost)
    ensures Abreast(Next(engine, b, e))
  {
    match e
    case Add(f) => AddStaysAbreast(engine, b, f);
    case ToOne(f) => ToOneStaysAbreast(engine, b, f);
    case _ =>
  }

  /** Every later column is there. */
  ghost predicate Complete(d: Disk) {
    d.columns.Some? && forall column: Column :: column in d.columns.value
  }

  lemma HasAll(d: Disk)
    requires HasColumns(d, DB_VERSION)
    ensures Complete(d)
  {
    forall column: Column ensures column in d.columns.value {
      match column
      case DomainName => assert column in Needed(DB_VERSION);
      case CreatedAt => assert column in Needed(DB_VERSION);
      case UpdatedAt => assert column in Needed(DB_VERSION);
      case EncPassword => assert column in Needed(DB_VERSION);
      case LastIP => assert column in Needed(DB_VERSION);
    }
  }

  /** Every recorded version has its columns in every run in which no commit of added columns
      is lost, and a start-up that finishes is at version 4 with every column. Failed reads,
      dropped TXT statements and a lost step to version 1 do no harm. */
  lemma {:induction false} VersionsBacked(engine: Engine, d0: Disk, events: seq<Event>)
    requires Consistent(d0) && AddsCommit(events) && Run(engine, Boot(d0, Off), events).Some?
    ensures var b := Run(engine, Boot(d0, Off), events).value;
      && Abreast(b)
      && (b.stage.Ready? ==> Version(b.disk) == 4 && Complete(b.disk))
  {
    if events != [] {
      var n := |events| - 1;
      VersionsBacked(engine, d0, events[..n]);
      assert events[n].Add? ==> !events[n].add.commitLost;
      StepStaysAbreast(engine, Run(engine, Boot(d0, Off), events[..n]).value, events[n]);
    }
    var b := Run(engine, Boot(d0, Off), events).value;
    if b.stage.Ready? { HasAll(b.disk); }
  }

  const NO_ADD_FAULTS := AddFaults(false, None, false, false)
  const NO_TO1_FAULTS := To1Faults(false, false, [], false, false)

  // ------------------------------------------------- a start without faults

  /** The event is free of faults: reads, creations, statements and commits all succeed, and
      the server does not crash. */
  predicate Smooth(e: Event) {
    match e
    case Start(readFails) => !readFails
    case Create(fails) => !fails
    case ToOne(f) =>
      !f.query && !f.delete && !f.version && !f.commitLost && forall k :: 0 <= k < |f.slots| ==> !f.slots[k]
    case Add(f) => !f.begin && f.alter.None? && !f.version && !f.commitLost
    case Skip => true
    case Finish(fails) => !fails
    case Crash => false
  }

  /** Where a smooth start-up of the database d0 stands: the tables it has passed exist, and
      nothing has stopped it. */
  ghost predicate Going(d0: Disk, b: Boot) {
    && Abreast(b)
    && (d0.versions == [] ==> b.disk.versions == if b.stage.Ready? then [4] else [])
    && match b.stage
       case Off => false
       case Creating(seen, done) =>
         && done <= 3 && seen == Version(b.disk)
         && (done >= 1 ==> b.disk.versionTable) && (done >= 2 ==> b.disk.columns.Some?)
         && (done == 3 ==> b.disk.txtTable)
       case Upgrading(_, _) => b.disk.versionTable && b.disk.columns.Some? && b.disk.txtTable
       case Recording(_) => b.disk.versionTable
       case Ready => true
  }

  lemma SmoothStep(engine: Engine, d0: Disk, b: Boot, e: Event)
    requires Enabled(b, e) && Smooth(e)
    requires if b.stage.Off? then b.disk == d0 && Consistent(b.disk) else Going(d0, b)
    ensures Going(d0, Next(engine, b, e))
  {
    StepStaysAbreast(engine, b, e);
    match e
    case Add(f) => assert !AddFails(b.disk, Added(b.stage.at), f);
    case ToOne(f) => assert !Silent(b.disk, f);
    case _ =>
  }

  /** The step a start-up takes next when nothing fails. */
  function SmoothEvent(b: Boot): Event {
    match b.stage
    case Off => Start(false)
    case Creating(_, done) => if done < 3 then Create(false) else Skip
    case Upgrading(_, at) => if at == 0 then ToOne(NO_TO1_FAULTS) else if at <= 3 then Add(NO_ADD_FAULTS) else Skip
    case Recording(_) => Finish(false)
    case Ready => Crash
  }

  /** The faults handed to the upgrade chain are none. */
  predicate SmoothFaults(to1: To1Faults, adds: seq<AddFaults>) {
    Smooth(ToOne(to1)) && forall i :: 0 <= i < |adds| ==> Smooth(Add(adds[i]))
  }

  predicate AllSmooth(events: seq<Event>) {
    forall i :: 0 <= i < |events| ==> Smooth(events[i])
  }

  /** A start-up never stops by itself: on any consistent database, any number of smooth steps
      lead on, the next one is always possible until the server is ready, and then the version
      is 4, recorded once in a new database, with every column. */
  lemma {:induction false} SmoothRunGoesOn(engine: Engine, d: Disk, events: seq<Event>)
    requires Consistent(d) && events != [] && Run(engine, Boot(d, Off), events).Some? && AllSmooth(events)
    ensures var b := Run(engine, Boot(d, Off), events).value;
      && !b.stage.Off? && Going(d, b)
      && (!b.stage.Ready? ==> Enabled(b, SmoothEvent(b)) && Smooth(SmoothEvent(b)))
      && (b.stage.Ready? ==> Version(b.disk) == 4 && Complete(b.disk) && (d.versions == [] ==> b.disk.versions == [4]))
  {
    var n := |events| - 1;
    if n > 0 {
      SmoothRunGoesOn(engine, d, events[..n]);
    }
    SmoothStep(engine, d, Run(engine, Boot(d, Off), events[..n]).value, events[n]);
    var b := Run(engine, Boot(d, Off), events).value;
    if b.stage.Ready? { HasAll(b.disk); }
  }

  /** A statement that fails with an error, or a commit doomed by one, leaves the database as it
      was before the step and ends the start-up. */
  lemma FailedStepChangesNothing(engine: Engine, b: Boot, e: Event)
    requires Enabled(b, e)
    requires match e
      case ToOne(f) =>
        f.query || f.version || (engine.Postgres? && (f.delete || exists k :: 0 <= k < |f.slots| && f.slots[k]))
      case Add(f) =>
        || f.begin || f.version
        || (f.alter.Some? && f.alter.value < |Added(b.stage.at)| && b.disk.columns.Some?
            && Added(b.stage.at)[f.alter.value] !in b.disk.columns.value)
      case Finish(fails) => fails && b.stage.seen == 0
      case Crash => true
      case _ => false
    ensures Next(engine, b, e) == Boot(b.disk, Off)
  {
  }

  /** A version that is read is not recorded a second time. */
  lemma {:induction false} VersionRecordedOnce(engine: Engine, d0: Disk, events: seq<Event>)
    requires Consistent(d0) && Version(d0) >= 1 && ReadsSucceed(events)
    requires Run(engine, Boot(d0, Off), events).Some?
    ensures var b := Run(engine, Boot(d0, Off), events).value;
      |b.disk.versions| == |d0.versions| && (b.stage.Recording? ==> b.stage.seen >= 1)
  {
    if events != [] {
      var n := |events| - 1;
      VersionRecordedOnce(engine, d0, events[..n]);
      StaysPastOne(engine, d0, events[..n]);
    }
  }

  // ---------------------------------------------------------- rebuilt rows

  /** No insert fails for any of the first n registrations. */
  predicate SlotsInserted(records: seq<Record>, f: To1Faults, n: nat)
    requires n <= |records|
  {
    forall i :: 0 <= i < n && records[i].subdomain != "" ==> !PairFails(f, i)
  }

  predicate PairFails(f: To1Faults, i: nat) { SlotFails(f, 2 * i) || SlotFails(f, 2 * i + 1) }

  lemma RebuiltNext(records: seq<Record>, n: nat)
    requires n < |records|
    ensures Rebuilt(records[..n + 1]) == Rebuilt(records[..n]) + InsertedFor(records[n].subdomain, NO_TO1_FAULTS, n)
  {
    assert records[..n + 1][..n] == records[..n];
    var e := EmptySlot(records[n].subdomain);
    assert [e] + [e] == [e, e];
  }

  lemma {:induction false} InsertedAll(records: seq<Record>, f: To1Faults, n: nat)
    requires n <= |records| && SlotsInserted(records, f, n)
    ensures Inserted(records, f, n) == Rebuilt(records[..n])
  {
    if n > 0 {
      InsertedAll(records, f, n - 1);
      RebuiltNext(records, n - 1);
    }
  }

  /** How many inserts fail for the first n registrations. */
  function FailedInserts(records: seq<Record>, f: To1Faults, n: nat): nat
    requires n <= |records|
  {
    if n == 0 then 0
    else
      FailedInserts(records, f, n - 1)
      + if records[n - 1].subdomain == "" then 0
        else (if SlotFails(f, 2 * (n - 1)) then 1 else 0) + (if SlotFails(f, 2 * (n - 1) + 1) then 1 else 0)
  }

  lemma InsertedForCount(sub: string, f: To1Faults, i: nat)
    ensures |InsertedFor(sub, NO_TO1_FAULTS, i)| == if sub == "" then 0 else 2
    ensures |InsertedFor(sub, f, i)|
         == if sub == "" then 0 else (if SlotFails(f, 2 * i) then 0 else 1) + (if SlotFails(f, 2 * i + 1) then 0 else 1)
  {
  }

  lemma {:induction false} InsertedCount(records: seq<Record>, f: To1Faults, n: nat)
    requires n <= |records|
    ensures |Inserted(records, f, n)| + FailedInserts(records, f, n) == |Rebuilt(records[..n])|
    ensures FailedInserts(records, f, n) == 0 <==> SlotsInserted(records, f, n)
  {
    if n > 0 {
      var k, sub := n - 1, records[n - 1].subdomain;
      InsertedCount(records, f, k);
      RebuiltNext(records, k);
      InsertedForCount(sub, f, k);
      assert SlotsInserted(records, f, n) <==> SlotsInserted(records, f, k) && (sub == "" || !PairFails(f, k));
    }
  }

  /** Old rows that were not deleted stand in for the inserts that failed: as many, where they
      would have come, with the other inserts behind them. */
  predicate StandIn(d: Disk, f: To1Faults) {
    var rebuilt, m := Rebuilt(d.records), |d.txt|;
    && m == FailedInserts(d.records, f, |d.records|) && m <= |rebuilt|
    && d.txt == rebuilt[..m] && Inserted(d.records, f, |d.records|) == rebuilt[m..]
  }

  lemma Splits<T>(a: seq<T>, b: seq<T>, whole: seq<T>)
    ensures a + b == whole <==> |a| + |b| == |whole| && a == whole[..|a|] && b == whole[|a|..]
  {
    if a + b == whole {
      assert whole[..|a|] == a && whole[|a|..] == b;
    }
    if |a| <= |whole| {
      assert whole == whole[..|a|] + whole[|a|..];
    }
  }

  /** The step to version 1 leaves two empty slots per registration exactly if: its commit is
      lost and they were there before; it deletes the old rows and no insert it makes fails; or
      it does not delete them, and they stand in for the inserts that fail. */
  lemma RebuiltExactly(engine: Engine, d: Disk, f: To1Faults)
    requires d.txtTable && !To1Fails(engine, d, f)
    ensures UpgradeTo1(engine, d, f).txt == Rebuilt(d.records)
       <==> if f.commitLost then d.txt == Rebuilt(d.records)
            else if f.delete then StandIn(d, f)
            else SlotsInserted(d.records, f, |d.records|)
    ensures f.delete && SlotsInserted(d.records, f, |d.records|) ==> (StandIn(d, f) <==> d.txt == [])
  {
    var n := |d.records|;
    assert d.records[..n] == d.records;
    InsertedCount(d.records, f, n);
    Splits(d.txt, Inserted(d.records, f, n), Rebuilt(d.records));
    if SlotsInserted(d.records, f, n) {
      InsertedAll(d.records, f, n);
    }
  }

  /** No dropped statement of the step to version 1 fails and its commit is not lost.
      Statements may still fail with an error. */
  predicate Honest(d: Disk, f: To1Faults) {
    !f.commitLost && !Silent(d, f)
  }

  ghost predicate HonestSteps(engine: Engine, b: Boot, events: seq<Event>) {
    forall k :: 0 <= k < |events| && events[k].ToOne? && Run(engine, b, events[..k]).Some? ==>
      Honest(Run(engine, b, events[..k]).value.disk, events[k].to1)
  }

  /** The rows are as they were until the step to version 1 has been taken, then rebuilt. */
  predicate Rebuilding(d0: Disk, b: Boot) {
    && b.disk.records == d0.records
    && (b.disk.columns.None? ==> b.disk.records == [])
    && (b.disk.txt == d0.txt || b.disk.txt == Rebuilt(d0.records))
    && (!b.disk.txtTable ==> b.disk.txt == [] && d0.txt == [])
    && (Version(b.disk) >= 1 ==> b.disk.txt == Rebuilt(d0.records) && b.disk.txtTable)
    && match b.stage
       case Off => true
       case Creating(seen, _) => seen >= 1 ==> b.disk.txt == Rebuilt(d0.records) && b.disk.txtTable
       case Upgrading(_, at) => at >= 1 ==> b.disk.txt == Rebuilt(d0.records) && b.disk.txtTable
       case _ => b.disk.txt == Rebuilt(d0.records) && b.disk.txtTable
  }

  lemma ToOneRebuilds(engine: Engine, d0: Disk, b: Boot, f: To1Faults)
    requires Rebuilding(d0, b) && Enabled(b, ToOne(f)) && Honest(b.disk, f)
    ensures Rebuilding(d0, Next(engine, b, ToOne(f)))
  {
    InsertedAll(b.disk.records, f, |b.disk.records|);
    assert b.disk.records[..|b.disk.records|] == b.disk.records;
  }

  lemma StepRebuilds(engine: Engine, d0: Disk, b: Boot, e: Event)
    requires Rebuilding(d0, b) && Enabled(b, e) && (e.ToOne? ==> Honest(b.disk, e.to1))
    ensures Rebuilding(d0, Next(engine, b, e))
  {
    match e
    case ToOne(f) => ToOneRebuilds(engine, d0, b, f);
    case _ =>
  }

  /** The rows of a database without a version are the old ones or two empty slots per
      registration at every moment, and the latter once a start-up finishes, whichever reads,
      creations and commits of columns fail: it only takes honest steps to version 1. */
  lemma {:induction false} RowsRebuilt(engine: Engine, d0: Disk, events: seq<Event>)
    requires Consistent(d0) && Version(d0) == 0 && HonestSteps(engine, Boot(d0, Off), events)
    requires Run(engine, Boot(d0, Off), events).Some?
    ensures Rebuilding(d0, Run(engine, Boot(d0, Off), events).value)
  {
    if events != [] {
      var n := |events| - 1;
      assert HonestSteps(engine, Boot(d0, Off), events[..n]) by {
        assert forall k :: 0 <= k < n ==> events[..n][..k] == events[..k];
      }
      RowsRebuilt(engine, d0, events[..n]);
      StepRebuilds(engine, d0, Run(engine, Boot(d0, Off), events[..n]).value, events[n]);
    }
  }

  lemma LastIsNew(records: seq<Record>, sub: string)
    requires records != []
    requires forall i, j :: 0 <= i < j < |records| ==> records[i].subdomain != records[j].subdomain
    ensures var n := |records| - 1;
      && HasSubdomain(records, sub) == (HasSubdomain(records[..n], sub) || sub == records[n].subdomain)
      && !HasSubdomain(records[..n], records[n].subdomain)
  {
    var n := |records| - 1;
    AppendRegisters(records[..n], records[n], sub);
    assert records == records[..n] + [records[n]];
  }

  /** The rebuilt rows are two empty slots for each registration, and nothing else. */
  lemma {:induction false} RebuiltIsTwoRows(records: seq<Record>, sub: string)
    requires forall i :: 0 <= i < |records| ==> records[i].subdomain != ""
    requires forall i, j :: 0 <= i < j < |records| ==> records[i].subdomain != records[j].subdomain
    ensures Slots(Rebuilt(records), sub) == if HasSubdomain(records, sub) then [EmptySlot(sub), EmptySlot(sub)] else []
  {
    if records != [] {
      var n := |records| - 1;
      var own := records[n].subdomain;
      RebuiltIsTwoRows(records[..n], sub);
      LastIsNew(records, sub);
      var pair := [EmptySlot(own), EmptySlot(own)];
      assert Rebuilt(records) == Rebuilt(records[..n]) + pair;
      SlotsAppend(Rebuilt(records[..n]), pair, sub);
      SlotPair(own, sub);
    }
  }

  lemma SlotPair(own: string, sub: string)
    ensures Slots([EmptySlot(own), EmptySlot(own)], sub) == if own == sub then [EmptySlot(own), EmptySlot(own)] else []
  {
    SlotsAppend([EmptySlot(own)], [EmptySlot(own)], sub);
    SlotOne(EmptySlot(own), sub);
    assert [EmptySlot(own)] + [EmptySlot(own)] == [EmptySlot(own), EmptySlot(own)];
  }

  /** Subdomains are distinct and not empty, as the unique column and the id generator make them. */
  predicate ProperNames(records: seq<Record>) {
    && (forall i :: 0 <= i < |records| ==> records[i].subdomain != "")
    && (forall i, j :: 0 <= i < j < |records| ==> records[i].subdomain != records[j].subdomain)
  }

  /** What a start-up hands the running store. Sound credentials stay sound in every run; two
      rows per registration are kept if no read of the version fails, and restored in a
      database without a version by honest steps to version 1. */
  lemma HandsOverSoundTables(engine: Engine, d0: Disk, events: seq<Event>)
    requires Consistent(d0) && Run(engine, Boot(d0, Off), events).Some?
    ensures var b := Run(engine, Boot(d0, Off), events).value;
      var before, after := Tables(d0.records, d0.txt), Tables(b.disk.records, b.disk.txt);
      && (CredentialsSound(before) ==> CredentialsSound(after))
      && (Version(d0) >= 1 && ReadsSucceed(events) && TwoRows(before) ==> TwoRows(after))
      && (Version(d0) == 0 && HonestSteps(engine, Boot(d0, Off), events) && b.stage.Ready? && ProperNames(d0.records)
          ==> TwoRows(after))
  {
    RegistrationsSurvive(engine, d0, events);
    if Version(d0) >= 1 && ReadsSucceed(events) {
      ValuesSurvive(engine, d0, events);
    }
    if Version(d0) == 0 && HonestSteps(engine, Boot(d0, Off), events) && ProperNames(d0.records) {
      RowsRebuilt(engine, d0, events);
      forall sub ensures |Slots(Rebuilt(d0.records), sub)| == if HasSubdomain(d0.records, sub) then 2 else 0 {
        RebuiltIsTwoRows(d0.records, sub);
      }
    }
  }

  // ------------------------------------------------ where the provisos bite

  /** After a step that adds columns, whatever the server believes, the recorded version has
      its columns exactly if the commit was lost or the columns of the believed version were
      there. */
  lemma RecordedBackedExactly(engine: Engine, b: Boot, f: AddFaults)
    requires Enabled(b, Add(f)) && !AddFails(b.disk, Added(b.stage.at), f)
    requires b.disk.versions != [] && HasColumns(b.disk, Version(b.disk))
    ensures var after := Next(engine, b, Add(f)).disk;
      HasColumns(after, Version(after)) <==> f.commitLost || Needed(b.stage.at) <= b.disk.columns.value
  {
    var at, columns := b.stage.at, b.disk.columns.value;
    if Needed(at) <= columns {
      NeededNext(at, columns);
    } else if !f.commitLost {
      var c :| c in Needed(at) && c !in columns;
      assert c in Needed(at + 1) && c !in Added(at);
    }
  }

  /** Later columns without which a lost commit can be recorded over. The last step's own
      columns only matter before there is any version to update. */
  ghost predicate Exposed(d: Disk) {
    d.columns.Some? && !(Needed(if d.versions == [] then 4 else 3) <= d.columns.value)
  }

  /** No run from here gets a recorded version ahead of its columns. */
  ghost predicate Sheltered(b: Boot) {
    var d := b.disk;
    && !Exposed(d) && HasColumns(d, Version(d)) && Version(d) <= DB_VERSION
    && match b.stage
       case Creating(seen, _) => seen >= 1 ==> d.columns.Some?
       case Upgrading(_, at) => at >= 1 ==> d.columns.Some?
       case Recording(_) => d.columns.Some?
       case _ => true
  }

  lemma AddStaysSheltered(engine: Engine, b: Boot, f: AddFaults)
    requires Sheltered(b) && Enabled(b, Add(f))
    ensures Sheltered(Next(engine, b, Add(f)))
  {
    var at := b.stage.at;
    if !AddFails(b.disk, Added(at), f) && !f.commitLost {
      var columns := b.disk.columns.value;
      assert Needed(3) <= columns;
      assert Needed(at + 1) <= Needed(3) + (set c | c in Added(at));
    }
  }

  lemma StepStaysSheltered(engine: Engine, b: Boot, e: Event)
    requires Sheltered(b) && Enabled(b, e)
    ensures Sheltered(Next(engine, b, e))
  {
    match e
    case Add(f) => AddStaysSheltered(engine, b, f);
    case _ =>
  }

  lemma {:induction false} StaysSheltered(engine: Engine, d: Disk, events: seq<Event>)
    requires Consistent(d) && !Exposed(d) && Run(engine, Boot(d, Off), events).Some?
    ensures Sheltered(Run(engine, Boot(d, Off), events).value)
  {
    if events != [] {
      var n := |events| - 1;
      StaysSheltered(engine, d, events[..n]);
      StepStaysSheltered(engine, Run(engine, Boot(d, Off), events[..n]).value, events[n]);
    }
  }

  /** The start-up finishes, and the version it leaves recorded lacks some of its columns. */
  ghost predicate Outrun(b: Boot) {
    b.stage.Ready? && !HasColumns(b.disk, Version(b.disk))
  }

  /** A start-up that has lost the commits of its first steps and is about to take the last. */
  lemma LostRun(engine: Engine, d: Disk) returns (events: seq<Event>, b: Boot)
    requires Consistent(d) && Exposed(d)
    ensures Run(engine, Boot(d, Off), events) == Some(b)
    ensures b.stage == Upgrading(Version(d), 3) && b.disk.columns == d.columns
    ensures b.disk.versionTable && |b.disk.versions| == |d.versions|
  {
    var lost := NO_ADD_FAULTS.(commitLost := true);
    events, b := Creation(engine, d, false);
    if Version(d) == 0 {
      events, b := Extend(engine, d, events, b, ToOne(NO_TO1_FAULTS));
    }
    if Version(d) <= 1 {
      events, b := Extend(engine, d, events, b, Add(lost));
    }
    events, b := Extend(engine, d, events, b, Add(lost));
  }

  lemma OutrunRun(engine: Engine, d: Disk) returns (events: seq<Event>, b: Boot)
    requires Consistent(d) && Exposed(d)
    ensures Run(engine, Boot(d, Off), events) == Some(b) && Outrun(b)
  {
    var lost := NO_ADD_FAULTS.(commitLost := true);
    events, b := LostRun(engine, d);
    events, b := Extend(engine, d, events, b, Add(if d.versions == [] then lost else NO_ADD_FAULTS));
    events, b := Extend(engine, d, events, b, Skip);
    events, b := Extend(engine, d, events, b, Finish(false));
  }

  /** The error of a commit is dropped. Exactly the exposed databases have a run, with nothing
      worse in it than lost commits, that finishes with a version ahead of its columns. */
  lemma OutrunExactly(engine: Engine, d: Disk)
    requires Consistent(d)
    ensures Exposed(d) <==> exists events ::
              Run(engine, Boot(d, Off), events).Some? && Outrun(Run(engine, Boot(d, Off), events).value)
    ensures !Exposed(d) ==> forall events :: Run(engine, Boot(d, Off), events).Some? ==>
              var after := Run(engine, Boot(d, Off), events).value.disk; HasColumns(after, Version(after))
  {
    if Exposed(d) {
      var events, b := OutrunRun(engine, d);
      assert Run(engine, Boot(d, Off), events).value == b;
    } else {
      forall events | Run(engine, Boot(d, Off), events).Some?
        ensures Sheltered(Run(engine, Boot(d, Off), events).value)
      {
        StaysSheltered(engine, d, events);
      }
    }
  }

  /** The step a start-up takes once the tables are there. */
  function FirstStep(at: nat, to1: To1Faults, add: AddFaults): Event {
    if at == 0 then ToOne(to1) else if at <= 3 then Add(add) else Skip
  }

  /** Reading the version ignores errors too, and then the server takes any database for
      version 0. Exactly when the first step of a start-up keeps the TXT values, if no
      dropped statement fails: the read succeeds, the step fails or its commit is lost, or
      every value was an empty slot anyway. */
  lemma FirstStepKeepsExactly(engine: Engine, d: Disk, readFails: bool, to1: To1Faults, add: AddFaults)
    requires Consistent(d) && Version(d) >= 1 && !Silent(d, to1)
    ensures var seen := if readFails then 0 else Version(d);
      var start, step := Boot(d, Upgrading(seen, seen)), FirstStep(seen, to1, add);
      && Run(engine, Boot(d, Off), Opening(readFails)) == Some(start) && Enabled(start, step)
      && (Next(engine, start, step).disk.txt == d.txt
          <==> !readFails || To1Fails(engine, d, to1) || to1.commitLost || d.txt == Rebuilt(d.records))
  {
    var events, start := Creation(engine, d, readFails);
    InsertedAll(d.records, to1, |d.records|);
    assert d.records[..|d.records|] == d.records;
  }

  /** No statement whose error is dropped fails in a step to version 1. */
  predicate NothingDropped(events: seq<Event>) {
    forall i :: 0 <= i < |events| && events[i].ToOne? ==>
      !events[i].to1.delete && forall k :: 0 <= k < |events[i].to1.slots| ==> !events[i].to1.slots[k]
  }

  /** Some step to version 1 goes through and is committed. */
  predicate Rewrites(events: seq<Event>) {
    exists i :: 0 <= i < |events| && Rewriting(events[i])
  }

  predicate Rewriting(e: Event) {
    e.ToOne? && !e.to1.query && !e.to1.version && !e.to1.commitLost
  }

  /** All tables are there, and the TXT rows are the given ones. */
  predicate Holds(d0: Disk, d: Disk, txt: seq<TxtRow>) {
    d.txt == txt && d.records == d0.records && d.txtTable && d.versionTable && d.columns.Some?
  }

  lemma StepRewrites(engine: Engine, d0: Disk, b: Boot, e: Event, txt: seq<TxtRow>)
    requires Holds(d0, b.disk, txt) && Enabled(b, e) && NothingDropped([e])
    ensures Holds(d0, Next(engine, b, e).disk, if Rewriting(e) then Rebuilt(d0.records) else txt)
  {
    if e.ToOne? {
      assert [e][0] == e;
      InsertedAll(d0.records, e.to1, |d0.records|);
      assert d0.records[..|d0.records|] == d0.records;
    }
  }

  lemma RewritesSnoc(events: seq<Event>, e: Event)
    ensures Rewrites(events + [e]) <==> Rewrites(events) || Rewriting(e)
    ensures NothingDropped(events + [e]) <==> NothingDropped(events) && NothingDropped([e])
  {
    var all := events + [e];
    assert all[|events|] == e == [e][0];
    assert forall i :: 0 <= i < |events| ==> all[i] == events[i];
  }

  lemma {:induction false} RunRewrites(engine: Engine, d0: Disk, events: seq<Event>)
    requires Consistent(d0) && Version(d0) >= 1 && NothingDropped(events)
    requires Run(engine, Boot(d0, Off), events).Some?
    ensures var d := Run(engine, Boot(d0, Off), events).value.disk;
      Holds(d0, d, if Rewrites(events) then Rebuilt(d0.records) else d0.txt)
  {
    if events == [] {
      assert HasColumns(d0, d0.versions[0]);
    } else {
      var n := |events| - 1;
      assert events == events[..n] + [events[n]];
      RewritesSnoc(events[..n], events[n]);
      RunRewrites(engine, d0, events[..n]);
      StepRewrites(engine, d0, Run(engine, Boot(d0, Off), events[..n]).value, events[n],
                   if Rewrites(events[..n]) then Rebuilt(d0.records) else d0.txt);
    }
  }

  /** Exactly which runs keep the TXT values of a database that has a version: those in which
      no step to version 1 goes through, unless every value was an empty slot anyway. Such a
      step takes a failed read of the version before it. */
  lemma ValuesKeptExactly(engine: Engine, d0: Disk, events: seq<Event>)
    requires Consistent(d0) && Version(d0) >= 1 && NothingDropped(events)
    requires Run(engine, Boot(d0, Off), events).Some?
    ensures Run(engine, Boot(d0, Off), events).value.disk.txt == d0.txt
       <==> !Rewrites(events) || d0.txt == Rebuilt(d0.records)
    ensures ReadsSucceed(events) ==> forall i :: 0 <= i < |events| ==> !events[i].ToOne?
  {
    RunRewrites(engine, d0, events);
    if ReadsSucceed(events) {
      NoToOne(engine, d0, events);
    }
  }

  lemma {:induction false} NoToOne(engine: Engine, d0: Disk, events: seq<Event>)
    requires Consistent(d0) && Version(d0) >= 1 && ReadsSucceed(events)
    requires Run(engine, Boot(d0, Off), events).Some?
    ensures forall i :: 0 <= i < |events| ==> !events[i].ToOne?
  {
    if events != [] {
      var n := |events| - 1;
      NoToOne(engine, d0, events[..n]);
      StaysPastOne(engine, d0, events[..n]);
      assert forall i :: 0 <= i < n ==> events[i] == events[..n][i];
    }
  }

  function Opening(readFails: bool): seq<Event> {
    [Start(readFails), Create(false), Create(false), Create(false), Skip]
  }

  /** The start of a server on a database that has its records table. */
  lemma Creation(engine: Engine, d: Disk, readFails: bool) returns (events: seq<Event>, b: Boot)
    requires d.columns.Some? && (!d.txtTable ==> d.txt == [])
    ensures var seen := if readFails then 0 else Version(d);
      b == Boot(d.(versionTable := true, txtTable := true), Upgrading(seen, seen))
    ensures events == Opening(readFails) && Run(engine, Boot(d, Off), events) == Some(b)
  {
    events, b := [], Boot(d, Off);
    events, b := Extend(engine, d, events, b, Start(readFails));
    events, b := Extend(engine, d, events, b, Create(false));
    events, b := Extend(engine, d, events, b, Create(false));
    events, b := Extend(engine, d, events, b, Create(false));
    events, b := Extend(engine, d, events, b, Skip);
  }

  const OLD_RECORD := Record("u", Hash("p", 0), "s", [], "", 0, 0, NoBlob, "")

  /** A version 1 database with one registration and one value: it is exposed to a lost
      commit, and a start-up of which only the read of the version fails loses the value. */
  lemma OldDatabaseSuffers(engine: Engine)
    ensures var value := TxtRow("s", "v", 1);
      var d := Disk(true, [1], Some({}), [OLD_RECORD], true, [EmptySlot("s"), value]);
      var end := Run(engine, Boot(d, Off), Opening(true) + [ToOne(NO_TO1_FAULTS)]);
      && Consistent(d) && Exposed(d)
      && end.Some? && value !in end.value.disk.txt && end.value.disk.txt != d.txt
  {
    var value := TxtRow("s", "v", 1);
    var d := Disk(true, [1], Some({}), [OLD_RECORD], true, [EmptySlot("s"), value]);
    assert EncPassword in Needed(3);
    OldRebuilt();
    FirstStepKeepsExactly(engine, d, true, NO_TO1_FAULTS, NO_ADD_FAULTS);
    RunSnoc(engine, Boot(d, Off), Opening(true), ToOne(NO_TO1_FAULTS));
  }

  lemma OldRebuilt()
    ensures Rebuilt([OLD_RECORD]) == [EmptySlot("s"), EmptySlot("s")]
    ensures Inserted([OLD_RECORD], NO_TO1_FAULTS, 1) == [EmptySlot("s"), EmptySlot("s")]
  {
    var records := [OLD_RECORD];
    assert records[..0] == [] && records[..1] == records && Rebuilt([]) == [];
    InsertedAll(records, NO_TO1_FAULTS, 1);
  }
}

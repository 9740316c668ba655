/** The gate in front of /update, and what it means for the TXT values DNS serves. */
module Api {
  import opened Options
  import opened Text
  import opened Store
  import opened StoreLaws
  import Nameserver

  /** An update request. `username` is none when the header is not a UUID; `allows` says
      from which registrations' address lists the request may come. */
  datatype Request = Request(
    username: Option<string>,
    key: string,
    allows: Record -> bool,
    subdomain: string,
    txt: string,
    sourceIP: string)

  datatype Status = Forbidden | BadSubdomain | BadTxt | DbFailed | Updated

  /** The registration whose user name and password the request carries. */
  function GetUser(records: seq<Record>, username: Option<string>, key: string): Option<Record> {
    if username.None? || !ValidKey(key) then None
    else
      var user := FindUser(records, username.value);
      if user.Some? && CorrectPassword(key, user.value.hash) then user else None
  }

  method GetUserFromRequest(db: Database, username: Option<string>, key: string, readFails: bool)
    returns (user: Option<Record>)
    ensures user == if readFails then None else GetUser(db.records, username, key)
  {
    if username.None? { return None; }
    if ValidKey(key) {
      var dbuser := db.GetByUsername(username.value, readFails);
      if dbuser.None? { return None; }
      if CorrectPassword(key, dbuser.value.hash) { return dbuser; }
      return None;
    }
    return None;
  }

  /** The request names its own registration's subdomain, from an allowed address. */
  predicate Authorized(records: seq<Record>, req: Request) {
    var user := GetUser(records, req.username, req.key);
    user.Some? && req.allows(user.value) && user.value.subdomain == req.subdomain
  }

  method Auth(db: Database, req: Request, readFails: bool) returns (userOK: bool)
    ensures userOK <==> !readFails && Authorized(db.records, req)
  {
    userOK := false;
    var user := GetUserFromRequest(db, req.username, req.key, readFails);
    if user.Some? {
      if req.allows(user.value) {
        if user.value.subdomain == req.subdomain { userOK := true; }
      }
    }
  }

  /** The text of the request is fit to be stored. */
  predicate WellFormed(req: Request) {
    ValidSubdomain(req.subdomain) && ValidTXT(req.txt)
  }

  /** The handler behind the gate, for a request that was let through; by now the tables may
      have changed. */
  method WebUpdatePost(db: Database, req: Request, now: int, updateFails: bool, sourceFails: bool)
    returns (status: Status, ghost mid: Tables)
    modifies db
    ensures status == if !ValidSubdomain(req.subdomain) then BadSubdomain
                      else if !ValidTXT(req.txt) then BadTxt
                      else if updateFails then DbFailed else Updated
    ensures if WellFormed(req)
            then Step(db.engine, old(db.Contents()), mid, UpdateOp(req.subdomain, req.txt, now, updateFails))
            else mid == old(db.Contents())
    ensures if status.Updated?
            then Step(db.engine, mid, db.Contents(), SourceOp(req.subdomain, req.sourceIP, sourceFails))
            else db.Contents() == mid
  {
    mid := db.Contents();
    if !ValidSubdomain(req.subdomain) {
      status := BadSubdomain;
    } else if !ValidTXT(req.txt) {
      status := BadTxt;
    } else {
      var ok := db.Update(req.subdomain, req.txt, now, updateFails);
      mid := db.Contents();
      if !ok {
        status := DbFailed;
      } else {
        var noted := db.SetLastSource(req.subdomain, req.sourceIP, sourceFails);
        status := Updated;
      }
    }
  }

  // ------------------------------------------------ management read and login

  lemma {:induction false} FindUserFinds(records: seq<Record>, r: Record)
    requires UniqueUsers(records) && r in records
    ensures FindUser(records, r.username) == Some(r)
    decreases |records|
  {
    var i :| 0 <= i < |records| && records[i] == r;
    if i > 0 {
      assert records[0].username != r.username;
      assert records[1..][i - 1] == r;
      assert forall k, l :: 0 <= k < l < |records[1..]| ==>
        records[1..][k] == records[k + 1] && records[1..][l] == records[l + 1];
      FindUserFinds(records[1..], r);
    }
  }

  /** In every run, any password the management interface shows is accepted by the API for
      that registration, whichever key the server runs with. */
  lemma ShownPasswordWorks(engine: Engine, trace: seq<Tables>, ops: seq<Op>, n: nat, cipher: Cipher, r: Record)
    requires Behaviour(engine, trace, ops) && n < |trace| && CredentialsSound(trace[0])
    requires forall i :: 0 <= i < |ops| ==> Drawn(ops[i])
    requires r in trace[n].records
    ensures var password := ScanDomain(cipher, trace[n], r).password;
      password != "" ==> GetUser(trace[n].records, Some(r.username), password) == Some(r)
  {
    CredentialsAlways(engine, trace, ops, n);
    FindUserFinds(trace[n].records, r);
  }

  /** And exactly when the copy was sealed under the present key it is shown at all. */
  lemma ShownExactly(t: Tables, cipher: Cipher, r: Record)
    requires CredentialsSound(t) && r in t.records
    ensures ScanDomain(cipher, t, r).password
         == (if r.enc.Sealed? && cipher == Some(r.enc.key) then r.hash.password else "")
    ensures r.enc.Sealed? ==> DecryptOrEmpty(Some(r.enc.key), r.enc) == r.hash.password
  {
    assert Recoverable(r);
  }

  // ------------------------------------------------------------- provenance

  /** A step of the running server. A request is admitted on what the tables hold then, and
      writes and notes its source in later steps, among those of other requests; `admitted`
      is the position of its admission. The DNS check writes a throwaway token of its own. */
  datatype Event =
    | Admit(req: Request, readFails: bool)
    | Write(admitted: nat, now: int, fails: bool)
    | Note(admitted: nat, fails: bool)
    | Check(sub: string, draws: seq<nat>, now: int, fails: bool)
    | Manage(op: Op)

  /** Event k let a well-formed request through the gate. */
  predicate Admitted(trace: seq<Tables>, events: seq<Event>, k: nat) {
    && k < |events| && k < |trace| && events[k].Admit? && !events[k].readFails
    && Authorized(trace[k].records, events[k].req) && WellFormed(events[k].req)
  }

  /** Event i takes the tables trace[i] to trace[i + 1]. */
  ghost predicate Happens(engine: Engine, trace: seq<Tables>, events: seq<Event>, i: nat)
    requires i < |events| < |trace|
  {
    var t, t' := trace[i], trace[i + 1];
    match events[i]
    case Admit(_, _) => t' == t
    case Write(k, now, fails) =>
      && k < i && Admitted(trace, events, k)
      && (forall j :: 0 <= j < i && events[j].Write? ==> events[j].admitted != k)
      && Step(engine, t, t', UpdateOp(events[k].req.subdomain, events[k].req.txt, now, fails))
    case Note(k, fails) =>
      && k < i && Admitted(trace, events, k)
      && (exists j :: 0 <= j < i && events[j].Write? && events[j].admitted == k && !events[j].fails)
      && Step(engine, t, t', SourceOp(events[k].req.subdomain, events[k].req.sourceIP, fails))
    case Check(sub, draws, now, fails) =>
      AreDraws(draws, 43) && Step(engine, t, t', UpdateOp(sub, FromDraws(draws), now, fails))
    case Manage(op) => !op.UpdateOp? && Step(engine, t, t', op)
  }

  ghost predicate History(engine: Engine, trace: seq<Tables>, events: seq<Event>) {
    |trace| == |events| + 1 && forall i :: 0 <= i < |events| ==> Happens(engine, trace, events, i)
  }

  /** Which statements of one request fail. */
  datatype RequestFaults = RequestFaults(read: bool, update: bool, source: bool)

  /** The events of one request when nothing else runs. */
  function RequestEvents(t: Tables, req: Request, now: int, f: RequestFaults): seq<Event> {
    var admit := Admit(req, f.read);
    if f.read || !Authorized(t.records, req) || !WellFormed(req) then [admit]
    else if f.update then [admit, Write(0, now, true)]
    else [admit, Write(0, now, false), Note(0, f.source)]
  }

  /** The whole route, gate and handler: its status, and the history it makes. */
  method ServeUpdate(db: Database, req: Request, now: int, f: RequestFaults)
    returns (status: Status, ghost trace: seq<Tables>)
    modifies db
    ensures status == if f.read || !Authorized(old(db.records), req) then Forbidden
                      else if !ValidSubdomain(req.subdomain) then BadSubdomain
                      else if !ValidTXT(req.txt) then BadTxt
                      else if f.update then DbFailed else Updated
    ensures var events := RequestEvents(old(db.Contents()), req, now, f);
      && History(db.engine, trace, events)
      && trace[0] == old(db.Contents()) && trace[|events|] == db.Contents()
  {
    ghost var before := db.Contents();
    var userOK := Auth(db, req, f.read);
    if !userOK {
      return Forbidden, [before, before];
    }
    ghost var mid;
    status, mid := WebUpdatePost(db, req, now, f.update, f.source);
    trace := if !WellFormed(req) then [before, before]
             else if f.update then [before, before, mid] else [before, before, mid, db.Contents()];
    ghost var events := RequestEvents(before, req, now, f);
    assert WellFormed(req) ==> Admitted(trace, events, 0) && Happens(db.engine, trace, events, 1);
    assert status.Updated? ==> events[1].Write? && Happens(db.engine, trace, events, 2);
  }

  /** The event wrote this value to this subdomain: an update by a request that had been
      authenticated for the subdomain, or a DNS check on it. */
  predicate Wrote(trace: seq<Tables>, events: seq<Event>, i: nat, sub: string, value: string)
    requires i < |events|
  {
    match events[i]
    case Write(k, _, fails) =>
      !fails && k < i && Admitted(trace, events, k) && events[k].req.subdomain == sub && events[k].req.txt == value
    case Check(s, draws, _, fails) => !fails && s == sub && AreDraws(draws, 43) && FromDraws(draws) == value
    case _ => false
  }

  /** The value has the form of an ACME token, and an earlier event accounts for it. */
  ghost predicate AccountedFor(trace: seq<Tables>, events: seq<Event>, n: nat, sub: string, value: string)
    requires n <= |events| < |trace|
  {
    && |value| == 43 && AllBase64Url(value)
    && exists i :: 0 <= i < n && Wrote(trace, events, i, sub, value)
  }

  /** One step leaves each row as it was, makes it an empty slot, or writes it. */
  lemma StepRows(engine: Engine, t: Tables, t': Tables, op: Op, row: TxtRow)
    requires Step(engine, t, t', op) && row in t'.txt
    ensures row in t.txt || row.value == ""
            || (op.UpdateOp? && !op.fails && row.subdomain == op.sub && row.value == op.value)
  {
    match op
    case RegisterOp(r, f) =>
    case UpdateOp(sub, value, now, fails) =>
    case DeleteOp(sub, f) => WithoutSlotsKeep(t.txt, sub);
    case _ =>
  }

  lemma {:induction false} WithoutSlotsKeep(txt: seq<TxtRow>, gone: string)
    ensures forall row :: row in WithoutSlots(txt, gone) ==> row in txt
  {
    if txt != [] { WithoutSlotsKeep(txt[..|txt| - 1], gone); }
  }

  lemma EventRows(engine: Engine, trace: seq<Tables>, events: seq<Event>, i: nat, row: TxtRow)
    requires i < |events| < |trace| && Happens(engine, trace, events, i) && row in trace[i + 1].txt
    ensures row in trace[i].txt || row.value == ""
            || (|row.value| == 43 && AllBase64Url(row.value) && Wrote(trace, events, i, row.subdomain, row.value))
  {
    var t, t' := trace[i], trace[i + 1];
    match events[i]
    case Admit(_, _) =>
    case Write(k, now, fails) =>
      ValidTXTExactly(events[k].req.txt);
      StepRows(engine, t, t', UpdateOp(events[k].req.subdomain, events[k].req.txt, now, fails), row);
    case Note(k, fails) =>
      StepRows(engine, t, t', SourceOp(events[k].req.subdomain, events[k].req.sourceIP, fails), row);
    case Check(sub, draws, now, fails) =>
      StepRows(engine, t, t', UpdateOp(sub, FromDraws(draws), now, fails), row);
    case Manage(op) => StepRows(engine, t, t', op, row);
  }

  /** Starting from empty slots and with any number of requests running at once, every value
      ever in the store has the form of an ACME token and was written by a request that had
      been authenticated for that subdomain, or by the DNS check on it. */
  lemma {:induction false} ValuesAccountedFor(engine: Engine, trace: seq<Tables>, events: seq<Event>, n: nat,
                                              row: TxtRow)
    requires History(engine, trace, events) && n <= |events|
    requires forall r :: r in trace[0].txt ==> r.value == ""
    requires row in trace[n].txt && row.value != ""
    ensures AccountedFor(trace, events, n, row.subdomain, row.value)
    decreases n
  {
    EventRows(engine, trace, events, n - 1, row);
    if row in trace[n - 1].txt {
      ValuesAccountedFor(engine, trace, events, n - 1, row);
    }
  }

  /** Between admission and write anything may happen. A registration deleted in between
      gets no value: the write finds no row. */
  lemma DeletedGetsNoValue(engine: Engine, trace: seq<Tables>, events: seq<Event>, i: nat)
    requires i < |events| < |trace| && events[i].Write? && Happens(engine, trace, events, i)
    requires TwoRows(trace[i]) && !HasSubdomain(trace[i].records, events[events[i].admitted].req.subdomain)
    ensures trace[i + 1].txt == trace[i].txt
  {
    var sub := events[events[i].admitted].req.subdomain;
    assert |Slots(trace[i].txt, sub)| == 0;
  }

  /** One rotated in between does: its write is only known to have been authenticated when it
      was admitted. */
  lemma RotatedStillWrites(engine: Engine, t: Tables, req: Request, hash: Hash, enc: Blob)
    returns (trace: seq<Tables>, events: seq<Event>)
    requires Authorized(t.records, req) && WellFormed(req) && hash.password != req.key
    requires UniqueUsers(t.records) && Slots(t.txt, req.subdomain) != []
    ensures History(engine, trace, events) && trace[0] == t && |events| == 3
    ensures events[0] == Admit(req, false) && events[2] == Write(0, 0, false)
    ensures !Authorized(trace[2].records, req) && TxtRow(req.subdomain, req.txt, 0) in trace[3].txt
  {
    var rotate := RotateOp(req.subdomain, hash, enc, 0, false);
    var t2 := t.(records := ChangeRecords(t.records, req.subdomain, Rehashed(hash, enc, 0)));
    var i := OldestExists(t.txt, req.subdomain);
    var row := TxtRow(req.subdomain, req.txt, 0);
    var t3 := t2.(txt := t.txt[i := row]);
    trace, events := [t, t, t2, t3], [Admit(req, false), Manage(rotate), Write(0, 0, false)];
    RotationLocksOut(t.records, req, hash, enc);
    assert Admitted(trace, events, 0);
    assert Updates(t2.txt, t3.txt, req.subdomain, req.txt, 0);
    assert Happens(engine, trace, events, 0) && Happens(engine, trace, events, 1) && Happens(engine, trace, events, 2);
    assert t3.txt[i] == row;
    assert History(engine, trace, events);
  }

  /** After a rotation the old password no longer authenticates. */
  lemma RotationLocksOut(records: seq<Record>, req: Request, hash: Hash, enc: Blob)
    requires Authorized(records, req) && UniqueUsers(records) && hash.password != req.key
    ensures !Authorized(ChangeRecords(records, req.subdomain, Rehashed(hash, enc, 0)), req)
  {
    var changed := ChangeRecords(records, req.subdomain, Rehashed(hash, enc, 0));
    var user := FindUser(records, req.username.value).value;
    FoundUser(records, req.username.value);
    var i :| 0 <= i < |records| && records[i] == user;
    assert forall k :: 0 <= k < |changed| ==> changed[k].username == records[k].username;
    assert UniqueUsers(changed) && changed[i] in changed;
    FindUserFinds(changed, changed[i]);
  }

  lemma {:induction false} FoundUser(records: seq<Record>, username: string)
    ensures FindUser(records, username).Some? ==>
              FindUser(records, username).value in records && FindUser(records, username).value.username == username
  {
    if records != [] && records[0].username != username {
      FoundUser(records[1..], username);
    }
  }

  /** Exactly which requests are admitted: those naming a registered user with its password, a
      key of 40 base64url characters, from an address it allows and for its own subdomain. */
  lemma AdmittedExactly(records: seq<Record>, req: Request)
    requires UniqueUsers(records)
    ensures Authorized(records, req) <==>
              && |req.key| == 40 && (forall i :: 0 <= i < 40 ==> IsBase64Url(req.key[i]))
              && exists r :: r in records && req.username == Some(r.username) && req.key == r.hash.password
                             && req.allows(r) && r.subdomain == req.subdomain
  {
    ValidKeyExactly(req.key);
    if req.username.Some? { FoundUser(records, req.username.value); }
    if r :| r in records && req.username == Some(r.username) {
      FindUserFinds(records, r);
    }
  }

  /** A new registration can be used at once: its user, password and subdomain are admitted. */
  lemma RegisteredIsAdmitted(engine: Engine, t: Tables, t': Tables, r: Record, f: RegisterFaults, req: Request)
    requires Step(engine, t, t', RegisterOp(r, f)) && !Fails(engine, RegisterOp(r, f)) && !f.firstSlot && !f.secondSlot
    requires forall q :: q in t.records ==>
               q.username != r.username && q.hash != r.hash && q.subdomain != r.subdomain
    requires UniqueUsers(t.records) && ValidKey(r.hash.password)
    requires req.username == Some(r.username) && req.key == r.hash.password
    requires req.subdomain == r.subdomain && req.allows(r)
    ensures Authorized(t'.records, req)
  {
    Registers(engine, t, t', r, f);
    assert forall i :: 0 <= i < |t.records| ==> t'.records[i] == t.records[i] && t.records[i] in t.records;
    FindUserFinds(t'.records, r);
  }

  /** After a rotation the new password is admitted and the old one is not. */
  lemma RotatedIsAdmitted(engine: Engine, t: Tables, t': Tables, op: Op, r: Record, req: Request)
    requires Step(engine, t, t', op) && op.RotateOp? && !op.fails && UniqueUsers(t.records)
    requires r in t.records && r.subdomain == op.sub == req.subdomain && req.username == Some(r.username)
    requires ByAddress(req) && req.allows(r) && ValidKey(req.key)
    ensures Authorized(t'.records, req) <==> req.key == op.hash.password
  {
    var i :| 0 <= i < |t.records| && t.records[i] == r;
    ChangesFields(engine, t, t', op, i);
    assert forall k :: 0 <= k < |t.records| ==> t'.records[k].username == t.records[k].username;
    assert t'.records[i] in t'.records && t'.records[i].allowFrom == r.allowFrom;
    FindUserFinds(t'.records, t'.records[i]);
  }

  // --------------------------------------------- from admission to write

  /** The password on record after one more operation of the store, none once the
      registration is gone. */
  function AfterOp(op: Op, sub: string, on: Option<string>): Option<string> {
    match op
    case RotateOp(s, hash, _, _, fails) => if on.Some? && s == sub && !fails then Some(hash.password) else on
    case DeleteOp(s, f) => if s == sub && !f.begin && !f.records && !f.txt && !f.commit then None else on
    case _ => on
  }

  /** The password on record before event n for the registration that event k admitted,
      followed through rotations and deletion. */
  function OnRecord(events: seq<Event>, k: nat, n: nat): Option<string>
    requires k < n <= |events| && events[k].Admit?
  {
    if n == k + 1 then Some(events[k].req.key)
    else
      var on := OnRecord(events, k, n - 1);
      if events[n - 1].Manage? then AfterOp(events[n - 1].op, events[k].req.subdomain, on) else on
  }

  /** The address check looks at the registration's address list only. */
  ghost predicate ByAddress(req: Request) {
    forall r: Record, r': Record :: r.allowFrom == r'.allowFrom ==> req.allows(r) == req.allows(r')
  }

  /** User ids are drawn fresh, so nobody registers this one between the two events. */
  predicate NotRegistered(events: seq<Event>, k: nat, n: nat, username: Option<string>) {
    forall i :: k < i < n && i < |events| && events[i].Manage? && events[i].op.RegisterOp? ==>
      username != Some(events[i].op.record.username)
  }

  /** The registration is there under this password with the same addresses, or is gone. */
  ghost predicate Standing(records: seq<Record>, req: Request, allowFrom: seq<string>, on: Option<string>)
    requires req.username.Some?
  {
    && UniqueUsers(records)
    && if on.None? then forall r :: r in records ==> r.username != req.username.value
       else exists r :: r in records && IsOwn(r, req, allowFrom, on.value)
  }

  predicate IsOwn(r: Record, req: Request, allowFrom: seq<string>, password: string)
    requires req.username.Some?
  {
    && r.username == req.username.value && r.subdomain == req.subdomain
    && r.allowFrom == allowFrom && r.hash.password == password
  }

  lemma StandingDecides(records: seq<Record>, req: Request, r0: Record, on: Option<string>)
    requires req.username.Some? && ValidKey(req.key) && ByAddress(req) && req.allows(r0)
    requires Standing(records, req, r0.allowFrom, on)
    ensures Authorized(records, req) <==> on == Some(req.key)
  {
    FoundUser(records, req.username.value);
    if on.Some? {
      var r :| r in records && IsOwn(r, req, r0.allowFrom, on.value);
      FindUserFinds(records, r);
    }
  }

  lemma AdmittedStands(records: seq<Record>, req: Request) returns (r0: Record)
    requires UniqueUsers(records) && Authorized(records, req)
    ensures req.username.Some? && ValidKey(req.key) && req.allows(r0)
    ensures Standing(records, req, r0.allowFrom, Some(req.key))
  {
    FoundUser(records, req.username.value);
    r0 := FindUser(records, req.username.value).value;
    assert IsOwn(r0, req, r0.allowFrom, req.key);
  }

  /** Changing records under names, subdomains and addresses that stay. */
  lemma ChangeStands(records: seq<Record>, sub: string, change: Record -> Record, req: Request,
                     allowFrom: seq<string>, on: Option<string>, on': Option<string>)
    requires req.username.Some? && Standing(records, req, allowFrom, on)
    requires forall r: Record :: change(r).username == r.username && change(r).subdomain == r.subdomain
    requires forall r: Record :: change(r).allowFrom == r.allowFrom
    requires on.None? ==> on'.None?
    requires on.Some? ==> on'.Some? && forall r: Record :: r.hash.password == on.value ==>
               (if req.subdomain == sub then change(r) else r).hash.password == on'.value
    ensures Standing(ChangeRecords(records, sub, change), req, allowFrom, on')
  {
    var changed := ChangeRecords(records, sub, change);
    assert forall i :: 0 <= i < |records| ==> changed[i].username == records[i].username;
    if on.None? {
      forall r | r in changed ensures r.username != req.username.value {
        var i :| 0 <= i < |changed| && changed[i] == r;
        assert records[i] in records;
      }
    } else {
      var r :| r in records && IsOwn(r, req, allowFrom, on.value);
      var i :| 0 <= i < |records| && records[i] == r;
      assert changed[i] in changed && IsOwn(changed[i], req, allowFrom, on'.value);
    }
  }

  lemma RegisterStands(engine: Engine, t: Tables, r: Record, f: RegisterFaults, req: Request,
                       allowFrom: seq<string>, on: Option<string>)
    requires req.username.Some? && Standing(t.records, req, allowFrom, on)
    requires r.username != req.username.value
    ensures Standing(Register(engine, t, r, f).records, req, allowFrom, on)
  {
    if RegisterStores(engine, t.records, r, f) {
      var after := t.records + [r];
      assert forall i :: 0 <= i < |t.records| ==> after[i] == t.records[i] && t.records[i].username != r.username;
      assert forall q :: q in after <==> q in t.records || q == r;
    }
  }

  lemma DeleteStands(t: Tables, sub: string, f: DeleteFaults, req: Request, allowFrom: seq<string>, on: Option<string>)
    requires req.username.Some? && Standing(t.records, req, allowFrom, on)
    ensures Standing(Delete(t, sub, f).records, req, allowFrom, AfterOp(DeleteOp(sub, f), req.subdomain, on))
  {
    var rest := WithoutRecord(t.records, sub);
    WithoutRecordUnique(t.records, sub);
    forall r | r in t.records || r in rest ensures r in rest <==> r in t.records && r.subdomain != sub {
      WithoutRecordKeeps(t.records, sub, r);
    }
    if on.Some? {
      var r :| r in t.records && IsOwn(r, req, allowFrom, on.value);
      var i :| 0 <= i < |t.records| && t.records[i] == r;
      assert HasSubdomain(t.records, req.subdomain);
      OthersHaveOtherNames(t.records, r);
    }
  }

  lemma OthersHaveOtherNames(records: seq<Record>, r: Record)
    requires UniqueUsers(records) && r in records
    ensures forall q :: q in records && q.username == r.username ==> q == r
  {
    forall q | q in records && q.username == r.username ensures q == r {
      var i :| 0 <= i < |records| && records[i] == r;
      var j :| 0 <= j < |records| && records[j] == q;
    }
  }

  lemma OpStands(engine: Engine, t: Tables, t': Tables, op: Op, req: Request, allowFrom: seq<string>,
                 on: Option<string>)
    requires Step(engine, t, t', op) && req.username.Some? && Standing(t.records, req, allowFrom, on)
    requires op.RegisterOp? ==> op.record.username != req.username.value
    ensures Standing(t'.records, req, allowFrom, AfterOp(op, req.subdomain, on))
  {
    match op
    case RegisterOp(r, f) => RegisterStands(engine, t, r, f, req, allowFrom, on);
    case UpdateOp(_, _, _, _) =>
    case RotateOp(s, hash, enc, now, fails) =>
      if !fails {
        ChangeStands(t.records, s, Rehashed(hash, enc, now), req, allowFrom, on, AfterOp(op, req.subdomain, on));
      }
    case RenameOp(s, name, now, fails) =>
      if !fails { ChangeStands(t.records, s, Renamed(name, now), req, allowFrom, on, on); }
    case SourceOp(s, ip, fails) =>
      if !fails && ip != "" { ChangeStands(t.records, s, Sourced(ip), req, allowFrom, on, on); }
    case DeleteOp(s, f) => DeleteStands(t, s, f, req, allowFrom, on);
  }

  lemma {:induction false} StandsUntil(engine: Engine, trace: seq<Tables>, events: seq<Event>, k: nat, n: nat,
                                       r0: Record)
    requires History(engine, trace, events) && k < n <= |events| && Admitted(trace, events, k)
    requires events[k].req.username.Some?
    requires Standing(trace[k].records, events[k].req, r0.allowFrom, Some(events[k].req.key))
    requires NotRegistered(events, k, n, events[k].req.username)
    ensures Standing(trace[n].records, events[k].req, r0.allowFrom, OnRecord(events, k, n))
    decreases n
  {
    assert Happens(engine, trace, events, n - 1);
    if n > k + 1 {
      StandsUntil(engine, trace, events, k, n - 1, r0);
      var op := OpOf(events, n - 1);
      OpStands(engine, trace[n - 1], trace[n], op, events[k].req, r0.allowFrom, OnRecord(events, k, n - 1));
    }
  }

  /** Exactly when an admitted request would still be let through at a later event, such as
      its own write: when the password now on record is the one it carries. A rotation to
      another password or a deletion in between ends that; nothing else does. */
  lemma AuthorizedExactly(engine: Engine, trace: seq<Tables>, events: seq<Event>, k: nat, n: nat)
    requires History(engine, trace, events) && k < n <= |events| && Admitted(trace, events, k)
    requires UniqueUsers(trace[k].records) && ByAddress(events[k].req)
    requires NotRegistered(events, k, n, events[k].req.username)
    ensures Authorized(trace[n].records, events[k].req) <==> OnRecord(events, k, n) == Some(events[k].req.key)
  {
    var r0 := AdmittedStands(trace[k].records, events[k].req);
    StandsUntil(engine, trace, events, k, n, r0);
    StandingDecides(trace[n].records, events[k].req, r0, OnRecord(events, k, n));
  }

  // ------------------------------------------------------ one run of the store

  /** The operation of the store an event stands for; an admission is none. */
  function OpOf(events: seq<Event>, i: nat): Op
    requires i < |events|
  {
    var nothing := UpdateOp("", "", 0, true);
    match events[i]
    case Admit(_, _) => nothing
    case Write(k, now, fails) =>
      if k >= |events| || !events[k].Admit? then nothing
      else UpdateOp(events[k].req.subdomain, events[k].req.txt, now, fails)
    case Note(k, fails) =>
      if k >= |events| || !events[k].Admit? then nothing
      else SourceOp(events[k].req.subdomain, events[k].req.sourceIP, fails)
    case Check(sub, draws, now, fails) =>
      if AreDraws(draws, 43) then UpdateOp(sub, FromDraws(draws), now, fails) else nothing
    case Manage(op) => op
  }

  function Ops(events: seq<Event>): seq<Op> {
    seq(|events|, i requires 0 <= i < |events| => OpOf(events, i))
  }

  /** A history of the server is a run of its store, so all that holds of every run of the
      store holds of it. */
  lemma HistoryIsBehaviour(engine: Engine, trace: seq<Tables>, events: seq<Event>)
    requires History(engine, trace, events)
    ensures Behaviour(engine, trace, Ops(events))
  {
    forall i | 0 <= i < |events| ensures Step(engine, trace[i], trace[i + 1], Ops(events)[i]) {
      assert Happens(engine, trace, events, i);
    }
  }

  // ------------------------------------------------------------ served values

  /** The subdomain a question is about. */
  function AskedFor(name: string): string {
    SanitizeString(Nameserver.SanitizeDomainQuestion(name))
  }

  /** The values the DNS side reads for a question name. */
  function Values(t: Tables, name: string): seq<string> {
    Served(t.txt, AskedFor(name))
  }

  lemma {:induction false} DynamicFrom(name: string, values: seq<string>, rr: Nameserver.RR)
    requires rr in Nameserver.DynamicTXT(name, values)
    ensures rr.name == name && rr.rtype.TXT? && rr.data != "" && rr.data in values
  {
    if values != [] {
      var n := |values| - 1;
      assert values == values[..n] + [values[n]];
      if rr in Nameserver.DynamicTXT(name, values[..n]) { DynamicFrom(name, values[..n], rr); }
    }
  }

  /** So is every value in a TXT answer: it belongs to the subdomain that was asked for. */
  lemma AnswersAccountedFor(engine: Engine, trace: seq<Tables>, events: seq<Event>, n: nat, name: string,
                            rr: Nameserver.RR)
    requires History(engine, trace, events) && n <= |events|
    requires forall r :: r in trace[0].txt ==> r.value == ""
    requires rr in Nameserver.DynamicTXT(name, Values(trace[n], name))
    ensures AccountedFor(trace, events, n, AskedFor(name), rr.data)
  {
    var sub := AskedFor(name);
    DynamicFrom(name, Values(trace[n], name), rr);
    var slots := Slots(trace[n].txt, sub);
    var i :| 0 <= i < |Values(trace[n], name)| && Values(trace[n], name)[i] == rr.data;
    SlotsOwn(trace[n].txt, sub);
    ValuesAccountedFor(engine, trace, events, n, slots[i]);
  }

  /** The record a row is served as, none for an empty slot. */
  function AsRecord(name: string, value: string): multiset<Nameserver.RR> {
    if value == "" then multiset{} else multiset{Nameserver.RR(name, Nameserver.TXT, value)}
  }

  lemma DynamicPair(name: string, a: string, b: string)
    ensures multiset(Nameserver.DynamicTXT(name, [a, b])) == AsRecord(name, a) + AsRecord(name, b)
  {
    assert [a, b][..1] == [a] && [a][..0] == [];
    var one := Nameserver.DynamicTXT(name, [a]);
    assert Nameserver.DynamicTXT(name, []) == [];
    assert multiset(one) == AsRecord(name, a);
    var two := if b == "" then [] else [Nameserver.RR(name, Nameserver.TXT, b)];
    assert Nameserver.DynamicTXT(name, [a, b]) == one + two;
  }

  /** Two rows in either order serve the same records. */
  lemma PairServed(txt: seq<TxtRow>, sub: string, name: string, a: TxtRow, b: TxtRow)
    requires multiset(Slots(txt, sub)) == multiset{a, b}
    ensures multiset(Nameserver.DynamicTXT(name, Served(txt, sub))) == AsRecord(name, a.value) + AsRecord(name, b.value)
  {
    var slots := Slots(txt, sub);
    assert |multiset(slots)| == 2;
    assert slots == [slots[0], slots[1]];
    assert multiset(slots) == multiset{slots[0], slots[1]};
    assert (slots[0] == a && slots[1] == b) || (slots[0] == b && slots[1] == a) by {
      PairEither(slots[0], slots[1], a, b);
    }
    assert Served(txt, sub) == [slots[0].value, slots[1].value];
    DynamicPair(name, slots[0].value, slots[1].value);
  }

  lemma PairEither(x: TxtRow, y: TxtRow, a: TxtRow, b: TxtRow)
    requires multiset{x, y} == multiset{a, b}
    ensures (x == a && y == b) || (x == b && y == a)
  {
    assert x in multiset{a, b} && y in multiset{a, b};
    assert multiset{x, y} - multiset{x} == multiset{y};
    if x == a {
      assert multiset{a, b} - multiset{a} == multiset{b};
      assert y in multiset{b};
    } else {
      assert multiset{a, b} - multiset{b} == multiset{a};
      assert y in multiset{a};
    }
  }

  /** The records of the last two values written to the subdomain asked for, as it starts with
      two empty slots. */
  function LastTwoRecords(events: seq<Event>, name: string): multiset<Nameserver.RR> {
    var sub := AskedFor(name);
    var written := [EmptySlot(sub), EmptySlot(sub)] + Writes(Ops(events), sub);
    AsRecord(name, written[|written| - 2].value) + AsRecord(name, written[|written| - 1].value)
  }

  lemma LastTwoServed(engine: Engine, trace: seq<Tables>, events: seq<Event>, name: string)
    requires History(engine, trace, events)
    requires Slots(trace[0].txt, AskedFor(name)) == [EmptySlot(AskedFor(name)), EmptySlot(AskedFor(name))]
    requires forall i :: 0 <= i < |trace| ==> HasSubdomain(trace[i].records, AskedFor(name))
    requires StrictlyLater(Writes(Ops(events), AskedFor(name)))
    ensures multiset(Nameserver.DynamicTXT(name, Values(trace[|events|], name))) == LastTwoRecords(events, name)
  {
    var sub := AskedFor(name);
    HistoryIsBehaviour(engine, trace, events);
    HoldsLastTwo(engine, trace, Ops(events), sub);
    var written := [EmptySlot(sub), EmptySlot(sub)] + Writes(Ops(events), sub);
    PairServed(trace[|events|].txt, sub, name, written[|written| - 2], written[|written| - 1]);
  }

  /** What a certificate client relies on: with increasing write times, the reply to a TXT
      question for a registered subdomain carries the configured records and exactly the last
      two values written to it, whatever else the server has been doing. */
  lemma ReplyCarriesLastTwo(engine: Engine, trace: seq<Tables>, events: seq<Event>, s: Nameserver.Server,
                            q: Nameserver.Question)
    requires History(engine, trace, events) && q.qtype.TXT? && !s.IsOwnChallenge(Nameserver.ToLower(q.name))
    requires Slots(trace[0].txt, AskedFor(q.name)) == [EmptySlot(AskedFor(q.name)), EmptySlot(AskedFor(q.name))]
    requires forall i :: 0 <= i < |trace| ==> HasSubdomain(trace[i].records, AskedFor(q.name))
    requires StrictlyLater(Writes(Ops(events), AskedFor(q.name)))
    ensures multiset(s.ReplyTo(q, Some(Values(trace[|events|], q.name))).records)
         == multiset(Nameserver.PlainAnswer(s.list, Nameserver.ToLower(q.name), q.qtype))
            + LastTwoRecords(events, q.name)
  {
    var values := Values(trace[|events|], q.name);
    LastTwoServed(engine, trace, events, q.name);
    ReplyParts(s, q, values, LastTwoRecords(events, q.name));
  }

  lemma ReplyParts(s: Nameserver.Server, q: Nameserver.Question, values: seq<string>, dynamic: multiset<Nameserver.RR>)
    requires q.qtype.TXT? && !s.IsOwnChallenge(Nameserver.ToLower(q.name))
    requires multiset(Nameserver.DynamicTXT(q.name, values)) == dynamic
    ensures multiset(s.ReplyTo(q, Some(values)).records)
         == multiset(Nameserver.PlainAnswer(s.list, Nameserver.ToLower(q.name), q.qtype)) + dynamic
  {
    var fixed := Nameserver.PlainAnswer(s.list, Nameserver.ToLower(q.name), q.qtype);
    assert s.ReplyTo(q, Some(values)).records == fixed + Nameserver.DynamicTXT(q.name, values);
  }

  /** A complete TXT reply holds configured records, the server's own challenge key, and
      otherwise only values accounted for. */
  lemma ReplyAccountedFor(engine: Engine, trace: seq<Tables>, events: seq<Event>, n: nat,
                          s: Nameserver.Server, q: Nameserver.Question, rr: Nameserver.RR)
    requires History(engine, trace, events) && n <= |events|
    requires forall r :: r in trace[0].txt ==> r.value == ""
    requires q.qtype.TXT? && rr in s.ReplyTo(q, Some(Values(trace[n], q.name))).records
    ensures rr in Nameserver.PlainAnswer(s.list, Nameserver.ToLower(q.name), q.qtype)
            || (s.IsOwnChallenge(Nameserver.ToLower(q.name)) && rr.data == s.personalAuthKey)
            || (!s.IsOwnChallenge(Nameserver.ToLower(q.name))
                && AccountedFor(trace, events, n, AskedFor(q.name), rr.data))
  {
    if !s.IsOwnChallenge(Nameserver.ToLower(q.name)) && rr in Nameserver.DynamicTXT(q.name, Values(trace[n], q.name)) {
      AnswersAccountedFor(engine, trace, events, n, q.name, rr);
    }
  }

  /** A question below a registration's own label reads exactly that registration's slots,
      in whatever letter case it is asked. */
  lemma QuestionReachesLabel(first: string, rest: string)
    requires first != "" && AllBase64Url(Nameserver.ToLower(first))
    ensures AskedFor(first + "." + rest) == Nameserver.ToLower(first)
  {
    var name := first + "." + rest;
    var lower := Nameserver.ToLower(first);
    assert forall k :: 0 <= k < |first| ==> first[k] != '.' by {
      forall k | 0 <= k < |first| ensures first[k] != '.' {
        assert IsBase64Url(lower[k]);
      }
    }
    assert name[|first|] == '.';
    assert Nameserver.IndexOfDot(name) == |first|;
    assert Nameserver.ToLower(name)[..|first|] == lower;
    SanitizeLength(lower);
  }
}

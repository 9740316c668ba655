/** The registration store: the records and txt tables, and the statements run on them. */
module Store {
  import opened Options
  import opened Text

  // ------------------------------------------------------ hashes and blobs

  /** A salted password hash, known to us only through the password it was made from. */
  datatype Hash = Hash(password: string, salt: int)

  predicate CorrectPassword(password: string, hash: Hash) {
    password == hash.password
  }

  /** The stored recoverable copy: nothing, or a ciphertext under some key. */
  datatype Blob = NoBlob | Sealed(key: string, nonce: int, plain: string)

  /** No cipher means that credential storage is switched off. */
  type Cipher = Option<string>

  /** An empty secret switches credential storage off. */
  function NewCredentialCipher(secret: string): Cipher {
    if secret == "" then None else Some(secret)
  }

  /** `nonce` is none when no randomness could be read. */
  function EncryptOrEmpty(cipher: Cipher, plain: string, nonce: Option<int>): Blob {
    if cipher.None? || nonce.None? then NoBlob else Sealed(cipher.value, nonce.value, plain)
  }

  /** Authenticated decryption: another key than the one used for sealing fails. */
  function DecryptOrEmpty(cipher: Cipher, blob: Blob): string {
    if cipher.None? || blob.NoBlob? || blob.key != cipher.value then "" else blob.plain
  }

  // ---------------------------------------------------------------- tables

  datatype Record = Record(
    username: string,
    hash: Hash,
    subdomain: string,
    allowFrom: seq<string>,
    domainName: string,
    createdAt: int,
    updatedAt: int,
    enc: Blob,
    lastIP: string)

  datatype TxtRow = TxtRow(subdomain: string, value: string, lastUpdate: int)

  datatype Tables = Tables(records: seq<Record>, txt: seq<TxtRow>)

  datatype Engine = Sqlite | Postgres

  predicate HasSubdomain(records: seq<Record>, sub: string) {
    exists i :: 0 <= i < |records| && records[i].subdomain == sub
  }

  /** The rows of one subdomain, in table order. */
  function Slots(txt: seq<TxtRow>, sub: string): seq<TxtRow> {
    if txt == [] then []
    else
      Slots(txt[..|txt| - 1], sub)
      + (if txt[|txt| - 1].subdomain == sub then [txt[|txt| - 1]] else [])
  }

  /** The unique columns of the records table would be violated by this row. */
  predicate Conflicts(records: seq<Record>, r: Record) {
    exists i :: 0 <= i < |records| &&
      (records[i].username == r.username || records[i].hash == r.hash || records[i].subdomain == r.subdomain)
  }

  /** What DNS reads of a subdomain: the values of its first two rows. */
  function Served(txt: seq<TxtRow>, sub: string): (values: seq<string>)
    ensures |values| == if |Slots(txt, sub)| < 2 then |Slots(txt, sub)| else 2
    ensures forall k :: 0 <= k < |values| ==> values[k] == Slots(txt, sub)[k].value
  {
    var slots := Slots(txt, sub);
    seq(if |slots| < 2 then |slots| else 2, k requires 0 <= k < (if |slots| < 2 then |slots| else 2) => slots[k].value)
  }

  function EmptySlot(sub: string): TxtRow { TxtRow(sub, "", 0) }

  // ------------------------------------------------------------ statements

  /** Which statements of a registration fail; a violated constraint fails the insert too. */
  datatype RegisterFaults = RegisterFaults(
    begin: bool, hash: bool, prepare: bool, insert: bool, firstSlot: bool, secondSlot: bool, commit: bool)

  /** The registration's record reaches the database. On PostgreSQL a failed statement
      dooms the whole transaction; on SQLite the errors of the two slot inserts go unnoticed. */
  predicate RegisterStores(engine: Engine, records: seq<Record>, r: Record, f: RegisterFaults) {
    && !f.begin && !f.hash && !f.prepare && !f.insert && !Conflicts(records, r) && !f.commit
    && (engine.Postgres? ==> !f.firstSlot && !f.secondSlot)
  }

  function NewSlots(sub: string, f: RegisterFaults): seq<TxtRow> {
    (if f.firstSlot then [] else [EmptySlot(sub)]) + (if f.secondSlot then [] else [EmptySlot(sub)])
  }

  function Register(engine: Engine, t: Tables, r: Record, f: RegisterFaults): Tables {
    if RegisterStores(engine, t.records, r, f)
    then Tables(t.records + [r], t.txt + NewSlots(r.subdomain, f)) else t
  }

  /** Row i belongs to the subdomain and none of its rows was written earlier. */
  predicate Oldest(txt: seq<TxtRow>, sub: string, i: nat) {
    && i < |txt| && txt[i].subdomain == sub
    && forall j :: 0 <= j < |txt| && txt[j].subdomain == sub ==> txt[i].lastUpdate <= txt[j].lastUpdate
  }

  /** The update recycles one of the oldest rows; which of equally old ones is up to the
      engine. An unknown subdomain has no row, and that is no error. */
  ghost predicate Updates(txt: seq<TxtRow>, txt': seq<TxtRow>, sub: string, value: string, now: int) {
    if Slots(txt, sub) == [] then txt' == txt
    else exists i: nat :: Oldest(txt, sub, i) && txt' == txt[i := TxtRow(sub, value, now)]
  }

  function ChangeRecords(records: seq<Record>, sub: string, change: Record -> Record): (out: seq<Record>)
    ensures |out| == |records|
    ensures forall i :: 0 <= i < |records| ==>
              out[i] == if records[i].subdomain == sub then change(records[i]) else records[i]
  {
    seq(|records|, i requires 0 <= i < |records| =>
      if records[i].subdomain == sub then change(records[i]) else records[i])
  }

  function Rehashed(hash: Hash, enc: Blob, now: int): Record -> Record {
    (r: Record) => r.(hash := hash, enc := enc, updatedAt := now)
  }

  function Renamed(name: string, now: int): Record -> Record {
    (r: Record) => r.(domainName := name, updatedAt := now)
  }

  function Sourced(ip: string): Record -> Record {
    (r: Record) => r.(lastIP := ip)
  }

  function WithoutRecord(records: seq<Record>, sub: string): seq<Record> {
    if records == [] then []
    else
      WithoutRecord(records[..|records| - 1], sub)
      + (if records[|records| - 1].subdomain == sub then [] else [records[|records| - 1]])
  }

  function WithoutSlots(txt: seq<TxtRow>, sub: string): seq<TxtRow> {
    if txt == [] then []
    else
      WithoutSlots(txt[..|txt| - 1], sub)
      + (if txt[|txt| - 1].subdomain == sub then [] else [txt[|txt| - 1]])
  }

  datatype DeleteFaults = DeleteFaults(begin: bool, records: bool, txt: bool, commit: bool)

  function Delete(t: Tables, sub: string, f: DeleteFaults): Tables {
    if f.begin || f.records || f.txt || f.commit || !HasSubdomain(t.records, sub) then t
    else Tables(WithoutRecord(t.records, sub), WithoutSlots(t.txt, sub))
  }

  // ------------------------------------------------------------ operations

  /** One call on the store, with everything it draws at random and what fails in it. */
  datatype Op =
    | RegisterOp(record: Record, faults: RegisterFaults)
    | UpdateOp(sub: string, value: string, now: int, fails: bool)
    | RotateOp(sub: string, hash: Hash, enc: Blob, now: int, fails: bool)
    | RenameOp(sub: string, name: string, now: int, fails: bool)
    | SourceOp(sub: string, ip: string, fails: bool)
    | DeleteOp(sub: string, deleteFaults: DeleteFaults)

  ghost predicate Step(engine: Engine, t: Tables, t': Tables, op: Op) {
    match op
    case RegisterOp(r, f) => t' == Register(engine, t, r, f)
    case UpdateOp(sub, value, now, fails) =>
      t'.records == t.records && if fails then t'.txt == t.txt else Updates(t.txt, t'.txt, sub, value, now)
    case RotateOp(sub, hash, enc, now, fails) =>
      t' == if fails then t else t.(records := ChangeRecords(t.records, sub, Rehashed(hash, enc, now)))
    case RenameOp(sub, name, now, fails) =>
      t' == if fails then t else t.(records := ChangeRecords(t.records, sub, Renamed(name, now)))
    case SourceOp(sub, ip, fails) =>
      t' == if fails || ip == "" then t else t.(records := ChangeRecords(t.records, sub, Sourced(ip)))
    case DeleteOp(sub, f) => t' == Delete(t, sub, f)
  }

  function FindUser(records: seq<Record>, username: string): Option<Record> {
    if records == [] then None
    else if records[0].username == username then Some(records[0])
    else FindUser(records[1..], username)
  }

  datatype Outcome<T> = Ok(value: T) | DbError | NoSuchDomain

  /** What the management interface is shown of a record. */
  datatype Domain = Domain(
    username: string,
    subdomain: string,
    allowFrom: seq<string>,
    domainName: string,
    createdAt: int,
    updatedAt: int,
    password: string,
    lastActive: int,
    lastIP: string)

  function LastWrite(slots: seq<TxtRow>): int {
    if slots == [] then 0
    else
      var before := LastWrite(slots[..|slots| - 1]);
      var last := slots[|slots| - 1].lastUpdate;
      if |slots| == 1 || last > before then last else before
  }

  function ScanDomain(cipher: Cipher, t: Tables, r: Record): Domain {
    Domain(r.username, r.subdomain, r.allowFrom, r.domainName, r.createdAt, r.updatedAt,
           DecryptOrEmpty(cipher, r.enc), LastWrite(Slots(t.txt, r.subdomain)), r.lastIP)
  }

  class Database {
    const engine: Engine
    const cipher: Cipher
    var records: seq<Record>
    var txt: seq<TxtRow>

    /** Opens the tables as they are; the credentials key may differ from last time. */
    constructor (engine: Engine, credentialsKey: string, tables: Tables)
      ensures this.engine == engine && cipher == NewCredentialCipher(credentialsKey)
      ensures Contents() == tables
    {
      this.engine := engine;
      cipher := NewCredentialCipher(credentialsKey);
      records, txt := tables.records, tables.txt;
    }

    ghost function Contents(): Tables
      reads this
    {
      Tables(records, txt)
    }

    /** Ids, salt, nonce and the draws of the password come from the random source. */
    method RegisterWithName(username: string, draws: seq<nat>, salt: int, nonce: Option<int>, subdomain: string,
                            allowFrom: seq<string>, domainName: string, now: int, f: RegisterFaults)
      returns (out: Outcome<(Record, string)>)
      requires AreDraws(draws, 40)
      modifies this
      ensures var password := FromDraws(draws);
        var r := Record(username, Hash(password, salt), subdomain, allowFrom, domainName, now, now,
                        EncryptOrEmpty(cipher, password, nonce), "");
        && Step(engine, old(Contents()), Contents(), RegisterOp(r, f))
        && (out.Ok? ==> out.value == (r, password))
        && (RegisterStores(engine, old(records), r, f) ==> out.Ok?)
    {
      if f.begin || f.hash || f.prepare { return DbError; }
      var password := GeneratePassword(40, draws);
      var r := Record(username, Hash(password, salt), subdomain, allowFrom, domainName, now, now,
                      EncryptOrEmpty(cipher, password, nonce), "");
      var txRecords, txTxt, doomed := records, txt, false;
      if f.insert || Conflicts(records, r) { return DbError; }
      txRecords := txRecords + [r];
      // The two inserts of empty slots: their errors are dropped.
      if f.firstSlot { doomed := engine.Postgres?; } else { txTxt := txTxt + [EmptySlot(subdomain)]; }
      if f.secondSlot { doomed := doomed || engine.Postgres?; } else { txTxt := txTxt + [EmptySlot(subdomain)]; }
      // So is the error of the commit.
      if !f.commit && !doomed {
        records, txt := txRecords, txTxt;
        assert txTxt == old(txt) + NewSlots(subdomain, f);
      }
      return Ok((r, password));
    }

    /** None also when the query fails, or the stored address list cannot be decoded. */
    method GetByUsername(username: string, fails: bool) returns (out: Option<Record>)
      ensures out == if fails then None else FindUser(records, username)
    {
      if fails { return None; }
      for i := 0 to |records|
        invariant FindUser(records, username) == FindUser(records[i..], username)
      {
        if records[i].username == username { return Some(records[i]); }
      }
      return None;
    }

    /** None when the query fails; what was read before the failure is thrown away. */
    method GetTXTForDomain(domain: string, fails: bool) returns (out: Option<seq<string>>)
      ensures out == if fails then None else Some(Served(txt, SanitizeString(domain)))
    {
      if fails { return None; }
      var slots := Slots(txt, SanitizeString(domain));
      var values: seq<string> := [];
      while |values| < |slots| && |values| < 2
        invariant |values| <= |slots| && |values| <= 2
        invariant forall k :: 0 <= k < |values| ==> values[k] == slots[k].value
      {
        values := values + [slots[|values|].value];
      }
      assert values == Served(txt, SanitizeString(domain));
      return Some(values);
    }

    method Update(sub: string, value: string, now: int, fails: bool) returns (ok: bool)
      modifies this
      ensures ok == !fails
      ensures Step(engine, old(Contents()), Contents(), UpdateOp(sub, value, now, fails))
    {
      if fails { return false; }
      if i: nat :| i < |txt| && Oldest(txt, sub, i) {
        SlotsNonEmpty(txt, sub, i);
        txt := txt[i := TxtRow(sub, value, now)];
      } else {
        NoOldest(txt, sub);
      }
      return true;
    }

    method GetBySubdomain(sub: string, fails: bool) returns (out: Outcome<Domain>)
      ensures out.DbError? <==> fails
      ensures out.Ok? <==> !fails && HasSubdomain(records, sub)
      ensures out.Ok? ==> exists i :: 0 <= i < |records| && records[i].subdomain == sub
                            && out.value == ScanDomain(cipher, Contents(), records[i])
    {
      if fails { return DbError; }
      for i := 0 to |records|
        invariant forall k :: 0 <= k < i ==> records[k].subdomain != sub
      {
        if records[i].subdomain == sub {
          return Ok(ScanDomain(cipher, Tables(records, txt), records[i]));
        }
      }
      return NoSuchDomain;
    }

    method UpdateDomainName(sub: string, name: string, now: int, fails: bool) returns (out: Outcome<()>)
      modifies this
      ensures Step(engine, old(Contents()), Contents(), RenameOp(sub, name, now, fails))
      ensures out == if fails then DbError else if HasSubdomain(old(records), sub) then Ok(()) else NoSuchDomain
    {
      if fails { return DbError; }
      var affected := HasSubdomain(records, sub);
      records := ChangeRecords(records, sub, Renamed(name, now));
      if !affected { return NoSuchDomain; }
      return Ok(());
    }

    method DeleteDomain(sub: string, f: DeleteFaults) returns (out: Outcome<()>)
      modifies this
      ensures Step(engine, old(Contents()), Contents(), DeleteOp(sub, f))
      ensures out.NoSuchDomain? <==> !f.begin && !f.records && !HasSubdomain(old(records), sub)
      ensures out.Ok? <==> !f.begin && !f.records && !f.txt && HasSubdomain(old(records), sub)
    {
      if f.begin || f.records { return DbError; }
      if !HasSubdomain(records, sub) { return NoSuchDomain; }
      if f.txt { return DbError; }
      if !f.commit {
        records, txt := WithoutRecord(records, sub), WithoutSlots(txt, sub);
      }
      return Ok(());
    }

    method RotatePassword(sub: string, draws: seq<nat>, salt: int, nonce: Option<int>, now: int,
                          hashFails: bool, fails: bool)
      returns (out: Outcome<string>)
      requires AreDraws(draws, 40)
      modifies this
      ensures var password := FromDraws(draws);
        Step(engine, old(Contents()), Contents(),
             RotateOp(sub, Hash(password, salt), EncryptOrEmpty(cipher, password, nonce), now, hashFails || fails))
      ensures out == if hashFails || fails then DbError
                     else if HasSubdomain(old(records), sub) then Ok(FromDraws(draws)) else NoSuchDomain
    {
      var password := GeneratePassword(40, draws);
      if hashFails || fails { return DbError; }
      var affected := HasSubdomain(records, sub);
      var enc := EncryptOrEmpty(cipher, password, nonce);
      records := ChangeRecords(records, sub, Rehashed(Hash(password, salt), enc, now));
      if !affected { return NoSuchDomain; }
      return Ok(password);
    }

    method SetLastSource(sub: string, ip: string, fails: bool) returns (ok: bool)
      modifies this
      ensures Step(engine, old(Contents()), Contents(), SourceOp(sub, ip, fails))
      ensures ok == (ip == "" || !fails)
    {
      if ip == "" { return true; }
      if fails { return false; }
      records := ChangeRecords(records, sub, Sourced(ip));
      return true;
    }
  }

  lemma {:induction false} SlotsNonEmpty(txt: seq<TxtRow>, sub: string, i: nat)
    requires i < |txt| && txt[i].subdomain == sub
    ensures Slots(txt, sub) != []
  {
    if i < |txt| - 1 { SlotsNonEmpty(txt[..|txt| - 1], sub, i); }
  }

  /** A subdomain with rows has an oldest one. */
  lemma {:induction false} OldestExists(txt: seq<TxtRow>, sub: string) returns (i: nat)
    requires Slots(txt, sub) != []
    ensures Oldest(txt, sub, i)
  {
    var n := |txt| - 1;
    if Slots(txt[..n], sub) == [] {
      i := n;
      forall j | 0 <= j < |txt| && txt[j].subdomain == sub ensures j == n {
        if j < n { SlotsNonEmpty(txt[..n], sub, j); }
      }
    } else {
      i := OldestExists(txt[..n], sub);
      assert forall j :: 0 <= j < n ==> txt[..n][j] == txt[j];
      if txt[n].subdomain == sub && txt[n].lastUpdate < txt[i].lastUpdate {
        i := n;
      }
    }
  }

  lemma NoOldest(txt: seq<TxtRow>, sub: string)
    requires forall i: nat :: i < |txt| ==> !Oldest(txt, sub, i)
    ensures Slots(txt, sub) == []
  {
    if Slots(txt, sub) != [] {
      var i := OldestExists(txt, sub);
      assert false;
    }
  }
}

/** The management login: session tokens, and the per-address lock-out after failures. */
module Throttle {
  import opened Options

  const MAX_LOGIN_FAILURES := 5

  // Times are in seconds.
  const LOGIN_LOCKOUT := 15 * 60
  const DEFAULT_SESSION_TTL := 12 * 60 * 60

  datatype Failure = Failure(count: nat, until: int)

  datatype Store = Store(tokens: map<string, int>, failures: map<string, Failure>)

  predicate LiveToken(expires: int, now: int) { now <= expires }

  predicate LiveFailure(f: Failure, now: int) { !(now > f.until && f.count >= MAX_LOGIN_FAILURES) }

  function Pruned(s: Store, now: int): Store {
    Store(map k | k in s.tokens && LiveToken(s.tokens[k], now) :: s.tokens[k],
          map k | k in s.failures && LiveFailure(s.failures[k], now) :: s.failures[k])
  }

  function Issued(s: Store, token: string, ttl: int, now: int): Store {
    var p := Pruned(s, now);
    p.(tokens := p.tokens[token := now + ttl])
  }

  predicate Locked(s: Store, ip: string, now: int) {
    ip in s.failures && s.failures[ip].count >= MAX_LOGIN_FAILURES && now < s.failures[ip].until
  }

  function Recorded(s: Store, ip: string, now: int): Store {
    var count := if ip in s.failures then s.failures[ip].count else 0;
    s.(failures := s.failures[ip := Failure(count + 1, now + LOGIN_LOCKOUT)])
  }

  function Cleared(s: Store, ip: string): Store {
    s.(failures := s.failures - {ip})
  }

  predicate Accepts(s: Store, token: string, now: int) {
    token != "" && token in s.tokens && LiveToken(s.tokens[token], now)
  }

  // ---------------------------------------------------------- session store

  class SessionStore {
    var tokens: map<string, int>
    var failures: map<string, Failure>
    const ttl: int

    constructor (ttl: int)
      ensures Contents() == Store(map[], map[])
      ensures this.ttl == if ttl <= 0 then 43200 else ttl
    {
      this.ttl := if ttl <= 0 then DEFAULT_SESSION_TTL else ttl;
      tokens, failures := map[], map[];
    }

    ghost function Contents(): Store
      reads this
    {
      Store(tokens, failures)
    }

    method PruneTokens(now: int)
      modifies this`tokens
      ensures tokens == Pruned(old(Contents()), now).tokens
    {
      var todo := tokens.Keys;
      while todo != {}
        invariant todo <= old(tokens).Keys
        invariant tokens == map k | k in old(tokens) && (k in todo || LiveToken(old(tokens)[k], now)) :: old(tokens)[k]
        decreases |todo|
      {
        var token :| token in todo;
        if now > tokens[token] { tokens := tokens - {token}; }
        todo := todo - {token};
      }
    }

    method PruneFailures(now: int)
      modifies this`failures
      ensures failures == Pruned(old(Contents()), now).failures
    {
      var todo := failures.Keys;
      while todo != {}
        invariant todo <= old(failures).Keys
        invariant failures
               == map k | k in old(failures) && (k in todo || LiveFailure(old(failures)[k], now)) :: old(failures)[k]
        decreases |todo|
      {
        var ip :| ip in todo;
        if now > failures[ip].until && failures[ip].count >= MAX_LOGIN_FAILURES { failures := failures - {ip}; }
        todo := todo - {ip};
      }
    }

    method Prune(now: int)
      modifies this`tokens, this`failures
      ensures Contents() == Pruned(old(Contents()), now)
    {
      PruneTokens(now);
      PruneFailures(now);
    }

    /** `draw` is the token the random source yields, none when it fails. */
    method Issue(draw: Option<string>, now: int) returns (issued: Option<(string, int)>)
      modifies this
      ensures issued == if draw.None? then None else Some((draw.value, now + ttl))
      ensures Contents() == if draw.None? then old(Contents()) else Issued(old(Contents()), draw.value, ttl, now)
    {
      if draw.None? { return None; }
      var expires := now + ttl;
      Prune(now);
      tokens := tokens[draw.value := expires];
      return Some((draw.value, expires));
    }

    method Valid(token: string, now: int) returns (ok: bool)
      modifies this
      ensures ok == Accepts(old(Contents()), token, now)
      ensures failures == old(failures)
      ensures tokens == if token != "" && token in old(tokens) && !ok then old(tokens) - {token} else old(tokens)
    {
      if token == "" { return false; }
      if token !in tokens { return false; }
      if now > tokens[token] {
        tokens := tokens - {token};
        return false;
      }
      return true;
    }

    method Revoke(token: string)
      modifies this
      ensures tokens == old(tokens) - {token} && failures == old(failures)
    {
      tokens := tokens - {token};
    }

    method LockedOut(ip: string, now: int) returns (locked: bool)
      ensures locked == Locked(Contents(), ip, now)
    {
      if ip !in failures { return false; }
      locked := failures[ip].count >= MAX_LOGIN_FAILURES && now < failures[ip].until;
    }

    method RecordFailure(ip: string, now: int)
      modifies this
      ensures Contents() == Recorded(old(Contents()), ip, now)
    {
      var f := if ip in failures then failures[ip] else Failure(0, 0);
      failures := failures[ip := Failure(f.count + 1, now + LOGIN_LOCKOUT)];
    }

    method ClearFailures(ip: string)
      modifies this
      ensures Contents() == Cleared(old(Contents()), ip)
    {
      failures := failures - {ip};
    }
  }

  datatype LoginStatus =
    | TooManyRequests
    | BadRequest
    | Unauthorized
    | ServerError
    | LoggedIn(token: string, expires: int)

  /** One login on its own. `credentials` is none for an undecodable body and otherwise
      says whether user and password are right; `token` is none when none can be drawn. */
  method WebAdminLogin(s: SessionStore, ip: string, credentials: Option<bool>, token: Option<string>, now: int)
    returns (status: LoginStatus)
    modifies s
    ensures status.TooManyRequests? <==> Locked(old(s.Contents()), ip, now)
    ensures status.TooManyRequests? || status.BadRequest? || status.ServerError? ==> s.Contents() == old(s.Contents())
    ensures status.Unauthorized? ==> s.Contents() == Recorded(old(s.Contents()), ip, now)
    ensures status.Unauthorized? <==> !Locked(old(s.Contents()), ip, now) && credentials == Some(false)
    ensures status.LoggedIn? <==> !Locked(old(s.Contents()), ip, now) && credentials == Some(true) && token.Some?
    ensures status.LoggedIn? ==>
              token == Some(status.token) && status.expires == now + s.ttl
              && s.Contents() == Cleared(Issued(old(s.Contents()), status.token, s.ttl, now), ip)
    ensures status.LoggedIn? ==>
              && ip !in s.failures && status.token in s.tokens && s.tokens[status.token] == now + s.ttl
    ensures credentials == Some(true) && token.Some?
            && (ip !in old(s.failures) || old(s.failures)[ip].count < 5 || old(s.failures)[ip].until <= now)
            ==> status.LoggedIn?
    ensures ip in old(s.failures) && old(s.failures)[ip].count >= 5 && now < old(s.failures)[ip].until ==>
              status.TooManyRequests?
    ensures status.Unauthorized? ==>
              && ip in s.failures && s.failures[ip].until == now + 900 && s.tokens == old(s.tokens)
              && s.failures[ip].count == 1 + if ip in old(s.failures) then old(s.failures)[ip].count else 0
  {
    var locked := s.LockedOut(ip, now);
    if locked { return TooManyRequests; }
    if credentials.None? { return BadRequest; }
    if !credentials.value {
      s.RecordFailure(ip, now);
      return Unauthorized;
    }
    var issued := s.Issue(token, now);
    if issued.None? { return ServerError; }
    s.ClearFailures(ip);
    return LoggedIn(issued.value.0, issued.value.1);
  }

  // ------------------------------------------------- logins running at once

  /** A login that passed the lock check and has not finished. `seen` is how many failures
      of the watched address were on record when it passed. */
  datatype Flight = Flight(ip: string, issued: bool, seen: nat)

  datatype Event =
    | Check(id: nat, ip: string, now: int)
    | Fail(id: nat, now: int)
    | Issue(id: nat, token: string, now: int)
    | Clear(id: nat, now: int)
    | Abandon(id: nat, now: int)

  /** The server, with the times of the watched address's failures since it last logged in. */
  datatype Server = Server(store: Store, clock: int, flights: map<nat, Flight>, history: seq<int>)

  /** The steps of a login come in order, and the clock does not run backwards. */
  predicate Enabled(s: Server, e: Event) {
    && s.clock <= e.now
    && match e
       case Check(id, _, _) => id !in s.flights
       case Fail(id, _) => id in s.flights && !s.flights[id].issued
       case Issue(id, _, _) => id in s.flights && !s.flights[id].issued
       case Clear(id, _) => id in s.flights && s.flights[id].issued
       case Abandon(id, _) => id in s.flights && !s.flights[id].issued
  }

  function Next(watched: string, ttl: int, s: Server, e: Event): Server
    requires Enabled(s, e)
  {
    var t := s.(clock := e.now);
    match e
    case Check(id, ip, now) =>
      if Locked(s.store, ip, now) then t
      else t.(flights := s.flights[id := Flight(ip, false, |s.history|)])
    case Fail(id, now) =>
      var ip := s.flights[id].ip;
      t.(store := Recorded(s.store, ip, now), flights := s.flights - {id},
         history := if ip == watched then s.history + [now] else s.history)
    case Issue(id, token, now) =>
      t.(store := Issued(s.store, token, ttl, now), flights := s.flights[id := s.flights[id].(issued := true)])
    case Clear(id, now) =>
      var ip := s.flights[id].ip;
      var rest := s.flights - {id};
      if ip != watched then t.(store := Cleared(s.store, ip), flights := rest)
      else
        t.(store := Cleared(s.store, ip), history := [],
           flights := map k | k in rest :: rest[k].(seen := 0))
    case Abandon(id, now) => t.(flights := s.flights - {id})
  }

  /** The watched address's logins in flight, and those that started before failure x. */
  function Flying(watched: string, s: Server): set<nat> {
    set id | id in s.flights && s.flights[id].ip == watched
  }

  function Before(watched: string, s: Server, x: nat): set<nat> {
    set id | id in s.flights && s.flights[id].ip == watched && s.flights[id].seen < x
  }

  /** Failures counted since the last reset. */
  function Count(watched: string, s: Server): nat {
    if watched in s.store.failures then s.store.failures[watched].count else 0
  }

  ghost predicate Sorted(history: seq<int>) {
    forall i, j :: 0 <= i <= j < |history| ==> history[i] <= history[j]
  }

  /** The counter is the history since its last reset, and resets only follow a full lock-out. */
  ghost predicate CounterHonest(watched: string, s: Server) {
    var m, n := Count(watched, s), |s.history|;
    && m <= n
    && (watched in s.store.failures ==> m > 0 && s.store.failures[watched].until == s.history[n - 1] + LOGIN_LOCKOUT)
    && (m < n ==> s.history[n - m - 1] + LOGIN_LOCKOUT <= if m == 0 then s.clock else s.history[n - m])
  }

  ghost predicate FlightsHonest(watched: string, s: Server) {
    forall id :: id in s.flights && s.flights[id].ip == watched ==>
      s.flights[id].seen <= |s.history|
      && (s.flights[id].seen >= 5 ==> s.history[s.flights[id].seen - 5] + LOGIN_LOCKOUT <= s.clock)
  }

  /** The x-th failure closed a five-failure window that is already a lock-out long, or few
      enough logins that started before it are left. */
  ghost predicate Bounded(watched: string, s: Server, k: nat, x: nat)
    requires 5 <= x <= |s.history|
  {
    s.history[x - 5] + LOGIN_LOCKOUT <= s.history[|s.history| - 1]
    || |Before(watched, s, x)| + (|s.history| - x) < k
  }

  ghost predicate Invariant(watched: string, s: Server, k: nat) {
    && Sorted(s.history) && (forall i :: 0 <= i < |s.history| ==> s.history[i] <= s.clock)
    && CounterHonest(watched, s)
    && FlightsHonest(watched, s)
    && (forall x :: 5 <= x <= |s.history| ==> Bounded(watched, s, k, x))
    && (forall i :: 0 <= i && i + 4 + k < |s.history| ==> s.history[i] + LOGIN_LOCKOUT <= s.history[i + 4 + k])
  }

  /** Whoever passes the lock check comes a lock-out after the fifth last failure. */
  lemma UnlockedMeansLate(watched: string, s: Server, now: int)
    requires s.clock <= now && Sorted(s.history) && CounterHonest(watched, s)
    requires forall i :: 0 <= i < |s.history| ==> s.history[i] <= s.clock
    requires !Locked(s.store, watched, now) && |s.history| >= 5
    ensures s.history[|s.history| - 5] + LOGIN_LOCKOUT <= now
  {
    var m, n := Count(watched, s), |s.history|;
    if m >= 5 {
      assert s.history[n - 5] <= s.history[n - 1];
    } else {
      assert s.history[n - 5] <= s.history[n - m - 1];
    }
  }

  lemma SubsetSize(a: set<nat>, b: set<nat>)
    requires a <= b
    ensures |a| <= |b|
  {
    if a != {} {
      var x :| x in a;
      SubsetSize(a - {x}, b - {x});
    }
  }

  lemma BoundedAfterFail(watched: string, ttl: int, s: Server, id: nat, now: int, k: nat, x: nat)
    requires Invariant(watched, s, k) && |Flying(watched, s)| <= k
    requires Enabled(s, Fail(id, now)) && s.flights[id].ip == watched
    requires 5 <= x <= |s.history| + 1
    ensures Bounded(watched, Next(watched, ttl, s, Fail(id, now)), k, x)
  {
    var t := Next(watched, ttl, s, Fail(id, now));
    if x == |s.history| + 1 {
      assert id in Flying(watched, s);
      SubsetSize(Before(watched, t, x), Flying(watched, s) - {id});
    } else {
      assert Bounded(watched, s, k, x);
      if s.flights[id].seen >= x {
        assert s.history[x - 5] <= s.history[s.flights[id].seen - 5];
      } else {
        assert Before(watched, t, x) == Before(watched, s, x) - {id};
      }
    }
  }

  lemma FailKeeps(watched: string, ttl: int, s: Server, id: nat, now: int, k: nat)
    requires Invariant(watched, s, k) && |Flying(watched, s)| <= k
    requires Enabled(s, Fail(id, now)) && s.flights[id].ip == watched
    ensures Invariant(watched, Next(watched, ttl, s, Fail(id, now)), k)
  {
    var t := Next(watched, ttl, s, Fail(id, now));
    SubsetSize({id}, Flying(watched, s));
    forall x | 5 <= x <= |t.history| ensures Bounded(watched, t, k, x) {
      BoundedAfterFail(watched, ttl, s, id, now, k, x);
    }
    WindowsKept(watched, s, t, k);
    FailRecorded(watched, ttl, s, id, now, k);
  }

  lemma FailRecorded(watched: string, ttl: int, s: Server, id: nat, now: int, k: nat)
    requires Invariant(watched, s, k)
    requires Enabled(s, Fail(id, now)) && s.flights[id].ip == watched
    ensures var t := Next(watched, ttl, s, Fail(id, now));
      && Sorted(t.history) && (forall i :: 0 <= i < |t.history| ==> t.history[i] <= t.clock)
      && CounterHonest(watched, t) && FlightsHonest(watched, t)
  {
    var t := Next(watched, ttl, s, Fail(id, now));
    assert forall i :: 0 <= i < |s.history| ==> t.history[i] == s.history[i];
  }

  lemma WindowsKept(watched: string, s: Server, t: Server, k: nat)
    requires |t.history| == |s.history| + 1 && t.history[..|s.history|] == s.history && k >= 1
    requires forall i :: 0 <= i && i + 4 + k < |s.history| ==> s.history[i] + LOGIN_LOCKOUT <= s.history[i + 4 + k]
    requires forall x :: 5 <= x <= |t.history| ==> Bounded(watched, t, k, x)
    ensures forall i :: 0 <= i && i + 4 + k < |t.history| ==> t.history[i] + LOGIN_LOCKOUT <= t.history[i + 4 + k]
  {
    forall i | 0 <= i && i + 4 + k < |t.history| ensures t.history[i] + LOGIN_LOCKOUT <= t.history[i + 4 + k] {
      if i + 4 + k == |s.history| {
        assert Bounded(watched, t, k, i + 5);
      } else {
        assert t.history[i] == s.history[i] && t.history[i + 4 + k] == s.history[i + 4 + k];
      }
    }
  }

  /** Steps that leave the history alone keep it bounded if no early login is added. */
  lemma QuietKeeps(watched: string, s: Server, t: Server, k: nat)
    requires Invariant(watched, s, k)
    requires t.history == s.history && s.clock <= t.clock
    requires CounterHonest(watched, t) && FlightsHonest(watched, t)
    requires forall id :: id in t.flights && t.flights[id].ip == watched ==>
               (id in s.flights && s.flights[id].ip == watched && s.flights[id].seen == t.flights[id].seen)
               || t.flights[id].seen == |s.history|
    ensures Invariant(watched, t, k)
  {
    forall x | 5 <= x <= |t.history| ensures Bounded(watched, t, k, x) {
      assert Bounded(watched, s, k, x);
      assert Before(watched, t, x) <= Before(watched, s, x);
      SubsetSize(Before(watched, t, x), Before(watched, s, x));
    }
  }

  lemma CheckKeeps(watched: string, ttl: int, s: Server, id: nat, ip: string, now: int, k: nat)
    requires Invariant(watched, s, k) && Enabled(s, Check(id, ip, now))
    ensures Invariant(watched, Next(watched, ttl, s, Check(id, ip, now)), k)
  {
    var t := Next(watched, ttl, s, Check(id, ip, now));
    if !Locked(s.store, ip, now) && ip == watched && |s.history| >= 5 {
      UnlockedMeansLate(watched, s, now);
    }
    QuietKeeps(watched, s, t, k);
  }

  lemma IssueKeeps(watched: string, ttl: int, s: Server, id: nat, token: string, now: int, k: nat)
    requires Invariant(watched, s, k) && Enabled(s, Issue(id, token, now))
    ensures Invariant(watched, Next(watched, ttl, s, Issue(id, token, now)), k)
  {
    var t := Next(watched, ttl, s, Issue(id, token, now));
    assert CounterHonest(watched, t);
    QuietKeeps(watched, s, t, k);
  }

  lemma ClearKeeps(watched: string, ttl: int, s: Server, id: nat, now: int, k: nat)
    requires Invariant(watched, s, k) && Enabled(s, Clear(id, now))
    ensures Invariant(watched, Next(watched, ttl, s, Clear(id, now)), k)
  {
    if s.flights[id].ip != watched {
      QuietKeeps(watched, s, Next(watched, ttl, s, Clear(id, now)), k);
    }
  }

  lemma StepKeeps(watched: string, ttl: int, s: Server, e: Event, k: nat)
    requires Invariant(watched, s, k) && |Flying(watched, s)| <= k && Enabled(s, e)
    ensures Invariant(watched, Next(watched, ttl, s, e), k)
  {
    match e
    case Check(id, ip, now) => CheckKeeps(watched, ttl, s, id, ip, now, k);
    case Issue(id, token, now) => IssueKeeps(watched, ttl, s, id, token, now, k);
    case Clear(id, now) => ClearKeeps(watched, ttl, s, id, now, k);
    case Abandon(id, now) => QuietKeeps(watched, s, Next(watched, ttl, s, e), k);
    case Fail(id, now) =>
      if s.flights[id].ip == watched {
        FailKeeps(watched, ttl, s, id, now, k);
      } else {
        QuietKeeps(watched, s, Next(watched, ttl, s, e), k);
      }
  }

  /** Where a run leads, or none if a step is out of order or the watched address ever has
      more than k logins in flight. */
  ghost function Run(watched: string, ttl: int, s: Server, events: seq<Event>, k: nat): Option<Server> {
    if events == [] then if |Flying(watched, s)| <= k then Some(s) else None
    else
      var e := events[|events| - 1];
      match Run(watched, ttl, s, events[..|events| - 1], k)
      case None => None
      case Some(t) =>
        if Enabled(t, e) && |Flying(watched, Next(watched, ttl, t, e))| <= k
        then Some(Next(watched, ttl, t, e)) else None
  }

  function Fresh(clock: int): Server {
    Server(Store(map[], map[]), clock, map[], [])
  }

  lemma {:induction false} RunKeeps(watched: string, ttl: int, s: Server, events: seq<Event>, k: nat)
    requires Invariant(watched, s, k) && Run(watched, ttl, s, events, k).Some?
    ensures var t := Run(watched, ttl, s, events, k).value;
      Invariant(watched, t, k) && |Flying(watched, t)| <= k
  {
    if events != [] {
      var before := events[..|events| - 1];
      RunKeeps(watched, ttl, s, before, k);
      StepKeeps(watched, ttl, Run(watched, ttl, s, before, k).value, events[|events| - 1], k);
    }
  }

  /** With at most k logins in flight, any 5 + k failures of one address in a row, with no
      successful login in between, span at least the lock-out. */
  lemma RateBound(watched: string, ttl: int, clock: int, events: seq<Event>, k: nat, i: nat)
    requires Run(watched, ttl, Fresh(clock), events, k).Some?
    requires i + 4 + k < |Run(watched, ttl, Fresh(clock), events, k).value.history|
    ensures var history := Run(watched, ttl, Fresh(clock), events, k).value.history;
      history[i + 4 + k] - history[i] >= 900
  {
    RunKeeps(watched, ttl, Fresh(clock), events, k);
  }

  // ------------------------------------------- when an address may try again

  /** A lock-out ends: an address without failures since its last login, or whose latest one is
      15 minutes old, gets past the check, whatever happened before. */
  lemma LockoutEnds(watched: string, ttl: int, clock: int, events: seq<Event>, k: nat, id: nat, now: int)
    requires Run(watched, ttl, Fresh(clock), events, k).Some?
    requires var s := Run(watched, ttl, Fresh(clock), events, k).value;
      && Enabled(s, Check(id, watched, now))
      && (s.history == [] || s.history[|s.history| - 1] + 900 <= now)
    ensures var s := Run(watched, ttl, Fresh(clock), events, k).value;
      var t := Next(watched, ttl, s, Check(id, watched, now));
      id in t.flights && t.flights[id].ip == watched && !t.flights[id].issued
  {
    RunKeeps(watched, ttl, Fresh(clock), events, k);
  }

  /** A lock-out holds: after five failures, each less than 15 minutes after the one before, the
      check refuses until 15 minutes have passed since the last. */
  lemma LockoutHolds(watched: string, ttl: int, clock: int, events: seq<Event>, k: nat, id: nat, now: int)
    requires Run(watched, ttl, Fresh(clock), events, k).Some?
    requires var s := Run(watched, ttl, Fresh(clock), events, k).value;
      var n := |s.history|;
      && Enabled(s, Check(id, watched, now)) && n >= 5 && now < s.history[n - 1] + 900
      && forall j :: n - 5 <= j < n - 1 ==> s.history[j + 1] < s.history[j] + 900
    ensures var s := Run(watched, ttl, Fresh(clock), events, k).value;
      id !in Next(watched, ttl, s, Check(id, watched, now)).flights
  {
    RunKeeps(watched, ttl, Fresh(clock), events, k);
    FullCount(watched, Run(watched, ttl, Fresh(clock), events, k).value, now);
  }

  lemma FullCount(watched: string, s: Server, now: int)
    requires CounterHonest(watched, s) && s.clock <= now && |s.history| >= 5
    requires now < s.history[|s.history| - 1] + 900
    requires forall j :: |s.history| - 5 <= j < |s.history| - 1 ==> s.history[j + 1] < s.history[j] + 900
    ensures Count(watched, s) >= 5
  {
  }

  /** Fewer than five failures since the last login never keep an address out. */
  lemma FourAreFree(watched: string, ttl: int, clock: int, events: seq<Event>, k: nat, id: nat, now: int)
    requires Run(watched, ttl, Fresh(clock), events, k).Some?
    requires var s := Run(watched, ttl, Fresh(clock), events, k).value;
      Enabled(s, Check(id, watched, now)) && |s.history| < 5
    ensures var s := Run(watched, ttl, Fresh(clock), events, k).value;
      id in Next(watched, ttl, s, Check(id, watched, now)).flights
  {
    RunKeeps(watched, ttl, Fresh(clock), events, k);
  }

  /** What pruning drops can neither lock nor be accepted any more, and what it keeps still can,
      or counts towards a lock-out. */
  lemma PruneIsExact(s: Store, now: int)
    ensures var p := Pruned(s, now);
      && (forall token :: token in p.tokens <==> token in s.tokens && now <= s.tokens[token])
      && (forall token :: token in p.tokens ==> p.tokens[token] == s.tokens[token])
      && (forall ip :: ip in p.failures
                       <==> ip in s.failures && (s.failures[ip].count < 5 || now <= s.failures[ip].until))
      && (forall ip :: ip in p.failures ==> p.failures[ip] == s.failures[ip])
      && (forall ip, later: int :: now <= later ==> (Locked(p, ip, later) <==> Locked(s, ip, later)))
  {
  }

  /** Handing out a token forgets what has expired, and nothing else. */
  lemma IssueForgetsExpired(s: Store, token: string, ttl: int, now: int)
    ensures var t := Issued(s, token, ttl, now);
      && token in t.tokens && t.tokens[token] == now + ttl
      && (forall other :: other != token ==>
            (other in t.tokens <==> other in s.tokens && now <= s.tokens[other])
            && (other in t.tokens ==> t.tokens[other] == s.tokens[other]))
      && (forall ip :: ip in t.failures
                       <==> ip in s.failures && (s.failures[ip].count < 5 || now <= s.failures[ip].until))
      && (forall ip :: ip in t.failures ==> t.failures[ip] == s.failures[ip])
  {
  }

  // ------------------------------------------------------ the bound is tight

  function Zeros(n: nat): seq<int> {
    seq(n, _ => 0)
  }

  function Ids(lo: nat, hi: nat): set<nat> {
    if hi <= lo then {} else Ids(lo, hi - 1) + {hi - 1}
  }

  lemma {:induction false} IdsAre(lo: nat, hi: nat)
    requires lo <= hi
    ensures |Ids(lo, hi)| == hi - lo
    ensures forall id :: id in Ids(lo, hi) <==> lo <= id < hi
    decreases hi
  {
    if lo < hi { IdsAre(lo, hi - 1); }
  }

  /** n failures at time 0, and logins lo..hi in flight that passed the check after the fourth. */
  function Burst(watched: string, n: nat, lo: nat, hi: nat): Server {
    Server(Store(map[], if n == 0 then map[] else map[watched := Failure(n, LOGIN_LOCKOUT)]), 0,
           map id | id in Ids(lo, hi) :: Flight(watched, false, 4), Zeros(n))
  }

  lemma Extend(watched: string, ttl: int, events: seq<Event>, e: Event, k: nat, t: Server)
    requires Run(watched, ttl, Fresh(0), events, k) == Some(t)
    requires Enabled(t, e) && |Flying(watched, Next(watched, ttl, t, e))| <= k
    ensures Run(watched, ttl, Fresh(0), events + [e], k) == Some(Next(watched, ttl, t, e))
  {
    assert (events + [e])[..|events|] == events;
  }

  lemma BurstFlying(watched: string, n: nat, lo: nat, hi: nat)
    requires lo <= hi
    ensures |Flying(watched, Burst(watched, n, lo, hi))| == hi - lo
  {
    IdsAre(lo, hi);
    assert Flying(watched, Burst(watched, n, lo, hi)) == Ids(lo, hi);
  }

  /** One more login passes the check. */
  lemma CheckGrows(watched: string, ttl: int, j: nat)
    ensures var before, e := Burst(watched, 4, 0, j), Check(j, watched, 0);
      Enabled(before, e) && Next(watched, ttl, before, e) == Burst(watched, 4, 0, j + 1)
  {
    IdsAre(0, j);
    IdsAre(0, j + 1);
  }

  /** One of the logins in flight fails. */
  lemma FailGrows(watched: string, ttl: int, n: nat, lo: nat, hi: nat)
    requires n > 0 && lo < hi
    ensures var before, e := Burst(watched, n, lo, hi), Fail(lo, 0);
      Enabled(before, e) && Next(watched, ttl, before, e) == Burst(watched, n + 1, lo + 1, hi)
  {
    IdsAre(lo, hi);
    IdsAre(lo + 1, hi);
    assert Zeros(n) + [0] == Zeros(n + 1);
  }

  /** One more login that fails before the next begins. */
  lemma OneAfterOther(watched: string, ttl: int, events: seq<Event>, n: nat, k: nat)
    requires n < 4 && k >= 1 && Run(watched, ttl, Fresh(0), events, k) == Some(Burst(watched, n, 0, 0))
    ensures Run(watched, ttl, Fresh(0), events + [Check(0, watched, 0)] + [Fail(0, 0)], k)
         == Some(Burst(watched, n + 1, 0, 0))
  {
    var before := Burst(watched, n, 0, 0);
    var checked := Next(watched, ttl, before, Check(0, watched, 0));
    assert Flying(watched, checked) == {0};
    Extend(watched, ttl, events, Check(0, watched, 0), k, before);
    var failed := Next(watched, ttl, checked, Fail(0, 0));
    assert Flying(watched, failed) == {};
    assert Zeros(n) + [0] == Zeros(n + 1);
    assert failed == Burst(watched, n + 1, 0, 0);
    Extend(watched, ttl, events + [Check(0, watched, 0)], Fail(0, 0), k, checked);
  }

  /** Four logins one after the other. */
  lemma {:induction false} FourFailures(watched: string, ttl: int, n: nat, k: nat) returns (events: seq<Event>)
    requires n <= 4 && k >= 1
    ensures Run(watched, ttl, Fresh(0), events, k) == Some(Burst(watched, n, 0, 0))
  {
    if n == 0 {
      events := [];
      assert Fresh(0) == Burst(watched, 0, 0, 0);
      BurstFlying(watched, 0, 0, 0);
    } else {
      var before := FourFailures(watched, ttl, n - 1, k);
      OneAfterOther(watched, ttl, before, n - 1, k);
      events := before + [Check(0, watched, 0)] + [Fail(0, 0)];
    }
  }

  /** Then several pass the check together. */
  lemma {:induction false} ManyChecks(watched: string, ttl: int, j: nat, k: nat) returns (events: seq<Event>)
    requires j <= k && k >= 1
    ensures Run(watched, ttl, Fresh(0), events, k) == Some(Burst(watched, 4, 0, j))
    decreases j
  {
    if j == 0 {
      events := FourFailures(watched, ttl, 4, k);
    } else {
      events := ManyChecks(watched, ttl, j - 1, k);
      var before, e := Burst(watched, 4, 0, j - 1), Check(j - 1, watched, 0);
      CheckGrows(watched, ttl, j - 1);
      BurstFlying(watched, 4, 0, j);
      Extend(watched, ttl, events, e, k, before);
      events := events + [e];
    }
  }

  lemma OneMoreFails(watched: string, ttl: int, events: seq<Event>, n: nat, lo: nat, k: nat)
    requires n > 0 && lo < k && Run(watched, ttl, Fresh(0), events, k) == Some(Burst(watched, n, lo, k))
    ensures Run(watched, ttl, Fresh(0), events + [Fail(lo, 0)], k) == Some(Burst(watched, n + 1, lo + 1, k))
  {
    FailGrows(watched, ttl, n, lo, k);
    BurstFlying(watched, n + 1, lo + 1, k);
    Extend(watched, ttl, events, Fail(lo, 0), k, Burst(watched, n, lo, k));
  }

  /** And all of them fail: 4 + k failures at the same instant. */
  lemma {:induction false} BurstIsPossible(watched: string, ttl: int, j: nat, k: nat) returns (events: seq<Event>)
    requires j <= k && k >= 1
    ensures Run(watched, ttl, Fresh(0), events, k) == Some(Burst(watched, 4 + j, j, k))
    decreases j
  {
    if j == 0 {
      events := ManyChecks(watched, ttl, k, k);
    } else {
      var before := BurstIsPossible(watched, ttl, j - 1, k);
      OneMoreFails(watched, ttl, before, 3 + j, j - 1, k);
      events := before + [Fail(j - 1, 0)];
    }
  }

  /** So the bound cannot be lowered: one failure fewer may take no time at all. */
  lemma RateBoundTight(watched: string, ttl: int, k: nat) returns (events: seq<Event>)
    requires k >= 1
    ensures Run(watched, ttl, Fresh(0), events, k).Some?
    ensures Run(watched, ttl, Fresh(0), events, k).value.history == Zeros(4 + k)
  {
    events := BurstIsPossible(watched, ttl, k, k);
  }

  // ---------------------------------------------------------- session tokens

  datatype TokenEvent =
    | Grant(token: string, at: int)
    | Ask(token: string, at: int)
    | Drop(token: string, at: int)

  /** The store as it is, next to one that never forgets an expired token. */
  datatype Tokens = Tokens(kept: map<string, int>, ideal: map<string, int>, clock: int)

  function TokenNext(ttl: int, s: Tokens, e: TokenEvent): Tokens {
    match e
    case Grant(token, at) =>
      Tokens(Issued(Store(s.kept, map[]), token, ttl, at).tokens, s.ideal[token := at + ttl], at)
    case Ask(token, at) =>
      var expired := token != "" && token in s.kept && !LiveToken(s.kept[token], at);
      s.(kept := if expired then s.kept - {token} else s.kept, clock := at)
    case Drop(token, at) => Tokens(s.kept - {token}, s.ideal - {token}, at)
  }

  ghost predicate OnlyExpiredForgotten(s: Tokens) {
    && (forall token :: token in s.kept ==> token in s.ideal && s.ideal[token] == s.kept[token])
    && (forall token :: token in s.ideal && token !in s.kept ==> s.ideal[token] < s.clock)
  }

  function TokenRun(ttl: int, s: Tokens, events: seq<TokenEvent>): Tokens {
    if events == [] then s
    else TokenNext(ttl, TokenRun(ttl, s, events[..|events| - 1]), events[|events| - 1])
  }

  ghost predicate Chronological(clock: int, events: seq<TokenEvent>) {
    && (forall i :: 0 <= i < |events| ==> clock <= events[i].at)
    && (forall i, j :: 0 <= i <= j < |events| ==> events[i].at <= events[j].at)
  }

  lemma {:induction false} ForgettingIsSafe(ttl: int, clock: int, events: seq<TokenEvent>)
    requires Chronological(clock, events)
    ensures var s := TokenRun(ttl, Tokens(map[], map[], clock), events);
      OnlyExpiredForgotten(s) && s.clock == if events == [] then clock else events[|events| - 1].at
  {
    if events != [] {
      ForgettingIsSafe(ttl, clock, events[..|events| - 1]);
    }
  }

  /** When the token was last granted, unless it has been revoked since. */
  function Granted(events: seq<TokenEvent>, token: string): Option<int> {
    if events == [] then None
    else
      match events[|events| - 1]
      case Grant(other, at) => if other == token then Some(at) else Granted(events[..|events| - 1], token)
      case Drop(other, _) => if other == token then None else Granted(events[..|events| - 1], token)
      case Ask(_, _) => Granted(events[..|events| - 1], token)
  }

  lemma {:induction false} IdealIsGranted(ttl: int, clock: int, events: seq<TokenEvent>, token: string)
    ensures var s := TokenRun(ttl, Tokens(map[], map[], clock), events);
      && (token in s.ideal <==> Granted(events, token).Some?)
      && (token in s.ideal ==> s.ideal[token] == Granted(events, token).value + ttl)
  {
    if events != [] {
      IdealIsGranted(ttl, clock, events[..|events| - 1], token);
    }
  }

  /** Exactly which tokens are accepted: those granted, not revoked since, and not run out. */
  lemma AcceptedExactly(ttl: int, clock: int, events: seq<TokenEvent>, token: string, now: int)
    requires Chronological(clock, events)
    requires TokenRun(ttl, Tokens(map[], map[], clock), events).clock <= now
    ensures Accepts(Store(TokenRun(ttl, Tokens(map[], map[], clock), events).kept, map[]), token, now)
       <==> token != "" && Granted(events, token).Some? && now <= Granted(events, token).value + ttl
  {
    IdealIsGranted(ttl, clock, events, token);
    ForgettingIsSafe(ttl, clock, events);
  }

  /** Pruning and deleting expired tokens never changes an answer: a token is accepted
      exactly when its last grant was not revoked and has not run out. */
  lemma PruningUnobservable(ttl: int, clock: int, events: seq<TokenEvent>, token: string, now: int)
    requires Chronological(clock, events)
    requires TokenRun(ttl, Tokens(map[], map[], clock), events).clock <= now
    ensures var s := TokenRun(ttl, Tokens(map[], map[], clock), events);
      Accepts(Store(s.kept, map[]), token, now) <==> Accepts(Store(s.ideal, map[]), token, now)
  {
    ForgettingIsSafe(ttl, clock, events);
  }
}

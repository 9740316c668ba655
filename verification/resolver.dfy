/** Bulk reverse lookups: at most eight at a time, sharing one cache and one result map. */
module Resolver {
  import opened Options

  const PTR_CACHE_TTL := 60 * 60
  const PTR_CONCURRENCY := 8

  datatype Entry = Entry(host: string, expires: int)

  type Cache = map<string, Entry>

  /** The cached host, if the entry has not expired. */
  function Lookup(cache: Cache, ip: string, now: int): Option<string> {
    if ip in cache && now <= cache[ip].expires then Some(cache[ip].host) else None
  }

  class PtrCache {
    var entries: Cache

    constructor ()
      ensures entries == map[]
    {
      entries := map[];
    }

    method Get(ip: string, now: int) returns (host: Option<string>)
      ensures host == Lookup(entries, ip, now)
    {
      if ip !in entries || now > entries[ip].expires { return None; }
      return Some(entries[ip].host);
    }

    method Put(ip: string, host: string, now: int)
      modifies this
      ensures entries == old(entries)[ip := Entry(host, now + PTR_CACHE_TTL)]
    {
      entries := entries[ip := Entry(host, now + PTR_CACHE_TTL)];
    }
  }

  /** One answer put into the cache. */
  datatype Found = Found(ip: string, host: string, now: int)

  function Puts(cache: Cache, answers: seq<Found>): Cache {
    if answers == [] then cache
    else
      var last := answers[|answers| - 1];
      Puts(cache, answers[..|answers| - 1])[last.ip := Entry(last.host, last.now + PTR_CACHE_TTL)]
  }

  /** The latest answer for an address is served for an hour, negative or not; when it has
      run out nothing is, however fresh an older answer. */
  lemma {:induction false} LatestServes(cache: Cache, answers: seq<Found>, k: nat, now: int)
    requires k < |answers| && forall i :: k < i < |answers| ==> answers[i].ip != answers[k].ip
    ensures Lookup(Puts(cache, answers), answers[k].ip, now)
         == if now <= answers[k].now + 3600 then Some(answers[k].host) else None
  {
    if k < |answers| - 1 {
      LatestServes(cache, answers[..|answers| - 1], k, now);
    }
  }

  /** Answers for other addresses do not matter. */
  lemma {:induction false} OthersUnserved(cache: Cache, answers: seq<Found>, ip: string, now: int)
    requires forall i :: 0 <= i < |answers| ==> answers[i].ip != ip
    ensures Lookup(Puts(cache, answers), ip, now) == Lookup(cache, ip, now)
  {
    if answers != [] {
      OthersUnserved(cache, answers[..|answers| - 1], ip, now);
    }
  }

  // ------------------------------------------------------------- one call

  /** A call and what it meets in the cache: the addresses, the cache when it starts, when it
      reads each address, and what other requests put into the cache before that read. */
  datatype Call = Call(ips: seq<string>, cache: Cache, times: seq<int>, others: seq<seq<Found>>)

  predicate Timed(c: Call) {
    |c.times| == |c.others| == |c.ips|
  }

  /** The cache after the reads before the n-th and the puts before it. */
  function CacheAt(c: Call, n: nat): Cache
    requires n <= |c.others|
  {
    if n == 0 then c.cache else Puts(CacheAt(c, n - 1), c.others[n - 1])
  }

  /** What each address finds in the cache. */
  function Views(c: Call): (views: seq<Option<string>>)
    requires Timed(c)
    ensures |views| == |c.ips|
    ensures forall i :: 0 <= i < |c.ips| ==> views[i] == Lookup(CacheAt(c, i + 1), c.ips[i], c.times[i])
  {
    seq(|c.ips|, i requires 0 <= i < |c.ips| => Lookup(CacheAt(c, i + 1), c.ips[i], c.times[i]))
  }

  /** What a reverse lookup answers for each address, none when it fails. */
  type Names = string -> Option<seq<string>>

  /** The host a lookup yields: the first name without its final dot, or nothing. */
  function HostOf(names: Option<seq<string>>): string {
    if names.None? || names.value == [] then ""
    else
      var name := names.value[0];
      if name != "" && name[|name| - 1] == '.' then name[..|name| - 1] else name
  }

  // ------------------------------------------------------ the cached part

  predicate FirstOccurrence(ips: seq<string>, i: nat)
    requires i < |ips|
  {
    ips[i] != "" && ips[i] !in ips[..i]
  }

  // Below, views[i] is what the i-th address finds in the cache.

  function CachedPart(ips: seq<string>, views: seq<Option<string>>, n: nat): map<string, string>
    requires n <= |ips| == |views|
  {
    if n == 0 then map[]
    else
      var before := CachedPart(ips, views, n - 1);
      if FirstOccurrence(ips, n - 1) && views[n - 1].Some? && views[n - 1].value != ""
      then before[ips[n - 1] := views[n - 1].value] else before
  }

  function PendingPart(ips: seq<string>, views: seq<Option<string>>, n: nat): seq<string>
    requires n <= |ips| == |views|
  {
    if n == 0 then []
    else
      PendingPart(ips, views, n - 1)
      + (if FirstOccurrence(ips, n - 1) && views[n - 1].None? then [ips[n - 1]] else [])
  }

  method PutAll(cache: PtrCache, answers: seq<Found>)
    modifies cache
    ensures cache.entries == Puts(old(cache.entries), answers)
  {
    for i := 0 to |answers|
      invariant cache.entries == Puts(old(cache.entries), answers[..i])
    {
      assert answers[..i + 1][..i] == answers[..i];
      cache.Put(answers[i].ip, answers[i].host, answers[i].now);
    }
    assert answers[..|answers|] == answers;
  }

  /** The loop before the goroutines start. What other requests do to the shared cache
      between two of its reads happens inside it. */
  method SplitCached(cache: PtrCache, c: Call) returns (result: map<string, string>, pending: seq<string>)
    requires Timed(c) && cache.entries == c.cache
    modifies cache
    ensures cache.entries == CacheAt(c, |c.ips|)
    ensures result == CachedPart(c.ips, Views(c), |c.ips|)
    ensures pending == PendingPart(c.ips, Views(c), |c.ips|)
  {
    result, pending := map[], [];
    var seen: set<string> := {};
    for i := 0 to |c.ips|
      invariant cache.entries == CacheAt(c, i)
      invariant forall ip :: ip in seen <==> ip != "" && ip in c.ips[..i]
      invariant result == CachedPart(c.ips, Views(c), i)
      invariant pending == PendingPart(c.ips, Views(c), i)
    {
      PutAll(cache, c.others[i]);
      var ip := c.ips[i];
      assert c.ips[..i + 1] == c.ips[..i] + [ip];
      if ip == "" || ip in seen {
        continue;
      }
      seen := seen + {ip};
      var found := cache.Get(ip, c.times[i]);
      match found
      case Some(host) =>
        if host != "" { result := result[ip := host]; }
      case None =>
        pending := pending + [ip];
    }
  }

  /** One address after the other, without cache sharing or concurrency. */
  function Sequential(ips: seq<string>, views: seq<Option<string>>, names: Names, n: nat)
    : map<string, string>
    requires n <= |ips| == |views|
  {
    if n == 0 then map[]
    else
      var before := Sequential(ips, views, names, n - 1);
      if !FirstOccurrence(ips, n - 1) then before
      else
        var ip := ips[n - 1];
        var host := if views[n - 1].Some? then views[n - 1].value else HostOf(names(ip));
        if host == "" then before else before[ip := host]
  }

  /** Pending addresses are distinct, and none of them is served from the cache. */
  lemma {:induction false} PendingApart(ips: seq<string>, views: seq<Option<string>>, n: nat)
    requires n <= |ips| == |views|
    ensures forall i, j :: 0 <= i < j < |PendingPart(ips, views, n)| ==>
              PendingPart(ips, views, n)[i] != PendingPart(ips, views, n)[j]
    ensures forall ip :: ip in PendingPart(ips, views, n) ==> ip != "" && ip in ips[..n]
    ensures forall ip :: ip in CachedPart(ips, views, n) ==> ip in ips[..n]
    ensures forall ip :: ip in PendingPart(ips, views, n) ==> ip !in CachedPart(ips, views, n)
  {
    if n > 0 {
      PendingApart(ips, views, n - 1);
      assert ips[..n] == ips[..n - 1] + [ips[n - 1]];
    }
  }

  /** An address is queued exactly if its first occurrence finds nothing in the cache. */
  lemma {:induction false} PendingHas(ips: seq<string>, views: seq<Option<string>>, n: nat, i: nat)
    requires i < n <= |ips| == |views| && FirstOccurrence(ips, i)
    ensures ips[i] in PendingPart(ips, views, n) <==> views[i].None?
  {
    if i == n - 1 {
      PendingApart(ips, views, i);
    } else {
      PendingHas(ips, views, n - 1, i);
      assert FirstOccurrence(ips, n - 1) ==> ips[n - 1] != ips[i] by {
        assert ips[i] in ips[..n - 1];
      }
    }
  }

  /** A result made of the cached part and the pending lookups that found a host. */
  ghost predicate Combines(cached: map<string, string>, pending: seq<string>, names: Names, all: map<string, string>) {
    && (forall ip :: ip in all <==> ip in cached || (ip in pending && HostOf(names(ip)) != ""))
    && (forall ip :: ip in all ==> all[ip] == if ip in cached then cached[ip] else HostOf(names(ip)))
  }

  lemma {:induction false} SequentialCombines(ips: seq<string>, views: seq<Option<string>>, names: Names, n: nat)
    requires n <= |ips| == |views|
    ensures Combines(CachedPart(ips, views, n), PendingPart(ips, views, n), names, Sequential(ips, views, names, n))
  {
    if n > 0 {
      SequentialCombines(ips, views, names, n - 1);
      PendingApart(ips, views, n - 1);
    }
  }

  lemma CombinesOnce(cached: map<string, string>, pending: seq<string>, names: Names,
                     a: map<string, string>, b: map<string, string>)
    requires Combines(cached, pending, names, a) && Combines(cached, pending, names, b)
    ensures a == b
  {
    assert a.Keys == b.Keys;
  }

  // ------------------------------------------------------- the lookup goroutines

  /** How far one lookup goroutine has come. */
  datatype Phase = Waiting | Holding | Answered | Cached | Written | Released | Done

  datatype State = State(
    phases: map<string, Phase>,
    slots: nat,
    cache: Cache,
    result: map<string, string>,
    lookups: map<string, nat>,
    returned: bool)

  datatype Event =
    | Acquire(ip: string)
    | Answer(ip: string)
    | Remember(ip: string, now: int)
    | Write(ip: string)
    | Release(ip: string)
    | Finish(ip: string)
    | OtherPut(ip: string, host: string, now: int)
    | Return

  /** The phase a goroutine must be in to take its step. */
  function Source(e: Event): Phase
    requires !e.OtherPut? && !e.Return?
  {
    match e
    case Acquire(_) => Waiting
    case Answer(_) => Holding
    case Remember(_, _) => Answered
    case Write(_) => Cached
    case Release(_) => Written
    case Finish(_) => Released
  }

  predicate Enabled(s: State, e: Event) {
    match e
    case OtherPut(_, _, _) => true
    case Return => !s.returned && forall ip :: ip in s.phases ==> s.phases[ip].Done?
    case _ => e.ip in s.phases && s.phases[e.ip] == Source(e) && (e.Acquire? ==> s.slots < PTR_CONCURRENCY)
  }

  function Next(names: Names, s: State, e: Event): State
    requires Enabled(s, e)
    requires e.Release? ==> s.slots > 0
    requires e.Answer? ==> e.ip in s.lookups
  {
    match e
    case Acquire(ip) => s.(phases := s.phases[ip := Holding], slots := s.slots + 1)
    case Answer(ip) => s.(phases := s.phases[ip := Answered], lookups := s.lookups[ip := s.lookups[ip] + 1])
    case Remember(ip, now) =>
      s.(phases := s.phases[ip := Cached],
         cache := s.cache[ip := Entry(HostOf(names(ip)), now + PTR_CACHE_TTL)])
    case Write(ip) =>
      var host := HostOf(names(ip));
      s.(phases := s.phases[ip := Written], result := if host != "" then s.result[ip := host] else s.result)
    case Release(ip) => s.(phases := s.phases[ip := Released], slots := s.slots - 1)
    case Finish(ip) => s.(phases := s.phases[ip := Done])
    case OtherPut(ip, host, now) => s.(cache := s.cache[ip := Entry(host, now + PTR_CACHE_TTL)])
    case Return => s.(returned := true)
  }

  function Begin(cached: map<string, string>, pending: seq<string>, cache: Cache): State {
    State(map ip | ip in pending :: Waiting, 0, cache, cached, map ip | ip in pending :: 0, false)
  }

  predicate HoldsSlot(p: Phase) {
    p.Holding? || p.Answered? || p.Cached? || p.Written?
  }

  function InFlight(s: State): set<string> {
    set ip | ip in s.phases && HoldsSlot(s.phases[ip])
  }

  predicate LookedUp(p: Phase) { !p.Waiting? && !p.Holding? }

  predicate InCache(p: Phase) { LookedUp(p) && !p.Answered? }

  predicate InResult(p: Phase) { InCache(p) && !p.Cached? }

  /** The channel holds one token per goroutine inside the bounded section. */
  ghost predicate SlotsHonest(s: State) {
    s.slots == |InFlight(s)| <= PTR_CONCURRENCY
  }

  ghost predicate LookupsHonest(pending: seq<string>, s: State) {
    && s.phases.Keys == s.lookups.Keys == (set ip | ip in pending)
    && (forall ip :: ip in s.lookups ==> s.lookups[ip] == if LookedUp(s.phases[ip]) then 1 else 0)
    && (forall ip :: ip in s.phases && InCache(s.phases[ip]) ==> ip in s.cache)
    && (s.returned ==> forall ip :: ip in s.phases ==> s.phases[ip].Done?)
  }

  ghost predicate ResultHonest(names: Names, cached: map<string, string>, s: State) {
    && (forall ip :: ip in s.result <==>
          ip in cached || (ip in s.phases && InResult(s.phases[ip]) && HostOf(names(ip)) != ""))
    && (forall ip :: ip in s.result ==>
          s.result[ip] == if ip in cached then cached[ip] else HostOf(names(ip)))
  }

  ghost predicate Invariant(names: Names, cached: map<string, string>, pending: seq<string>, s: State) {
    SlotsHonest(s) && LookupsHonest(pending, s) && ResultHonest(names, cached, s)
  }

  lemma BeginHolds(names: Names, cached: map<string, string>, pending: seq<string>, cache: Cache)
    ensures Invariant(names, cached, pending, Begin(cached, pending, cache))
  {
    assert InFlight(Begin(cached, pending, cache)) == {};
  }

  /** Whenever a goroutine can take its step, the step is well defined. */
  lemma StepDefined(pending: seq<string>, s: State, e: Event)
    requires SlotsHonest(s) && LookupsHonest(pending, s) && Enabled(s, e)
    ensures (e.Release? ==> s.slots > 0) && (e.Answer? ==> e.ip in s.lookups)
  {
    if e.Release? {
      assert e.ip in InFlight(s);
    }
  }

  /** The phase after a goroutine's step. */
  function After(e: Event): Phase
    requires !e.OtherPut? && !e.Return?
  {
    match e
    case Acquire(_) => Holding
    case Answer(_) => Answered
    case Remember(_, _) => Cached
    case Write(_) => Written
    case Release(_) => Released
    case Finish(_) => Done
  }

  /** What a step does to the phases, whichever step it is. */
  lemma PhaseStep(names: Names, s: State, e: Event)
    requires Enabled(s, e) && (e.Release? ==> s.slots > 0) && (e.Answer? ==> e.ip in s.lookups)
    ensures var t := Next(names, s, e);
      if e.OtherPut? || e.Return? then t.phases == s.phases
      else e.ip in s.phases && s.phases[e.ip] == Source(e) && t.phases == s.phases[e.ip := After(e)]
    ensures var t := Next(names, s, e);
      && (t.result == if e.Write? && HostOf(names(e.ip)) != "" then s.result[e.ip := HostOf(names(e.ip))] else s.result)
      && (t.lookups == if e.Answer? then s.lookups[e.ip := s.lookups[e.ip] + 1] else s.lookups)
      && t.slots == s.slots + (if e.Acquire? then 1 else if e.Release? then -1 else 0)
      && t.returned == (s.returned || e.Return?)
      && s.cache.Keys <= t.cache.Keys && (e.Remember? ==> e.ip in t.cache)
  {
  }

  lemma SlotsKept(names: Names, pending: seq<string>, s: State, e: Event)
    requires SlotsHonest(s) && Enabled(s, e)
    requires (e.Release? ==> s.slots > 0) && (e.Answer? ==> e.ip in s.lookups)
    ensures SlotsHonest(Next(names, s, e))
  {
    var t := Next(names, s, e);
    if e.Acquire? {
      assert InFlight(t) == InFlight(s) + {e.ip};
    } else if e.Release? {
      assert InFlight(t) == InFlight(s) - {e.ip};
    } else {
      PhaseStep(names, s, e);
      assert InFlight(t) == InFlight(s);
    }
  }

  lemma LookupsKept(names: Names, pending: seq<string>, s: State, e: Event)
    requires LookupsHonest(pending, s) && Enabled(s, e)
    requires (e.Release? ==> s.slots > 0) && (e.Answer? ==> e.ip in s.lookups)
    ensures LookupsHonest(pending, Next(names, s, e))
  {
    PhaseStep(names, s, e);
    var t := Next(names, s, e);
    if !e.OtherPut? && !e.Return? {
      assert t.phases.Keys == s.phases.Keys;
      assert t.lookups.Keys == s.lookups.Keys;
    }
  }

  lemma ResultKept(names: Names, cached: map<string, string>, pending: seq<string>, s: State, e: Event)
    requires ResultHonest(names, cached, s) && LookupsHonest(pending, s) && Enabled(s, e)
    requires (e.Release? ==> s.slots > 0) && (e.Answer? ==> e.ip in s.lookups)
    requires forall ip :: ip in pending ==> ip !in cached
    ensures ResultHonest(names, cached, Next(names, s, e))
  {
    PhaseStep(names, s, e);
    if e.Write? {
      WriteKept(names, cached, s, e.ip, Next(names, s, e));
    } else {
      ResultFrame(names, cached, s, Next(names, s, e));
    }
  }

  lemma WriteKept(names: Names, cached: map<string, string>, s: State, ip: string, t: State)
    requires ResultHonest(names, cached, s) && ip in s.phases && s.phases[ip].Cached? && ip !in cached
    requires t.phases == s.phases[ip := Written]
    requires t.result == if HostOf(names(ip)) != "" then s.result[ip := HostOf(names(ip))] else s.result
    ensures ResultHonest(names, cached, t)
  {
  }

  lemma ResultFrame(names: Names, cached: map<string, string>, s: State, t: State)
    requires ResultHonest(names, cached, s) && t.result == s.result
    requires forall ip :: ip in t.phases && InResult(t.phases[ip]) <==> ip in s.phases && InResult(s.phases[ip])
    ensures ResultHonest(names, cached, t)
  {
  }

  /** Every step of every goroutine keeps the invariant. */
  lemma StepKeeps(names: Names, cached: map<string, string>, pending: seq<string>, s: State, e: Event)
    requires Invariant(names, cached, pending, s) && Enabled(s, e)
    requires forall ip :: ip in pending ==> ip !in cached
    ensures (e.Release? ==> s.slots > 0) && (e.Answer? ==> e.ip in s.lookups)
    ensures Invariant(names, cached, pending, Next(names, s, e))
  {
    StepDefined(pending, s, e);
    SlotsKept(names, pending, s, e);
    LookupsKept(names, pending, s, e);
    ResultKept(names, cached, pending, s, e);
  }

  // ------------------------------------------------------------- any schedule

  /** The state after any interleaving, or none where a step was not possible. */
  ghost function Run(names: Names, s: State, events: seq<Event>): Option<State> {
    if events == [] then Some(s)
    else
      var e := events[|events| - 1];
      match Run(names, s, events[..|events| - 1])
      case None => None
      case Some(t) =>
        if Enabled(t, e) && (e.Release? ==> t.slots > 0) && (e.Answer? ==> e.ip in t.lookups)
        then Some(Next(names, t, e)) else None
  }

  /** The call's own state after its cached part, before any goroutine has run. */
  function Start(c: Call): State
    requires Timed(c)
  {
    Begin(CachedPart(c.ips, Views(c), |c.ips|), PendingPart(c.ips, Views(c), |c.ips|), CacheAt(c, |c.ips|))
  }

  lemma {:induction false} RunKeeps(c: Call, names: Names, events: seq<Event>)
    requires Timed(c) && Run(names, Start(c), events).Some?
    ensures Invariant(names, CachedPart(c.ips, Views(c), |c.ips|), PendingPart(c.ips, Views(c), |c.ips|),
                      Run(names, Start(c), events).value)
  {
    var cached, pending := CachedPart(c.ips, Views(c), |c.ips|), PendingPart(c.ips, Views(c), |c.ips|);
    if events == [] {
      BeginHolds(names, cached, pending, CacheAt(c, |c.ips|));
    } else {
      var before := events[..|events| - 1];
      RunKeeps(c, names, before);
      PendingApart(c.ips, Views(c), |c.ips|);
      StepKeeps(names, cached, pending, Run(names, Start(c), before).value, events[|events| - 1]);
    }
  }

  /** In every interleaving at most eight lookups run at once, and none runs twice. */
  lemma Bounded(c: Call, names: Names, events: seq<Event>)
    requires Timed(c) && Run(names, Start(c), events).Some?
    ensures var s := Run(names, Start(c), events).value;
      |InFlight(s)| <= 8 && forall ip :: ip in s.lookups ==> s.lookups[ip] <= 1
  {
    RunKeeps(c, names, events);
  }

  lemma FinishedCombines(names: Names, cached: map<string, string>, pending: seq<string>, s: State)
    requires Invariant(names, cached, pending, s) && s.returned
    ensures Combines(cached, pending, names, s.result)
    ensures forall ip :: ip in pending ==> ip in s.lookups && s.lookups[ip] == 1 && ip in s.cache
    ensures forall ip :: ip in s.lookups ==> ip in pending
  {
    assert forall ip :: ip in s.phases <==> ip in pending;
  }

  /** Whatever the interleaving, a call that returns has looked up exactly once each distinct
      non-empty address that had no live entry when it was read, and no other; the cache has
      an entry for each, and the result is the sequential one. */
  lemma ReturnsSequentialResult(c: Call, names: Names, events: seq<Event>)
    requires Timed(c) && Run(names, Start(c), events).Some?
    requires Run(names, Start(c), events).value.returned
    ensures var s := Run(names, Start(c), events).value;
      && s.result == Sequential(c.ips, Views(c), names, |c.ips|)
      && (forall i :: 0 <= i < |c.ips| && FirstOccurrence(c.ips, i) ==>
            (c.ips[i] in s.lookups <==> Lookup(CacheAt(c, i + 1), c.ips[i], c.times[i]).None?))
      && (forall ip :: ip in s.lookups ==> ip != "" && ip in c.ips && s.lookups[ip] == 1 && ip in s.cache)
  {
    RunKeeps(c, names, events);
    var ips, views := c.ips, Views(c);
    var cached, pending := CachedPart(ips, views, |ips|), PendingPart(ips, views, |ips|);
    var s := Run(names, Start(c), events).value;
    FinishedCombines(names, cached, pending, s);
    SequentialCombines(ips, views, names, |ips|);
    CombinesOnce(cached, pending, names, s.result, Sequential(ips, views, names, |ips|));
    forall i | 0 <= i < |ips| && FirstOccurrence(ips, i)
      ensures ips[i] in s.lookups <==> Lookup(CacheAt(c, i + 1), ips[i], c.times[i]).None?
    {
      PendingHas(ips, views, |ips|, i);
    }
    PendingApart(ips, views, |ips|);
    assert ips[..|ips|] == ips;
  }

  // ------------------------------------------------- the answers themselves

  /** What a lookup answer yields: nothing if it failed or named nobody, else the first name,
      without its final dot. */
  ghost predicate Yields(names: Option<seq<string>>, host: string) {
    if names.None? || names.value == [] then host == ""
    else names.value[0] == host + "." || (names.value[0] == host && !EndsInDot(host))
  }

  predicate EndsInDot(s: string) { s != "" && s[|s| - 1] == '.' }

  lemma HostYields(names: Option<seq<string>>)
    ensures Yields(names, HostOf(names))
    ensures forall host :: Yields(names, host) ==> host == HostOf(names)
  {
    if names.Some? && names.value != [] {
      var name := names.value[0];
      if EndsInDot(name) {
        assert name == name[..|name| - 1] + ".";
      }
      forall host | Yields(names, host) ensures host == HostOf(names) {
        if name == host + "." { assert name[..|name| - 1] == host; }
      }
    }
  }

  /** What a call answers for the address first listed at position i: its live cache entry if
      there is one when it is read, and else what the lookup yields. An empty host is left out. */
  ghost predicate AnswersFor(c: Call, names: Names, result: map<string, string>, i: nat)
    requires Timed(c) && i < |c.ips|
  {
    exists host :: FoundFor(c, names, i, host) && Shows(result, c.ips[i], host)
  }

  ghost predicate FoundFor(c: Call, names: Names, i: nat, host: string)
    requires Timed(c) && i < |c.ips|
  {
    var ip, cache := c.ips[i], CacheAt(c, i + 1);
    if ip in cache && c.times[i] <= cache[ip].expires then host == cache[ip].host else Yields(names(ip), host)
  }

  predicate Shows(result: map<string, string>, ip: string, host: string) {
    if host == "" then ip !in result else ip in result && result[ip] == host
  }

  lemma {:induction false} SequentialAnswers(ips: seq<string>, views: seq<Option<string>>, names: Names, n: nat, i: nat)
    requires i < n <= |ips| == |views| && FirstOccurrence(ips, i)
    ensures var host := if views[i].Some? then views[i].value else HostOf(names(ips[i]));
      var all := Sequential(ips, views, names, n);
      if host == "" then ips[i] !in all else ips[i] in all && all[ips[i]] == host
  {
    if i < n - 1 {
      SequentialAnswers(ips, views, names, n - 1, i);
      assert FirstOccurrence(ips, n - 1) ==> ips[n - 1] != ips[i] by {
        assert ips[i] in ips[..n - 1];
      }
    } else {
      SequentialListed(ips, views, names, i);
    }
  }

  lemma {:induction false} SequentialListed(ips: seq<string>, views: seq<Option<string>>, names: Names, n: nat)
    requires n <= |ips| == |views|
    ensures forall ip :: ip in Sequential(ips, views, names, n) ==> ip != "" && ip in ips[..n]
  {
    if n > 0 {
      SequentialListed(ips, views, names, n - 1);
      assert ips[..n] == ips[..n - 1] + [ips[n - 1]];
    }
  }

  /** A returned call answers every listed address, and no other, from the cache or by the
      first name of its lookup. */
  lemma AnswersExactly(c: Call, names: Names, events: seq<Event>)
    requires Timed(c) && Run(names, Start(c), events).Some?
    requires Run(names, Start(c), events).value.returned
    ensures var result := Run(names, Start(c), events).value.result;
      && (forall ip :: ip in result ==> ip != "" && ip in c.ips)
      && (forall i :: 0 <= i < |c.ips| && c.ips[i] != "" && c.ips[i] !in c.ips[..i] ==> AnswersFor(c, names, result, i))
  {
    ReturnsSequentialResult(c, names, events);
    SequentialListed(c.ips, Views(c), names, |c.ips|);
    assert c.ips[..|c.ips|] == c.ips;
    var result := Run(names, Start(c), events).value.result;
    forall i | 0 <= i < |c.ips| && c.ips[i] != "" && c.ips[i] !in c.ips[..i] ensures AnswersFor(c, names, result, i) {
      AnswerAt(c, names, result, i);
    }
  }

  lemma AnswerAt(c: Call, names: Names, result: map<string, string>, i: nat)
    requires Timed(c) && i < |c.ips| && c.ips[i] != "" && c.ips[i] !in c.ips[..i]
    requires result == Sequential(c.ips, Views(c), names, |c.ips|)
    ensures AnswersFor(c, names, result, i)
  {
    var view := Views(c)[i];
    SequentialAnswers(c.ips, Views(c), names, |c.ips|, i);
    HostYields(names(c.ips[i]));
    assert view == Lookup(CacheAt(c, i + 1), c.ips[i], c.times[i]);
    var host := if view.Some? then view.value else HostOf(names(c.ips[i]));
    assert FoundFor(c, names, i, host) && Shows(result, c.ips[i], host);
  }

  /** Without other requests the cache ends up with exactly what the lookups found,
      negative answers included. */
  lemma {:induction false} CacheHoldsAnswers(names: Names, s: State, events: seq<Event>, ip: string)
    requires Run(names, s, events).Some?
    requires forall i :: 0 <= i < |events| ==> !events[i].OtherPut?
    requires ip in s.phases && s.phases[ip].Waiting?
    ensures var t := Run(names, s, events).value;
      && ip in t.phases
      && (InCache(t.phases[ip]) ==>
            ip in t.cache && t.cache[ip].host == HostOf(names(ip)) && Yields(names(ip), t.cache[ip].host))
  {
    if events != [] {
      var n := |events| - 1;
      CacheHoldsAnswers(names, s, events[..n], ip);
      CacheStep(names, Run(names, s, events[..n]).value, events[n], ip);
    }
    HostYields(names(ip));
  }

  lemma CacheStep(names: Names, s: State, e: Event, ip: string)
    requires Enabled(s, e) && (e.Release? ==> s.slots > 0) && (e.Answer? ==> e.ip in s.lookups) && !e.OtherPut?
    requires ip in s.phases && (InCache(s.phases[ip]) ==> ip in s.cache && s.cache[ip].host == HostOf(names(ip)))
    ensures var t := Next(names, s, e);
      ip in t.phases && (InCache(t.phases[ip]) ==> ip in t.cache && t.cache[ip].host == HostOf(names(ip)))
  {
  }

  /** And it serves each of them for an hour from the moment it was put there. */
  lemma {:induction false} CachedForAnHour(names: Names, s: State, events: seq<Event>, ip: string) returns (i: nat)
    requires Run(names, s, events).Some?
    requires forall k :: 0 <= k < |events| ==> !events[k].OtherPut?
    requires ip in s.phases && s.phases[ip].Waiting?
    requires ip in Run(names, s, events).value.phases && InCache(Run(names, s, events).value.phases[ip])
    ensures i < |events| && events[i].Remember? && events[i].ip == ip
    ensures var t := Run(names, s, events).value;
      ip in t.cache && t.cache[ip].expires == events[i].now + 3600
  {
    var n := |events| - 1;
    var before, e := Run(names, s, events[..n]).value, events[n];
    CacheHoldsAnswers(names, s, events[..n], ip);
    if e.Remember? && e.ip == ip {
      i := n;
    } else {
      i := CachedForAnHour(names, s, events[..n], ip);
    }
  }

  // ---------------------------------------------------------------- progress

  /** The steps a goroutine still has to take. */
  function Left(p: Phase): nat {
    match p
    case Waiting => 6
    case Holding => 5
    case Answered => 4
    case Cached => 3
    case Written => 2
    case Released => 1
    case Done => 0
  }

  function AllLeft(pending: seq<string>, phases: map<string, Phase>): nat {
    if pending == [] then 0
    else
      var ip := pending[|pending| - 1];
      AllLeft(pending[..|pending| - 1], phases) + if ip in phases then Left(phases[ip]) else 0
  }

  function StepsLeft(pending: seq<string>, s: State): nat {
    AllLeft(pending, s.phases) + if s.returned then 0 else 1
  }

  lemma {:induction false} AllLeftUpdate(pending: seq<string>, phases: map<string, Phase>, ip: string, p: Phase)
    requires ip in phases
    requires forall i, j :: 0 <= i < j < |pending| ==> pending[i] != pending[j]
    ensures AllLeft(pending, phases[ip := p])
         == AllLeft(pending, phases) + if ip in pending then Left(p) - Left(phases[ip]) else 0
  {
    if pending != [] {
      var n := |pending| - 1;
      AllLeftUpdate(pending[..n], phases, ip, p);
      assert pending == pending[..n] + [pending[n]];
    }
  }

  /** Each step of the call brings it one step closer to its end: no schedule runs forever. */
  lemma EveryStepCounts(names: Names, pending: seq<string>, s: State, e: Event)
    requires SlotsHonest(s) && LookupsHonest(pending, s) && Enabled(s, e) && !e.OtherPut?
    requires forall i, j :: 0 <= i < j < |pending| ==> pending[i] != pending[j]
    ensures (e.Release? ==> s.slots > 0) && (e.Answer? ==> e.ip in s.lookups)
    ensures StepsLeft(pending, Next(names, s, e)) == StepsLeft(pending, s) - 1
  {
    StepDefined(pending, s, e);
    PhaseStep(names, s, e);
    if !e.Return? {
      assert e.ip in s.phases.Keys;
      AllLeftUpdate(pending, s.phases, e.ip, After(e));
      OneLess(e);
    }
  }

  lemma OneLess(e: Event)
    requires !e.OtherPut? && !e.Return?
    ensures Left(After(e)) == Left(Source(e)) - 1
  {
  }

  /** The step a goroutine in this phase takes next. */
  function StepOf(ip: string, p: Phase): Event
    requires !p.Done?
  {
    match p
    case Waiting => Acquire(ip)
    case Holding => Answer(ip)
    case Answered => Remember(ip, 0)
    case Cached => Write(ip)
    case Written => Release(ip)
    case Released => Finish(ip)
  }

  /** And until it has returned some step is always possible: the slots cannot deadlock. */
  lemma NeverStuck(pending: seq<string>, s: State) returns (e: Event)
    requires SlotsHonest(s) && LookupsHonest(pending, s) && !s.returned
    ensures !e.OtherPut? && Enabled(s, e)
  {
    if ip :| ip in s.phases && !s.phases[ip].Done? && !s.phases[ip].Waiting? {
      e := StepOf(ip, s.phases[ip]);
    } else if ip :| ip in s.phases && s.phases[ip].Waiting? {
      assert InFlight(s) == {};
      e := Acquire(ip);
    } else {
      e := Return;
    }
  }
}

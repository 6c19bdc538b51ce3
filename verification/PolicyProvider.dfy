/**
 The provider object of services/gateway/internal/policyclient/client.go: its fields and
 methods. A `Lookup` that no other lookup of its host disturbs is shown to be a run of the
 interleaving model, step for step.
 */
module PolicyProvider {
  import opened Common
  import opened Hosts
  import opened PolicyCache

  /** The shared part of a state of the interleaving model. */
  datatype Shared<A> = Shared(
    cache: map<string, Entry<A>>, locks: map<string, nat>, nextMutex: nat, hits: nat, misses: nat, errors: nat)

  function SharedOf<A>(s: State<A>): Shared<A> {
    Shared(s.cache, s.locks, s.nextMutex, s.hits, s.misses, s.errors)
  }

  /** The mutex `hostLock` returns. */
  function MutexFor<A>(sh: Shared<A>, host: string): nat {
    if host in sh.locks then sh.locks[host] else sh.nextMutex
  }

  function WithLock<A>(sh: Shared<A>, host: string): Shared<A> {
    if host in sh.locks then sh else sh.(locks := sh.locks[host := sh.nextMutex], nextMutex := sh.nextMutex + 1)
  }

  predicate Usable<A>(cache: map<string, Entry<A>>, host: string, at: int) {
    host in cache && at < cache[host].expiresAt
  }

  lemma OneMoreStep<A(!new)>(c: Config, s: State<A>, steps: seq<Step<A>>, step: Step<A>)
    requires IsRun(c, s, steps) && Enabled(After(c, s, steps), step)
    ensures IsRun(c, s, steps + [step]) && After(c, s, steps + [step]) == Apply(c, After(c, s, steps), step)
  {
    var s' := After(c, s, steps);
    assert [step][1..] == [];
    assert IsRun(c, s', [step]);
    RunAppend(c, s, steps, [step]);
  }

  lemma TwoSteps<A(!new)>(c: Config, s: State<A>, a: Step<A>, b: Step<A>)
    requires Enabled(s, a) && Enabled(Apply(c, s, a), b)
    ensures IsRun(c, s, [a, b]) && After(c, s, [a, b]) == Apply(c, Apply(c, s, a), b)
  {
    OneMoreStep(c, s, [], a);
    OneMoreStep(c, s, [a], b);
  }

  /** Thread `t` looks up `host`, is in the given phase, and the mutexes are held as in `owner`. */
  ghost predicate Stands<A>(s: State<A>, t: nat, host: string, phase: Phase<A>, owner: map<nat, nat>) {
    t in s.threads && s.threads[t].host == host && s.threads[t].phase == phase && s.owner == owner
  }

  lemma BeginEmpty<A(!new)>(c: Config, s: State<A>, t: nat) returns (steps: seq<Step<A>>)
    requires t !in s.threads
    ensures IsRun(c, s, steps) && SharedOf(After(c, s, steps)) == SharedOf(s)
    ensures Stands(After(c, s, steps), t, "", Done(s.clock, EmptyHost()), s.owner)
  {
    steps := [Start(t, "")];
    OneMoreStep(c, s, [], Start(t, ""));
  }

  lemma Begin<A(!new)>(c: Config, s: State<A>, t: nat, host: string) returns (steps: seq<Step<A>>)
    requires t !in s.threads && host != ""
    ensures IsRun(c, s, steps) && SharedOf(After(c, s, steps)) == SharedOf(s) && After(c, s, steps).clock == s.clock
    ensures Stands(After(c, s, steps), t, host, FirstCheck(s.clock), s.owner)
  {
    steps := [Start(t, host), ReadClock(t)];
    TwoSteps(c, s, Start(t, host), ReadClock(t));
  }

  lemma Check<A(!new)>(c: Config, s: State<A>, t: nat, host: string, at: int) returns (steps: seq<Step<A>>)
    requires Stands(s, t, host, FirstCheck(at), s.owner)
    ensures IsRun(c, s, steps) && After(c, s, steps).clock == s.clock
    ensures var end := After(c, s, steps);
            if Usable(s.cache, host, at) then
              Stands(end, t, host, Done(at, Found(s.cache[host].app)), s.owner) && SharedOf(end) == SharedOf(s).(hits := s.hits + 1)
            else Stands(end, t, host, WantLock, s.owner) && SharedOf(end) == SharedOf(s).(misses := s.misses + 1)
  {
    steps := [ReadCache(t)];
    OneMoreStep(c, s, [], ReadCache(t));
  }

  lemma TakeLock<A(!new)>(c: Config, s: State<A>, t: nat, host: string) returns (steps: seq<Step<A>>)
    requires Stands(s, t, host, WantLock, s.owner) && MutexFor(SharedOf(s), host) !in s.owner
    ensures IsRun(c, s, steps) && After(c, s, steps).clock == s.clock
    ensures var end, m := After(c, s, steps), MutexFor(SharedOf(s), host);
            Stands(end, t, host, Locked(m), s.owner[m := t]) && SharedOf(end) == WithLock(SharedOf(s), host)
  {
    steps := [GetLock(t), Acquire(t)];
    TwoSteps(c, s, GetLock(t), Acquire(t));
  }

  lemma LookAgain<A(!new)>(c: Config, s: State<A>, t: nat, host: string, m: nat, wait: nat) returns (steps: seq<Step<A>>)
    requires Stands(s, t, host, Locked(m), s.owner)
    ensures IsRun(c, s, steps) && SharedOf(After(c, s, steps)) == SharedOf(s)
    ensures Stands(After(c, s, steps), t, host, Recheck(m, s.clock + wait), s.owner)
  {
    steps := [Tick(wait), ReadClock(t)];
    TwoSteps(c, s, Tick(wait), ReadClock(t));
  }

  lemma CheckAgain<A(!new)>(c: Config, s: State<A>, t: nat, host: string, m: nat, at: int) returns (steps: seq<Step<A>>)
    requires Stands(s, t, host, Recheck(m, at), s.owner)
    ensures IsRun(c, s, steps)
    ensures var end := After(c, s, steps);
            if Usable(s.cache, host, at) then
              Stands(end, t, host, Releasing(m, at, Found(s.cache[host].app)), s.owner) && SharedOf(end) == SharedOf(s).(hits := s.hits + 1)
            else Stands(end, t, host, Fetching(m, at), s.owner) && SharedOf(end) == SharedOf(s)
  {
    steps := [ReadCache(t)];
    OneMoreStep(c, s, [], ReadCache(t));
  }

  lemma FetchAndStore<A(!new)>(c: Config, s: State<A>, t: nat, host: string, m: nat, at: int, app: A) returns (steps: seq<Step<A>>)
    requires Stands(s, t, host, Fetching(m, at), s.owner)
    ensures IsRun(c, s, steps)
    ensures var end := After(c, s, steps);
            && Stands(end, t, host, Releasing(m, at, Found(app)), s.owner)
            && SharedOf(end) == SharedOf(s).(cache := s.cache[host := Entry(app, at + c.ttl)])
  {
    steps := [FetchOk(t, app), Store(t)];
    TwoSteps(c, s, FetchOk(t, app), Store(t));
  }

  lemma FallBack<A(!new)>(c: Config, s: State<A>, t: nat, host: string, m: nat, at: int) returns (steps: seq<Step<A>>)
    requires Stands(s, t, host, Fetching(m, at), s.owner)
    ensures IsRun(c, s, steps)
    ensures var end := After(c, s, steps);
            && Stands(end, t, host, Releasing(m, at, if host in s.cache then FoundStale(s.cache[host].app) else Unavailable(c)), s.owner)
            && SharedOf(end) == SharedOf(s).(errors := s.errors + 1)
  {
    steps := [FetchFail(t), ReadStale(t)];
    TwoSteps(c, s, FetchFail(t), ReadStale(t));
  }

  lemma Unlock<A(!new)>(c: Config, s: State<A>, t: nat, host: string, m: nat, at: int, r: LookupResult<A>, owner: map<nat, nat>)
    returns (steps: seq<Step<A>>)
    requires Stands(s, t, host, Releasing(m, at, r), owner[m := t]) && m !in owner
    ensures IsRun(c, s, steps) && SharedOf(After(c, s, steps)) == SharedOf(s)
    ensures Stands(After(c, s, steps), t, host, Done(at, r), owner)
  {
    steps := [Release(t)];
    OneMoreStep(c, s, [], Release(t));
    assert owner[m := t] - {m} == owner;
  }

  lemma FirstRun<A(!new)>(c: Config, s: State<A>, t: nat, host: string) returns (steps: seq<Step<A>>)
    requires t !in s.threads && host != ""
    ensures IsRun(c, s, steps) && After(c, s, steps).clock == s.clock
    ensures var end := After(c, s, steps);
            if Usable(s.cache, host, s.clock) then
              Stands(end, t, host, Done(s.clock, Found(s.cache[host].app)), s.owner) && SharedOf(end) == SharedOf(s).(hits := s.hits + 1)
            else Stands(end, t, host, WantLock, s.owner) && SharedOf(end) == SharedOf(s).(misses := s.misses + 1)
  {
    steps := Begin(c, s, t, host);
    var more := Check(c, After(c, s, steps), t, host, s.clock);
    RunAppend(c, s, steps, more);
    steps := steps + more;
  }

  /** What the part under the mutex returns and does to the shared state. */
  function LockedOutcome<A>(c: Config, sh: Shared<A>, host: string, at: int, fetched: Option<A>): (LookupResult<A>, Shared<A>) {
    if Usable(sh.cache, host, at) then (Found(sh.cache[host].app), sh.(hits := sh.hits + 1))
    else FetchOutcome(c, sh, host, at, fetched)
  }

  function FetchOutcome<A>(c: Config, sh: Shared<A>, host: string, at: int, fetched: Option<A>): (LookupResult<A>, Shared<A>) {
    if fetched.Some? then (Found(fetched.value), sh.(cache := sh.cache[host := Entry(fetched.value, at + c.ttl)]))
    else (if host in sh.cache then FoundStale(sh.cache[host].app) else Unavailable(c), sh.(errors := sh.errors + 1))
  }

  lemma FetchRun<A(!new)>(c: Config, s: State<A>, t: nat, host: string, m: nat, at: int, fetched: Option<A>, owner: map<nat, nat>)
    returns (steps: seq<Step<A>>)
    requires Stands(s, t, host, Fetching(m, at), owner[m := t]) && m !in owner
    ensures IsRun(c, s, steps)
    ensures var end, outcome := After(c, s, steps), FetchOutcome(c, SharedOf(s), host, at, fetched);
            SharedOf(end) == outcome.1 && Stands(end, t, host, Done(at, outcome.0), owner)
  {
    if fetched.Some? {
      steps := FetchAndStore(c, s, t, host, m, at, fetched.value);
    } else {
      steps := FallBack(c, s, t, host, m, at);
    }
    var more := Unlock(c, After(c, s, steps), t, host, m, at, FetchOutcome(c, SharedOf(s), host, at, fetched).0, owner);
    RunAppend(c, s, steps, more);
    steps := steps + more;
  }

  lemma RecheckRun<A(!new)>(c: Config, s: State<A>, t: nat, host: string, m: nat, at: int, fetched: Option<A>, owner: map<nat, nat>)
    returns (steps: seq<Step<A>>)
    requires Stands(s, t, host, Recheck(m, at), owner[m := t]) && m !in owner
    ensures IsRun(c, s, steps)
    ensures var end, outcome := After(c, s, steps), LockedOutcome(c, SharedOf(s), host, at, fetched);
            SharedOf(end) == outcome.1 && Stands(end, t, host, Done(at, outcome.0), owner)
  {
    var more;
    steps := CheckAgain(c, s, t, host, m, at);
    if Usable(s.cache, host, at) {
      more := Unlock(c, After(c, s, steps), t, host, m, at, Found(s.cache[host].app), owner);
    } else {
      more := FetchRun(c, After(c, s, steps), t, host, m, at, fetched, owner);
    }
    RunAppend(c, s, steps, more);
    steps := steps + more;
  }

  lemma LockedRun<A(!new)>(c: Config, s: State<A>, t: nat, host: string, m: nat, wait: nat, fetched: Option<A>, owner: map<nat, nat>)
    returns (steps: seq<Step<A>>)
    requires Stands(s, t, host, Locked(m), owner[m := t]) && m !in owner
    ensures IsRun(c, s, steps)
    ensures var end, outcome := After(c, s, steps), LockedOutcome(c, SharedOf(s), host, s.clock + wait, fetched);
            SharedOf(end) == outcome.1 && Stands(end, t, host, Done(s.clock + wait, outcome.0), owner)
  {
    steps := LookAgain(c, s, t, host, m, wait);
    var more := RecheckRun(c, After(c, s, steps), t, host, m, s.clock + wait, fetched, owner);
    RunAppend(c, s, steps, more);
    steps := steps + more;
  }

  /**
   What an undisturbed lookup answers and does, read off the entry it finds, its two clock
   readings and the answer to its fetch.
   */
  ghost predicate Answers<A>(
    c: Config, was: Shared<A>, host: string, now: int, later: int, fetched: Option<A>, r: LookupResult<A>, after: Shared<A>)
  {
    if host == "" then !r.found && !r.failOpen && r.statusCode == 0 && r.reason == HostEmpty && after == was
    else if host in was.cache && now < was.cache[host].expiresAt then
      Serves(r, was.cache[host].app, false) && after == was.(hits := was.hits + 1)
    else
      after.hits == was.hits && after.misses == was.misses + 1 && AnswersFetch(c, was, host, later, fetched, r, after)
  }

  /** The same from the fetch on: a policy that arrives is kept for a TTL, an old one stands in, or there is none. */
  ghost predicate AnswersFetch<A>(
    c: Config, was: Shared<A>, host: string, later: int, fetched: Option<A>, r: LookupResult<A>, after: Shared<A>)
  {
    match fetched
    case Some(app) =>
      && Serves(r, app, false) && after.errors == was.errors
      && after.cache == was.cache[host := Entry(app, later + c.ttl)]
    case None =>
      && after.errors == was.errors + 1 && after.cache == was.cache
      && if host in was.cache then Serves(r, was.cache[host].app, true) else Refuses(c, r)
  }

  class Provider<A(!new)> {
    const config: Config
    var cache: map<string, Entry<A>>
    var locks: map<string, nat>
    var nextMutex: nat
    var hits: nat
    var misses: nat
    var errors: nat

    constructor (cacheTtlSeconds: int, failBehavior: string)
      ensures config == NewConfig(cacheTtlSeconds, failBehavior) && Fields() == SharedOf(Init(0)) && Valid()
    {
      config := NewConfig(cacheTtlSeconds, failBehavior);
      cache, locks, nextMutex := map[], map[], 0;
      hits, misses, errors := 0, 0, 0;
    }

    ghost function Fields(): Shared<A>
      reads this
    {
      Shared(cache, locks, nextMutex, hits, misses, errors)
    }

    /** Mutexes are numbered in the order they are made. */
    ghost predicate Valid()
      reads this
    {
      forall h :: h in locks ==> locks[h] < nextMutex
    }

    method Cached(host: string) returns (entry: Option<Entry<A>>)
      ensures entry == if host in cache then Some(cache[host]) else None
    {
      entry := if host in cache then Some(cache[host]) else None;
    }

    method StoreEntry(host: string, entry: Entry<A>)
      modifies this`cache
      ensures cache == old(cache)[host := entry]
    {
      cache := cache[host := entry];
    }

    /** A host's mutex is made once; a new one differs from all before it. */
    method HostLock(host: string) returns (mutex: nat)
      requires Valid()
      modifies this`locks, this`nextMutex
      ensures Valid() && (old(host !in locks) ==> forall h :: h in old(locks) ==> old(locks)[h] != mutex)
      ensures mutex == MutexFor(old(Fields()), host) && Fields() == WithLock(old(Fields()), host)
      ensures host in locks && locks[host] == mutex
    {
      if host in locks {
        mutex := locks[host];
      } else {
        mutex := nextMutex;
        locks := locks[host := mutex];
        nextMutex := nextMutex + 1;
      }
    }

    /** `Lookup` of a normalised host; the ghost results are the steps of the model that lead to its result. */
    method LookupNormal(host: string, now: int, later: int, fetched: Option<A>, ghost s: State<A>, ghost t: nat)
      returns (r: LookupResult<A>, ghost steps: seq<Step<A>>)
      requires Valid() && Fields() == SharedOf(s) && now == s.clock <= later && t !in s.threads && MutexFor(SharedOf(s), host) !in s.owner
      modifies this
      ensures Valid()
      ensures IsRun(config, s, steps) && Fields() == SharedOf(After(config, s, steps))
      ensures exists at :: Stands(After(config, s, steps), t, host, Done(at, r), s.owner)
      ensures Answers(config, old(Fields()), host, now, later, fetched, r, Fields())
    {
      if host == "" {
        steps := BeginEmpty(config, s, t);
        return EmptyHost(), steps;
      }
      steps := FirstRun(config, s, t, host);
      ghost var m, more := After(config, s, steps), [];
      var entry := Cached(host);
      if entry.Some? && now < entry.value.expiresAt {
        hits := hits + 1;
        return Found(entry.value.app), steps;
      }
      misses := misses + 1;
      r, more := LookupMissed(host, later, fetched, m, t);
      RunAppend(config, s, steps, more);
      steps := steps + more;
    }

    /** The part of `Lookup` after a miss: lock the host's mutex, then look again. */
    method LookupMissed(host: string, later: int, fetched: Option<A>, ghost s: State<A>, ghost t: nat)
      returns (r: LookupResult<A>, ghost steps: seq<Step<A>>)
      requires Valid() && Fields() == SharedOf(s) && s.clock <= later && MutexFor(SharedOf(s), host) !in s.owner
      requires Stands(s, t, host, WantLock, s.owner)
      modifies this
      ensures Valid()
      ensures IsRun(config, s, steps) && Fields() == SharedOf(After(config, s, steps))
      ensures exists at :: Stands(After(config, s, steps), t, host, Done(at, r), s.owner)
      ensures misses == old(misses)
      ensures !Usable(old(cache), host, later) ==>
                hits == old(hits) && AnswersFetch(config, old(Fields()), host, later, fetched, r, Fields())
    {
      var mutex := HostLock(host);
      steps := TakeLock(config, s, t, host);
      ghost var m, more := After(config, s, steps), [];
      r, more := LookupLocked(host, mutex, later, fetched, m, t, s.owner);
      RunAppend(config, s, steps, more);
      steps := steps + more;
    }

    /** The part of `Lookup` under the host's mutex. */
    method LookupLocked(host: string, mutex: nat, later: int, fetched: Option<A>, ghost s: State<A>, ghost t: nat, ghost owner: map<nat, nat>)
      returns (r: LookupResult<A>, ghost steps: seq<Step<A>>)
      requires Fields() == SharedOf(s) && s.clock <= later && mutex !in owner
      requires Stands(s, t, host, Locked(mutex), owner[mutex := t])
      modifies this`cache, this`hits, this`errors
      ensures IsRun(config, s, steps) && Fields() == SharedOf(After(config, s, steps))
      ensures exists at :: Stands(After(config, s, steps), t, host, Done(at, r), owner)
      ensures !Usable(old(cache), host, later) ==>
                hits == old(hits) && AnswersFetch(config, old(Fields()), host, later, fetched, r, Fields())
    {
      steps := LockedRun(config, s, t, host, mutex, later - s.clock, fetched, owner);
      var entry := Cached(host);
      if entry.Some? && later < entry.value.expiresAt {
        hits := hits + 1;
        return Found(entry.value.app), steps;
      }
      if fetched.Some? {
        StoreEntry(host, Entry(fetched.value, later + config.ttl));
        return Found(fetched.value), steps;
      }
      errors := errors + 1;
      var stale := Cached(host);
      if stale.Some? {
        return FoundStale(stale.value.app), steps;
      }
      return Unavailable(config), steps;
    }

    /**
     `Lookup`, with its two clock readings and the answer to the fetch given. Undisturbed,
     it is a run of the model from any state that has the object's fields: the fields
     afterwards and the result are those the run ends with. What they are is `Answers`.
     */
    method Lookup(rawHost: string, now: int, later: int, fetched: Option<A>, ghost s: State<A>, ghost t: nat)
      returns (r: LookupResult<A>, ghost steps: seq<Step<A>>)
      requires Valid() && Fields() == SharedOf(s) && now == s.clock <= later && t !in s.threads
      requires MutexFor(SharedOf(s), NormalizeHost(rawHost)) !in s.owner
      modifies this
      ensures Valid()
      ensures IsRun(config, s, steps) && Fields() == SharedOf(After(config, s, steps))
      ensures exists at :: Stands(After(config, s, steps), t, NormalizeHost(rawHost), Done(at, r), s.owner)
      ensures Answers(config, old(Fields()), NormalizeHost(rawHost), now, later, fetched, r, Fields())
    {
      var host := NormalizeHost(rawHost);
      r, steps := LookupNormal(host, now, later, fetched, s, t);
    }
  }
}

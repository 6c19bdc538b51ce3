/**
 The remote policy provider (services/gateway/internal/policyclient/client.go): any
 number of concurrent `Provider.Lookup` calls, interleaved at every access to the cache,
 the locks and the clock. A step is one such access; a counter goes up in the step of the
 cache read or failed fetch before it. A run is any sequence of enabled steps. The control
 plane's answers and the clock are chosen by the environment, the clock never going back.
 */
module PolicyCache {
  import opened Common

  /** The reasons and warnings of a lookup. */
  datatype Notice = NoNotice | HostEmpty | NoMatchingApp | FetchFailed | FailedOpen | UsingStale

  function NoticeText(n: Notice): string {
    match n
    case NoNotice => ""
    case HostEmpty => "empty_host"
    case NoMatchingApp => "no_matching_app"
    case FetchFailed => "policy_fetch_failed"
    case FailedOpen => "policy_fetch_failed_fail_open"
    case UsingStale => "policy_fetch_failed_using_stale"
  }

  datatype LookupResult<A> = LookupResult(
    app: Option<A>, found: bool, failOpen: bool, statusCode: int, reason: Notice, warning: Notice, stale: bool)

  datatype Entry<A> = Entry(app: A, expiresAt: int)

  datatype Config = Config(ttl: int, failClosed: bool)

  const SECOND := 1_000_000_000
  const TWO63 := 0x8000_0000_0000_0000

  /** Two's complement wrap-around of a 64-bit product. */
  function Wrap64(n: int): int {
    (n + TWO63) % (2 * TWO63) - TWO63
  }

  /**
   The settings of `NewProvider`. Whatever the configured seconds, the TTL, in nanoseconds,
   is positive; any fail behaviour other than "fail_closed", a missing one included, fails open.
   */
  function NewConfig(cacheTtlSeconds: int, failBehavior: string): (c: Config)
    ensures c.ttl > 0
    ensures 0 < cacheTtlSeconds && cacheTtlSeconds * SECOND < TWO63 ==> c.ttl == cacheTtlSeconds * SECOND
    ensures -TWO63 <= cacheTtlSeconds * SECOND <= 0 ==> c.ttl == 30_000_000_000
    ensures c.failClosed <==> failBehavior == "fail_closed"
  {
    var ttl := Wrap64(cacheTtlSeconds * SECOND);
    var behavior := if failBehavior == "" then "use_stale_then_fail_open" else failBehavior;
    Config(if ttl <= 0 then 30 * SECOND else ttl, behavior == "fail_closed")
  }

  function Found<A>(app: A): LookupResult<A> {
    LookupResult(Some(app), true, false, 0, NoNotice, NoNotice, false)
  }

  function FoundStale<A>(app: A): LookupResult<A> {
    LookupResult(Some(app), true, false, 0, NoNotice, UsingStale, true)
  }

  function EmptyHost<A>(): LookupResult<A> {
    LookupResult(None, false, false, 0, HostEmpty, NoNotice, false)
  }

  function Unavailable<A>(c: Config): LookupResult<A> {
    if c.failClosed then LookupResult(None, false, false, 503, FetchFailed, NoNotice, false)
    else LookupResult(None, false, true, 0, FailedOpen, FailedOpen, false)
  }

  /** The lookup hands out this app, marked stale or not. */
  ghost predicate Serves<A>(r: LookupResult<A>, app: A, stale: bool) {
    && r.found && r.app == Some(app) && !r.failOpen && r.stale == stale
    && r.warning == (if stale then UsingStale else NoNotice)
  }

  /** The lookup hands out nothing: 503 if the provider fails closed, else the request is let go unjudged. */
  ghost predicate Refuses<A>(c: Config, r: LookupResult<A>) {
    && !r.found && r.app.None? && !r.stale
    && (c.failClosed ==> !r.failOpen && r.statusCode == 503 && r.reason == FetchFailed)
    && (!c.failClosed ==> r.failOpen && r.reason == FailedOpen && r.warning == FailedOpen)
  }

  /** Where a lookup stands. `at` is the clock reading its current decision rests on. */
  datatype Phase<A> =
    | Entered
    | FirstCheck(at: int)
    | WantLock
    | Waiting(mutex: nat)
    | Locked(mutex: nat)
    | Recheck(mutex: nat, at: int)
    | Fetching(mutex: nat, at: int)
    | Storing(mutex: nat, at: int, app: A)
    | StaleRead(mutex: nat, at: int)
    | Releasing(mutex: nat, at: int, result: LookupResult<A>)
    | Done(at: int, result: LookupResult<A>)

  /**
   A lookup of `host`. `known`: the host had a cache entry when the lookup began; `hit`,
   `missed`, `failed`: the counter this lookup has raised.
   */
  datatype Thread<A> = Thread(host: string, known: bool, hit: bool, missed: bool, failed: bool, phase: Phase<A>)

  /** A successful fetch, with the clock reading taken before it began. */
  datatype Fetch<A> = Fetch(app: A, checkedAt: int)

  /**
   The provider's maps, which mutex is held by which lookup, and the history of
   successful fetches per host.
   */
  datatype State<A> = State(
    clock: int,
    cache: map<string, Entry<A>>,
    locks: map<string, nat>,
    nextMutex: nat,
    owner: map<nat, nat>,
    threads: map<nat, Thread<A>>,
    fetched: map<string, seq<Fetch<A>>>,
    hits: nat,
    misses: nat,
    errors: nat)

  datatype Step<A> =
    | Tick(amount: nat)
    | Start(t: nat, host: string)
    | ReadClock(t: nat)
    | ReadCache(t: nat)
    | GetLock(t: nat)
    | Acquire(t: nat)
    | FetchOk(t: nat, app: A)
    | FetchFail(t: nat)
    | Store(t: nat)
    | ReadStale(t: nat)
    | Release(t: nat)

  function Init<A>(clock: int): State<A> {
    State(clock, map[], map[], 0, map[], map[], map[], 0, 0, 0)
  }

  predicate Enabled<A(==)>(s: State<A>, step: Step<A>) {
    match step
    case Tick(_) => true
    case Start(t, _) => t !in s.threads
    case ReadClock(t) => t in s.threads && (s.threads[t].phase.Entered? || s.threads[t].phase.Locked?)
    case ReadCache(t) => t in s.threads && (s.threads[t].phase.FirstCheck? || s.threads[t].phase.Recheck?)
    case GetLock(t) => t in s.threads && s.threads[t].phase.WantLock?
    case Acquire(t) => t in s.threads && s.threads[t].phase.Waiting? && s.threads[t].phase.mutex !in s.owner
    case FetchOk(t, _) => t in s.threads && s.threads[t].phase.Fetching?
    case FetchFail(t) => t in s.threads && s.threads[t].phase.Fetching?
    case Store(t) => t in s.threads && s.threads[t].phase.Storing?
    case ReadStale(t) => t in s.threads && s.threads[t].phase.StaleRead?
    case Release(t) => t in s.threads && s.threads[t].phase.Releasing?
  }

  predicate Fresh<A>(s: State<A>, host: string, at: int) {
    host in s.cache && at < s.cache[host].expiresAt
  }

  function Fetches<A>(s: State<A>, host: string): seq<Fetch<A>> {
    if host in s.fetched then s.fetched[host] else []
  }

  /** The phase a lookup is in after its step. */
  function NextPhase<A>(c: Config, s: State<A>, step: Step<A>): Phase<A>
    requires Enabled(s, step) && !step.Tick? && !step.Start?
  {
    var th := s.threads[step.t];
    var p := th.phase;
    match step
    case ReadClock(_) => if p.Entered? then FirstCheck(s.clock) else Recheck(p.mutex, s.clock)
    case ReadCache(_) =>
      if Fresh(s, th.host, p.at) then
        var result := Found(s.cache[th.host].app);
        if p.FirstCheck? then Done(p.at, result) else Releasing(p.mutex, p.at, result)
      else if p.FirstCheck? then WantLock
      else Fetching(p.mutex, p.at)
    case GetLock(_) => Waiting(if th.host in s.locks then s.locks[th.host] else s.nextMutex)
    case Acquire(_) => Locked(p.mutex)
    case FetchOk(_, app) => Storing(p.mutex, p.at, app)
    case FetchFail(_) => StaleRead(p.mutex, p.at)
    case Store(_) => Releasing(p.mutex, p.at, Found(p.app))
    case ReadStale(_) =>
      Releasing(p.mutex, p.at, if th.host in s.cache then FoundStale(s.cache[th.host].app) else Unavailable(c))
    case Release(_) => Done(p.at, p.result)
  }

  /** The lookup that takes a step, after it: its phase, and which counter it has raised. */
  function NextThread<A>(c: Config, s: State<A>, step: Step<A>): Thread<A>
    requires Enabled(s, step) && !step.Tick?
  {
    if step.Start? then
      Thread(step.host, step.host in s.cache, false, false, false, if step.host == "" then Done(s.clock, EmptyHost()) else Entered)
    else
      var th := s.threads[step.t];
      var hit := step.ReadCache? && Fresh(s, th.host, th.phase.at);
      Thread(th.host, th.known, th.hit || hit, th.missed || (step.ReadCache? && !hit && th.phase.FirstCheck?),
             th.failed || step.FetchFail?, NextPhase(c, s, step))
  }

  /** A step moves one lookup; some steps also change what lookups share. */
  function Apply<A>(c: Config, s: State<A>, step: Step<A>): State<A>
    requires Enabled(s, step)
  {
    if step.Tick? then s.(clock := s.clock + step.amount)
    else
      var moved := s.(threads := s.threads[step.t := NextThread(c, s, step)]);
      match step
      case ReadCache(t) =>
        var th := s.threads[t];
        if Fresh(s, th.host, th.phase.at) then moved.(hits := s.hits + 1)
        else if th.phase.FirstCheck? then moved.(misses := s.misses + 1)
        else moved
      case GetLock(t) =>
        var host := s.threads[t].host;
        if host in s.locks then moved else moved.(locks := s.locks[host := s.nextMutex], nextMutex := s.nextMutex + 1)
      case Acquire(t) => moved.(owner := s.owner[s.threads[t].phase.mutex := t])
      case FetchOk(t, app) =>
        var th := s.threads[t];
        moved.(fetched := s.fetched[th.host := Fetches(s, th.host) + [Fetch(app, th.phase.at)]])
      case FetchFail(_) => moved.(errors := s.errors + 1)
      case Store(t) =>
        var th := s.threads[t];
        moved.(cache := s.cache[th.host := Entry(th.phase.app, th.phase.at + c.ttl)])
      case Release(t) => moved.(owner := s.owner - {s.threads[t].phase.mutex})
      case _ => moved
  }

  lemma OneMoves<A(!new)>(c: Config, s: State<A>, step: Step<A>)
    requires Enabled(s, step)
    ensures Apply(c, s, step).threads == if step.Tick? then s.threads else s.threads[step.t := NextThread(c, s, step)]
  {
  }

  /** A run: the steps are enabled one after the other, from `s`. */
  ghost predicate IsRun<A(!new)>(c: Config, s: State<A>, steps: seq<Step<A>>)
    decreases |steps|
  {
    steps == [] || (Enabled(s, steps[0]) && IsRun(c, Apply(c, s, steps[0]), steps[1..]))
  }

  ghost function After<A(!new)>(c: Config, s: State<A>, steps: seq<Step<A>>): State<A>
    requires IsRun(c, s, steps)
    decreases |steps|
  {
    if steps == [] then s else After(c, Apply(c, s, steps[0]), steps[1..])
  }

  // ---------------------------------------------------------------- mutual exclusion

  predicate HasMutex<A(==)>(p: Phase<A>) {
    p.Waiting? || p.Locked? || p.Recheck? || p.Fetching? || p.Storing? || p.StaleRead? || p.Releasing?
  }

  predicate Critical<A(==)>(p: Phase<A>) {
    HasMutex(p) && !p.Waiting?
  }

  ghost predicate MutexOk<A>(s: State<A>, t: nat)
    requires t in s.threads
  {
    var th := s.threads[t];
    && (HasMutex(th.phase) ==> th.host in s.locks && th.phase.mutex == s.locks[th.host])
    && (Critical(th.phase) ==> th.phase.mutex in s.owner && s.owner[th.phase.mutex] == t)
  }

  ghost predicate OwnerOk<A>(s: State<A>, m: nat)
    requires m in s.owner
  {
    && m < s.nextMutex && s.owner[m] in s.threads
    && Critical(s.threads[s.owner[m]].phase) && s.threads[s.owner[m]].phase.mutex == m
  }

  /** Each host has one mutex of its own; a lookup past the lock holds its host's mutex. */
  ghost predicate LockInv<A(!new)>(s: State<A>) {
    && (forall h :: h in s.locks ==> s.locks[h] < s.nextMutex)
    && (forall h, h' :: h in s.locks && h' in s.locks && s.locks[h] == s.locks[h'] ==> h == h')
    && (forall t :: t in s.threads ==> MutexOk(s, t))
    && (forall m :: m in s.owner ==> OwnerOk(s, m))
  }

  /** Only lookup `t` moved, and its relation to its mutex is as before. */
  ghost predicate OnlyMoved<A>(s: State<A>, s': State<A>, t: nat) {
    && t in s.threads && t in s'.threads && s'.threads == s.threads[t := s'.threads[t]]
    && s'.locks == s.locks && s'.nextMutex == s.nextMutex && s'.owner == s.owner
    && s'.threads[t].host == s.threads[t].host
    && var p, p' := s.threads[t].phase, s'.threads[t].phase;
       (!HasMutex(p) && !HasMutex(p')) || (Critical(p) && Critical(p') && p.mutex == p'.mutex)
  }

  predicate Inner<A(==)>(step: Step<A>) {
    step.ReadClock? || step.ReadCache? || step.FetchOk? || step.FetchFail? || step.Store? || step.ReadStale?
  }

  lemma InnerOnlyMoves<A>(c: Config, s: State<A>, step: Step<A>)
    requires Enabled(s, step) && Inner(step)
    ensures OnlyMoved(s, Apply(c, s, step), step.t)
  {
  }

  lemma LockInvMove<A(!new)>(s: State<A>, s': State<A>, t: nat)
    requires LockInv(s) && OnlyMoved(s, s', t)
    ensures LockInv(s')
  {
    assert MutexOk(s, t);
    forall u | u in s'.threads ensures MutexOk(s', u) {
      assert MutexOk(s, u);
    }
    forall m | m in s'.owner ensures OwnerOk(s', m) {
      assert OwnerOk(s, m);
    }
  }

  lemma LockInvStart<A(!new)>(c: Config, s: State<A>, step: Step<A>)
    requires LockInv(s) && Enabled(s, step) && step.Start?
    ensures LockInv(Apply(c, s, step))
  {
    var s' := Apply(c, s, step);
    forall u | u in s'.threads ensures MutexOk(s', u) {
      assert u in s.threads ==> MutexOk(s, u);
    }
    forall m | m in s'.owner ensures OwnerOk(s', m) {
      assert OwnerOk(s, m);
    }
  }

  lemma LockInvGetLock<A(!new)>(c: Config, s: State<A>, step: Step<A>)
    requires LockInv(s) && Enabled(s, step) && step.GetLock?
    ensures LockInv(Apply(c, s, step))
  {
    var s' := Apply(c, s, step);
    forall u | u in s'.threads ensures MutexOk(s', u) {
      GetLockMutex(c, s, step, u);
    }
    forall m | m in s'.owner ensures OwnerOk(s', m) {
      GetLockOwner(c, s, step, m);
    }
  }

  lemma GetLockMutex<A(!new)>(c: Config, s: State<A>, step: Step<A>, u: nat)
    requires Enabled(s, step) && step.GetLock? && u in s.threads && MutexOk(s, u)
    ensures MutexOk(Apply(c, s, step), u)
  {
  }

  lemma GetLockOwner<A(!new)>(c: Config, s: State<A>, step: Step<A>, m: nat)
    requires Enabled(s, step) && step.GetLock? && m in s.owner && OwnerOk(s, m)
    ensures OwnerOk(Apply(c, s, step), m)
  {
  }

  lemma LockInvAcquireRelease<A(!new)>(c: Config, s: State<A>, step: Step<A>)
    requires LockInv(s) && Enabled(s, step) && (step.Acquire? || step.Release?)
    ensures LockInv(Apply(c, s, step))
  {
    var s' := Apply(c, s, step);
    assert MutexOk(s, step.t);
    forall u | u in s'.threads ensures MutexOk(s', u) {
      AcquireReleaseMutex(c, s, step, u);
    }
    forall m | m in s'.owner ensures OwnerOk(s', m) {
      AcquireReleaseOwner(c, s, step, m);
    }
  }

  lemma AcquireReleaseMutex<A(!new)>(c: Config, s: State<A>, step: Step<A>, u: nat)
    requires Enabled(s, step) && (step.Acquire? || step.Release?) && u in s.threads && MutexOk(s, u) && MutexOk(s, step.t)
    ensures u in Apply(c, s, step).threads && MutexOk(Apply(c, s, step), u)
  {
  }

  lemma AcquireReleaseOwner<A(!new)>(c: Config, s: State<A>, step: Step<A>, m: nat)
    requires LockInv(s) && Enabled(s, step) && (step.Acquire? || step.Release?) && m in Apply(c, s, step).owner
    ensures OwnerOk(Apply(c, s, step), m)
  {
    assert MutexOk(s, step.t);
    if m in s.owner {
      assert OwnerOk(s, m);
    }
  }

  lemma LockInvTick<A(!new)>(s: State<A>, clock: int)
    requires LockInv(s)
    ensures LockInv(s.(clock := clock))
  {
    var s' := s.(clock := clock);
    forall u | u in s'.threads ensures MutexOk(s', u) {
      assert MutexOk(s, u);
    }
    forall m | m in s'.owner ensures OwnerOk(s', m) {
      assert OwnerOk(s, m);
    }
  }

  lemma LockInvStep<A(!new)>(c: Config, s: State<A>, step: Step<A>)
    requires LockInv(s) && Enabled(s, step)
    ensures LockInv(Apply(c, s, step))
  {
    match step {
      case Tick(amount) => LockInvTick(s, s.clock + amount);
      case Start(_, _) => LockInvStart(c, s, step);
      case GetLock(_) => LockInvGetLock(c, s, step);
      case Acquire(_) => LockInvAcquireRelease(c, s, step);
      case Release(_) => LockInvAcquireRelease(c, s, step);
      case _ =>
        InnerOnlyMoves(c, s, step);
        LockInvMove(s, Apply(c, s, step), step.t);
    }
  }

  /** Two lookups of one host are never both past the lock, so at most one fetch per host is in flight. */
  lemma MutualExclusion<A(!new)>(s: State<A>, t: nat, t': nat)
    requires LockInv(s) && t in s.threads && t' in s.threads && s.threads[t].host == s.threads[t'].host
    requires Critical(s.threads[t].phase) && Critical(s.threads[t'].phase)
    ensures t == t'
  {
    assert MutexOk(s, t) && MutexOk(s, t');
  }

  // ---------------------------------------------------------------- what the cache holds

  ghost predicate StoringHost<A>(s: State<A>, t: nat, h: string) {
    t in s.threads && s.threads[t].host == h && s.threads[t].phase.Storing?
  }

  /** Some lookup has fetched a policy for `h` that it has not stored yet. */
  ghost predicate Pending<A(!new)>(s: State<A>, h: string) {
    exists t :: StoringHost(s, t, h)
  }

  ghost function Stored<A(!new)>(s: State<A>, h: string): int {
    |Fetches(s, h)| - if Pending(s, h) then 1 else 0
  }

  /** Fetches come at least a TTL apart, and the entry is the last fetch that was stored. */
  ghost predicate HostInv<A(!new)>(c: Config, s: State<A>, h: string) {
    var fs, n := Fetches(s, h), Stored(s, h);
    && n >= 0
    && (forall i :: 0 <= i < |fs| ==> fs[i].checkedAt <= s.clock)
    && (forall i :: 0 <= i < |fs| - 1 ==> fs[i].checkedAt + c.ttl <= fs[i + 1].checkedAt)
    && (h in s.cache <==> n > 0)
    && (n > 0 ==> s.cache[h] == Entry(fs[n - 1].app, fs[n - 1].checkedAt + c.ttl))
  }

  /** The policy of a non-stale result was fetched for this host less than a TTL before `at`. */
  ghost predicate FreshResult<A>(c: Config, fs: seq<Fetch<A>>, at: int, r: LookupResult<A>) {
    exists k :: 0 <= k < |fs| && Serves(r, fs[k].app, false) && at < fs[k].checkedAt + c.ttl
  }

  /** The policy of a stale result is the newest one fetched for this host before `at`, and had expired. */
  ghost predicate StaleResult<A>(c: Config, fs: seq<Fetch<A>>, at: int, r: LookupResult<A>) {
    exists k :: 0 <= k < |fs| && Serves(r, fs[k].app, true) && fs[k].checkedAt + c.ttl <= at
                && forall j :: k < j < |fs| ==> at <= fs[j].checkedAt
  }

  ghost predicate ResultOk<A>(c: Config, fs: seq<Fetch<A>>, th: Thread<A>, at: int, r: LookupResult<A>) {
    || (th.host == "" && !r.found && !r.failOpen && r.statusCode == 0 && r.reason == HostEmpty)
    || FreshResult(c, fs, at, r)
    || (th.failed && StaleResult(c, fs, at, r))
    || (th.failed && !th.known && Refuses(c, r))
  }

  ghost predicate CountersOk<A>(th: Thread<A>) {
    match th.phase
    case Entered => !th.missed && !th.hit && !th.failed
    case FirstCheck(_) => !th.missed && !th.hit && !th.failed
    case StaleRead(_, _) => th.missed && !th.hit && th.failed
    case Releasing(_, _, r) => th.missed && !(th.hit && th.failed) && (th.failed <==> r.stale || !r.found)
    case Done(_, r) =>
      th.host != "" ==> (th.hit || th.missed) && !(th.hit && th.failed) && (th.failed <==> r.stale || !r.found)
    case _ => th.missed && !th.hit && !th.failed
  }

  ghost predicate ClockOk<A>(s: State<A>, t: nat)
    requires t in s.threads
  {
    var p := s.threads[t].phase;
    !(p.Entered? || p.WantLock? || p.Waiting? || p.Locked?) ==> p.at <= s.clock
  }

  ghost predicate ThreadInv<A(!new)>(c: Config, s: State<A>, t: nat)
    requires t in s.threads
  {
    var th, p, fs := s.threads[t], s.threads[t].phase, Fetches(s, s.threads[t].host);
    && (th.known ==> th.host in s.cache)
    && ClockOk(s, t)
    && ((p.Fetching? || p.Storing? || p.StaleRead?) && th.host in s.cache ==> s.cache[th.host].expiresAt <= p.at)
    && (p.Storing? ==> fs != [] && fs[|fs| - 1] == Fetch(p.app, p.at))
    && CountersOk(th)
    && ((p.Releasing? || p.Done?) ==> ResultOk(c, fs, th, p.at, p.result))
  }

  /** A lookup past the re-check read the clock after any finished stale lookup of its host did. */
  ghost predicate StaleBefore<A>(s: State<A>, t: nat, u: nat)
    requires t in s.threads && u in s.threads
  {
    var p, q := s.threads[t].phase, s.threads[u].phase;
    (t != u && s.threads[t].host == s.threads[u].host && (p.Releasing? || p.Done?) && p.result.stale
     && (q.Recheck? || q.Fetching? || q.Storing?)) ==> p.at <= q.at
  }

  ghost predicate Inv<A(!new)>(c: Config, s: State<A>) {
    && LockInv(s)
    && (forall h :: HostInv(c, s, h))
    && (forall t :: t in s.threads ==> ThreadInv(c, s, t))
    && (forall t, u :: t in s.threads && u in s.threads ==> StaleBefore(s, t, u))
  }

  // ---------------------------------------------------------------- every step keeps the invariant

  lemma Exclusive<A>(s: State<A>, t: nat, u: nat)
    requires t in s.threads && u in s.threads && MutexOk(s, t) && MutexOk(s, u)
    ensures s.threads[t].host == s.threads[u].host && Critical(s.threads[t].phase) && Critical(s.threads[u].phase) ==> t == u
  {
  }

  lemma ResultOkExtend<A>(c: Config, fs: seq<Fetch<A>>, f: Fetch<A>, th: Thread<A>, at: int, r: LookupResult<A>)
    requires ResultOk(c, fs, th, at, r) && (r.stale ==> at <= f.checkedAt)
    ensures ResultOk(c, fs + [f], th, at, r)
  {
    var fs' := fs + [f];
    if FreshResult(c, fs, at, r) {
      var k :| 0 <= k < |fs| && Serves(r, fs[k].app, false) && at < fs[k].checkedAt + c.ttl;
      assert fs'[k] == fs[k];
    } else if StaleResult(c, fs, at, r) {
      var k :| 0 <= k < |fs| && Serves(r, fs[k].app, true) && fs[k].checkedAt + c.ttl <= at
               && forall j :: k < j < |fs| ==> at <= fs[j].checkedAt;
      assert fs'[k] == fs[k];
    }
  }

  lemma ThreadInvFrame<A(!new)>(c: Config, s: State<A>, s': State<A>, u: nat)
    requires u in s.threads && ThreadInv(c, s, u) && u in s'.threads && s'.threads[u] == s.threads[u]
    requires s.clock <= s'.clock && Fetches(s', s.threads[u].host) == Fetches(s, s.threads[u].host)
    requires s.threads[u].host in s.cache ==> s.threads[u].host in s'.cache
    requires Critical(s.threads[u].phase) && s.threads[u].host in s'.cache ==>
               s.threads[u].host in s.cache && s'.cache[s.threads[u].host] == s.cache[s.threads[u].host]
    ensures ThreadInv(c, s', u)
  {
  }

  lemma ThreadInvFetched<A(!new)>(c: Config, s: State<A>, step: Step<A>, u: nat)
    requires Enabled(s, step) && step.FetchOk? && u in s.threads && step.t != u
    requires ThreadInv(c, s, u) && MutexOk(s, u) && MutexOk(s, step.t) && StaleBefore(s, u, step.t)
    ensures ThreadInv(c, Apply(c, s, step), u)
  {
    var s' := Apply(c, s, step);
    var th := s.threads[u];
    if s.threads[step.t].host != th.host {
      ThreadInvFrame(c, s, s', u);
    } else {
      Exclusive(s, step.t, u);
      if th.phase.Done? {
        ResultOkExtend(c, Fetches(s, th.host), Fetch(step.app, s.threads[step.t].phase.at), th, th.phase.at, th.phase.result);
      }
    }
  }

  /** What a step of another lookup leaves true of lookup `u`. */
  lemma ThreadInvOther<A(!new)>(c: Config, s: State<A>, step: Step<A>, u: nat)
    requires Enabled(s, step) && u in s.threads && ThreadInv(c, s, u) && MutexOk(s, u)
    requires step.Tick? || step.Start? || (step.t in s.threads && step.t != u && MutexOk(s, step.t) && StaleBefore(s, u, step.t))
    ensures ThreadInv(c, Apply(c, s, step), u)
  {
    if step.FetchOk? {
      ThreadInvFetched(c, s, step, u);
    } else if step.Store? {
      ThreadInvStored(c, s, step, u);
    } else {
      CacheUnmoved(c, s, step);
      OtherUnmoved(c, s, step, u);
      ThreadInvFrame(c, s, Apply(c, s, step), u);
    }
  }

  lemma ThreadInvStored<A(!new)>(c: Config, s: State<A>, step: Step<A>, u: nat)
    requires Enabled(s, step) && step.Store? && u in s.threads && step.t != u
    requires ThreadInv(c, s, u) && MutexOk(s, u) && MutexOk(s, step.t)
    ensures ThreadInv(c, Apply(c, s, step), u)
  {
    Exclusive(s, step.t, u);
    ThreadInvFrame(c, s, Apply(c, s, step), u);
  }

  lemma OtherUnmoved<A(!new)>(c: Config, s: State<A>, step: Step<A>, u: nat)
    requires Enabled(s, step) && u in s.threads && (step.Tick? || step.t != u)
    ensures u in Apply(c, s, step).threads && Apply(c, s, step).threads[u] == s.threads[u]
  {
    OneMoves(c, s, step);
  }

  lemma ReadCacheInv<A(!new)>(c: Config, s: State<A>, step: Step<A>)
    requires Enabled(s, step) && step.ReadCache? && ThreadInv(c, s, step.t) && HostInv(c, s, s.threads[step.t].host)
    ensures ThreadInv(c, Apply(c, s, step), step.t)
  {
    var th := s.threads[step.t];
    var fs, n := Fetches(s, th.host), Stored(s, th.host);
    if Fresh(s, th.host, th.phase.at) {
      assert FreshResult(c, fs, th.phase.at, Found(fs[n - 1].app));
    }
  }

  lemma StoreInv<A(!new)>(c: Config, s: State<A>, step: Step<A>)
    requires c.ttl > 0 && Enabled(s, step) && step.Store? && ThreadInv(c, s, step.t)
    ensures ThreadInv(c, Apply(c, s, step), step.t)
  {
    var th := s.threads[step.t];
    var fs := Fetches(s, th.host);
    assert FreshResult(c, fs, th.phase.at, Found(fs[|fs| - 1].app));
  }

  lemma ReadStaleInv<A(!new)>(c: Config, s: State<A>, step: Step<A>)
    requires Enabled(s, step) && step.ReadStale? && ThreadInv(c, s, step.t) && HostInv(c, s, s.threads[step.t].host)
    requires !Pending(s, s.threads[step.t].host)
    ensures ThreadInv(c, Apply(c, s, step), step.t)
  {
    var th := s.threads[step.t];
    var fs := Fetches(s, th.host);
    if th.host in s.cache {
      assert StaleResult(c, fs, th.phase.at, FoundStale(fs[|fs| - 1].app));
    }
  }

  /** What a step of lookup `t` makes true of itself. */
  lemma ThreadInvSelf<A(!new)>(c: Config, s: State<A>, step: Step<A>)
    requires c.ttl > 0 && Enabled(s, step) && !step.Tick? && !step.Start?
    requires ThreadInv(c, s, step.t) && HostInv(c, s, s.threads[step.t].host)
    requires step.ReadStale? ==> !Pending(s, s.threads[step.t].host)
    ensures ThreadInv(c, Apply(c, s, step), step.t)
  {
    if step.ReadCache? {
      ReadCacheInv(c, s, step);
    } else if step.Store? {
      StoreInv(c, s, step);
    } else if step.ReadStale? {
      ReadStaleInv(c, s, step);
    }
  }

  lemma StartInv<A(!new)>(c: Config, s: State<A>, step: Step<A>)
    requires Enabled(s, step) && step.Start?
    ensures ThreadInv(c, Apply(c, s, step), step.t)
  {
  }

  lemma HostInvFrame<A(!new)>(c: Config, s: State<A>, s': State<A>, h: string)
    requires HostInv(c, s, h) && s.clock <= s'.clock
    requires Fetches(s', h) == Fetches(s, h) && (h in s'.cache <==> h in s.cache)
    requires h in s.cache ==> s'.cache[h] == s.cache[h]
    requires forall t :: StoringHost(s, t, h) <==> StoringHost(s', t, h)
    ensures HostInv(c, s', h)
  {
    assert Pending(s, h) <==> Pending(s', h);
  }

  lemma NotPending<A(!new)>(s: State<A>, t: nat)
    requires t in s.threads && Critical(s.threads[t].phase) && (forall u :: u in s.threads ==> MutexOk(s, u))
    ensures Pending(s, s.threads[t].host) <==> s.threads[t].phase.Storing?
  {
    var h := s.threads[t].host;
    if s.threads[t].phase.Storing? {
      assert StoringHost(s, t, h);
    }
    forall u | StoringHost(s, u, h) ensures u == t {
      assert MutexOk(s, t) && MutexOk(s, u);
      Exclusive(s, t, u);
    }
  }

  lemma HostInvFetchOk<A(!new)>(c: Config, s: State<A>, step: Step<A>, h: string)
    requires Enabled(s, step) && step.FetchOk? && HostInv(c, s, h) && ThreadInv(c, s, step.t)
    requires forall u :: u in s.threads ==> MutexOk(s, u)
    ensures HostInv(c, Apply(c, s, step), h)
  {
    var s' := Apply(c, s, step);
    if h == s.threads[step.t].host {
      NotPending(s, step.t);
      assert StoringHost(s', step.t, h);
    } else {
      HostInvFrame(c, s, s', h);
    }
  }

  lemma HostInvStore<A(!new)>(c: Config, s: State<A>, step: Step<A>, h: string)
    requires Enabled(s, step) && step.Store? && HostInv(c, s, h) && ThreadInv(c, s, step.t)
    requires forall u :: u in s.threads ==> MutexOk(s, u)
    ensures HostInv(c, Apply(c, s, step), h)
  {
    var s' := Apply(c, s, step);
    if h == s.threads[step.t].host {
      NotPending(s, step.t);
      NoneStoring(c, s, step, h);
    } else {
      HostInvFrame(c, s, s', h);
    }
  }

  lemma NoneStoring<A(!new)>(c: Config, s: State<A>, step: Step<A>, h: string)
    requires Enabled(s, step) && step.Store? && h == s.threads[step.t].host
    requires forall u :: u in s.threads ==> MutexOk(s, u)
    ensures forall u :: u in s.threads ==> !StoringHost(Apply(c, s, step), u, h)
  {
    forall u | u in s.threads ensures !StoringHost(Apply(c, s, step), u, h) {
      assert MutexOk(s, step.t) && MutexOk(s, u);
      Exclusive(s, step.t, u);
    }
  }

  lemma HostInvStep<A(!new)>(c: Config, s: State<A>, step: Step<A>, h: string)
    requires Enabled(s, step) && HostInv(c, s, h)
    requires forall u :: u in s.threads ==> MutexOk(s, u) && ThreadInv(c, s, u)
    ensures HostInv(c, Apply(c, s, step), h)
  {
    if step.FetchOk? {
      HostInvFetchOk(c, s, step, h);
    } else if step.Store? {
      HostInvStore(c, s, step, h);
    } else {
      forall t ensures StoringHost(s, t, h) <==> StoringHost(Apply(c, s, step), t, h) {
        StoringUnmoved(c, s, step, t, h);
      }
      CacheUnmoved(c, s, step);
      HostInvFrame(c, s, Apply(c, s, step), h);
    }
  }

  lemma StoringUnmoved<A(!new)>(c: Config, s: State<A>, step: Step<A>, t: nat, h: string)
    requires Enabled(s, step) && !step.FetchOk? && !step.Store?
    ensures StoringHost(s, t, h) <==> StoringHost(Apply(c, s, step), t, h)
  {
    OneMoves(c, s, step);
  }

  lemma CacheUnmoved<A(!new)>(c: Config, s: State<A>, step: Step<A>)
    requires Enabled(s, step) && !step.FetchOk? && !step.Store?
    ensures Apply(c, s, step).cache == s.cache && Apply(c, s, step).fetched == s.fetched && s.clock <= Apply(c, s, step).clock
  {
  }

  predicate Finished<A(==)>(p: Phase<A>) {
    (p.Releasing? || p.Done?) && p.result.stale
  }

  predicate Rechecked<A(==)>(p: Phase<A>) {
    p.Recheck? || p.Fetching? || p.Storing?
  }

  /** How one step may change a lookup that exists already. */
  ghost predicate Follows<A>(clock: int, th: Thread<A>, th': Thread<A>) {
    && th'.host == th.host && th'.known == th.known
    && (Finished(th'.phase) ==> (Finished(th.phase) || th.phase.StaleRead?) && th'.phase.at == th.phase.at)
    && (Rechecked(th'.phase) ==>
          if Rechecked(th.phase) then th'.phase.at == th.phase.at else th.phase.Locked? && th'.phase.at == clock)
  }

  lemma FollowsClock<A(!new)>(c: Config, s: State<A>, step: Step<A>)
    requires Enabled(s, step) && step.ReadClock?
    ensures Follows(s.clock, s.threads[step.t], NextThread(c, s, step))
  {
  }

  lemma FollowsCache<A(!new)>(c: Config, s: State<A>, step: Step<A>)
    requires Enabled(s, step) && step.ReadCache?
    ensures Follows(s.clock, s.threads[step.t], NextThread(c, s, step))
  {
  }

  lemma FollowsLocking<A(!new)>(c: Config, s: State<A>, step: Step<A>)
    requires Enabled(s, step) && (step.GetLock? || step.Acquire? || step.Release?)
    ensures Follows(s.clock, s.threads[step.t], NextThread(c, s, step))
  {
  }

  lemma FollowsFetching<A(!new)>(c: Config, s: State<A>, step: Step<A>)
    requires Enabled(s, step) && (step.FetchOk? || step.FetchFail? || step.Store? || step.ReadStale?)
    ensures Follows(s.clock, s.threads[step.t], NextThread(c, s, step))
  {
  }

  lemma StepThreadSelf<A(!new)>(c: Config, s: State<A>, step: Step<A>)
    requires Enabled(s, step) && !step.Tick? && !step.Start?
    ensures Follows(s.clock, s.threads[step.t], NextThread(c, s, step))
  {
    if step.ReadClock? {
      FollowsClock(c, s, step);
    } else if step.ReadCache? {
      FollowsCache(c, s, step);
    } else if step.GetLock? || step.Acquire? || step.Release? {
      FollowsLocking(c, s, step);
    } else {
      FollowsFetching(c, s, step);
    }
  }

  /** What any step does to a lookup that exists already. */
  lemma StepThread<A(!new)>(c: Config, s: State<A>, step: Step<A>, v: nat)
    requires Enabled(s, step) && v in s.threads
    ensures v in Apply(c, s, step).threads && Follows(s.clock, s.threads[v], Apply(c, s, step).threads[v])
    ensures Apply(c, s, step).threads[v] != s.threads[v] ==> !step.Tick? && !step.Start? && step.t == v
  {
    OneMoves(c, s, step);
    if !step.Tick? && !step.Start? && step.t == v {
      StepThreadSelf(c, s, step);
    }
  }

  lemma StaleBeforeOld<A(!new)>(c: Config, s: State<A>, step: Step<A>, t: nat, u: nat)
    requires Enabled(s, step) && t in s.threads && u in s.threads
    requires t in Apply(c, s, step).threads && u in Apply(c, s, step).threads
    requires ClockOk(s, t) && MutexOk(s, t) && MutexOk(s, u) && StaleBefore(s, t, u)
    ensures StaleBefore(Apply(c, s, step), t, u)
  {
    Exclusive(s, t, u);
    StepThread(c, s, step, t);
    StepThread(c, s, step, u);
  }

  lemma StaleBeforeStep<A(!new)>(c: Config, s: State<A>, step: Step<A>, t: nat, u: nat)
    requires Enabled(s, step) && t in Apply(c, s, step).threads && u in Apply(c, s, step).threads
    requires t in s.threads && u in s.threads ==> ClockOk(s, t) && MutexOk(s, t) && MutexOk(s, u) && StaleBefore(s, t, u)
    ensures StaleBefore(Apply(c, s, step), t, u)
  {
    if t in s.threads && u in s.threads {
      StaleBeforeOld(c, s, step, t, u);
    } else {
      StartIsEarly(c, s, step, if t in s.threads then u else t);
    }
  }

  /** A lookup that begins has neither finished stale nor passed the re-check. */
  lemma StartIsEarly<A(!new)>(c: Config, s: State<A>, step: Step<A>, t: nat)
    requires Enabled(s, step) && t in Apply(c, s, step).threads && t !in s.threads
    ensures var p := Apply(c, s, step).threads[t].phase; !Rechecked(p) && !Finished(p)
  {
    OneMoves(c, s, step);
  }

  lemma InvInit<A(!new)>(c: Config, clock: int)
    ensures Inv(c, Init<A>(clock))
  {
    var s := Init<A>(clock);
    forall h ensures HostInv(c, s, h) {
      assert !Pending(s, h);
    }
  }

  lemma ThreadInvStep<A(!new)>(c: Config, s: State<A>, step: Step<A>, u: nat)
    requires c.ttl > 0 && Enabled(s, step) && u in Apply(c, s, step).threads
    requires forall h :: HostInv(c, s, h)
    requires forall t :: t in s.threads ==> MutexOk(s, t) && ThreadInv(c, s, t)
    requires forall t, v :: t in s.threads && v in s.threads ==> StaleBefore(s, t, v)
    ensures ThreadInv(c, Apply(c, s, step), u)
  {
    if step.Start? && step.t == u {
      StartInv(c, s, step);
    } else if step.Tick? || step.Start? || step.t != u {
      StartsOnly(c, s, step, u);
      ThreadInvOther(c, s, step, u);
    } else {
      if step.ReadStale? { NotPending(s, step.t); }
      ThreadInvSelf(c, s, step);
    }
  }

  lemma StartsOnly<A(!new)>(c: Config, s: State<A>, step: Step<A>, u: nat)
    requires Enabled(s, step) && u in Apply(c, s, step).threads && !(step.Start? && step.t == u)
    ensures u in s.threads
  {
    OneMoves(c, s, step);
  }

  /** Every step of every interleaving keeps the invariant. */
  lemma InvStep<A(!new)>(c: Config, s: State<A>, step: Step<A>)
    requires c.ttl > 0 && Inv(c, s) && Enabled(s, step)
    ensures Inv(c, Apply(c, s, step))
  {
    var s' := Apply(c, s, step);
    LockInvStep(c, s, step);
    forall h ensures HostInv(c, s', h) {
      HostInvStep(c, s, step, h);
    }
    forall u | u in s'.threads ensures ThreadInv(c, s', u) {
      ThreadInvStep(c, s, step, u);
    }
    forall t, u | t in s'.threads && u in s'.threads ensures StaleBefore(s', t, u) {
      StaleBeforeStep(c, s, step, t, u);
    }
  }

  lemma {:induction false} InvRun<A(!new)>(c: Config, s: State<A>, steps: seq<Step<A>>)
    requires c.ttl > 0 && Inv(c, s) && IsRun(c, s, steps)
    ensures Inv(c, After(c, s, steps))
    decreases |steps|
  {
    if steps != [] {
      InvStep(c, s, steps[0]);
      InvRun(c, Apply(c, s, steps[0]), steps[1..]);
    }
  }

  // ---------------------------------------------------------------- theorems about whole runs

  /** A state some interleaving of lookups can reach from an empty provider. */
  ghost predicate Reachable<A(!new)>(c: Config, s: State<A>) {
    exists clock: int, steps: seq<Step<A>> :: IsRun(c, Init(clock), steps) && s == After(c, Init(clock), steps)
  }

  lemma ReachableInv<A(!new)>(c: Config, s: State<A>)
    requires c.ttl > 0 && Reachable(c, s)
    ensures Inv(c, s)
  {
    var clock: int, steps: seq<Step<A>> :| IsRun(c, Init(clock), steps) && s == After(c, Init(clock), steps);
    InvInit<A>(c, clock);
    InvRun(c, Init(clock), steps);
  }

  /** In no interleaving are two fetches, or two sections under the lock, of one host in progress. */
  lemma OneFetchPerHost<A(!new)>(c: Config, s: State<A>, t: nat, u: nat)
    requires c.ttl > 0 && Reachable(c, s) && t in s.threads && u in s.threads
    requires s.threads[t].host == s.threads[u].host && Critical(s.threads[t].phase) && Critical(s.threads[u].phase)
    ensures t == u
  {
    ReachableInv(c, s);
    MutualExclusion(s, t, u);
  }

  lemma {:induction false} SpacedApart<A(!new)>(c: Config, s: State<A>, h: string, i: nat, j: nat)
    requires c.ttl > 0 && HostInv(c, s, h) && i <= j < |Fetches(s, h)|
    ensures Fetches(s, h)[i].checkedAt + (j - i) * c.ttl <= Fetches(s, h)[j].checkedAt
  {
    if i < j {
      SpacedApart(c, s, h, i, j - 1);
      var fs := Fetches(s, h);
      assert fs[j - 1].checkedAt + c.ttl <= fs[j - 1 + 1].checkedAt;
      assert (j - i) * c.ttl == (j - 1 - i) * c.ttl + c.ttl;
    }
  }

  /**
   Successful fetches of one host are a TTL or more apart, so those whose clock readings
   lie within a span of length `span` number at most span / TTL + 1.
   */
  lemma FetchRate<A(!new)>(c: Config, s: State<A>, h: string, i: nat, j: nat, span: nat)
    requires c.ttl > 0 && Reachable(c, s) && i <= j < |Fetches(s, h)|
    requires Fetches(s, h)[j].checkedAt - Fetches(s, h)[i].checkedAt <= span
    ensures j - i + 1 <= span / c.ttl + 1
  {
    ReachableInv(c, s);
    SpacedApart(c, s, h, i, j);
    QuotientBound(j - i, c.ttl, span);
  }

  lemma QuotientBound(n: nat, d: int, span: nat)
    requires d > 0 && n * d <= span
    ensures n <= span / d
  {
    var q := span / d;
    MulMonotone(q + 1, n, d);
    assert span < (q + 1) * d;
  }

  /** A mutex, once created for a host, is that host's mutex for good; so is the fact that it is cached. */
  lemma {:induction false} LocksAreForever<A(!new)>(c: Config, s: State<A>, steps: seq<Step<A>>, h: string)
    requires IsRun(c, s, steps)
    ensures h in s.locks ==> h in After(c, s, steps).locks && After(c, s, steps).locks[h] == s.locks[h]
    ensures h in s.cache ==> h in After(c, s, steps).cache
    decreases |steps|
  {
    if steps != [] {
      LocksAreForever(c, Apply(c, s, steps[0]), steps[1..], h);
    }
  }

  /** Whoever changes a host's cache entry holds that host's mutex. */
  lemma OnlyHolderWrites<A(!new)>(c: Config, s: State<A>, step: Step<A>, h: string)
    requires c.ttl > 0 && Reachable(c, s) && Enabled(s, step)
    requires h in Apply(c, s, step).cache && (h in s.cache ==> Apply(c, s, step).cache[h] != s.cache[h])
    ensures step.Store? && h in s.locks && s.locks[h] in s.owner && s.owner[s.locks[h]] == step.t
  {
    ReachableInv(c, s);
    assert MutexOk(s, step.t);
  }

  /**
   What any finished lookup returned, in any interleaving: a policy fetched for that host
   less than a TTL before the clock reading the lookup rests on; or, only after its own
   fetch failed, the newest policy fetched before, which had expired; or, only after its
   own fetch failed and when the host was not cached as the lookup began, nothing: a 503
   under "fail_closed", a request let go under every other setting.
   */
  lemma ServedResults<A(!new)>(c: Config, s: State<A>, t: nat)
    requires c.ttl > 0 && Reachable(c, s) && t in s.threads && s.threads[t].phase.Done?
    ensures var th, at, r := s.threads[t], s.threads[t].phase.at, s.threads[t].phase.result;
            var fs := Fetches(s, th.host);
            if th.host == "" then !r.found && !r.failOpen && r.statusCode == 0 && r.reason == HostEmpty
            else
              && (r.found && !r.stale ==> FreshResult(c, fs, at, r))
              && (r.found && r.stale ==> StaleResult(c, fs, at, r))
              && (!r.found ==> !th.known)
              && (!r.found && c.failClosed ==> !r.failOpen && r.statusCode == 503 && r.reason == FetchFailed)
              && (!r.found && !c.failClosed ==> r.failOpen && r.reason == FailedOpen)
              && (th.failed <==> r.stale || !r.found) && !(th.hit && th.failed) && (th.hit || th.missed)
  {
    ReachableInv(c, s);
    assert ThreadInv(c, s, t);
    if s.threads[t].host == "" {
      EmptyHostEnds(c, s, t);
    }
  }

  /** A lookup of the empty host ends at once, without an app. */
  lemma EmptyHostEnds<A(!new)>(c: Config, s: State<A>, t: nat)
    requires c.ttl > 0 && Reachable(c, s) && t in s.threads && s.threads[t].phase.Done? && s.threads[t].host == ""
    ensures var r := s.threads[t].phase.result; !r.found && !r.failOpen && r.statusCode == 0 && r.reason == HostEmpty
  {
    var clock: int, steps: seq<Step<A>> :| IsRun(c, Init(clock), steps) && s == After(c, Init(clock), steps);
    EmptyHostNeverCachedFrom(c, Init<A>(clock), steps);
  }

  ghost predicate LaterKnown<A(!new)>(before: State<A>, s: State<A>, h: string) {
    && h in s.cache
    && forall t :: t in s.threads && t !in before.threads && s.threads[t].host == h ==> s.threads[t].known
  }

  lemma LaterKnownStep<A(!new)>(c: Config, before: State<A>, s: State<A>, step: Step<A>, h: string)
    requires Enabled(s, step) && LaterKnown(before, s, h)
    ensures LaterKnown(before, Apply(c, s, step), h)
  {
    var s' := Apply(c, s, step);
    forall t | t in s'.threads && t !in before.threads && s'.threads[t].host == h ensures s'.threads[t].known {
      if t in s.threads {
        StepThread(c, s, step, t);
      }
    }
  }

  lemma {:induction false} LaterKnownRun<A(!new)>(c: Config, before: State<A>, s: State<A>, steps: seq<Step<A>>, h: string)
    requires IsRun(c, s, steps) && LaterKnown(before, s, h)
    ensures LaterKnown(before, After(c, s, steps), h)
    decreases |steps|
  {
    if steps != [] {
      LaterKnownStep(c, before, s, steps[0], h);
      LaterKnownRun(c, before, Apply(c, s, steps[0]), steps[1..], h);
    }
  }

  lemma {:induction false} RunAppend<A(!new)>(c: Config, s: State<A>, a: seq<Step<A>>, b: seq<Step<A>>)
    requires IsRun(c, s, a) && IsRun(c, After(c, s, a), b)
    ensures IsRun(c, s, a + b) && After(c, s, a + b) == After(c, After(c, s, a), b)
    decreases |a|
  {
    if a == [] {
      assert a + b == b;
    } else {
      assert (a + b)[1..] == a[1..] + b;
      RunAppend(c, Apply(c, s, a[0]), a[1..], b);
    }
  }

  /** Once a host has been stored, every lookup of it that begins later finds a policy, however it ends. */
  lemma StoredHostsAlwaysFound<A(!new)>(c: Config, s: State<A>, steps: seq<Step<A>>, t: nat)
    requires c.ttl > 0 && Reachable(c, s) && IsRun(c, s, steps)
    requires var end := After(c, s, steps);
             t !in s.threads && t in end.threads && end.threads[t].phase.Done? && end.threads[t].host in s.cache
    ensures After(c, s, steps).threads[t].phase.result.found
  {
    var end := After(c, s, steps);
    var h := end.threads[t].host;
    var clock: int, first: seq<Step<A>> :| IsRun(c, Init(clock), first) && s == After(c, Init(clock), first);
    RunAppend(c, Init(clock), first, steps);
    assert Reachable(c, end);
    ReachableInv(c, s);
    assert LaterKnown(s, s, h);
    LaterKnownRun(c, s, s, steps, h);
    ReachableInv(c, end);
    assert ThreadInv(c, end, t);
    assert h != "" by {
      assert HostInv(c, s, h);
      EmptyHostNeverCached(c, clock, first);
    }
    ServedResults(c, end, t);
  }

  ghost predicate EmptyHostRefused<A>(s: State<A>, t: nat)
    requires t in s.threads
  {
    s.threads[t].host == "" ==>
      s.threads[t].phase.Done? &&
      var r := s.threads[t].phase.result; !r.found && !r.failOpen && r.statusCode == 0 && r.reason == HostEmpty
  }

  ghost predicate EmptyHostUncached<A>(s: State<A>) {
    "" !in s.cache && forall t :: t in s.threads ==> EmptyHostRefused(s, t)
  }

  lemma EmptyHostStep<A(!new)>(c: Config, s: State<A>, step: Step<A>)
    requires Enabled(s, step) && EmptyHostUncached(s)
    ensures EmptyHostUncached(Apply(c, s, step))
  {
    var s' := Apply(c, s, step);
    forall t | t in s'.threads ensures EmptyHostRefused(s', t) {
      EmptyHostThread(c, s, step, t);
    }
    if step.Store? {
      assert EmptyHostRefused(s, step.t);
    }
  }

  lemma EmptyHostThread<A(!new)>(c: Config, s: State<A>, step: Step<A>, t: nat)
    requires Enabled(s, step) && t in Apply(c, s, step).threads && (t in s.threads ==> EmptyHostRefused(s, t))
    ensures EmptyHostRefused(Apply(c, s, step), t)
  {
    OneMoves(c, s, step);
    if !step.Tick? && t == step.t { EmptyHostMove(c, s, step); }
  }

  lemma EmptyHostMove<A(!new)>(c: Config, s: State<A>, step: Step<A>)
    requires Enabled(s, step) && !step.Tick? && (step.t in s.threads ==> EmptyHostRefused(s, step.t))
    ensures EmptyHostRefused(s.(threads := s.threads[step.t := NextThread(c, s, step)]), step.t)
  {
  }

  lemma {:induction false} EmptyHostNeverCachedFrom<A(!new)>(c: Config, s: State<A>, steps: seq<Step<A>>)
    requires IsRun(c, s, steps) && EmptyHostUncached(s)
    ensures EmptyHostUncached(After(c, s, steps))
    decreases |steps|
  {
    if steps != [] {
      EmptyHostStep(c, s, steps[0]);
      EmptyHostNeverCachedFrom(c, Apply(c, s, steps[0]), steps[1..]);
    }
  }

  lemma EmptyHostNeverCached<A(!new)>(c: Config, clock: int, steps: seq<Step<A>>)
    requires IsRun(c, Init<A>(clock), steps)
    ensures "" !in After(c, Init<A>(clock), steps).cache
  {
    EmptyHostNeverCachedFrom(c, Init<A>(clock), steps);
  }

  /** The step that lookup `t` takes next, if nothing but its own phase matters. */
  function NextStep<A>(p: Phase<A>, t: nat): Step<A>
    requires !p.Done?
  {
    match p
    case Entered => ReadClock(t)
    case FirstCheck(_) => ReadCache(t)
    case WantLock => GetLock(t)
    case Waiting(_) => Acquire(t)
    case Locked(_) => ReadClock(t)
    case Recheck(_, _) => ReadCache(t)
    case Fetching(_, _) => FetchFail(t)
    case Storing(_, _, _) => Store(t)
    case StaleRead(_, _) => ReadStale(t)
    case Releasing(_, _, _) => Release(t)
  }

  /** No interleaving deadlocks: an unfinished lookup can move, or the holder of its mutex can. */
  lemma NoDeadlock<A(!new)>(c: Config, s: State<A>, t: nat)
    requires c.ttl > 0 && Reachable(c, s) && t in s.threads && !s.threads[t].phase.Done?
    ensures exists u :: CanMove(s, u) && s.threads[u].host == s.threads[t].host
  {
    ReachableInv(c, s);
    assert MutexOk(s, t);
    var p := s.threads[t].phase;
    if p.Waiting? && p.mutex in s.owner {
      var u := s.owner[p.mutex];
      assert OwnerOk(s, p.mutex) && MutexOk(s, u);
      Unblocked(s, u);
      assert s.threads[u].host == s.threads[t].host;
    } else {
      Unblocked(s, t);
    }
  }

  ghost predicate CanMove<A(!new)>(s: State<A>, u: nat) {
    u in s.threads && !s.threads[u].phase.Done? && Enabled(s, NextStep(s.threads[u].phase, u))
  }

  lemma Unblocked<A(!new)>(s: State<A>, u: nat)
    requires u in s.threads && !s.threads[u].phase.Done?
    requires s.threads[u].phase.Waiting? ==> s.threads[u].phase.mutex !in s.owner
    ensures CanMove(s, u)
  {
  }

  // ---------------------------------------------------------------- the counters

  ghost function Hits<A>(s: State<A>): set<nat> { set t | t in s.threads && s.threads[t].hit }

  ghost function Misses<A>(s: State<A>): set<nat> { set t | t in s.threads && s.threads[t].missed }

  ghost function Failures<A>(s: State<A>): set<nat> { set t | t in s.threads && s.threads[t].failed }

  /** The counters hold the number of lookups that were served from the cache, missed it, and failed to fetch. */
  ghost predicate CounterInv<A>(s: State<A>) {
    s.hits == |Hits(s)| && s.misses == |Misses(s)| && s.errors == |Failures(s)|
  }

  lemma CountedAfter<A>(s: State<A>, s': State<A>, t: nat)
    requires t in s'.threads && s'.threads == s.threads[t := s'.threads[t]]
    ensures Hits(s') == if s'.threads[t].hit then Hits(s) + {t} else Hits(s) - {t}
    ensures t in s.threads && s.threads[t].hit == s'.threads[t].hit ==> Hits(s') == Hits(s)
    ensures Misses(s') == if s'.threads[t].missed then Misses(s) + {t} else Misses(s) - {t}
    ensures t in s.threads && s.threads[t].missed == s'.threads[t].missed ==> Misses(s') == Misses(s)
    ensures Failures(s') == if s'.threads[t].failed then Failures(s) + {t} else Failures(s) - {t}
    ensures t in s.threads && s.threads[t].failed == s'.threads[t].failed ==> Failures(s') == Failures(s)
  {
  }

  /** Lookup `t` moved or began without raising a counter. */
  ghost predicate Quiet<A>(s: State<A>, s': State<A>, t: nat) {
    && t in s'.threads && s'.threads == s.threads[t := s'.threads[t]]
    && s'.hits == s.hits && s'.misses == s.misses && s'.errors == s.errors
    && if t in s.threads
       then s'.threads[t] == s.threads[t].(phase := s'.threads[t].phase)
       else !s'.threads[t].hit && !s'.threads[t].missed && !s'.threads[t].failed
  }

  lemma QuietSteps<A(!new)>(c: Config, s: State<A>, step: Step<A>)
    requires Enabled(s, step) && !step.Tick? && !step.ReadCache? && !step.FetchFail?
    ensures Quiet(s, Apply(c, s, step), step.t)
  {
  }

  lemma CountersQuiet<A>(s: State<A>, s': State<A>, t: nat)
    requires Quiet(s, s', t) && CounterInv(s)
    ensures CounterInv(s')
  {
    CountedAfter(s, s', t);
    assert t !in s.threads ==> t !in Hits(s) + Misses(s) + Failures(s);
  }

  function Up(before: bool, after: bool): nat {
    if after && !before then 1 else 0
  }

  /** Lookup `t` moved, and each counter went up by one where the lookup's mark for it was set. */
  ghost predicate Raised<A>(s: State<A>, s': State<A>, t: nat) {
    && t in s.threads && t in s'.threads && s'.threads == s.threads[t := s'.threads[t]]
    && var th, th' := s.threads[t], s'.threads[t];
       && (th.hit ==> th'.hit) && (th.missed ==> th'.missed) && (th.failed ==> th'.failed)
       && s'.hits == s.hits + Up(th.hit, th'.hit) && s'.misses == s.misses + Up(th.missed, th'.missed)
       && s'.errors == s.errors + Up(th.failed, th'.failed)
  }

  lemma RaisingSteps<A(!new)>(c: Config, s: State<A>, step: Step<A>)
    requires Enabled(s, step) && (step.ReadCache? || step.FetchFail?) && CountersOk(s.threads[step.t])
    ensures Raised(s, Apply(c, s, step), step.t)
  {
  }

  lemma CountersRaised<A>(s: State<A>, s': State<A>, t: nat)
    requires Raised(s, s', t) && CounterInv(s)
    ensures CounterInv(s')
  {
    CountedAfter(s, s', t);
    assert t in Hits(s) <==> s.threads[t].hit;
    assert t in Misses(s) <==> s.threads[t].missed;
    assert t in Failures(s) <==> s.threads[t].failed;
  }

  lemma CountersStep<A(!new)>(c: Config, s: State<A>, step: Step<A>)
    requires Enabled(s, step) && CounterInv(s) && (step.ReadCache? || step.FetchFail? ==> CountersOk(s.threads[step.t]))
    ensures CounterInv(Apply(c, s, step))
  {
    if step.Tick? {
      var s' := Apply(c, s, step);
      assert Hits(s') == Hits(s) && Misses(s') == Misses(s) && Failures(s') == Failures(s);
    } else if step.ReadCache? || step.FetchFail? {
      RaisingSteps(c, s, step);
      CountersRaised(s, Apply(c, s, step), step.t);
    } else {
      QuietSteps(c, s, step);
      CountersQuiet(s, Apply(c, s, step), step.t);
    }
  }

  lemma {:induction false} CountersRun<A(!new)>(c: Config, s: State<A>, steps: seq<Step<A>>)
    requires c.ttl > 0 && Inv(c, s) && CounterInv(s) && IsRun(c, s, steps)
    ensures CounterInv(After(c, s, steps))
    decreases |steps|
  {
    if steps != [] {
      var step := steps[0];
      InvStep(c, s, step);
      assert step.ReadCache? || step.FetchFail? ==> ThreadInv(c, s, step.t);
      CountersStep(c, s, step);
      CountersRun(c, Apply(c, s, step), steps[1..]);
    }
  }

  /** In every interleaving each counter equals the number of lookups that raised it. */
  lemma CountersAreExact<A(!new)>(c: Config, s: State<A>)
    requires c.ttl > 0 && Reachable(c, s)
    ensures CounterInv(s)
  {
    var clock: int, steps: seq<Step<A>> :| IsRun(c, Init(clock), steps) && s == After(c, Init(clock), steps);
    InvInit<A>(c, clock);
    CountersRun(c, Init(clock), steps);
  }
}

/**
 `ServeHTTP` with the policy lookup it makes (services/gateway/internal/proxy/gateway.go and
 services/gateway/internal/policyclient/client.go): from a request and what the provider
 holds to the answer.
 */
module Serving {
  import opened Common
  import opened Hosts
  import opened Decisions
  import opened Conditions
  import opened Policy
  import opened PolicyCache
  import opened PolicyProvider
  import opened CounterStores
  import opened RateLimiter
  import opened RequestBody
  import opened Gateway

  /** The provider hands out compiled apps, whose limits have positive windows. */
  ghost predicate AppsCompiled(cache: map<string, Entry<App>>, fetched: Option<App>) {
    && (forall h :: h in cache ==> WindowsPositive(cache[h].app.rateLimits))
    && (fetched.Some? ==> WindowsPositive(fetched.value.rateLimits))
  }

  /** `newApp` makes such apps. */
  lemma AcceptedWindowsPositive(app: App, cfg: AppConfig)
    requires AppOf(app, cfg)
    ensures WindowsPositive(app.rateLimits)
  {
    var order := LimitsInOrder(cfg);
    forall r | r in app.rateLimits ensures r.windowSeconds > 0 {
      var i :| 0 <= i < |app.rateLimits| && app.rateLimits[i] == r;
      assert SoundLimit(app.rateLimits[i]);
    }
  }

  /** The app an undisturbed lookup judges the request by: a fresh entry, else the one fetched, else an old entry. */
  ghost function Judged(cache: map<string, Entry<App>>, host: string, now: int, fetched: Option<App>): Option<App> {
    if host in cache && now < cache[host].expiresAt then Some(cache[host].app)
    else if fetched.Some? then fetched
    else if host in cache then Some(cache[host].app)
    else None
  }

  /** The lookup's result is the app, or a refusal as configured. */
  ghost predicate Found(c: Config, judged: Option<App>, r: LookupResult<App>) {
    match judged
    case Some(app) => Serves(r, app, r.stale)
    case None => Refuses(c, r)
  }

  lemma AnswersFound(
    c: Config, was: Shared<App>, host: string, now: int, later: int, fetched: Option<App>, r: LookupResult<App>, after: Shared<App>)
    requires Answers(c, was, host, now, later, fetched, r, after) && host != ""
    ensures Found(c, Judged(was.cache, host, now, fetched), r)
    ensures after.cache == if !Usable(was.cache, host, now) && fetched.Some?
                           then was.cache[host := Entry(fetched.value, later + c.ttl)] else was.cache
  {
  }

  /** The lookup of one request, which no other lookup of its host disturbs. */
  method LookUp(provider: Provider<App>, host: string, now: int, later: int, fetched: Option<App>) returns (r: LookupResult<App>)
    requires provider.Valid() && now <= later && NormalizeHost(host) != ""
    modifies provider
    ensures provider.Valid() && Found(provider.config, Judged(old(provider.cache), NormalizeHost(host), now, fetched), r)
    ensures provider.cache == if !Usable(old(provider.cache), NormalizeHost(host), now) && fetched.Some?
                              then old(provider.cache)[NormalizeHost(host) := Entry(fetched.value, later + provider.config.ttl)]
                              else old(provider.cache)
  {
    ghost var s := State(now, provider.cache, provider.locks, provider.nextMutex, map[], map[], map[],
                         provider.hits, provider.misses, provider.errors);
    ghost var was, steps := provider.Fields(), [];
    r, steps := provider.Lookup(host, now, later, fetched, s, 0);
    AnswersFound(provider.config, was, NormalizeHost(host), now, later, fetched, r, provider.Fields());
  }

  predicate Served(req: Request, isAddr: string -> bool) {
    req.path != "/healthz" && req.path != "/metrics" && ValidHost(NormalizeHost(req.host), isAddr)
  }

  /** What each limit of an app meets when it is asked. */
  function Inputs(app: App, inputAt: nat -> RateInput): (inputs: seq<RateInput>)
    ensures |inputs| == |app.rateLimits| && forall i :: 0 <= i < |inputs| ==> inputs[i] == inputAt(i)
  {
    seq(|app.rateLimits|, i requires 0 <= i => inputAt(i))
  }

  /** The answer to a request for which there is no policy. */
  ghost predicate Unjudged(c: Config, resp: Response, event: Event) {
    if c.failClosed then resp == Error(503) && event.action == Block && event.reason == "policy_fetch_failed"
    else resp == NothingWritten && event.action == Allow && event.reason == "policy_fetch_failed_fail_open"
  }

  /**
   A request with the lookup it makes, which no other lookup of its host disturbs. The
   lookup normalises the host again. Without a policy a provider that fails closed
   answers 503, and any other lets the request go without an answer.
   */
  method Serve(req: Request, isAddr: string -> bool, provider: Provider<App>, now: int, later: int, fetched: Option<App>,
               http: HttpRequest, bodyLimit: int, limiter: FixedWindowLimiter, hash: string -> string, inputAt: nat -> RateInput,
               waf: WafOutcome)
    returns (resp: Response, event: Option<Event>)
    requires provider.Valid() && now <= later && AppsCompiled(provider.cache, fetched)
    requires -MAX_INT64 - 1 <= bodyLimit <= MAX_INT64
    modifies provider, http, limiter.store.memory, limiter.store.redis
    ensures provider.Valid()
    ensures !Served(req, isAddr) ==>
              && event.None? && provider.Fields() == old(provider.Fields())
              && resp == if req.path == "/healthz" || req.path == "/metrics" then Page else Error(400)
    ensures Served(req, isAddr) ==>
              var host := NormalizeHost(NormalizeHost(req.host));
              match Judged(old(provider.cache), host, now, fetched)
              case None =>
                limiter.store.State() == old(limiter.store.State()) && event.Some? && Unjudged(provider.config, resp, event.value)
              case Some(app) =>
                var seen := RateRequest(
                  RequestContext(req.verb, req.path, NormalizeHost(req.host), req.headers, req.query, req.clientIp), req.ipText);
                event.Some? && Outcome(app, seen, hash, Inputs(app, inputAt), old(limiter.store.State()), limiter.failClosed,
                                       old(http.body), bodyLimit, waf, resp, event.value)
    ensures Served(req, isAddr) ==>
              var host := NormalizeHost(NormalizeHost(req.host));
              provider.cache == if !Usable(old(provider.cache), host, now) && fetched.Some?
                                then old(provider.cache)[host := Entry(fetched.value, later + provider.config.ttl)]
                                else old(provider.cache)
  {
    var host := NormalizeHost(req.host);
    var lookup := EmptyHost();
    if Served(req, isAddr) {
      lookup := LookUp(provider, host, now, later, fetched);
    }
    var inputs := if lookup.found && lookup.app.Some? then Inputs(lookup.app.value, inputAt) else [];
    resp, event := ServeHttp(req, isAddr, lookup, http, bodyLimit, limiter, hash, inputs, waf);
  }
}

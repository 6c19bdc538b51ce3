/** The fixed-window limiter (services/gateway/internal/ratelimit/ratelimit.go). */
module RateLimiter {
  import opened Common
  import opened Text
  import opened Addresses
  import opened Decisions
  import opened Conditions
  import opened Policy
  import opened CounterStores
  import opened LimiterKeys
  import opened Sorting

  /** The request as the limiter sees it; `ipText` is the client address in text form. */
  datatype RateRequest = RateRequest(ctx: RequestContext, ipText: string)

  /** `http.Header.Get`: the first value under the canonical name, "" without one. */
  function HeaderGet(headers: map<string, seq<string>>, name: string): (v: string)
    ensures var key := CanonicalHeaderKey(name);
            if key in headers && headers[key] != [] then v == headers[key][0] else v == ""
  {
    var got := Values(headers, CanonicalHeaderKey(name));
    if got == [] then "" else got[0]
  }

  function KeyPart(rule: RateLimitRule, req: RateRequest): string {
    match rule.keyType
    case ByHost => ToLower(req.ctx.host)
    case ByPath => req.ctx.path
    case ByHeader => HeaderGet(req.ctx.headers, rule.keyHeader)
    case ByApiKey => HeaderGet(req.ctx.headers, "X-API-Key")
    case _ => req.ipText
  }

  /** The requests agree in the part that keys the rule: client address, host, path, or a header. */
  ghost predicate SamePart(rule: RateLimitRule, a: RateRequest, b: RateRequest) {
    match rule.keyType
    case ByHost => EqualFold(a.ctx.host, b.ctx.host)
    case ByPath => a.ctx.path == b.ctx.path
    case ByHeader => HeaderGet(a.ctx.headers, rule.keyHeader) == HeaderGet(b.ctx.headers, rule.keyHeader)
    case ByApiKey => HeaderGet(a.ctx.headers, "X-API-Key") == HeaderGet(b.ctx.headers, "X-API-Key")
    case _ => a.ipText == b.ipText
  }

  lemma KeyPartIff(rule: RateLimitRule, a: RateRequest, b: RateRequest)
    ensures KeyPart(rule, a) == KeyPart(rule, b) <==> SamePart(rule, a, b)
  {
    LowerEqualIff(a.ctx.host, b.ctx.host);
  }

  /** The rule counts this request. */
  predicate Subject(app: App, rule: RateLimitRule, req: RateRequest) {
    rule.enabled && (rule.condition.Some? ==> Match(rule.condition.value, req.ctx, app.ipSets))
  }

  /** The counter a request falls on; `hash` is the hexadecimal SHA-256 digest. */
  function CounterKey(app: App, rule: RateLimitRule, req: RateRequest, hash: string -> string, now: nat): string
    requires rule.windowSeconds > 0
  {
    Key(app.tenantId, app.id, rule.id, hash(KeyPart(rule, req)), WindowIndex(now, rule.windowSeconds))
  }

  /** The end of the current window, in seconds. */
  function ResetAt(rule: RateLimitRule, now: nat): int
    requires rule.windowSeconds > 0
  {
    (WindowIndex(now, rule.windowSeconds) + 1) * rule.windowSeconds
  }

  /**
   Two requests fall on one counter of a rule exactly if they are read in one window and
   agree in the part that keys the rule, provided their digests do not collide.
   */
  lemma SharedCounterIff(
    app: App, rule: RateLimitRule, a: RateRequest, b: RateRequest, hash: string -> string, now: nat, now': nat)
    requires rule.windowSeconds > 0
    requires var x, y := hash(KeyPart(rule, a)), hash(KeyPart(rule, b));
             |x| == |y| && (x == y ==> KeyPart(rule, a) == KeyPart(rule, b))
    ensures CounterKey(app, rule, a, hash, now) == CounterKey(app, rule, b, hash, now')
            <==> SamePart(rule, a, b) && WindowIndex(now, rule.windowSeconds) == WindowIndex(now', rule.windowSeconds)
  {
    KeyPartIff(rule, a, b);
    KeyEqualIff(app.tenantId, app.id, rule.id, hash(KeyPart(rule, a)), WindowIndex(now, rule.windowSeconds),
                app.tenantId, app.id, rule.id, hash(KeyPart(rule, b)), WindowIndex(now', rule.windowSeconds));
  }

  /** A limit of an accepted app counts exactly the requests its configured rule is for. */
  lemma AcceptedLimitCounts(cfg: AppConfig, app: App, r: RateLimitRule, rule: RateLimitConfig, e: Expr, req: RateRequest)
    requires AppOf(app, cfg) && r in app.rateLimits && rule in cfg.rateLimits && r.id == rule.id
    requires rule.condition != NO_CONDITION ==> Reads(rule.condition, e)
    ensures SameFigures(r, rule)
    ensures Subject(app, r, req) <==> rule.enabled && (rule.condition != NO_CONDITION ==> Holds(e, req.ctx, cfg.ipSets))
  {
    LimitById(cfg, r, rule);
    AcceptedLimitMeaning(cfg, rule, e, req.ctx);
  }

  /** The reset time is the end of the window of the clock reading: until then readings share its window, and no longer. */
  lemma ResetAtEndsWindow(rule: RateLimitRule, now: nat, later: nat)
    requires rule.windowSeconds > 0 && now <= later
    ensures WindowIndex(later, rule.windowSeconds) == WindowIndex(now, rule.windowSeconds) <==> later < 1000 * ResetAt(rule, now)
  {
    var i, w := WindowIndex(now, rule.windowSeconds), rule.windowSeconds;
    assert (i + 1) * w == i * w + w;
    WindowIndexExact(now, w, i);
    WindowIndexExact(later, w, i);
  }

  /** The reset time lies ahead, by at most one window. */
  lemma ResetAtAhead(rule: RateLimitRule, now: nat)
    requires rule.windowSeconds > 0
    ensures now < 1000 * ResetAt(rule, now)
    ensures ResetAt(rule, now) <= now / 1000 + rule.windowSeconds
  {
    var i, w := WindowIndex(now, rule.windowSeconds), rule.windowSeconds;
    assert (i + 1) * w == i * w + w;
    DivideBounds(now, 1000);
    DivideBounds(now / 1000, w);
  }

  // ---------------------------------------------------------------- runs over Redis

  /** One increment the limiter sends: what its key is made of, the clock reading, and when the store executes it. */
  datatype Sent = Sent(tenant: string, app: string, ruleId: string, hash: string, limit: int, windowSeconds: nat, now: nat, at: nat)

  function SentCall(): Sent -> Call {
    (x: Sent) =>
      Call(Key(x.tenant, x.app, x.ruleId, x.hash, if x.windowSeconds > 0 then WindowIndex(x.now, x.windowSeconds) else 0),
           x.limit, x.windowSeconds, x.at)
  }

  /** Executed in the window it was counted for, by a rule with a window. */
  ghost predicate WellSent(x: Sent, hashLength: nat) {
    && x.windowSeconds > 0 && WindowIndex(x.at, x.windowSeconds) == WindowIndex(x.now, x.windowSeconds)
    && |x.hash| == hashLength
  }

  lemma SameKeySameWindow(x: Sent, y: Sent, hashLength: nat)
    requires WellSent(x, hashLength) && WellSent(y, hashLength) && SentCall()(x).key == SentCall()(y).key
    ensures Owner(x.tenant, x.app, x.ruleId) == Owner(y.tenant, y.app, y.ruleId)
    ensures WindowIndex(x.now, x.windowSeconds) == WindowIndex(y.now, y.windowSeconds)
  {
    KeyEqualIff(x.tenant, x.app, x.ruleId, x.hash, WindowIndex(x.now, x.windowSeconds),
                y.tenant, y.app, y.ruleId, y.hash, WindowIndex(y.now, y.windowSeconds));
  }

  /** The window of the first sent increment with the key. */
  function WindowOf(sent: seq<Sent>): string -> nat {
    (key: string) =>
      var x := FirstMatch(sent, (y: Sent) => SentCall()(y).key == key);
      if x.Some? && x.value.windowSeconds > 0 then WindowIndex(x.value.now, x.value.windowSeconds) else 0
  }

  /**
   Whatever the rules of whatever apps send, in whatever order: if each increment is
   executed in the window it was counted for and rules that share counters share a window
   length, the Redis store answers every one of them exactly as the in-memory store would.
   */
  lemma LimiterRunsAgree(sent: seq<Sent>, hashLength: nat)
    requires forall x :: x in sent ==> WellSent(x, hashLength)
    requires forall x, y :: x in sent && y in sent && Owner(x.tenant, x.app, x.ruleId) == Owner(y.tenant, y.app, y.ruleId) ==>
               x.windowSeconds == y.windowSeconds
    ensures Agree(Map(sent, SentCall()))
  {
    var calls, windowOf := Map(sent, SentCall()), WindowOf(sent);
    forall i | 0 <= i < |sent| ensures InWindow(calls[i], windowOf(calls[i].key)) {
      var x := sent[i];
      assert x in sent;
      var first := FirstMatch(sent, (y: Sent) => SentCall()(y).key == calls[i].key);
      SameKeySameWindow(first.value, x, hashLength);
      WindowIndexExact(x.at, x.windowSeconds, WindowIndex(x.now, x.windowSeconds));
    }
    forall i, j | 0 <= i < |calls| && 0 <= j < |calls| && calls[i].key == calls[j].key
      ensures calls[i].windowSeconds == calls[j].windowSeconds
    {
      assert sent[i] in sent && sent[j] in sent;
      SameKeySameWindow(sent[i], sent[j], hashLength);
    }
    InWindowRunsAgree(calls, windowOf);
  }

  // ---------------------------------------------------------------- decisions

  function Info(rule: RateLimitRule, remaining: int, resetAt: int): Option<RateLimitInfo> {
    Some(RateLimitInfo(rule.limit, remaining, resetAt, rule.id, rule.action))
  }

  function WithinLimit(rule: RateLimitRule, remaining: int, resetAt: int): Decision {
    Decision(Allow, "", "", rule.name, "rate_limit", ["rate_limit"], 0, 0, Info(rule, remaining, resetAt))
  }

  /** `rateLimitDecision`. */
  function OverLimit(rule: RateLimitRule, remaining: int, resetAt: int): Decision {
    Decision(if rule.action == Block then RateLimited else Count, "rate_limit", "rate_limit:" + rule.id, rule.name,
             "rate_limit", ["rate_limit"], 0, rule.statusCode, Info(rule, remaining, resetAt))
  }

  /** What becomes of one call to the store: a reply, or an error before or after the increment took place. */
  datatype Fault = NoFault | LostRequest | LostReply

  /** The clock reading, the instant the store executes the increment, and the fate of the call to the store. */
  datatype RateInput = RateInput(now: nat, at: int, fault: Fault)

  /** The increment a rule sends for a request. */
  function CallFor(app: App, rule: RateLimitRule, req: RateRequest, hash: string -> string, input: RateInput): Call
    requires rule.windowSeconds > 0
  {
    Call(CounterKey(app, rule, req, hash, input.now), rule.limit, rule.windowSeconds, input.at)
  }

  /** The decision of `Check` on a request the rule counts. */
  function Judge(rule: RateLimitRule, now: nat, reply: Option<Reply>, failClosed: bool): Decision
    requires rule.windowSeconds > 0
  {
    match reply
    case None => if failClosed then OverLimit(rule, 0, ResetAt(rule, now)) else AllowDecision()
    case Some(r) =>
      if r.count <= rule.limit then WithinLimit(rule, r.remaining, ResetAt(rule, now))
      else OverLimit(rule, r.remaining, ResetAt(rule, now))
  }

  /** The decision of a limit that stops or counts the request. */
  ghost predicate Stops(rule: RateLimitRule, now: nat, d: Decision)
    requires rule.windowSeconds > 0
  {
    && d.action == (if rule.action == Block then RateLimited else Count) && d.statusCode == rule.statusCode
    && d.reason == "rate_limit" && d.matchedRuleId == "rate_limit:" + rule.id && d.matchedRuleName == rule.name
    && d.rateLimit == Some(RateLimitInfo(rule.limit, 0, ResetAt(rule, now), rule.id, rule.action))
  }

  /**
   What a limit says of a request it counts: up to the limit it lets it pass and reports
   what is left, above it stops it; without an answer the failure mode says which.
   */
  ghost predicate Says(rule: RateLimitRule, now: nat, count: Option<nat>, failClosed: bool, d: Decision)
    requires rule.windowSeconds > 0
  {
    match count
    case None => if failClosed then Stops(rule, now, d) else d.action == Allow && d.rateLimit.None?
    case Some(n) =>
      if n > rule.limit then Stops(rule, now, d)
      else d.action == Allow
           && d.rateLimit == Some(RateLimitInfo(rule.limit, rule.limit - n, ResetAt(rule, now), rule.id, rule.action))
  }

  function StoreThen(store: Store, call: Call, fault: Fault): Store {
    if fault == LostRequest then store else Incremented(store, call)
  }

  function ReplyTo(store: Store, call: Call, fault: Fault): Option<Reply> {
    if fault != NoFault then None else Some(Reply(Answered(store, call), Remaining(call.limit, Answered(store, call))))
  }

  class FixedWindowLimiter {
    const store: CounterStore
    const failClosed: bool

    constructor (store: CounterStore, failClosed: bool)
      ensures this.store == store && this.failClosed == failClosed
    {
      this.store := store;
      this.failClosed := failClosed;
    }

    /** `Check`, with the clock reading and the fate of the store call given. */
    method Check(app: App, req: RateRequest, rule: RateLimitRule, hash: string -> string, input: RateInput)
      returns (d: Decision)
      requires rule.windowSeconds > 0
      modifies store.memory, store.redis
      ensures !Subject(app, rule, req) ==> d == AllowDecision() && store.State() == old(store.State())
      ensures Subject(app, rule, req) ==>
                var call := CallFor(app, rule, req, hash, input);
                && store.State() == StoreThen(old(store.State()), call, input.fault)
                && d == Judge(rule, input.now, ReplyTo(old(store.State()), call, input.fault), failClosed)
                && Says(rule, input.now, if input.fault == NoFault then Some(Answered(old(store.State()), call)) else None, failClosed, d)
    {
      if !rule.enabled { return AllowDecision(); }
      if rule.condition.Some? {
        if !Match(rule.condition.value, req.ctx, app.ipSets) { return AllowDecision(); }
      }
      var window := input.now / 1000 / rule.windowSeconds;
      var resetAt := (window + 1) * rule.windowSeconds;
      var key := Key(app.tenantId, app.id, rule.id, hash(KeyPart(rule, req)), window);
      if input.fault == LostRequest {
        return if !failClosed then AllowDecision() else OverLimit(rule, 0, resetAt);
      }
      var count, remaining := store.IncrementFixedWindow(Call(key, rule.limit, rule.windowSeconds, input.at));
      if input.fault == LostReply {
        return if !failClosed then AllowDecision() else OverLimit(rule, 0, resetAt);
      }
      if count <= rule.limit { return WithinLimit(rule, remaining, resetAt); }
      return OverLimit(rule, remaining, resetAt);
    }
  }
}

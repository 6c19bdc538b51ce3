/** The decision pipeline of the gateway (services/gateway/internal/proxy/gateway.go). */
module Gateway {
  import opened Common
  import opened Hosts
  import opened Addresses
  import opened Decisions
  import opened Conditions
  import opened Sorting
  import opened Policy
  import opened PolicyCache
  import opened CounterStores
  import opened RateLimiter
  import opened RequestBody

  // ---------------------------------------------------------------- rate limit stage

  /** Every compiled rule has a positive window (`parseRateLimitRules` rejects others). */
  ghost predicate WindowsPositive(rules: seq<RateLimitRule>) {
    forall r :: r in rules ==> r.windowSeconds > 0
  }

  /** The decision of one rule in a store state, and the state it leaves. */
  function CheckOne(app: App, rule: RateLimitRule, req: RateRequest, hash: string -> string, input: RateInput,
                    store: Store, failClosed: bool): (Decision, Store)
    requires rule.windowSeconds > 0
  {
    if !Subject(app, rule, req) then (AllowDecision(), store)
    else
      var call := CallFor(app, rule, req, hash, input);
      (Judge(rule, input.now, ReplyTo(store, call, input.fault), failClosed), StoreThen(store, call, input.fault))
  }

  type Check = (RateLimitRule, RateInput, Store) -> (Decision, Store)

  /** `Check` for one request, as a function of the rule, its input and the store. */
  function Checker(app: App, req: RateRequest, hash: string -> string, failClosed: bool): Check {
    (rule: RateLimitRule, input: RateInput, store: Store) =>
      if rule.windowSeconds > 0 then CheckOne(app, rule, req, hash, input, store, failClosed) else (AllowDecision(), store)
  }

  /** The rules are asked in order; the first that does not allow decides, and later ones are not asked. */
  function RateVerdict(check: Check, rules: seq<RateLimitRule>, inputs: seq<RateInput>, store: Store): (Decision, Store)
    requires |inputs| == |rules|
  {
    if rules == [] then (AllowDecision(), store)
    else
      var (d, after) := check(rules[0], inputs[0], store);
      if d.action != Allow then (d, after) else RateVerdict(check, rules[1..], inputs[1..], after)
  }

  /** One round of the loop. */
  lemma VerdictRound(check: Check, rules: seq<RateLimitRule>, inputs: seq<RateInput>, store: Store)
    requires |inputs| == |rules| > 0
    ensures var (d, after) := check(rules[0], inputs[0], store);
            RateVerdict(check, rules, inputs, store) ==
            if d.action != Allow then (d, after)
            else if |rules| == 1 then (AllowDecision(), after)
            else RateVerdict(check, rules[1..], inputs[1..], after)
  {
    assert |rules| == 1 ==> RateVerdict(check, rules[1..], inputs[1..], check(rules[0], inputs[0], store).1).0 == AllowDecision();
  }

  /** The store when rule `k` is asked, if none before it ends the loop. */
  function StoreAt(check: Check, rules: seq<RateLimitRule>, inputs: seq<RateInput>, store: Store, k: nat): Store
    requires |inputs| == |rules| && k <= |rules|
    decreases k
  {
    if k == 0 then store else StoreAt(check, rules[1..], inputs[1..], check(rules[0], inputs[0], store).1, k - 1)
  }

  /** The decision of rule `k` in that store, and the store it leaves. */
  function CheckAt(check: Check, rules: seq<RateLimitRule>, inputs: seq<RateInput>, store: Store, k: nat): (Decision, Store)
    requires |inputs| == |rules| && k < |rules|
  {
    check(rules[k], inputs[k], StoreAt(check, rules, inputs, store, k))
  }

  lemma CheckLater(check: Check, rules: seq<RateLimitRule>, inputs: seq<RateInput>, store: Store, k: nat)
    requires |inputs| == |rules| && 0 < k < |rules|
    ensures CheckAt(check, rules, inputs, store, k) ==
            CheckAt(check, rules[1..], inputs[1..], check(rules[0], inputs[0], store).1, k - 1)
  {
  }

  /** The loop read declaratively: the first rule that does not allow decides; if there is none, the stage allows. */
  lemma {:induction false} FirstStopDecides(check: Check, rules: seq<RateLimitRule>, inputs: seq<RateInput>, store: Store, k: nat)
    requires |inputs| == |rules| && k <= |rules|
    requires forall i :: 0 <= i < k ==> CheckAt(check, rules, inputs, store, i).0.action == Allow
    requires k < |rules| ==> CheckAt(check, rules, inputs, store, k).0.action != Allow
    ensures RateVerdict(check, rules, inputs, store) ==
            if k < |rules| then CheckAt(check, rules, inputs, store, k)
            else (AllowDecision(), StoreAt(check, rules, inputs, store, k))
    decreases k
  {
    if k > 0 {
      var after := check(rules[0], inputs[0], store).1;
      assert CheckAt(check, rules, inputs, store, 0).0.action == Allow;
      forall i | 0 <= i < k - 1 ensures CheckAt(check, rules[1..], inputs[1..], after, i).0.action == Allow {
        CheckLater(check, rules, inputs, store, i + 1);
      }
      if k < |rules| { CheckLater(check, rules, inputs, store, k); }
      FirstStopDecides(check, rules[1..], inputs[1..], after, k - 1);
    }
  }

  /** A rule asked with this input goes over its limit, or the store fails and the limiter fails closed. */
  predicate Trips(app: App, rule: RateLimitRule, req: RateRequest, hash: string -> string, input: RateInput, store: Store,
                  failClosed: bool)
    requires rule.windowSeconds > 0
  {
    && Subject(app, rule, req)
    && if input.fault == NoFault then Answered(store, CallFor(app, rule, req, hash, input)) > rule.limit else failClosed
  }

  /** Rule `k` trips in the state the earlier ones leave. */
  ghost predicate TripsAt(app: App, rules: seq<RateLimitRule>, req: RateRequest, hash: string -> string, inputs: seq<RateInput>,
                          store: Store, failClosed: bool, k: nat)
    requires |inputs| == |rules| && k < |rules| && WindowsPositive(rules)
  {
    assert rules[k] in rules;
    Trips(app, rules[k], req, hash, inputs[k], StoreAt(Checker(app, req, hash, failClosed), rules, inputs, store, k), failClosed)
  }

  /** The decision `d` is that of a rule that tripped, which raised no counter but its own. */
  predicate DecidedBy(rule: RateLimitRule, call: Call, fault: Fault, before: Store, d: Decision, after: Store) {
    && d.action == (if rule.action == Block then RateLimited else Count) && d.matchedRuleId == "rate_limit:" + rule.id
    && after == StoreThen(before, call, fault)
  }

  lemma OneRule(app: App, rule: RateLimitRule, req: RateRequest, hash: string -> string, input: RateInput, store: Store,
                failClosed: bool)
    requires rule.windowSeconds > 0
    ensures var (d, after) := CheckOne(app, rule, req, hash, input, store, failClosed);
            if Trips(app, rule, req, hash, input, store, failClosed)
            then DecidedBy(rule, CallFor(app, rule, req, hash, input), input.fault, store, d, after)
            else d.action == Allow
  {
  }

  /**
   A limit of an accepted app raises its counter, and no other, for exactly the requests
   its configured rule is for, if the store does not lose the increment.
   */
  lemma AcceptedLimitRaises(
    cfg: AppConfig, app: App, r: RateLimitRule, rule: RateLimitConfig, e: Expr, req: RateRequest, hash: string -> string,
    input: RateInput, store: Store, failClosed: bool)
    requires AppOf(app, cfg) && r in app.rateLimits && rule in cfg.rateLimits && r.id == rule.id
    requires (rule.condition != NO_CONDITION ==> Reads(rule.condition, e)) && input.fault != LostRequest
    ensures r.windowSeconds == rule.windowSeconds > 0
    ensures var after := CheckOne(app, r, req, hash, input, store, failClosed).1;
            var counted := rule.enabled && (rule.condition != NO_CONDITION ==> Holds(e, req.ctx, cfg.ipSets));
            var key := CounterKey(app, r, req, hash, input.now);
            && (after != store <==> counted)
            && (counted ==> Counted(after, key) == Answered(store, CallFor(app, r, req, hash, input)))
            && forall other :: other != key ==> Counted(after, other) == Counted(store, other)
  {
    assert RateLimitOk(rule, cfg.ipSets.Keys);
    AcceptedLimitCounts(cfg, app, r, rule, e, req);
    IncrementRaises(store, CallFor(app, r, req, hash, input));
  }

  lemma IncrementRaises(store: Store, call: Call)
    ensures Incremented(store, call) != store && Counted(Incremented(store, call), call.key) == Answered(store, call)
    ensures forall other :: other != call.key ==> Counted(Incremented(store, call), other) == Counted(store, other)
  {
    if store.InMemory? {
      assert MemoryStep(store.counts, call.key)[call.key] != CountOf(store.counts, call.key);
    } else {
      assert call.key in store.cells ==> RedisStep(store.cells, call)[call.key] != store.cells[call.key];
      assert call.key in RedisStep(store.cells, call);
    }
  }

  lemma StopsIffTrips(app: App, rules: seq<RateLimitRule>, req: RateRequest, hash: string -> string, inputs: seq<RateInput>,
                      store: Store, failClosed: bool, k: nat)
    requires |inputs| == |rules| && k < |rules| && WindowsPositive(rules)
    ensures CheckAt(Checker(app, req, hash, failClosed), rules, inputs, store, k).0.action == Allow
            <==> !TripsAt(app, rules, req, hash, inputs, store, failClosed, k)
  {
    assert rules[k] in rules;
    OneRule(app, rules[k], req, hash, inputs[k], StoreAt(Checker(app, req, hash, failClosed), rules, inputs, store, k), failClosed);
  }

  /**
   The first rule that trips decides with its own action and ends the evaluation, so an
   over-limit count rule hides the block rules behind it and their counters stay put.
   */
  lemma FirstTrippedDecides(
    app: App, rules: seq<RateLimitRule>, req: RateRequest, hash: string -> string, inputs: seq<RateInput>, store: Store,
    failClosed: bool, k: nat)
    requires |inputs| == |rules| && WindowsPositive(rules) && k < |rules|
    requires forall i :: 0 <= i < k ==> !TripsAt(app, rules, req, hash, inputs, store, failClosed, i)
    requires TripsAt(app, rules, req, hash, inputs, store, failClosed, k)
    ensures rules[k].windowSeconds > 0
    ensures var check := Checker(app, req, hash, failClosed);
            var (d, after) := RateVerdict(check, rules, inputs, store);
            DecidedBy(rules[k], CallFor(app, rules[k], req, hash, inputs[k]), inputs[k].fault,
                      StoreAt(check, rules, inputs, store, k), d, after)
  {
    var check := Checker(app, req, hash, failClosed);
    assert rules[k] in rules;
    forall i | 0 <= i <= k ensures CheckAt(check, rules, inputs, store, i).0.action == Allow <==> i < k {
      StopsIffTrips(app, rules, req, hash, inputs, store, failClosed, i);
    }
    FirstStopDecides(check, rules, inputs, store, k);
    OneRule(app, rules[k], req, hash, inputs[k], StoreAt(check, rules, inputs, store, k), failClosed);
  }

  /** If none trips, the stage allows. */
  lemma NoneTrippedAllows(
    app: App, rules: seq<RateLimitRule>, req: RateRequest, hash: string -> string, inputs: seq<RateInput>, store: Store,
    failClosed: bool)
    requires |inputs| == |rules| && WindowsPositive(rules)
    requires forall i :: 0 <= i < |rules| ==> !TripsAt(app, rules, req, hash, inputs, store, failClosed, i)
    ensures RateVerdict(Checker(app, req, hash, failClosed), rules, inputs, store).0.action == Allow
  {
    var check := Checker(app, req, hash, failClosed);
    forall i | 0 <= i < |rules| ensures CheckAt(check, rules, inputs, store, i).0.action == Allow {
      StopsIffTrips(app, rules, req, hash, inputs, store, failClosed, i);
    }
    FirstStopDecides(check, rules, inputs, store, |rules|);
  }

  // ---------------------------------------------------------------- the whole pipeline

  /** A request as it arrives; `clientIp` is the client's address and `ipText` its text form. */
  datatype Request = Request(
    verb: string, path: string, host: string, headers: map<string, seq<string>>, query: map<string, seq<string>>,
    clientIp: Addr, ipText: string)

  /** What the rules see of it: the path, and the host after normalisation. */
  function Seen(req: Request): RateRequest {
    RateRequest(RequestContext(req.verb, req.path, NormalizeHost(req.host), req.headers, req.query, req.clientIp), req.ipText)
  }

  datatype WafOutcome = WafError | WafSilent | WafDecision(d: Decision)

  datatype Event = Event(
    action: Action,
    enforced: bool,
    wouldBlock: bool,
    reason: string,
    matchedRuleId: string,
    matchedRuleName: string,
    ruleGroup: string,
    tags: seq<string>,
    anomalyScore: int,
    rateLimit: Option<RateLimitInfo>,
    tenantId: string,
    appId: string,
    policyId: string,
    policyVersion: string,
    mode: Option<Mode>)

  /** What the client gets: a page served here, an error, nothing written, or the origin's answer. */
  datatype Response = Page | Error(status: int) | NothingWritten | FromOrigin

  function NewEvent(): Event {
    Event(Allow, false, false, "", "", "", "", [], 0, None, "", "", "", "", None)
  }

  /** The stages' own decisions on a request. */
  datatype Stages = Stages(ip: Decision, rate: Decision, bodyExceeded: bool, custom: Decision, waf: WafOutcome)

  predicate Terminal(custom: Decision) {
    custom.action == Allow && custom.reason == TERMINAL_ALLOW
  }

  function Blocks(): Decision -> bool { (d: Decision) => d.WouldBlock() }

  function IsCount(): Decision -> bool { (d: Decision) => d.action == Count }

  function BodyLimitBlock(): Decision {
    BlockDecision("request_body_limit_exceeded", "waf:request_body_limit")
  }

  function DefaultBlock(): Decision {
    BlockDecision("default_action", "default_action")
  }

  function WafPart(waf: WafOutcome): seq<Decision> {
    if waf.WafDecision? then [waf.d] else []
  }

  /** The decisions that can end a request, in the order in which they win. */
  function Candidates(st: Stages, defaultAction: Action): seq<Decision> {
    [st.ip, st.rate] + (if st.bodyExceeded then [BodyLimitBlock()] else []) + [st.custom] + WafPart(st.waf)
    + (if defaultAction == Block && !Terminal(st.custom) then [DefaultBlock()] else [])
  }

  /**
   The final decision: the first candidate that would block; else the first count of the
   rate limit, custom and WAF stages; else the terminal allow, or a plain allow.
   */
  function Final(st: Stages, defaultAction: Action): Decision {
    var block := FirstMatch(Candidates(st, defaultAction), Blocks());
    var count := FirstMatch([st.rate, st.custom] + WafPart(st.waf), IsCount());
    if block.Some? then block.value
    else if count.Some? then count.value
    else if Terminal(st.custom) then st.custom
    else AllowDecision()
  }

  /** The WAF is asked only when no earlier stage would block. */
  predicate WafAsked(st: Stages) {
    !st.ip.WouldBlock() && !st.rate.WouldBlock() && !st.bodyExceeded && !st.custom.WouldBlock()
  }

  function CustomStage(app: App, ctx: RequestContext): Decision {
    CustomVerdict(app.customRules, ctx, app.ipSets)
  }

  lemma CustomShape(app: App, ctx: RequestContext)
    ensures var d := CustomStage(app, ctx);
            && (d.action == Block || d.action == Count || d.action == Allow)
            && (d.reason == TERMINAL_ALLOW <==> Terminal(d))
  {
    assert |TERMINAL_ALLOW| == 17;
  }

  lemma {:induction false} FirstMatchAppend<T>(a: seq<T>, b: seq<T>, p: T -> bool)
    ensures FirstMatch(a + b, p) == if FirstMatch(a, p).Some? then FirstMatch(a, p) else FirstMatch(b, p)
  {
    if a == [] {
      assert a + b == b;
    } else {
      assert (a + b)[1..] == a[1..] + b;
      FirstMatchAppend(a[1..], b, p);
    }
  }

  /** The stage that decides, read off the stages one by one. */
  lemma FinalByStages(st: Stages, defaultAction: Action)
    ensures var wafBlocks := st.waf.WafDecision? && st.waf.d.WouldBlock();
            Final(st, defaultAction) ==
            if st.ip.WouldBlock() then st.ip
            else if st.rate.WouldBlock() then st.rate
            else if st.bodyExceeded then BodyLimitBlock()
            else if st.custom.WouldBlock() then st.custom
            else if wafBlocks then st.waf.d
            else if defaultAction == Block && !Terminal(st.custom) then DefaultBlock()
            else if st.rate.action == Count then st.rate
            else if st.custom.action == Count then st.custom
            else if st.waf.WafDecision? && st.waf.d.action == Count then st.waf.d
            else if Terminal(st.custom) then st.custom
            else AllowDecision()
  {
    FirstBlocker(st, defaultAction);
    FirstCounter(st);
  }

  function OrElse(a: Option<Decision>, b: Option<Decision>): Option<Decision> {
    if a.Some? then a else b
  }

  function When(use: bool, d: Decision): Option<Decision> {
    if use then Some(d) else None
  }

  lemma FirstMatchSmall(ds: seq<Decision>, p: Decision -> bool)
    requires |ds| <= 1
    ensures FirstMatch(ds, p) == if ds != [] && p(ds[0]) then Some(ds[0]) else None
  {
  }

  lemma FirstMatchJoin(a: seq<Decision>, b: seq<Decision>, p: Decision -> bool)
    requires |b| <= 1
    ensures FirstMatch(a + b, p) == OrElse(FirstMatch(a, p), When(b != [] && p(b[0]), if b == [] then AllowDecision() else b[0]))
  {
    FirstMatchAppend(a, b, p);
    FirstMatchSmall(b, p);
  }

  lemma FirstBlocker(st: Stages, defaultAction: Action)
    ensures FirstMatch(Candidates(st, defaultAction), Blocks()) ==
            OrElse(When(st.ip.WouldBlock(), st.ip), OrElse(When(st.rate.WouldBlock(), st.rate),
            OrElse(When(st.bodyExceeded, BodyLimitBlock()), OrElse(When(st.custom.WouldBlock(), st.custom),
            OrElse(When(st.waf.WafDecision? && st.waf.d.WouldBlock(), if st.waf.WafDecision? then st.waf.d else st.ip),
                   When(defaultAction == Block && !Terminal(st.custom), DefaultBlock()))))))
  {
    var c0 := [st.ip];
    var c1 := c0 + [st.rate];
    var body := if st.bodyExceeded then [BodyLimitBlock()] else [];
    var last := if defaultAction == Block && !Terminal(st.custom) then [DefaultBlock()] else [];
    var c2 := c1 + body;
    var c3 := c2 + [st.custom];
    var c4 := c3 + WafPart(st.waf);
    FirstMatchSmall(c0, Blocks());
    FirstMatchJoin(c0, [st.rate], Blocks());
    FirstMatchJoin(c1, body, Blocks());
    FirstMatchJoin(c2, [st.custom], Blocks());
    FirstMatchJoin(c3, WafPart(st.waf), Blocks());
    FirstMatchJoin(c4, last, Blocks());
    assert c1 == [st.ip, st.rate];
    assert Candidates(st, defaultAction) == c4 + last;
  }

  lemma FirstCounter(st: Stages)
    ensures FirstMatch([st.rate, st.custom] + WafPart(st.waf), IsCount()) ==
            OrElse(When(st.rate.action == Count, st.rate), OrElse(When(st.custom.action == Count, st.custom),
                   When(st.waf.WafDecision? && st.waf.d.action == Count, if st.waf.WafDecision? then st.waf.d else st.ip)))
  {
    var c0 := [st.rate];
    FirstMatchSmall(c0, IsCount());
    FirstMatchJoin(c0, [st.custom], IsCount());
    FirstMatchJoin(c0 + [st.custom], WafPart(st.waf), IsCount());
    assert c0 + [st.custom] == [st.rate, st.custom];
  }

  /** The stages of `ServeHTTP` from the IP lists to the last default, with the variables it rewrites. */
  method Decide(app: App, req: RateRequest, limiter: FixedWindowLimiter, hash: string -> string, inputs: seq<RateInput>,
                bodyExceeded: bool, waf: WafOutcome)
    returns (r: Result<Decision>, ghost rate: Decision)
    requires |inputs| == |app.rateLimits| && WindowsPositive(app.rateLimits)
    modifies limiter.store.memory, limiter.store.redis
    ensures var ip := EvaluateIp(app, req.ctx.clientIp);
            var verdict := RateVerdict(Checker(app, req, hash, limiter.failClosed), app.rateLimits, inputs, old(limiter.store.State()));
            && rate == verdict.0
            && limiter.store.State() == (if ip.WouldBlock() then old(limiter.store.State()) else verdict.1)
            && var st := Stages(ip, rate, bodyExceeded, CustomStage(app, req.ctx), waf);
               && (r.Err? <==> WafAsked(st) && waf == WafError)
               && (r.Ok? ==> r.value == Final(st, app.defaultAction))
  {
    rate := RateVerdict(Checker(app, req, hash, limiter.failClosed), app.rateLimits, inputs, limiter.store.State()).0;
    FinalByStages(Stages(EvaluateIp(app, req.ctx.clientIp), rate, bodyExceeded, CustomStage(app, req.ctx), waf), app.defaultAction);
    CustomShape(app, req.ctx);
    var final := EvaluateIp(app, req.ctx.clientIp);
    var observedCount: Option<Decision> := None;
    if final.action == Allow {
      var rateDecision := EvaluateRateLimits(app, req, limiter, hash, inputs);
      if rateDecision.action == RateLimited || rateDecision.action == Block || rateDecision.action == Challenge {
        final := rateDecision;
      } else if rateDecision.action == Count && observedCount.None? {
        observedCount := Some(rateDecision);
      }
    }
    if final.action == Allow && bodyExceeded {
      final := BodyLimitBlock();
    }
    if final.action == Allow {
      var custom := EvaluateCustomRules(app.customRules, req.ctx, app.ipSets);
      if custom.action == Block || custom.reason == TERMINAL_ALLOW {
        final := custom;
      } else if custom.action == Count && observedCount.None? {
        observedCount := Some(custom);
      }
    }
    var terminalAllow := final.action == Allow && final.reason == TERMINAL_ALLOW;
    if final.action == Allow {
      if waf == WafError { return Err, rate; }
      if waf.WafDecision? {
        if waf.d.action == Block || waf.d.action == RateLimited || waf.d.action == Challenge {
          final := waf.d;
          terminalAllow := false;
        } else if waf.d.action == Count && observedCount.None? {
          observedCount := Some(waf.d);
        }
      }
    }
    if final.action == Allow && !terminalAllow && app.defaultAction == Block {
      final := DefaultBlock();
    }
    if final.action == Allow && observedCount.Some? {
      final := observedCount.value;
    }
    r := Ok(final);
  }

  /** `evaluateRateLimits`. */
  method EvaluateRateLimits(app: App, req: RateRequest, limiter: FixedWindowLimiter, hash: string -> string, inputs: seq<RateInput>)
    returns (d: Decision)
    requires |inputs| == |app.rateLimits| && WindowsPositive(app.rateLimits)
    modifies limiter.store.memory, limiter.store.redis
    ensures (d, limiter.store.State()) ==
            RateVerdict(Checker(app, req, hash, limiter.failClosed), app.rateLimits, inputs, old(limiter.store.State()))
  {
    var rules := app.rateLimits;
    ghost var check := Checker(app, req, hash, limiter.failClosed);
    ghost var goal := RateVerdict(check, rules, inputs, limiter.store.State());
    for n := 0 to |rules|
      invariant goal == RateVerdict(check, rules[n..], inputs[n..], limiter.store.State())
    {
      assert rules[n] in rules;
      d := limiter.Check(app, req, rules[n], hash, inputs[n]);
      assert rules[n..][1..] == rules[n + 1..] && inputs[n..][1..] == inputs[n + 1..];
      if d.action != Allow { return d; }
    }
    return AllowDecision();
  }

  /** The app found for the host, when the request gets that far. */
  predicate Routed(req: Request, isAddr: string -> bool, lookup: LookupResult<App>) {
    && req.path != "/healthz" && req.path != "/metrics" && ValidHost(NormalizeHost(req.host), isAddr)
    && !lookup.failOpen && lookup.found && lookup.app.Some?
  }

  /** The decision on a routed request with a readable body, in a given state of the counters. */
  ghost function StagesOf(app: App, req: RateRequest, hash: string -> string, inputs: seq<RateInput>, store: Store,
                          failClosed: bool, exceeded: bool, waf: WafOutcome): Stages
    requires |inputs| == |app.rateLimits|
  {
    Stages(EvaluateIp(app, req.ctx.clientIp),
           RateVerdict(Checker(app, req, hash, failClosed), app.rateLimits, inputs, store).0,
           exceeded, CustomStage(app, req.ctx), waf)
  }

  function DenyStatus(final: Decision): int {
    if final.statusCode == 0 then 403 else final.statusCode
  }

  /** The audit event and the response agree with the final decision; only block mode denies. */
  ghost predicate Enforces(app: App, final: Decision, resp: Response, event: Event) {
    && resp == (if app.mode == BlockMode && final.WouldBlock() then Error(DenyStatus(final)) else FromOrigin)
    && (event.enforced <==> app.mode == BlockMode && final.WouldBlock())
    && (event.wouldBlock <==> final.WouldBlock())
    && event.action == final.action && event.reason == final.reason && event.matchedRuleId == final.matchedRuleId
    && event.matchedRuleName == final.matchedRuleName && event.ruleGroup == final.ruleGroup && event.tags == final.tags
    && event.anomalyScore == final.anomalyScore && event.rateLimit == final.rateLimit
    && Names(event, app)
  }

  /** The event names the policy the request was judged by. */
  predicate Names(event: Event, app: App) {
    && event.tenantId == app.tenantId && event.appId == app.id && event.mode == Some(app.mode)
    && event.policyId == app.policyId && event.policyVersion == app.policyVersion
  }

  /** The error answer of a stage that could not do its work. */
  predicate Fails(app: App, reason: string, resp: Response, event: Event) {
    resp == Error(400) && event.action == Block && event.reason == reason && !event.enforced && Names(event, app)
  }

  /** The counters after a routed request: those of the rate limit stage, if it is reached. */
  ghost function StoreServed(app: App, req: RateRequest, hash: string -> string, inputs: seq<RateInput>, store: Store,
                              failClosed: bool, body: Body, bodyLimit: int): Store
    requires |inputs| == |app.rateLimits|
  {
    if Unreadable(body, bodyLimit) || EvaluateIp(app, req.ctx.clientIp).WouldBlock() then store
    else RateVerdict(Checker(app, req, hash, failClosed), app.rateLimits, inputs, store).1
  }

  /** The outcome on a request whose app was found, given the state it met. */
  ghost predicate Outcome(app: App, req: RateRequest, hash: string -> string, inputs: seq<RateInput>, store: Store,
                          failClosed: bool, body: Body, bodyLimit: int, waf: WafOutcome, resp: Response, event: Event)
    requires |inputs| == |app.rateLimits|
  {
    if Unreadable(body, bodyLimit) then Fails(app, "request_body_read_failed", resp, event)
    else
      var st := StagesOf(app, req, hash, inputs, store, failClosed, Exceeds(body, bodyLimit), waf);
      if WafAsked(st) && waf == WafError then Fails(app, "waf_error", resp, event)
      else Enforces(app, Final(st, app.defaultAction), resp, event)
  }

  /** The answers in block mode, stage by stage: whichever stops the request first gives the status and the reason. */
  lemma DeniedBy(app: App, req: RateRequest, hash: string -> string, inputs: seq<RateInput>, store: Store,
                 failClosed: bool, body: Body, bodyLimit: int, waf: WafOutcome, resp: Response, event: Event)
    requires |inputs| == |app.rateLimits| && !Unreadable(body, bodyLimit) && app.mode == BlockMode
    requires Outcome(app, req, hash, inputs, store, failClosed, body, bodyLimit, waf, resp, event)
    ensures var ip, custom := EvaluateIp(app, req.ctx.clientIp), CustomStage(app, req.ctx);
            var rate := RateVerdict(Checker(app, req, hash, failClosed), app.rateLimits, inputs, store).0;
            if ip.WouldBlock() then resp == Error(403) && event.reason == ip.reason
            else if rate.WouldBlock() then resp == Error(DenyStatus(rate)) && event.rateLimit == rate.rateLimit
            else if Exceeds(body, bodyLimit) then
              resp == Error(403) && event.reason == "request_body_limit_exceeded" && event.matchedRuleId == "waf:request_body_limit"
            else if custom.WouldBlock() then resp == Error(DenyStatus(custom)) && event.matchedRuleId == custom.matchedRuleId
            else if waf == WafError then resp == Error(400) && event.reason == "waf_error"
            else if waf.WafDecision? && waf.d.WouldBlock() then resp == Error(DenyStatus(waf.d)) && event.reason == waf.d.reason
            else if app.defaultAction == Block && custom.reason != "custom_rule_allow" then
              resp == Error(403) && event.reason == "default_action" && event.matchedRuleId == "default_action"
            else resp == FromOrigin && !event.enforced
  {
    FinalByStages(StagesOf(app, req, hash, inputs, store, failClosed, Exceeds(body, bodyLimit), waf), app.defaultAction);
    CustomShape(app, req.ctx);
  }

  /** `ServeHTTP` from the point where the app is known. */
  method ServeRouted(e0: Event, app: App, req: RateRequest, http: HttpRequest, bodyLimit: int, limiter: FixedWindowLimiter,
                     hash: string -> string, inputs: seq<RateInput>, waf: WafOutcome)
    returns (resp: Response, e: Event)
    requires -MAX_INT64 - 1 <= bodyLimit <= MAX_INT64
    requires |inputs| == |app.rateLimits| && WindowsPositive(app.rateLimits)
    requires !e0.enforced
    modifies http, limiter.store.memory, limiter.store.redis
    ensures Outcome(app, req, hash, inputs, old(limiter.store.State()), limiter.failClosed, old(http.body), bodyLimit, waf, resp, e)
    ensures limiter.store.State() ==
            StoreServed(app, req, hash, inputs, old(limiter.store.State()), limiter.failClosed, old(http.body), bodyLimit)
    ensures resp == FromOrigin && bodyLimit < MAX_INT64 ==> Delivered(http.body) == Delivered(old(http.body))
  {
    e := e0.(tenantId := app.tenantId, appId := app.id, policyId := app.policyId, policyVersion := app.policyVersion,
         mode := Some(app.mode));
    var preview, exceeded, ok := http.PrepareBody(bodyLimit);
    assert ok <==> !Unreadable(old(http.body), bodyLimit);
    assert ok ==> exceeded == Exceeds(old(http.body), bodyLimit);
    if !ok {
      return Error(400), e.(action := Block, reason := "request_body_read_failed");
    }
    var decided, _ := Decide(app, req, limiter, hash, inputs, exceeded, waf);
    if decided.Err? {
      return Error(400), e.(action := Block, reason := "waf_error");
    }
    resp, e := Enforce(e, app, decided.value);
  }

  /** The end of `ServeHTTP`: record the final decision and deny or forward. */
  method Enforce(e0: Event, app: App, final: Decision) returns (resp: Response, e: Event)
    requires Names(e0, app)
    ensures Enforces(app, final, resp, e)
  {
    var enforced := EnforcedAction(app.mode, final);
    e := e0.(action := final.action, enforced := app.mode == BlockMode && final.WouldBlock(), wouldBlock := final.WouldBlock(),
         reason := final.reason, matchedRuleId := final.matchedRuleId, matchedRuleName := final.matchedRuleName,
         ruleGroup := final.ruleGroup, tags := final.tags, anomalyScore := final.anomalyScore, rateLimit := final.rateLimit);
    if enforced != Allow && app.mode == BlockMode && final.WouldBlock() {
      var status := final.statusCode;
      if status == 0 { status := 403; }
      return Error(status), e;
    }
    return FromOrigin, e;
  }

  /** `ServeHTTP`. The policy lookup, the clock, the store's fate and the WAF's answer come from outside. */
  method ServeHttp(req: Request, isAddr: string -> bool, lookup: LookupResult<App>, http: HttpRequest, bodyLimit: int,
                   limiter: FixedWindowLimiter, hash: string -> string, inputs: seq<RateInput>, waf: WafOutcome)
    returns (resp: Response, event: Option<Event>)
    requires -MAX_INT64 - 1 <= bodyLimit <= MAX_INT64
    requires lookup.found ==>
               lookup.app.Some? && |inputs| == |lookup.app.value.rateLimits| && WindowsPositive(lookup.app.value.rateLimits)
    modifies http, limiter.store.memory, limiter.store.redis
    ensures event.None? <==>
              req.path == "/healthz" || req.path == "/metrics" || !ValidHost(NormalizeHost(req.host), isAddr)
    ensures event.None? ==>
              resp == if req.path == "/healthz" || req.path == "/metrics" then Page else Error(400)
    ensures event.Some? && lookup.failOpen ==>
              && resp == NothingWritten && event.value.action == Allow
              && event.value.reason == NoticeText(lookup.reason) && !event.value.enforced
    ensures event.Some? && !lookup.failOpen && !lookup.found ==>
              && resp == Error(if lookup.statusCode == 0 then 404 else lookup.statusCode)
              && event.value.action == Block && event.value.reason == NoticeText(lookup.reason) && !event.value.enforced
    ensures !Routed(req, isAddr, lookup) ==> limiter.store.State() == old(limiter.store.State()) && resp != FromOrigin
    ensures Routed(req, isAddr, lookup) ==>
              var app := lookup.app.value;
              var seen := RateRequest(
                RequestContext(req.verb, req.path, NormalizeHost(req.host), req.headers, req.query, req.clientIp), req.ipText);
              && event.Some? && Outcome(app, seen, hash, inputs, old(limiter.store.State()), limiter.failClosed,
                                        old(http.body), bodyLimit, waf, resp, event.value)
              && limiter.store.State() == StoreServed(app, seen, hash, inputs, old(limiter.store.State()), limiter.failClosed,
                                                      old(http.body), bodyLimit)
    ensures resp == FromOrigin && bodyLimit < MAX_INT64 ==> Delivered(http.body) == Delivered(old(http.body))
  {
    if req.path == "/healthz" { return Page, None; }
    if req.path == "/metrics" { return Page, None; }
    var host := NormalizeHost(req.host);
    if !ValidHost(host, isAddr) { return Error(400), None; }
    var e := NewEvent();
    if lookup.warning != NoNotice { e := e.(reason := NoticeText(lookup.warning)); }
    if lookup.failOpen {
      return NothingWritten, Some(e.(action := Allow, reason := NoticeText(lookup.reason)));
    }
    if !lookup.found {
      var status := lookup.statusCode;
      if status == 0 { status := 404; }
      return Error(status), Some(e.(action := Block, reason := NoticeText(lookup.reason)));
    }
    resp, e := ServeRouted(e, lookup.app.value, Seen(req), http, bodyLimit, limiter, hash, inputs, waf);
    return resp, Some(e);
  }
}

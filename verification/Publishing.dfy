/**
 From a stored draft to a running gateway: the draft and publish transactions, with the
 control plane's validation and compilation put in, followed by the gateway's reading of
 the snapshot of a published version.
 */
module Publishing {
  import opened Common
  import opened Addresses
  import opened Hosts
  import opened Policy
  import opened Decisions
  import opened Conditions
  import opened ControlPlane
  import opened CounterStores
  import opened RateLimiter
  import opened RequestBody
  import opened Gateway
  import opened PolicyLifecycle

  function RowMode(row: PolicyRow<Snapshot>): Mode {
    if row.blockMode then BlockMode else CountMode
  }

  function Compile(origins: string -> OriginUrl): (string, PolicyRow<Snapshot>, string) -> GatewayPolicy {
    (p: string, row: PolicyRow<Snapshot>, v: string) =>
      CompileGatewayPolicy(row.tenantId, row.appId, p, RowMode(row), row.draft, origins(row.appId), v)
  }

  function IsValid(): Snapshot -> bool {
    (draft: Snapshot) => SnapshotValid(draft)
  }

  /** The rules of the control plane; `origins` gives the fixed primary origin of each app. */
  function ControlRules(origins: string -> OriginUrl): Rules<Snapshot, GatewayPolicy> {
    Rules(IsValid(), Compile(origins))
  }

  /** The mode a published version runs in: the draft's if it has one, else that of the policy row. */
  function PublishedMode(row: PolicyRow<Snapshot>): Mode {
    if row.draft.mode.Some? then row.draft.mode.value else RowMode(row)
  }

  /**
   In every reachable state every published snapshot names its own tenant, app, policy and
   version, carries the mode, sets, rules, limits and WAF settings of a draft that passes
   validation, and the gateway accepts it exactly if the draft passes the checks the
   gateway alone makes.
   */
  lemma PublishedSnapshots(origins: string -> OriginUrl, s: State<Snapshot, GatewayPolicy>, p: string, v: string, hostname: string)
    requires Reachable(ControlRules(origins), s) && VersionOf(s.db, v, p)
    requires v != "" && p != ""
    requires p in s.db.policies ==> s.db.policies[p].tenantId != "" && s.db.policies[p].appId != "" && OriginOk(origins(s.db.policies[p].appId))
    ensures p in s.db.policies
    ensures var r, row := s.db.versions[v], s.db.policies[p];
            var draft := r.source.draft;
            && r.snapshot == GatewayPolicy(
                 row.tenantId, row.appId, p, v, if draft.mode.Some? then draft.mode.value else RowMode(r.source),
                 origins(row.appId), draft.ipSets, draft.customRules, draft.rateLimits, draft.waf)
            && SnapshotValid(draft)
            && (ToApp(r.snapshot, hostname).Ok? <==> GatewayOnlyChecks(draft))
  {
    var rules := ControlRules(origins);
    ReachableInv(rules, s);
    assert VersionOk(rules, s.db, v);
    StoredPoliciesAreValid(rules, s, p);
    var r := s.db.versions[v];
    var row := r.source;
    GatewayAcceptsValidated(row.draft, row.tenantId, row.appId, p, RowMode(row), origins(row.appId), v, hostname);
  }

  /**
   The policy the control plane hands out for an app is therefore one its gateway takes,
   under the same condition, and the app the gateway makes of it is that policy: its
   identifiers, mode and origin, the host name as normalised, and no default block.
   */
  lemma ActivePolicyReachesGateway(
    origins: string -> OriginUrl, s: State<Snapshot, GatewayPolicy>, tenantId: string, appId: string, p: string, hostname: string)
    requires Reachable(ControlRules(origins), s) && Active(s.db, tenantId, appId, p)
    requires tenantId != "" && appId != "" && p != "" && s.db.deployments[p].versionId != "" && OriginOk(origins(appId))
    ensures var r := s.db.versions[s.db.deployments[p].versionId];
            && r.snapshot.tenantId == tenantId && r.snapshot.appId == appId
            && (ToApp(r.snapshot, hostname).Ok? <==> GatewayOnlyChecks(r.source.draft))
            && (ToApp(r.snapshot, hostname).Ok? ==>
                  var app := ToApp(r.snapshot, hostname).value;
                  && app.tenantId == tenantId && app.id == appId && app.policyId == p && app.policyVersion == s.db.deployments[p].versionId
                  && app.mode == (if r.source.draft.mode.Some? then r.source.draft.mode.value else RowMode(r.source))
                  && app.origin == origins(appId) && app.hostnames == [NormalizeHost(hostname)] && app.defaultAction == Allow)
  {
    ActivePolicyIsUnique(ControlRules(origins), s, tenantId, appId, p);
    PublishedSnapshots(origins, s, p, s.db.deployments[p].versionId, hostname);
  }

  /** The gateway runs version `v` of policy `p`, published in a reachable state, as `app`. */
  ghost predicate RunsVersion(
    origins: string -> OriginUrl, s: State<Snapshot, GatewayPolicy>, p: string, v: string, hostname: string, app: App)
  {
    Reachable(ControlRules(origins), s) && VersionOf(s.db, v, p) && ToApp(s.db.versions[v].snapshot, hostname) == Ok(app)
  }

  /** Such an app is the one compiled from the published draft. */
  lemma RunsDraft(origins: string -> OriginUrl, s: State<Snapshot, GatewayPolicy>, p: string, v: string, hostname: string, app: App)
    returns (cfg: AppConfig)
    requires RunsVersion(origins, s, p, v, hostname, app)
    ensures AppOf(app, cfg) && KeepsSettings(app, cfg)
    ensures var source := s.db.versions[v].source;
            && cfg.mode == PublishedMode(source) && cfg.defaultAction == Allow && cfg.ipBlocklist == [] && cfg.ipAllowlist == []
            && cfg.ipSets == source.draft.ipSets && cfg.customRules == source.draft.customRules && cfg.rateLimits == source.draft.rateLimits
  {
    ReachableInv(ControlRules(origins), s);
    assert VersionOk(ControlRules(origins), s.db, v);
    cfg := ToAppConfig(s.db.versions[v].snapshot, hostname);
    ToAppKeeps(s.db.versions[v].snapshot, hostname);
  }

  /**
   End to end: a custom rule of the draft a version was published from is among the rules
   of the gateway's app, and matches a request there exactly when the condition, as the
   draft states it, holds of the request.
   */
  lemma PublishedRuleMeaning(
    origins: string -> OriginUrl, s: State<Snapshot, GatewayPolicy>, p: string, v: string, hostname: string, app: App,
    rule: CustomRule, e: Expr, ctx: RequestContext)
    requires RunsVersion(origins, s, p, v, hostname, app)
    requires rule in s.db.versions[v].source.draft.customRules && Reads(rule.condition, e)
    ensures var draft := s.db.versions[v].source.draft;
            var compiled := CompileCustom(draft.ipSets.Keys)(rule);
            compiled in app.customRules && Match(compiled.condition, ctx, app.ipSets) == Holds(e, ctx, draft.ipSets)
  {
    var cfg := RunsDraft(origins, s, p, v, hostname, app);
    AcceptedRuleMeaning(cfg, rule, e, ctx);
  }

  /** A rate limit of the running app counts exactly the requests the drafted limit is for, with its figures. */
  lemma PublishedLimitCounts(
    origins: string -> OriginUrl, s: State<Snapshot, GatewayPolicy>, p: string, v: string, hostname: string, app: App,
    r: RateLimitRule, rule: RateLimitConfig, e: Expr, req: RateRequest)
    requires RunsVersion(origins, s, p, v, hostname, app)
    requires r in app.rateLimits && rule in s.db.versions[v].source.draft.rateLimits && r.id == rule.id
    requires rule.condition != NO_CONDITION ==> Reads(rule.condition, e)
    ensures SameFigures(r, rule)
    ensures Subject(app, r, req) <==>
            rule.enabled && (rule.condition != NO_CONDITION ==> Holds(e, req.ctx, s.db.versions[v].source.draft.ipSets))
  {
    var cfg := RunsDraft(origins, s, p, v, hostname, app);
    AcceptedLimitCounts(cfg, app, r, rule, e, req);
  }

  /** What the custom rules of the running app decide is read off the published draft alone. */
  lemma PublishedVerdict(
    origins: string -> OriginUrl, s: State<Snapshot, GatewayPolicy>, p: string, v: string, hostname: string, app: App,
    ctx: RequestContext)
    returns (decisive: Option<CustomRule>, counted: Option<CustomRule>)
    requires RunsVersion(origins, s, p, v, hostname, app)
    ensures var draft := s.db.versions[v].source.draft;
            && LeastRule(draft.customRules, Deciding(ctx, draft.ipSets), decisive)
            && LeastRule(draft.customRules, Tallying(ctx, draft.ipSets), counted)
    ensures VerdictOf(CustomVerdict(app.customRules, ctx, app.ipSets), decisive, counted)
  {
    var cfg := RunsDraft(origins, s, p, v, hostname, app);
    decisive, counted := AcceptedVerdict(cfg, ctx);
  }

  /**
   What a request is answered with under a draft. `early` says that a rate limit or the body
   limit stops it. It is denied exactly if the mode is block and it is stopped early, by the
   decisive drafted rule being a block rule, or by the WAF; a decisive block rule answers
   with its own status.
   */
  ghost predicate DraftAnswer(
    mode: Mode, early: bool, decisive: Option<CustomRule>, waf: WafOutcome, resp: Response, event: Event)
  {
    var blocked := decisive.Some? && decisive.value.action == Block;
    if waf == WafError && !early && !blocked then resp == Error(400)
    else
      && (resp == FromOrigin <==> !(mode == BlockMode && (early || blocked || (waf.WafDecision? && waf.d.WouldBlock()))))
      && (resp != FromOrigin ==> resp.Error? && event.enforced)
      && (mode == BlockMode && !early && blocked ==>
            && resp == Error(if decisive.value.statusCode == 0 then 403 else decisive.value.statusCode)
            && event.matchedRuleId == decisive.value.id)
  }

  /** End to end: the answer to a request with a readable body, read off the published draft. */
  lemma PublishedOutcome(
    origins: string -> OriginUrl, s: State<Snapshot, GatewayPolicy>, p: string, v: string, hostname: string, app: App,
    req: RateRequest, hash: string -> string, inputs: seq<RateInput>, store: Store, failClosed: bool, body: Body, bodyLimit: int,
    waf: WafOutcome, resp: Response, event: Event)
    returns (decisive: Option<CustomRule>)
    requires RunsVersion(origins, s, p, v, hostname, app) && |inputs| == |app.rateLimits| && !Unreadable(body, bodyLimit)
    requires Outcome(app, req, hash, inputs, store, failClosed, body, bodyLimit, waf, resp, event)
    ensures LeastRule(s.db.versions[v].source.draft.customRules, Deciding(req.ctx, s.db.versions[v].source.draft.ipSets), decisive)
    ensures var rate := RateVerdict(Checker(app, req, hash, failClosed), app.rateLimits, inputs, store).0;
            DraftAnswer(PublishedMode(s.db.versions[v].source), rate.WouldBlock() || Exceeds(body, bodyLimit), decisive, waf, resp, event)
  {
    var cfg := RunsDraft(origins, s, p, v, hostname, app);
    var counted;
    decisive, counted := PublishedVerdict(origins, s, p, v, hostname, app, req.ctx);
    LeastHolds(cfg.customRules, Deciding(req.ctx, cfg.ipSets), decisive);
    LeastHolds(cfg.customRules, Tallying(req.ctx, cfg.ipSets), counted);
    CustomStageBlocks(app, req.ctx, decisive, counted);
    NoIpLists(cfg, app, req.ctx.clientIp);
    DraftOutcome(app, req, hash, inputs, store, failClosed, body, bodyLimit, waf, resp, event, decisive);
  }

  /** The custom rules stop a request if `decisive` is a block rule, with its status and name. */
  ghost predicate StageBlocks(d: Decision, decisive: Option<CustomRule>) {
    && (d.WouldBlock() <==> decisive.Some? && decisive.value.action == Block)
    && (d.WouldBlock() ==> d.statusCode == decisive.value.statusCode && d.matchedRuleId == decisive.value.id)
  }

  lemma CustomStageBlocks(app: App, ctx: RequestContext, decisive: Option<CustomRule>, counted: Option<CustomRule>)
    requires VerdictOf(CustomVerdict(app.customRules, ctx, app.ipSets), decisive, counted)
    requires decisive.Some? ==> decisive.value.action == Block || decisive.value.action == Allow
    requires counted.Some? ==> counted.value.action == Count
    ensures StageBlocks(CustomStage(app, ctx), decisive)
  {
  }

  /** The stages of an app without IP lists and default block. */
  lemma DraftOutcome(
    app: App, req: RateRequest, hash: string -> string, inputs: seq<RateInput>, store: Store, failClosed: bool, body: Body,
    bodyLimit: int, waf: WafOutcome, resp: Response, event: Event, decisive: Option<CustomRule>)
    requires |inputs| == |app.rateLimits| && !Unreadable(body, bodyLimit) && app.defaultAction == Allow
    requires EvaluateIp(app, req.ctx.clientIp).action == Allow && StageBlocks(CustomStage(app, req.ctx), decisive)
    requires Outcome(app, req, hash, inputs, store, failClosed, body, bodyLimit, waf, resp, event)
    ensures var rate := RateVerdict(Checker(app, req, hash, failClosed), app.rateLimits, inputs, store).0;
            DraftAnswer(app.mode, rate.WouldBlock() || Exceeds(body, bodyLimit), decisive, waf, resp, event)
  {
    FinalByStages(StagesOf(app, req, hash, inputs, store, failClosed, Exceeds(body, bodyLimit), waf), app.defaultAction);
  }

  lemma NoIpLists(cfg: AppConfig, app: App, ip: Addr)
    requires AppOf(app, cfg) && cfg.ipBlocklist == [] && cfg.ipAllowlist == []
    ensures EvaluateIp(app, ip).action == Allow
  {
    IpVerdict(cfg, ip);
  }
}

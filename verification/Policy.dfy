/**
 The gateway's policy: compiling a configured app, evaluating its IP lists and custom
 rules, and the host index (services/gateway/internal/policy/store.go).
 */
module Policy {
  import opened Common
  import opened Text
  import opened Addresses
  import opened Hosts
  import opened Decisions
  import opened Conditions
  import opened Sorting
  import opened HostIndex

  datatype CustomRule = CustomRule(
    id: string,
    name: string,
    priority: int,
    enabled: bool,
    action: Action,
    statusCode: int,
    terminalAllow: bool,
    condition: Condition)

  datatype KeyType = ByIp | ByHost | ByPath | ByHeader | ByApiKey | OtherKey(name: string)

  datatype RateLimitConfig = RateLimitConfig(
    id: string,
    name: string,
    enabled: bool,
    priority: int,
    condition: Condition,
    keyType: KeyType,
    keyHeader: string,
    limit: int,
    windowSeconds: int,
    action: Action,
    statusCode: int)

  datatype RateLimitRule = RateLimitRule(
    id: string,
    name: string,
    enabled: bool,
    priority: int,
    condition: Option<Condition>,
    keyType: KeyType,
    keyHeader: string,
    limit: int,
    windowSeconds: int,
    action: Action,
    statusCode: int)

  /** What `url.Parse` makes of an origin text. */
  datatype OriginUrl = OriginUrl(parses: bool, scheme: string, host: string)

  datatype AppConfig = AppConfig(
    id: string,
    tenantId: string,
    hostnames: seq<string>,
    origin: OriginUrl,
    mode: Mode,
    defaultAction: Action,
    ipBlocklist: seq<CidrText>,
    ipAllowlist: seq<CidrText>,
    ipSets: map<string, seq<CidrText>>,
    rateLimits: seq<RateLimitConfig>,
    customRules: seq<CustomRule>)

  datatype App = App(
    id: string,
    tenantId: string,
    policyId: string,
    policyVersion: string,
    hostnames: seq<string>,
    origin: OriginUrl,
    mode: Mode,
    defaultAction: Action,
    ipBlocklist: seq<Prefix>,
    ipAllowlist: seq<Prefix>,
    ipSets: map<string, seq<Prefix>>,
    rateLimits: seq<RateLimitRule>,
    customRules: seq<CustomRule>)

  // ---------------------------------------------------------------- custom rules: parsing

  predicate InRange(statusCode: int) {
    0 <= statusCode <= 999
  }

  predicate CustomRuleOk(r: CustomRule, names: set<string>) {
    && TrimSpace(r.id) != "" && r.name != ""
    && (r.action == Allow || r.action == Count || r.action == Block)
    && InRange(r.statusCode) && ParseCondition(r.condition, names).Ok?
  }

  /** No two positions of a list share an identifier: the `seen` map finds no clash. */
  predicate Distinct(ids: seq<string>) {
    forall i, j :: 0 <= i < j < |ids| ==> ids[i] != ids[j]
  }

  /** The identifiers of the values, as the `seen` map collects them. */
  function SeenIds<T>(values: seq<T>, id: T -> string): set<string> {
    set x | x in Map(values, id)
  }

  function CustomId(): CustomRule -> string { (r: CustomRule) => r.id }

  function CustomPriority(): CustomRule -> int { (r: CustomRule) => r.priority }

  function Compiled(c: Condition, names: set<string>): Condition {
    if ParseCondition(c, names).Ok? then ParseCondition(c, names).value else c
  }

  function CompileCustom(names: set<string>): CustomRule -> CustomRule {
    (r: CustomRule) => r.(condition := Compiled(r.condition, names))
  }

  predicate CustomRulesOk(values: seq<CustomRule>, names: set<string>) {
    (forall r :: r in values ==> CustomRuleOk(r, names)) && Distinct(Map(values, CustomId()))
  }

  function SortedCustomRules(values: seq<CustomRule>, names: set<string>): seq<CustomRule> {
    StableSort(Map(values, CompileCustom(names)), CustomPriority())
  }

  lemma DistinctSnoc(ids: seq<string>, id: string)
    ensures Distinct(ids + [id]) <==> Distinct(ids) && id !in ids
  {
    var all := ids + [id];
    assert all[|ids|] == id && forall i :: 0 <= i < |ids| ==> all[i] == ids[i];
    if Distinct(all) {
      forall i, j | 0 <= i < j < |ids| ensures ids[i] != ids[j] {
        assert all[i] != all[j];
      }
      assert forall i :: 0 <= i < |ids| ==> all[i] != all[|ids|];
    }
  }

  /** `parseCustomRules`. */
  method ParseCustomRules(values: seq<CustomRule>, names: set<string>) returns (r: Result<seq<CustomRule>>)
    ensures r.Ok? <==> CustomRulesOk(values, names)
    ensures r.Ok? ==> r.value == SortedCustomRules(values, names)
  {
    var rules: seq<CustomRule> := [];
    var seen: set<string> := {};
    for n := 0 to |values|
      invariant rules == Map(values[..n], CompileCustom(names))
      invariant seen == SeenIds(values[..n], CustomId())
      invariant CustomRulesOk(values[..n], names)
    {
      var value := values[n];
      CustomStep(values, names, n);
      if TrimSpace(value.id) == "" { return Err; }
      if value.id in seen { return Err; }
      seen := seen + {value.id};
      if value.name == "" { return Err; }
      if value.action != Allow && value.action != Count && value.action != Block { return Err; }
      if value.statusCode < 0 || value.statusCode > 999 { return Err; }
      var condition := ParseCondition(value.condition, names);
      if condition.Err? { return Err; }
      rules := rules + [value.(condition := condition.value)];
    }
    assert values[..|values|] == values;
    return Ok(StableSort(rules, CustomPriority()));
  }

  lemma CustomStep(values: seq<CustomRule>, names: set<string>, n: nat)
    requires n < |values|
    ensures CustomRulesOk(values[..n + 1], names) <==>
            CustomRulesOk(values[..n], names) && CustomRuleOk(values[n], names)
            && values[n].id !in SeenIds(values[..n], CustomId())
    ensures SeenIds(values[..n + 1], CustomId()) == SeenIds(values[..n], CustomId()) + {values[n].id}
    ensures CustomRulesOk(values, names) ==> CustomRulesOk(values[..n + 1], names)
    ensures Map(values[..n + 1], CompileCustom(names)) ==
            Map(values[..n], CompileCustom(names)) + [CompileCustom(names)(values[n])]
  {
    var ids := Map(values[..n], CustomId());
    assert values[..n + 1] == values[..n] + [values[n]];
    assert Map(values[..n + 1], CustomId()) == ids + [values[n].id];
    DistinctSnoc(ids, values[n].id);
    assert Map(values[..n + 1], CustomId()) == Map(values, CustomId())[..n + 1];
  }

  // ---------------------------------------------------------------- custom rules: evaluation

  function MatchesRule(ctx: RequestContext, sets: map<string, seq<Prefix>>): CustomRule -> bool {
    (r: CustomRule) => Match(r.condition, ctx, sets)
  }

  /** A rule that ends the evaluation: an enabled block, or an allow marked terminal, whose condition holds. */
  function DecisiveBy(holds: CustomRule -> bool): CustomRule -> bool {
    (r: CustomRule) => r.enabled && holds(r) && (r.action == Block || (r.action == Allow && r.terminalAllow))
  }

  function CountingBy(holds: CustomRule -> bool): CustomRule -> bool {
    (r: CustomRule) => r.enabled && holds(r) && r.action == Count
  }

  function Decisive(ctx: RequestContext, sets: map<string, seq<Prefix>>): CustomRule -> bool {
    DecisiveBy(MatchesRule(ctx, sets))
  }

  function Counting(ctx: RequestContext, sets: map<string, seq<Prefix>>): CustomRule -> bool {
    CountingBy(MatchesRule(ctx, sets))
  }

  const TERMINAL_ALLOW := "custom_rule_allow"

  function CustomBlock(r: CustomRule): Decision {
    Decision(Block, "custom_rule", r.id, r.name, "custom", ["custom_rule"], 0, r.statusCode, None)
  }

  function CustomCount(r: CustomRule): Decision {
    Decision(Count, "custom_rule", r.id, r.name, "custom", ["custom_rule"], 0, 0, None)
  }

  function CustomAllow(r: CustomRule): Decision {
    Decision(Allow, TERMINAL_ALLOW, r.id, r.name, "custom", ["custom_rule", "terminal_allow"], 0, 0, None)
  }

  function CustomDecision(decisive: Option<CustomRule>, counted: Option<CustomRule>): Decision {
    if decisive.Some? then
      if decisive.value.action == Block then CustomBlock(decisive.value) else CustomAllow(decisive.value)
    else if counted.Some? then CustomCount(counted.value)
    else AllowDecision()
  }

  function CustomVerdict(rules: seq<CustomRule>, ctx: RequestContext, sets: map<string, seq<Prefix>>): Decision {
    CustomDecision(FirstMatch(rules, Decisive(ctx, sets)), FirstMatch(rules, Counting(ctx, sets)))
  }

  /** `EvaluateCustomRules`, over the app's rules in their compiled order. */
  method EvaluateCustomRules(rules: seq<CustomRule>, ctx: RequestContext, sets: map<string, seq<Prefix>>) returns (d: Decision)
    ensures d == CustomVerdict(rules, ctx, sets)
  {
    d := EvaluateRules(rules, MatchesRule(ctx, sets));
  }

  /** Its loop, for any test of a rule's condition. */
  method EvaluateRules(rules: seq<CustomRule>, holds: CustomRule -> bool) returns (d: Decision)
    ensures d == CustomDecision(FirstMatch(rules, DecisiveBy(holds)), FirstMatch(rules, CountingBy(holds)))
  {
    var firstCount: Option<CustomRule> := None;
    for n := 0 to |rules|
      invariant firstCount == FirstMatch(rules[..n], CountingBy(holds))
      invariant FirstMatch(rules[..n], DecisiveBy(holds)).None?
    {
      var rule := rules[n];
      ScanRule(rules, n, holds);
      if !rule.enabled { continue; }
      if !holds(rule) { continue; }
      match rule.action {
        case Block => return CustomBlock(rule);
        case Count =>
          if firstCount.None? { firstCount := Some(rule); }
        case Allow =>
          if rule.terminalAllow { return CustomAllow(rule); }
        case _ =>
      }
    }
    assert rules[..|rules|] == rules;
    return if firstCount.Some? then CustomCount(firstCount.value) else AllowDecision();
  }

  lemma ScanRule(rules: seq<CustomRule>, n: nat, holds: CustomRule -> bool)
    requires n < |rules| && FirstMatch(rules[..n], DecisiveBy(holds)).None?
    ensures var rule, applies := rules[n], rules[n].enabled && holds(rules[n]);
            && FirstMatch(rules[..n + 1], CountingBy(holds)) ==
               (if FirstMatch(rules[..n], CountingBy(holds)).None? && applies && rule.action == Count then Some(rule)
                else FirstMatch(rules[..n], CountingBy(holds)))
            && (if applies && (rule.action == Block || (rule.action == Allow && rule.terminalAllow))
                then FirstMatch(rules, DecisiveBy(holds)) == Some(rule)
                else FirstMatch(rules[..n + 1], DecisiveBy(holds)).None?)
  {
    FirstMatchUpTo(rules, n, CountingBy(holds));
    FirstMatchUpTo(rules, n, DecisiveBy(holds));
  }

  /** One more element of a scan: it is the answer if it matches and none before it did. */
  lemma FirstMatchUpTo<T>(s: seq<T>, n: nat, p: T -> bool)
    requires n < |s|
    ensures FirstMatch(s[..n + 1], p) ==
            if FirstMatch(s[..n], p).Some? then FirstMatch(s[..n], p) else if p(s[n]) then Some(s[n]) else None
    ensures FirstMatch(s[..n], p).None? && p(s[n]) ==> FirstMatch(s, p) == Some(s[n])
  {
    assert s[..n + 1] == s[..n] + [s[n]];
    FirstMatchSnoc(s[..n], s[n], p);
    FirstMatchPrefix(s, n + 1, p);
  }

  lemma {:induction false} FirstMatchPrefix<T>(s: seq<T>, n: nat, p: T -> bool)
    requires n <= |s|
    ensures FirstMatch(s[..n], p).Some? ==> FirstMatch(s, p) == FirstMatch(s[..n], p)
  {
    if n > 0 {
      assert s[..n][1..] == s[1..][..n - 1];
      FirstMatchPrefix(s[1..], n - 1, p);
    }
  }

  /** The rule at position `i` satisfies `p`, and no other has a smaller priority, or the same one and comes earlier. */
  ghost predicate LeastAt(values: seq<CustomRule>, p: CustomRule -> bool, i: int) {
    && 0 <= i < |values| && p(values[i])
    && forall j :: 0 <= j < |values| && p(values[j]) ==>
         values[i].priority < values[j].priority || (values[i].priority == values[j].priority && i <= j)
  }

  /** The rule of least priority number, and of those the first configured, among the rules satisfying `p`, if any. */
  ghost predicate LeastRule(values: seq<CustomRule>, p: CustomRule -> bool, r: Option<CustomRule>) {
    match r
    case None => forall v :: v in values ==> !p(v)
    case Some(v) => exists i :: LeastAt(values, p, i) && v == values[i]
  }

  lemma LeastByPriority(values: seq<CustomRule>, p: CustomRule -> bool, i: int)
    requires IsLeast(values, CustomPriority(), p, i)
    ensures LeastAt(values, p, i)
  {
    assert forall j :: 0 <= j < |values| ==> CustomPriority()(values[j]) == values[j].priority;
  }

  /**
   Evaluation in compiled order is a choice by (priority, position in the
   configuration): the least block or terminal-allow rule that applies, else the least
   count rule, else allow.
   */
  lemma CustomRulesByPriority(values: seq<CustomRule>, ctx: RequestContext, sets: map<string, seq<Prefix>>)
    returns (decisive: Option<CustomRule>, counted: Option<CustomRule>)
    ensures LeastRule(values, Decisive(ctx, sets), decisive) && LeastRule(values, Counting(ctx, sets), counted)
    ensures CustomVerdict(StableSort(values, CustomPriority()), ctx, sets) == CustomDecision(decisive, counted)
  {
    decisive := LeastAfterSort(values, Decisive(ctx, sets));
    counted := LeastAfterSort(values, Counting(ctx, sets));
  }

  lemma LeastAfterSort(values: seq<CustomRule>, p: CustomRule -> bool) returns (r: Option<CustomRule>)
    ensures LeastRule(values, p, r) && r == FirstMatch(StableSort(values, CustomPriority()), p)
  {
    r := FirstMatch(StableSort(values, CustomPriority()), p);
    var i := FirstMatchAfterSort(values, CustomPriority(), p);
    if r.Some? { LeastByPriority(values, p, i); }
  }

  /**
   With distinct priorities, reordering the configuration changes neither whether it is
   accepted nor the compiled rules, hence no decision.
   */
  lemma CustomRulesOrderIrrelevant(a: seq<CustomRule>, b: seq<CustomRule>, names: set<string>)
    requires multiset(a) == multiset(b)
    requires forall i, j :: 0 <= i < j < |a| ==> a[i].priority != a[j].priority
    ensures CustomRulesOk(a, names) <==> CustomRulesOk(b, names)
    ensures SortedCustomRules(a, names) == SortedCustomRules(b, names)
  {
    CustomRulesOkReordered(a, b, names);
    CustomRulesOkReordered(b, a, names);
    StableSortOfPermutation(a, b, CustomPriority());
    StableSortMap(a, CustomPriority(), CompileCustom(names), CustomPriority());
    StableSortMap(b, CustomPriority(), CompileCustom(names), CustomPriority());
  }

  lemma CustomRulesOkReordered(a: seq<CustomRule>, b: seq<CustomRule>, names: set<string>)
    requires multiset(a) == multiset(b)
    ensures CustomRulesOk(a, names) ==> CustomRulesOk(b, names)
  {
    if CustomRulesOk(a, names) {
      forall r | r in b ensures CustomRuleOk(r, names) {
        assert r in multiset(b);
      }
      forall i, j | 0 <= i < j < |a| ensures CustomId()(a[i]) != CustomId()(a[j]) {
        assert Map(a, CustomId())[i] != Map(a, CustomId())[j];
      }
      DistinctKeys(a, b, CustomId());
    }
  }

  // ---------------------------------------------------------------- rate limit rules: parsing

  predicate RateLimitOk(r: RateLimitConfig, names: set<string>) {
    && TrimSpace(r.id) != "" && r.name != "" && r.limit > 0 && r.windowSeconds > 0
    && (r.action == Count || r.action == Block)
    && !r.keyType.OtherKey? && (r.keyType == ByHeader ==> r.keyHeader != "")
    && InRange(r.statusCode)
    && (HasCondition(r.condition) ==> ParseCondition(r.condition, names).Ok?)
  }

  function RateLimitId(): RateLimitConfig -> string { (r: RateLimitConfig) => r.id }

  function RatePriority(): RateLimitRule -> int { (r: RateLimitRule) => r.priority }

  function CompileRateLimit(names: set<string>): RateLimitConfig -> RateLimitRule {
    (r: RateLimitConfig) =>
      RateLimitRule(r.id, r.name, r.enabled, r.priority,
                    if HasCondition(r.condition) then Some(Compiled(r.condition, names)) else None,
                    r.keyType, CanonicalHeaderName(r.keyHeader), r.limit, r.windowSeconds, r.action, r.statusCode)
  }

  predicate RateLimitsOk(values: seq<RateLimitConfig>, names: set<string>) {
    (forall r :: r in values ==> RateLimitOk(r, names)) && Distinct(Map(values, RateLimitId()))
  }

  function SortedRateLimits(values: seq<RateLimitConfig>, names: set<string>): seq<RateLimitRule> {
    StableSort(Map(values, CompileRateLimit(names)), RatePriority())
  }

  /** `parseRateLimitRules`. */
  method ParseRateLimitRules(values: seq<RateLimitConfig>, names: set<string>) returns (r: Result<seq<RateLimitRule>>)
    ensures r.Ok? <==> RateLimitsOk(values, names)
    ensures r.Ok? ==> r.value == SortedRateLimits(values, names)
  {
    var rules: seq<RateLimitRule> := [];
    var seen: set<string> := {};
    for n := 0 to |values|
      invariant rules == Map(values[..n], CompileRateLimit(names))
      invariant seen == SeenIds(values[..n], RateLimitId())
      invariant RateLimitsOk(values[..n], names)
    {
      var value := values[n];
      RateStep(values, names, n);
      if value.id in seen { return Err; }
      seen := seen + {value.id};
      var rule := ParseRateLimitRule(value, names);
      if rule.Err? { return Err; }
      rules := rules + [rule.value];
    }
    assert values[..|values|] == values;
    return Ok(StableSort(rules, RatePriority()));
  }

  /** The body of that loop, but for the check that the identifier is new. */
  method ParseRateLimitRule(value: RateLimitConfig, names: set<string>) returns (r: Result<RateLimitRule>)
    ensures r.Ok? <==> RateLimitOk(value, names)
    ensures r.Ok? ==> r.value == CompileRateLimit(names)(value)
  {
    if TrimSpace(value.id) == "" { return Err; }
    if value.name == "" || value.limit <= 0 || value.windowSeconds <= 0 { return Err; }
    if value.action != Count && value.action != Block { return Err; }
    if value.keyType.OtherKey? { return Err; }
    if value.keyType == ByHeader && value.keyHeader == "" { return Err; }
    if value.statusCode < 0 || value.statusCode > 999 { return Err; }
    var condition: Option<Condition> := None;
    if HasCondition(value.condition) {
      var parsed := ParseCondition(value.condition, names);
      if parsed.Err? { return Err; }
      condition := Some(parsed.value);
    }
    return Ok(RateLimitRule(value.id, value.name, value.enabled, value.priority, condition, value.keyType,
                            CanonicalHeaderName(value.keyHeader), value.limit, value.windowSeconds,
                            value.action, value.statusCode));
  }

  lemma RateStep(values: seq<RateLimitConfig>, names: set<string>, n: nat)
    requires n < |values|
    ensures RateLimitsOk(values[..n + 1], names) <==>
            RateLimitsOk(values[..n], names) && RateLimitOk(values[n], names)
            && values[n].id !in SeenIds(values[..n], RateLimitId())
    ensures SeenIds(values[..n + 1], RateLimitId()) == SeenIds(values[..n], RateLimitId()) + {values[n].id}
    ensures RateLimitsOk(values, names) ==> RateLimitsOk(values[..n + 1], names)
    ensures Map(values[..n + 1], CompileRateLimit(names)) ==
            Map(values[..n], CompileRateLimit(names)) + [CompileRateLimit(names)(values[n])]
  {
    var ids := Map(values[..n], RateLimitId());
    assert values[..n + 1] == values[..n] + [values[n]];
    assert Map(values[..n + 1], RateLimitId()) == ids + [values[n].id];
    DistinctSnoc(ids, values[n].id);
    assert Map(values[..n + 1], RateLimitId()) == Map(values, RateLimitId())[..n + 1];
  }

  // ---------------------------------------------------------------- IP lists and apps

  predicate IpSetsOk(sets: map<string, seq<CidrText>>) {
    forall n :: n in sets ==> TrimSpace(n) != "" && ParsePrefixes(sets[n]).Ok?
  }

  /** `parseIPSets`: the names come in map order, so an arbitrary one is taken each time. */
  method ParseIpSets(values: map<string, seq<CidrText>>) returns (r: Result<map<string, seq<Prefix>>>)
    ensures r.Ok? <==> IpSetsOk(values)
    ensures r.Ok? ==> SetsCompiled(values, r.value)
  {
    var sets: map<string, seq<Prefix>> := map[];
    var left := values.Keys;
    while left != {}
      invariant left <= values.Keys && sets.Keys == values.Keys - left
      invariant forall n :: n in sets ==> TrimSpace(n) != "" && ParsePrefixes(values[n]) == Ok(sets[n])
    {
      var n :| n in left;
      left := left - {n};
      if TrimSpace(n) == "" { return Err; }
      var prefixes := ParsePrefixes(values[n]);
      if prefixes.Err? { return Err; }
      sets := sets[n := prefixes.value];
    }
    return Ok(sets);
  }

  predicate OriginOk(o: OriginUrl) {
    o.parses && o.scheme != "" && o.host != ""
  }

  predicate AppOk(cfg: AppConfig) {
    && OriginOk(cfg.origin)
    && ParsePrefixes(cfg.ipBlocklist).Ok? && ParsePrefixes(cfg.ipAllowlist).Ok? && IpSetsOk(cfg.ipSets)
    && CustomRulesOk(cfg.customRules, cfg.ipSets.Keys) && RateLimitsOk(cfg.rateLimits, cfg.ipSets.Keys)
  }

  function CompileSets(sets: map<string, seq<CidrText>>): map<string, seq<Prefix>> {
    map n | n in sets :: if ParsePrefixes(sets[n]).Ok? then ParsePrefixes(sets[n]).value else []
  }

  function CompileList(values: seq<CidrText>): seq<Prefix> {
    if ParsePrefixes(values).Ok? then ParsePrefixes(values).value else []
  }

  /** The app an accepted configuration compiles to. */
  function CompileApp(cfg: AppConfig): App {
    App(cfg.id, if cfg.tenantId == "" then "default" else cfg.tenantId, "", "", cfg.hostnames, cfg.origin,
        cfg.mode, cfg.defaultAction, CompileList(cfg.ipBlocklist), CompileList(cfg.ipAllowlist),
        CompileSets(cfg.ipSets), SortedRateLimits(cfg.rateLimits, cfg.ipSets.Keys),
        SortedCustomRules(cfg.customRules, cfg.ipSets.Keys))
  }

  /** What an app takes over from its configuration as it stands. */
  ghost predicate KeepsSettings(app: App, cfg: AppConfig) {
    && app.id == cfg.id && app.tenantId == (if cfg.tenantId == "" then "default" else cfg.tenantId)
    && app.hostnames == cfg.hostnames && app.origin == cfg.origin
    && app.mode == cfg.mode && app.defaultAction == cfg.defaultAction
    && app.ipSets.Keys == cfg.ipSets.Keys
  }

  /** The app runs this configuration; a policy fetched from the control plane adds its own identifiers. */
  ghost predicate AppOf(app: App, cfg: AppConfig) {
    AppOk(cfg) && app == CompileApp(cfg).(policyId := app.policyId, policyVersion := app.policyVersion)
  }

  /** `newApp`. */
  method NewApp(cfg: AppConfig) returns (r: Result<App>)
    ensures r.Ok? <==> AppOk(cfg)
    ensures r.Ok? ==> r.value == CompileApp(cfg) && KeepsSettings(r.value, cfg)
  {
    if !cfg.origin.parses { return Err; }
    if cfg.origin.scheme == "" || cfg.origin.host == "" { return Err; }
    var blocklist := ParsePrefixes(cfg.ipBlocklist);
    if blocklist.Err? { return Err; }
    var allowlist := ParsePrefixes(cfg.ipAllowlist);
    if allowlist.Err? { return Err; }
    var ipSets := ParseIpSets(cfg.ipSets);
    if ipSets.Err? { return Err; }
    assert ipSets.value == CompileSets(cfg.ipSets);
    var customRules := ParseCustomRules(cfg.customRules, ipSets.value.Keys);
    if customRules.Err? { return Err; }
    var tenantId := if cfg.tenantId == "" then "default" else cfg.tenantId;
    var rateLimits := ParseRateLimitRules(cfg.rateLimits, ipSets.value.Keys);
    if rateLimits.Err? { return Err; }
    return Ok(App(cfg.id, tenantId, "", "", cfg.hostnames, cfg.origin, cfg.mode, cfg.defaultAction,
                  blocklist.value, allowlist.value, ipSets.value, rateLimits.value, customRules.value));
  }

  /** `EvaluateIP`: the blocklist first, then a non-empty allowlist. */
  function EvaluateIp(app: App, ip: Addr): Decision {
    if InAny(app.ipBlocklist, ip) then BlockDecision("ip_blocklist", "ip_blocklist")
    else if app.ipAllowlist != [] && !InAny(app.ipAllowlist, ip) then BlockDecision("ip_allowlist", "ip_allowlist")
    else AllowDecision()
  }

  /** The address lies in one of the configured prefixes. */
  ghost predicate Listed(values: seq<CidrText>, ip: Addr) {
    exists t :: t in values && t.inner.Some? && Covers(t.inner.value, ip)
  }

  lemma CompiledList(values: seq<CidrText>, ip: Addr)
    requires ParsePrefixes(values).Ok?
    ensures |CompileList(values)| == |values| && (InAny(CompileList(values), ip) <==> Listed(values, ip))
  {
    var ps := CompileList(values);
    assert forall i :: 0 <= i < |values| ==> values[i] in values && values[i].inner.Some? && ps[i] == Masked(values[i].inner.value);
    MaskedMembers(values, ps, ip);
  }

  /** An accepted app refuses exactly the addresses on its block list, and those missing from an allow list that is not empty. */
  lemma IpVerdict(cfg: AppConfig, ip: Addr)
    requires AppOk(cfg)
    ensures var d := EvaluateIp(CompileApp(cfg), ip);
            var refused := Listed(cfg.ipBlocklist, ip) || (cfg.ipAllowlist != [] && !Listed(cfg.ipAllowlist, ip));
            if refused then
              d.action == Block && d.statusCode == 403
              && d.reason == if Listed(cfg.ipBlocklist, ip) then "ip_blocklist" else "ip_allowlist"
            else d.action == Allow
  {
    CompiledList(cfg.ipBlocklist, ip);
    CompiledList(cfg.ipAllowlist, ip);
  }

  /** In an accepted app a custom rule matches a request exactly when the condition as configured holds of it. */
  lemma AcceptedRuleMeaning(cfg: AppConfig, rule: CustomRule, e: Expr, ctx: RequestContext)
    requires AppOk(cfg) && rule in cfg.customRules && Reads(rule.condition, e)
    ensures Match(CompileCustom(cfg.ipSets.Keys)(rule).condition, ctx, CompileApp(cfg).ipSets) == Holds(e, ctx, cfg.ipSets)
    ensures CompileCustom(cfg.ipSets.Keys)(rule) in CompileApp(cfg).customRules
  {
    var names := cfg.ipSets.Keys;
    AppSetsCompiled(cfg);
    assert CustomRuleOk(rule, names);
    CompiledMeaning(rule.condition, e, ctx, cfg.ipSets, CompileApp(cfg).ipSets);
    CompiledRuleKept(cfg.customRules, rule, names);
  }

  /** The compiled limit has the figures of the configured one. */
  ghost predicate SameFigures(rule: RateLimitRule, r: RateLimitConfig) {
    && rule.id == r.id && rule.name == r.name && rule.enabled == r.enabled && rule.priority == r.priority
    && rule.limit == r.limit && rule.windowSeconds == r.windowSeconds && rule.action == r.action
    && rule.statusCode == r.statusCode && rule.keyType == r.keyType && rule.keyHeader == CanonicalHeaderName(r.keyHeader)
    && (rule.condition.None? <==> r.condition == NO_CONDITION)
  }

  /** What every limit of an accepted app can be relied on for. */
  ghost predicate SoundLimit(rule: RateLimitRule) {
    && TrimSpace(rule.id) != "" && rule.limit > 0 && rule.windowSeconds > 0
    && (rule.action == Count || rule.action == Block) && 0 <= rule.statusCode <= 999
  }

  /**
   The limits of an accepted app are the configured ones, each once and with its own
   figures, by ascending priority and in configured order among equal priorities.
   */
  lemma LimitsInOrder(cfg: AppConfig) returns (order: seq<int>)
    requires AppOk(cfg)
    ensures |order| == |cfg.rateLimits| == |CompileApp(cfg).rateLimits| && forall i :: i in order <==> 0 <= i < |order|
    ensures forall k :: 0 <= k < |order| ==>
              && 0 <= order[k] < |order| && SameFigures(CompileApp(cfg).rateLimits[k], cfg.rateLimits[order[k]])
              && SoundLimit(CompileApp(cfg).rateLimits[k])
    ensures forall k, l :: 0 <= k < l < |order| ==>
              var a, b := cfg.rateLimits[order[k]], cfg.rateLimits[order[l]];
              a.priority < b.priority || (a.priority == b.priority && order[k] < order[l])
    ensures forall k, l :: 0 <= k < l < |order| ==> CompileApp(cfg).rateLimits[k].id != CompileApp(cfg).rateLimits[l].id
  {
    var compiled := Map(cfg.rateLimits, CompileRateLimit(cfg.ipSets.Keys));
    order := StableOrder(compiled, RatePriority());
    forall k | 0 <= k < |order|
      ensures SameFigures(CompileApp(cfg).rateLimits[k], cfg.rateLimits[order[k]]) && SoundLimit(CompileApp(cfg).rateLimits[k])
    {
      CompiledFigures(cfg.rateLimits[order[k]], cfg.ipSets.Keys);
    }
    LimitIdsDiffer(cfg.rateLimits);
  }

  lemma CompiledFigures(r: RateLimitConfig, names: set<string>)
    requires RateLimitOk(r, names)
    ensures var rule := CompileRateLimit(names)(r); SameFigures(rule, r) && SoundLimit(rule)
  {
  }

  lemma LimitIdsDiffer(values: seq<RateLimitConfig>)
    requires Distinct(Map(values, RateLimitId()))
    ensures forall i, j :: 0 <= i < |values| && 0 <= j < |values| && values[i].id == values[j].id ==> i == j
  {
    forall i, j | 0 <= i < |values| && 0 <= j < |values| && values[i].id == values[j].id ensures i == j {
      assert Map(values, RateLimitId())[i] == Map(values, RateLimitId())[j];
    }
  }

  /** The same for rate limits; one without a condition counts every request. */
  lemma AcceptedLimitMeaning(cfg: AppConfig, rule: RateLimitConfig, e: Expr, ctx: RequestContext)
    requires AppOk(cfg) && rule in cfg.rateLimits && (rule.condition != NO_CONDITION ==> Reads(rule.condition, e))
    ensures var compiled := CompileRateLimit(cfg.ipSets.Keys)(rule);
            && compiled in CompileApp(cfg).rateLimits && SameFigures(compiled, rule)
            && (compiled.condition.Some? ==> Match(compiled.condition.value, ctx, CompileApp(cfg).ipSets) == Holds(e, ctx, cfg.ipSets))
  {
    var names := cfg.ipSets.Keys;
    AppSetsCompiled(cfg);
    assert RateLimitOk(rule, names);
    if HasCondition(rule.condition) {
      CompiledMeaning(rule.condition, e, ctx, cfg.ipSets, CompileApp(cfg).ipSets);
    }
    CompiledLimitKept(cfg.rateLimits, rule, names);
  }

  /** A limit of an accepted app comes from the configured limit with its identifier. */
  lemma LimitById(cfg: AppConfig, r: RateLimitRule, rule: RateLimitConfig)
    requires AppOk(cfg) && r in CompileApp(cfg).rateLimits && rule in cfg.rateLimits && r.id == rule.id
    ensures r == CompileRateLimit(cfg.ipSets.Keys)(rule)
  {
    var compiled := Map(cfg.rateLimits, CompileRateLimit(cfg.ipSets.Keys));
    StableSortSorts(compiled, RatePriority());
    assert r in multiset(StableSort(compiled, RatePriority()));
    var i :| 0 <= i < |compiled| && compiled[i] == r;
    var j :| 0 <= j < |cfg.rateLimits| && cfg.rateLimits[j] == rule;
    LimitIdsDiffer(cfg.rateLimits);
    assert i == j;
  }

  lemma CompiledLimitKept(values: seq<RateLimitConfig>, rule: RateLimitConfig, names: set<string>)
    requires rule in values
    ensures CompileRateLimit(names)(rule) in SortedRateLimits(values, names)
  {
    var compiled := Map(values, CompileRateLimit(names));
    var i :| 0 <= i < |values| && values[i] == rule;
    StableSortSorts(compiled, RatePriority());
    assert compiled[i] in multiset(compiled);
    assert compiled[i] in multiset(StableSort(compiled, RatePriority()));
  }

  /** The condition of a configured rule holds of the request, in the one way it can be read. */
  ghost predicate Meant(rule: CustomRule, ctx: RequestContext, sets: map<string, seq<CidrText>>) {
    exists e :: Reads(rule.condition, e) && Holds(e, ctx, sets)
  }

  /** A configured rule that ends the evaluation: an enabled block, or an enabled allow marked terminal, that is meant. */
  ghost predicate Decides(rule: CustomRule, ctx: RequestContext, sets: map<string, seq<CidrText>>) {
    rule.enabled && (rule.action == Block || (rule.action == Allow && rule.terminalAllow)) && Meant(rule, ctx, sets)
  }

  ghost predicate Counts(rule: CustomRule, ctx: RequestContext, sets: map<string, seq<CidrText>>) {
    rule.enabled && rule.action == Count && Meant(rule, ctx, sets)
  }

  ghost function Deciding(ctx: RequestContext, sets: map<string, seq<CidrText>>): CustomRule -> bool {
    (r: CustomRule) => Decides(r, ctx, sets)
  }

  ghost function Tallying(ctx: RequestContext, sets: map<string, seq<CidrText>>): CustomRule -> bool {
    (r: CustomRule) => Counts(r, ctx, sets)
  }

  /** The decision names the rule, and says what that rule is for. */
  ghost predicate SpeaksFor(d: Decision, rule: CustomRule) {
    && d.matchedRuleId == rule.id && d.matchedRuleName == rule.name && d.action == rule.action && d.rateLimit.None?
    && (rule.action == Block ==> d.reason == "custom_rule" && d.statusCode == rule.statusCode)
    && (rule.action == Count ==> d.reason == "custom_rule")
    && (rule.action == Allow ==> d.reason == "custom_rule_allow")
  }

  /** The decision of the custom rules: that of the decisive rule, else of the counted one, else none in particular. */
  ghost predicate VerdictOf(d: Decision, decisive: Option<CustomRule>, counted: Option<CustomRule>) {
    if decisive.Some? then SpeaksFor(d, decisive.value)
    else if counted.Some? then SpeaksFor(d, counted.value)
    else d.action == Allow && d.reason == "" && d.matchedRuleId == ""
  }

  ghost function MeantBy(ctx: RequestContext, sets: map<string, seq<CidrText>>): CustomRule -> bool {
    (r: CustomRule) => Meant(r, ctx, sets)
  }

  lemma MatchIsMeant(cfg: AppConfig, rule: CustomRule, ctx: RequestContext)
    requires AppOk(cfg) && rule in cfg.customRules
    ensures MatchesRule(ctx, CompileApp(cfg).ipSets)(CompileCustom(cfg.ipSets.Keys)(rule)) <==> MeantBy(ctx, cfg.ipSets)(rule)
  {
    assert CustomRuleOk(rule, cfg.ipSets.Keys);
    var e := UniqueReading(rule.condition, cfg.ipSets.Keys);
    AcceptedRuleMeaning(cfg, rule, e, ctx);
  }

  /** Choosing the least rule before or after compilation comes to the same. */
  lemma LeastCompiled(values: seq<CustomRule>, names: set<string>, p: CustomRule -> bool, q: CustomRule -> bool)
    returns (r: Option<CustomRule>)
    requires forall v :: v in values ==> (p(CompileCustom(names)(v)) <==> q(v))
    ensures LeastRule(values, q, r)
    ensures FirstMatch(SortedCustomRules(values, names), p) == if r.Some? then Some(CompileCustom(names)(r.value)) else None
  {
    var compiled := Map(values, CompileCustom(names));
    var i := FirstMatchAfterSort(compiled, CustomPriority(), p);
    assert forall j :: 0 <= j < |values| ==> values[j] in values && compiled[j] in compiled;
    if FirstMatch(SortedCustomRules(values, names), p).Some? {
      assert IsLeast(values, CustomPriority(), q, i);
      LeastByPriority(values, q, i);
      r := Some(values[i]);
    } else {
      r := None;
      forall v | v in values ensures !q(v) {
        var j :| 0 <= j < |values| && values[j] == v;
      }
    }
  }

  /**
   What an accepted app decides, in terms of its configuration alone: of the enabled rules
   whose condition as configured holds, the block or terminal-allow rule least by
   (priority, position), else the least count rule, else allow.
   */
  lemma AcceptedVerdict(cfg: AppConfig, ctx: RequestContext)
    returns (decisive: Option<CustomRule>, counted: Option<CustomRule>)
    requires AppOk(cfg)
    ensures LeastRule(cfg.customRules, Deciding(ctx, cfg.ipSets), decisive)
    ensures LeastRule(cfg.customRules, Tallying(ctx, cfg.ipSets), counted)
    ensures VerdictOf(CustomVerdict(CompileApp(cfg).customRules, ctx, CompileApp(cfg).ipSets), decisive, counted)
  {
    var names, sets, values := cfg.ipSets.Keys, CompileApp(cfg).ipSets, cfg.customRules;
    var meant := MeantBy(ctx, cfg.ipSets);
    forall v | v in values ensures MatchesRule(ctx, sets)(CompileCustom(names)(v)) <==> meant(v) {
      MatchIsMeant(cfg, v, ctx);
    }
    decisive, counted := VerdictCompiled(values, names, MatchesRule(ctx, sets), meant);
    SameLeast(values, DecisiveBy(meant), Deciding(ctx, cfg.ipSets), decisive);
    SameLeast(values, CountingBy(meant), Tallying(ctx, cfg.ipSets), counted);
    LeastHolds(values, Deciding(ctx, cfg.ipSets), decisive);
    LeastHolds(values, Tallying(ctx, cfg.ipSets), counted);
  }

  lemma SameLeast(values: seq<CustomRule>, p: CustomRule -> bool, q: CustomRule -> bool, r: Option<CustomRule>)
    requires LeastRule(values, p, r) && forall v :: v in values ==> (p(v) <==> q(v))
    ensures LeastRule(values, q, r)
  {
    assert forall j :: 0 <= j < |values| ==> values[j] in values;
    if r.Some? {
      var i :| LeastAt(values, p, i) && r.value == values[i];
      assert LeastAt(values, q, i);
    }
  }

  lemma LeastHolds(values: seq<CustomRule>, p: CustomRule -> bool, r: Option<CustomRule>)
    requires LeastRule(values, p, r)
    ensures r.Some? ==> r.value in values && p(r.value)
  {
  }

  lemma VerdictCompiled(values: seq<CustomRule>, names: set<string>, matches: CustomRule -> bool, meant: CustomRule -> bool)
    returns (decisive: Option<CustomRule>, counted: Option<CustomRule>)
    requires forall v :: v in values ==> (matches(CompileCustom(names)(v)) <==> meant(v))
    ensures LeastRule(values, DecisiveBy(meant), decisive) && LeastRule(values, CountingBy(meant), counted)
    ensures var sorted := SortedCustomRules(values, names);
            CustomDecision(FirstMatch(sorted, DecisiveBy(matches)), FirstMatch(sorted, CountingBy(matches)))
            == CustomDecision(decisive, counted)
  {
    decisive := LeastCompiled(values, names, DecisiveBy(matches), DecisiveBy(meant));
    counted := LeastCompiled(values, names, CountingBy(matches), CountingBy(meant));
  }

  lemma AppSetsCompiled(cfg: AppConfig)
    requires AppOk(cfg)
    ensures SetsCompiled(cfg.ipSets, CompileApp(cfg).ipSets)
  {
  }

  lemma CompiledRuleKept(values: seq<CustomRule>, rule: CustomRule, names: set<string>)
    requires rule in values
    ensures CompileCustom(names)(rule) in SortedCustomRules(values, names)
  {
    var compiled := Map(values, CompileCustom(names));
    var i :| 0 <= i < |values| && values[i] == rule;
    StableSortSorts(compiled, CustomPriority());
    assert compiled[i] in multiset(compiled);
    assert compiled[i] in multiset(StableSort(compiled, CustomPriority()));
  }

  // ---------------------------------------------------------------- the host index

  function CompileResult(): AppConfig -> Result<Entry<App>> {
    (cfg: AppConfig) => if AppOk(cfg) then Ok(Entry(cfg.hostnames, CompileApp(cfg))) else Err
  }

  /**
   `NewStore`: the index it builds answers exactly as a scan over every (app, host name)
   pair would, and it fails exactly when an app is invalid or a host has two entries.
   */
  method NewStore(apps: seq<AppConfig>) returns (r: Result<map<string, App>>)
    ensures r.Ok? <==> AllCompile(apps, CompileResult()) && HostsDistinct(Listings(apps, CompileResult(), NormalizeHost))
    ensures r.Ok? ==>
              forall host :: Scan(Listings(apps, CompileResult(), NormalizeHost), host) ==
                             if host in r.value then Some(r.value[host]) else None
    ensures r.Ok? ==>
              forall host :: MatchHost(r.value, host) == Scan(Listings(apps, CompileResult(), NormalizeHost), NormalizeHost(host))
  {
    r := BuildIndex(apps, CompileResult(), NormalizeHost);
    if r.Ok? {
      forall host { IndexAnswersAsScan(r.value, Listings(apps, CompileResult(), NormalizeHost), host); }
    }
  }

  /** `MatchHost`. */
  function MatchHost(byHost: map<string, App>, host: string): Option<App> {
    var h := NormalizeHost(host);
    if h in byHost then Some(byHost[h]) else None
  }
}

/**
 The control plane's validation of policy drafts and host names
 (services/control-api/internal/httpapi/server.go and validation.go), the policy it
 compiles for the gateway (services/control-api/internal/db/db.go) and the gateway's
 reading of that policy (services/gateway/internal/policyclient/client.go).
 */
module ControlPlane {
  import opened Common
  import opened Text
  import opened Addresses
  import opened Hosts
  import opened Decisions
  import opened Conditions
  import opened Sorting
  import opened HostIndex
  import opened Policy

  /** A decoded draft; a missing mode or action is `None`, a missing collection is empty. */
  datatype Snapshot = Snapshot(
    mode: Option<Mode>,
    ruleActions: seq<Option<Action>>,
    ipBlocklist: seq<CidrText>,
    ipSets: map<string, seq<CidrText>>,
    customRules: seq<CustomRule>,
    rateLimits: seq<RateLimitConfig>,
    waf: string)

  function EmptySnapshot(): Snapshot {
    Snapshot(None, [], [], map[], [], [], "{}")
  }

  predicate ValidMode(m: Mode) {
    m == CountMode || m == BlockMode
  }

  predicate ValidAction(a: Action) {
    a == Allow || a == Count || a == Block || a == RateLimited
  }

  predicate ValidCidrs(cidrs: seq<CidrText>) {
    forall c :: c in cidrs ==> ParsePrefix(c).Some?
  }

  predicate ValidCustomRule(r: CustomRule, names: set<string>) {
    && TrimSpace(r.id) != "" && TrimSpace(r.name) != ""
    && (r.action == Allow || r.action == Count || r.action == Block)
    && ControlAccepts(r.condition, names)
  }

  predicate ValidRateLimit(r: RateLimitConfig, names: set<string>) {
    && TrimSpace(r.id) != "" && TrimSpace(r.name) != ""
    && (r.action == Count || r.action == Block)
    && r.limit > 0 && r.windowSeconds > 0
    && !r.keyType.OtherKey? && (r.keyType == ByHeader ==> TrimSpace(r.keyHeader) != "")
    && (HasCondition(r.condition) ==> ControlAccepts(r.condition, names))
  }

  /** `validatePolicySnapshot`. */
  predicate SnapshotValid(s: Snapshot) {
    && (s.mode.Some? ==> ValidMode(s.mode.value))
    && ValidCidrs(s.ipBlocklist)
    && (forall n :: n in s.ipSets ==> ValidCidrs(s.ipSets[n]))
    && (forall a :: a in s.ruleActions && a.Some? ==> ValidAction(a.value))
    && (forall r :: r in s.customRules ==> ValidCustomRule(r, s.ipSets.Keys))
    && (forall r :: r in s.rateLimits ==> ValidRateLimit(r, s.ipSets.Keys))
  }

  // ---------------------------------------------------------------- compiling for the gateway

  datatype GatewayPolicy = GatewayPolicy(
    tenantId: string,
    appId: string,
    policyId: string,
    versionId: string,
    mode: Mode,
    origin: OriginUrl,
    ipSets: map<string, seq<CidrText>>,
    customRules: seq<CustomRule>,
    rateLimits: seq<RateLimitConfig>,
    waf: string)

  /** `compileGatewayPolicy`: the draft's mode wins over the row's; `ip_blocklist` and `rules` are not carried. */
  function CompileGatewayPolicy(
    tenantId: string, appId: string, policyId: string, rowMode: Mode, draft: Snapshot, origin: OriginUrl, versionId: string)
    : GatewayPolicy
  {
    GatewayPolicy(tenantId, appId, policyId, versionId, if draft.mode.Some? then draft.mode.value else rowMode,
                  origin, draft.ipSets, draft.customRules, draft.rateLimits, draft.waf)
  }

  function ToAppConfig(p: GatewayPolicy, hostname: string): AppConfig {
    AppConfig(p.appId, p.tenantId, [NormalizeHost(hostname)], p.origin, p.mode, Allow, [], [],
              p.ipSets, p.rateLimits, p.customRules)
  }

  predicate Identified(p: GatewayPolicy) {
    p.tenantId != "" && p.appId != "" && p.policyId != "" && p.versionId != ""
  }

  /** `gatewayPolicy.toApp`. */
  function ToApp(p: GatewayPolicy, hostname: string): Result<App> {
    if !Identified(p) then Err
    else
      var cfg := ToAppConfig(p, hostname);
      if AppOk(cfg) then Ok(CompileApp(cfg).(policyId := p.policyId, policyVersion := p.versionId)) else Err
  }

  /** A policy that the gateway takes runs as its configuration says. */
  lemma ToAppKeeps(p: GatewayPolicy, hostname: string)
    requires ToApp(p, hostname).Ok?
    ensures var app, cfg := ToApp(p, hostname).value, ToAppConfig(p, hostname);
            && AppOf(app, cfg) && app.policyId == p.policyId && app.policyVersion == p.versionId && KeepsSettings(app, cfg)
  {
    assert CompileSets(p.ipSets).Keys == p.ipSets.Keys;
  }

  /** The checks only the gateway makes: the control plane lets a draft through without them. */
  ghost predicate GatewayOnlyChecks(s: Snapshot) {
    && (forall n :: n in s.ipSets ==> TrimSpace(n) != "")
    && (forall i, j :: 0 <= i < j < |s.customRules| ==> s.customRules[i].id != s.customRules[j].id)
    && (forall i, j :: 0 <= i < j < |s.rateLimits| ==> s.rateLimits[i].id != s.rateLimits[j].id)
    && (forall r :: r in s.customRules ==> 0 <= r.statusCode <= 999)
    && (forall r :: r in s.rateLimits ==> 0 <= r.statusCode <= 999)
  }

  lemma DistinctIff<T>(values: seq<T>, id: T -> string)
    ensures Distinct(Map(values, id)) <==> forall i, j :: 0 <= i < j < |values| ==> id(values[i]) != id(values[j])
  {
    if Distinct(Map(values, id)) {
      forall i, j | 0 <= i < j < |values| ensures id(values[i]) != id(values[j]) {
        assert Map(values, id)[i] != Map(values, id)[j];
      }
    }
  }

  lemma CustomRuleOkIff(r: CustomRule, names: set<string>)
    requires ValidCustomRule(r, names)
    ensures CustomRuleOk(r, names) <==> 0 <= r.statusCode <= 999
  {
    ControlAcceptsImpliesParse(r.condition, names);
    assert TrimSpace("") == "";
  }

  lemma RateLimitOkIff(r: RateLimitConfig, names: set<string>)
    requires ValidRateLimit(r, names)
    ensures RateLimitOk(r, names) <==> 0 <= r.statusCode <= 999
  {
    if HasCondition(r.condition) { ControlAcceptsImpliesParse(r.condition, names); }
    assert TrimSpace("") == "";
  }

  lemma ValidSetsOk(s: Snapshot)
    requires SnapshotValid(s)
    ensures IpSetsOk(s.ipSets) <==> forall n :: n in s.ipSets ==> TrimSpace(n) != ""
  {
    forall n | n in s.ipSets ensures ParsePrefixes(s.ipSets[n]).Ok? {
      assert ValidCidrs(s.ipSets[n]);
    }
  }

  /**
   Cross-service acceptance: of the policies compiled from validated drafts, the gateway
   takes exactly those that also pass the checks it alone makes.
   */
  lemma GatewayAcceptsValidated(
    draft: Snapshot, tenantId: string, appId: string, policyId: string, rowMode: Mode, origin: OriginUrl, versionId: string,
    hostname: string)
    requires SnapshotValid(draft)
    requires tenantId != "" && appId != "" && policyId != "" && versionId != "" && OriginOk(origin)
    ensures ToApp(CompileGatewayPolicy(tenantId, appId, policyId, rowMode, draft, origin, versionId), hostname).Ok?
            <==> GatewayOnlyChecks(draft)
  {
    var names := draft.ipSets.Keys;
    forall r | r in draft.customRules ensures CustomRuleOk(r, names) <==> 0 <= r.statusCode <= 999 {
      CustomRuleOkIff(r, names);
    }
    forall r | r in draft.rateLimits ensures RateLimitOk(r, names) <==> 0 <= r.statusCode <= 999 {
      RateLimitOkIff(r, names);
    }
    ValidSetsOk(draft);
    assert ParsePrefixes([]).Ok?;
    DistinctIff(draft.customRules, CustomId());
    DistinctIff(draft.rateLimits, RateLimitId());
  }

  /** The gateway can refuse a validated draft: two rules with one identifier. */
  lemma GatewayRefusesDuplicateIds(origin: OriginUrl, hostname: string) returns (draft: Snapshot)
    requires OriginOk(origin)
    ensures SnapshotValid(draft)
    ensures ToApp(CompileGatewayPolicy("t", "a", "p", CountMode, draft, origin, "v"), hostname).Err?
  {
    var condition := Condition([], [], "", "/", "", "", None, None, None, "", "");
    var rule := CustomRule("r", "r", 0, true, Block, 403, false, condition);
    draft := EmptySnapshot().(customRules := [rule, rule]);
    assert ControlAccepts(condition, {});
    assert TrimSpace("r") == "r";
    assert ValidCustomRule(rule, {});
    assert draft.ipSets.Keys == {};
    assert draft.customRules[0].id == draft.customRules[1].id;
    GatewayAcceptsValidated(draft, "t", "a", "p", CountMode, origin, "v", hostname);
  }

  // ---------------------------------------------------------------- host names

  /** One round of the loop in `validateHostnames`: the bare host name, or an error. */
  function CanonicalHostname(value: string, isAddr: string -> bool): Result<string> {
    var host := TrimSpace(ToLower(value));
    if host == "" then Err
    else if Contains(host, "://") || '/' in host || '?' in host || '#' in host then Err
    else
      var parsed := if ':' in host then SplitHostPort(host) else Ok(host);
      if parsed.Err? then Err
      else if isAddr(parsed.value) then Err
      else if !ValidDnsName(parsed.value) then Err
      else parsed
  }

  function Canonical(isAddr: string -> bool): string -> Result<string> {
    (value: string) => CanonicalHostname(value, isAddr)
  }

  ghost predicate HostnamesOk(values: seq<string>, isAddr: string -> bool) {
    values != [] && DistinctImages(values, Canonical(isAddr))
  }

  /** `validateHostnames`. */
  method ValidateHostnames(values: seq<string>, isAddr: string -> bool) returns (ok: bool)
    ensures ok <==> HostnamesOk(values, isAddr)
  {
    if values == [] { return false; }
    ok := AllDistinct(values, Canonical(isAddr));
  }

  lemma CanonicalHostnameIsNormal(value: string, isAddr: string -> bool)
    requires CanonicalHostname(value, isAddr).Ok?
    ensures CanonicalHostname(value, isAddr) == Ok(NormalizeHost(value))
    ensures ValidDnsName(NormalizeHost(value)) && !isAddr(NormalizeHost(value))
  {
    var bare := CanonicalHostname(value, isAddr).value;
    DnsNameShape(bare);
    assert Trim(bare, IsBracket) == bare;
  }

  /** A DNS name is accepted in any case and between any white space, with or without a port, unless it is an address. */
  lemma SpellingsAccepted(raw: string, name: string, port: string, before: string, after: string, isAddr: string -> bool)
    requires ValidDnsName(name) && EqualFold(raw, name) && forall c :: c in port ==> '0' <= c <= '9'
    requires (forall c :: c in before ==> IsSpace(c)) && (forall c :: c in after ==> IsSpace(c))
    ensures CanonicalHostname(before + raw + after, isAddr) == if isAddr(name) then Err else Ok(name)
    ensures CanonicalHostname(before + (raw + ":" + port) + after, isAddr) == if isAddr(name) then Err else Ok(name)
  {
    LowerOfSpelling(raw, name, port);
    BareHost(name);
    HostWithPort(name, port);
    SpellingTrims(before, raw, after);
    SpellingTrims(before, raw + ":" + port, after);
    PlainAccepted(name);
    PortAccepted(name, port);
  }

  /** The same once the text is trimmed and in lower case. */
  lemma PlainAccepted(name: string)
    requires ValidDnsName(name)
    ensures name != "" && ':' !in name && '/' !in name && '?' !in name && '#' !in name && !Contains(name, "://")
  {
    DnsNameShape(name);
    assert "://"[0] == ':';
  }

  lemma PortAccepted(name: string, port: string)
    requires ValidDnsName(name) && forall c :: c in port ==> '0' <= c <= '9'
    ensures var h := name + ":" + port;
            && SplitHostPort(h) == Ok(name) && ':' in h && '/' !in h && '?' !in h && '#' !in h && !Contains(h, "://")
  {
    DnsNameShape(name);
    PortAfterName(name, port);
    var h := name + ":" + port;
    assert "://"[1] == '/';
    assert h[|name|] == ':';
    PlainSplit(h);
  }

  /**
   The host names of an accepted app reach the gateway as distinct, valid names that
   normalisation leaves alone, so the gateway's index cannot confuse them.
   */
  lemma AcceptedHostnames(values: seq<string>, isAddr: string -> bool)
    requires HostnamesOk(values, isAddr)
    ensures forall i :: 0 <= i < |values| ==>
              var host := NormalizeHost(values[i]);
              NormalizeHost(host) == host && ValidHost(host, isAddr) && ValidDnsName(host) && !isAddr(host)
    ensures forall i, j :: 0 <= i < j < |values| ==> NormalizeHost(values[i]) != NormalizeHost(values[j])
  {
    forall i | 0 <= i < |values|
      ensures Canonical(isAddr)(values[i]) == Ok(NormalizeHost(values[i]))
      ensures var host := NormalizeHost(values[i]);
              NormalizeHost(host) == host && ValidHost(host, isAddr) && ValidDnsName(host) && !isAddr(host)
    {
      CanonicalHostnameIsNormal(values[i], isAddr);
      DnsNameIsCanonicalHost(NormalizeHost(values[i]), isAddr);
    }
  }
}

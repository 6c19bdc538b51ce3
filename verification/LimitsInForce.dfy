/**
 What a rate limit means to the one who configures it: the bound on what reaches the origin,
 over any run of concurrent requests, in terms of the configuration, and of the draft
 published from the control plane.
 */
module LimitsInForce {
  import opened Common
  import opened Addresses
  import opened Decisions
  import opened Conditions
  import opened Policy
  import opened ControlPlane
  import opened CounterStores
  import opened RateLimiter
  import opened Gateway
  import opened GatewayRuns
  import opened Publishing
  import PolicyLifecycle

  /** Limit `j` is asked before limit `k`: it has the smaller priority number, or the same one and comes first. */
  predicate AskedBefore(limits: seq<RateLimitConfig>, j: nat, k: nat)
    requires j < |limits| && k < |limits|
  {
    limits[j].priority < limits[k].priority || (limits[j].priority == limits[k].priority && j < k)
  }

  /** Limit `k` blocks, and so does every enabled limit asked before it. */
  ghost predicate Unhidden(limits: seq<RateLimitConfig>, k: nat)
    requires k < |limits|
  {
    && limits[k].action == Block
    && forall j :: 0 <= j < |limits| && limits[j].enabled && AskedBefore(limits, j, k) ==> limits[j].action == Block
  }

  /** Requests that reached the origin and that the limit is for, as configured, with digest `h`, read in window `index`. */
  ghost predicate ForwardedMatches(
    u: Setup, s: State, rule: RateLimitConfig, e: Expr, sets: map<string, seq<CidrText>>, ids: set<nat>, rest: nat -> Rest,
    h: string, index: nat)
    requires u.target < |u.Rules()| && rule.windowSeconds > 0
  {
    forall id :: id in ids ==>
      && Forwarded(u, s, id, rest(id))
      && rule.enabled && (rule.condition != NO_CONDITION ==> Holds(e, s.requests[id].req.ctx, sets))
      && u.hash(KeyPart(u.Rule(), s.requests[id].req)) == h
      && (id in s.reading ==> WindowIndex(s.reading[id], rule.windowSeconds) == index)
  }

  /** The limit under study is the compiled form of configured limit `k`. */
  ghost predicate Studies(u: Setup, cfg: AppConfig, k: nat)
    requires k < |cfg.rateLimits|
  {
    AppOf(u.app, cfg) && u.target < |u.Rules()| && u.Rules()[u.target].id == cfg.rateLimits[k].id
  }

  /** A configured limit that no count limit hides is one the bound on runs applies to, with its own figures. */
  lemma UnhiddenIsValid(u: Setup, cfg: AppConfig, k: nat)
    requires k < |cfg.rateLimits| && Studies(u, cfg, k) && Unhidden(cfg.rateLimits, k)
    ensures u.Valid() && SameFigures(u.Rule(), cfg.rateLimits[k]) && SoundLimit(u.Rule())
  {
    var order := LimitsInOrder(cfg);
    forall r | r in u.Rules() ensures r.windowSeconds > 0 {
      var i :| 0 <= i < |u.Rules()| && u.Rules()[i] == r;
      assert SoundLimit(u.Rules()[i]);
    }
    LimitIdsDiffer(cfg.rateLimits);
    assert SameFigures(u.Rules()[u.target], cfg.rateLimits[order[u.target]]);
    assert order[u.target] == k;
    forall i | 0 <= i < u.target && u.Rules()[i].enabled ensures u.Rules()[i].action == Block {
      assert SameFigures(u.Rules()[i], cfg.rateLimits[order[i]]);
      assert AskedBefore(cfg.rateLimits, order[i], k);
    }
  }

  /**
   In any run of any requests over Redis or memory, with a store that never fails or fails
   closed: of the requests a configured block limit is for, on one key in one window, at
   most the configured limit reach the origin for each life of the key, and at most the
   limit if the increments are prompt.
   */
  lemma ConfiguredLimitHolds(
    u: Setup, cfg: AppConfig, k: nat, e: Expr, s: State, ids: set<nat>, rest: nat -> Rest, h: string, index: nat)
    requires k < |cfg.rateLimits| && Studies(u, cfg, k) && Unhidden(cfg.rateLimits, k) && cfg.mode == BlockMode
    requires cfg.rateLimits[k].condition != NO_CONDITION ==> Reads(cfg.rateLimits[k].condition, e)
    ensures u.Valid() && cfg.rateLimits[k].windowSeconds > 0
    ensures Reachable(u, s) && ForwardedMatches(u, s, cfg.rateLimits[k], e, cfg.ipSets, ids, rest, h, index) ==>
              && |ids| <= WindowLives(u, s, h, index) * cfg.rateLimits[k].limit
              && (Prompt(u, s, h, index) ==> |ids| <= cfg.rateLimits[k].limit)
  {
    UnhiddenIsValid(u, cfg, k);
    var rule := cfg.rateLimits[k];
    if Reachable(u, s) && ForwardedMatches(u, s, rule, e, cfg.ipSets, ids, rest, h, index) {
      forall id | id in ids ensures Subject(u.app, u.Rule(), s.requests[id].req) {
        AcceptedLimitCounts(cfg, u.app, u.Rule(), rule, e, s.requests[id].req);
      }
      AtMostLimitPerLife(u, s, ids, rest, h, index);
      if Prompt(u, s, h, index) {
        AtMostLimitPerWindow(u, s, ids, rest, h, index);
      }
    }
  }

  /** The same for a limit of a published draft, in the mode the draft asks for. */
  lemma PublishedLimitHolds(
    origins: string -> OriginUrl, db: PolicyLifecycle.State<Snapshot, GatewayPolicy>, p: string, v: string, hostname: string,
    u: Setup, k: nat, e: Expr, s: State, ids: set<nat>, rest: nat -> Rest, h: string, index: nat)
    requires RunsVersion(origins, db, p, v, hostname, u.app)
    requires var source := db.db.versions[v].source;
             var limits := source.draft.rateLimits;
             && PublishedMode(source) == BlockMode && k < |limits| && Unhidden(limits, k)
             && u.target < |u.Rules()| && u.Rules()[u.target].id == limits[k].id
             && (limits[k].condition != NO_CONDITION ==> Reads(limits[k].condition, e))
    ensures u.Valid() && db.db.versions[v].source.draft.rateLimits[k].windowSeconds > 0
    ensures var draft := db.db.versions[v].source.draft;
            Reachable(u, s) && ForwardedMatches(u, s, draft.rateLimits[k], e, draft.ipSets, ids, rest, h, index) ==>
              && |ids| <= WindowLives(u, s, h, index) * draft.rateLimits[k].limit
              && (Prompt(u, s, h, index) ==> |ids| <= draft.rateLimits[k].limit)
  {
    var cfg := RunsDraft(origins, db, p, v, hostname, u.app);
    ConfiguredLimitHolds(u, cfg, k, e, s, ids, rest, h, index);
  }
}

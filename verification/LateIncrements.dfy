/**
 Why the bound on what a rate limit rule lets through counts the lives of a Redis key, and
 not windows: increments that Redis executes late break the limit, by exactly as much as
 the bound allows (services/gateway/internal/ratelimit/ratelimit.go).
 */
module LateIncrements {
  import opened Common
  import opened Decisions
  import opened Policy
  import opened CounterStores
  import opened RateLimiter
  import opened Gateway
  import opened GatewayRuns

  // ---------------------------------------------------------------- a late increment

  /** An app whose only rule admits `limit` requests per window of `w` seconds. */
  function OneRuleApp(origin: OriginUrl, w: nat, limit: nat): App {
    App("a", "t", "p", "v", [], origin, BlockMode, Allow, [], [], map[],
        [RateLimitRule("r", "r", true, 0, None, ByIp, "", limit, w, Block, 429)], [])
  }

  /** In such an app one answer of the store ends the rate limit stage. */
  lemma OnlyAsk(u: Setup, s: State, id: nat, input: RateInput)
    requires u.Valid() && |u.Rules()| == 1 && Enabled(u, s, Ask(id, input)) && input.fault == NoFault
    requires Subject(u.app, u.Rule(), s.requests[id].req) && u.Rule().windowSeconds > 0 && s.requests[id].next == 0
    ensures var s', req := Apply(u, s, Ask(id, input)), s.requests[id].req;
            var call := CallFor(u.app, u.Rule(), req, u.hash, input);
            && s'.calls == s.calls + [call] && id in s'.requests && s'.requests == s.requests[id := s'.requests[id]]
            && s'.requests[id].Decided? && s'.requests[id].req == req
            && if Answered(StoreOf(u, s), call) <= u.Rule().limit
               then s'.requests[id].rate == AllowDecision() && s'.reading == s.reading[id := input.now]
               else s'.requests[id].rate.WouldBlock()
  {
  }

  /** Nothing but the rate limit can stop a request to such an app. */
  lemma OnlyRateDecides(u: Setup, s: State, id: nat)
    requires u.app.ipBlocklist == [] && u.app.ipAllowlist == [] && u.app.customRules == [] && u.app.defaultAction == Allow
    requires u.app.mode == BlockMode && id in s.requests && s.requests[id].Decided?
    requires s.requests[id].rate == AllowDecision() || s.requests[id].rate.WouldBlock()
    ensures Forwarded(u, s, id, Rest(false, WafSilent)) <==> !s.requests[id].rate.WouldBlock()
  {
    FinalByStages(DecidedStages(u, s.requests[id], Rest(false, WafSilent)), u.app.defaultAction);
  }

  lemma ExpiredKey(first: Call, second: Call)
    requires first.key == second.key
    ensures Answered(StoreAfter(true, [first]), second) == if second.at > first.at + 1000 * first.windowSeconds then 1 else 2
    ensures Answered(StoreAfter(true, []), first) == 1
  {
    assert RedisAfter([first]) == map[first.key := Cell(1, first.at + 1000 * first.windowSeconds)];
  }

  lemma TwoLives(calls: seq<Call>)
    requires |calls| == 2 && calls[0].key == calls[1].key
    ensures Lives(calls, calls[0].key) == if calls[1].at > calls[0].at + 1000 * calls[0].windowSeconds then 2 else 1
  {
    var first, key := calls[..1], calls[0].key;
    assert first == [calls[0]] && first[..0] == [];
    assert RedisAfter(first) == map[key := Cell(1, calls[0].at + 1000 * calls[0].windowSeconds)];
    assert Lives(first, key) == 1;
  }

  /** Two requests of one window, one after the other. */
  lemma TwoRun(u: Setup, req: RateRequest, one: RateInput, two: RateInput) returns (s: State)
    requires u.Valid() && |u.Rules()| == 1 && u.inRedis && Subject(u.app, u.Rule(), req)
    requires u.Rule().limit == 1 && u.Rule().windowSeconds > 0 && one.fault == two.fault == NoFault
    requires WindowIndex(one.now, u.Rule().windowSeconds) == WindowIndex(two.now, u.Rule().windowSeconds)
    ensures Reachable(u, s) && s.requests.Keys == {0, 1} && s.requests[0] == Decided(req, AllowDecision())
    ensures s.requests[1].Decided? && s.requests[1].req == req
    ensures s.calls == [CallFor(u.app, u.Rule(), req, u.hash, one), CallFor(u.app, u.Rule(), req, u.hash, two)]
    ensures if two.at > one.at + 1000 * u.Rule().windowSeconds
            then s.requests[1].rate == AllowDecision() && s.reading == map[0 := one.now, 1 := two.now]
            else s.requests[1].rate.WouldBlock()
  {
    var first, second := CallFor(u.app, u.Rule(), req, u.hash, one), CallFor(u.app, u.Rule(), req, u.hash, two);
    ExpiredKey(first, second);
    var s1 := Apply(u, Init(), Arrive(0, req));
    OnlyAsk(u, s1, 0, one);
    var s2 := Apply(u, s1, Ask(0, one));
    assert s2.calls == [first];
    var s3 := Apply(u, s2, Arrive(1, req));
    assert s3.calls == [first];
    OnlyAsk(u, s3, 1, two);
    s := Apply(u, s3, Ask(1, two));
    StepThen(u, s3, Ask(1, two), []);
    StepThen(u, s2, Arrive(1, req), [Ask(1, two)] + []);
    StepThen(u, s1, Ask(0, one), [Arrive(1, req)] + ([Ask(1, two)] + []));
    StepThen(u, Init(), Arrive(0, req), [Ask(0, one)] + ([Arrive(1, req)] + ([Ask(1, two)] + [])));
  }

  /**
   Promptness cannot be done without. Two requests fall into one window whose limit is
   one: both reach the origin if and only if Redis executes the second increment after the
   lifetime set by the first, that is, if and only if the increments are not prompt.
   */
  lemma LateIncrementExceedsLimit(origin: OriginUrl, hash: string -> string, req: RateRequest, w: nat, one: RateInput, two: RateInput)
    returns (u: Setup, s: State)
    requires w > 0 && one.fault == two.fault == NoFault && WindowIndex(one.now, w) == WindowIndex(two.now, w)
    ensures u == Setup(OneRuleApp(origin, w, 1), hash, true, true, 0) && u.Valid() && u.Rule().limit == 1 && Reachable(u, s)
    ensures Forwarded(u, s, 0, Rest(false, WafSilent))
    ensures Forwarded(u, s, 1, Rest(false, WafSilent)) <==> two.at > one.at + 1000 * w
    ensures Prompt(u, s, hash(req.ipText), WindowIndex(one.now, w)) <==> two.at <= one.at + 1000 * w
  {
    u := Setup(OneRuleApp(origin, w, 1), hash, true, true, 0);
    s := TwoRun(u, req, one, two);
    OnlyRateDecides(u, s, 0);
    OnlyRateDecides(u, s, 1);
    TwoLives(s.calls);
    PromptIffOneLife(u, s, hash(req.ipText), WindowIndex(one.now, w));
  }

  /** For example, with a window of one second: clock readings 0 and 999 ms, executed at 0 and 1001 ms. */
  lemma LateByTwoMilliseconds(origin: OriginUrl, hash: string -> string, req: RateRequest) returns (u: Setup, s: State)
    ensures u.Valid() && u.app.mode == BlockMode && u.Rule().limit == 1 && Reachable(u, s)
    ensures Matching(u, s, {0, 1}, _ => Rest(false, WafSilent), hash(req.ipText))
    ensures s.reading == map[0 := 0, 1 := 999] && WindowIndex(0, 1) == WindowIndex(999, 1)
  {
    var one, two := RateInput(0, 0, NoFault), RateInput(999, 1001, NoFault);
    u := Setup(OneRuleApp(origin, 1, 1), hash, true, true, 0);
    s := TwoRun(u, req, one, two);
    OnlyRateDecides(u, s, 0);
    OnlyRateDecides(u, s, 1);
  }

  // ---------------------------------------------------------------- the bound is attained

  lemma {:induction false} RunThen(u: Setup, s: State, steps: seq<Step>, step: Step)
    requires u.Valid() && IsRun(u, s, steps) && Enabled(u, After(u, s, steps), step)
    ensures IsRun(u, s, steps + [step]) && After(u, s, steps + [step]) == Apply(u, After(u, s, steps), step)
    decreases |steps|
  {
    if steps == [] {
      StepThen(u, s, step, []);
      assert [] + [step] == [step] + [];
    } else {
      RunThen(u, Apply(u, s, steps[0]), steps[1..], step);
      StepThen(u, s, steps[0], steps[1..] + [step]);
      assert steps + [step] == [steps[0]] + (steps[1..] + [step]);
    }
  }

  lemma ReachableStep(u: Setup, s: State, step: Step)
    requires u.Valid() && Reachable(u, s) && Enabled(u, s, step)
    ensures Reachable(u, Apply(u, s, step))
  {
    var steps :| IsRun(u, Init(), steps) && s == After(u, Init(), steps);
    RunThen(u, Init(), steps, step);
  }

  /** The instant at which the increments of life number `k` are executed: just after the last one has expired. */
  function LifeStart(k: nat, w: nat): nat {
    k * (1000 * w + 1)
  }

  /** The counter has completed `k` lives, and counted `j` in the next. */
  ghost predicate CellFull(calls: seq<Call>, key: string, w: nat, limit: nat, k: nat, j: nat) {
    && Lives(calls, key) == k + (if j > 0 then 1 else 0)
    && (key in RedisAfter(calls) <==> k + j > 0)
    && (j > 0 ==> RedisAfter(calls)[key] == Cell(j, LifeStart(k, w) + 1000 * w))
    && (j == 0 < k ==> RedisAfter(calls)[key].expiresAt == LifeStart(k - 1, w) + 1000 * w)
  }

  lemma FillCell(calls: seq<Call>, key: string, w: nat, limit: nat, k: nat, j: nat)
    requires CellFull(calls, key, w, limit, k, j) && j < limit
    ensures var call := Call(key, limit, w, LifeStart(k, w));
            && Answered(StoreAfter(true, calls), call) == j + 1 && CellFull(calls + [call], key, w, limit, k, j + 1)
  {
    var call := Call(key, limit, w, LifeStart(k, w));
    assert (calls + [call])[..|calls|] == calls;
    if k > 0 {
      assert LifeStart(k, w) == LifeStart(k - 1, w) + 1000 * w + 1;
    }
  }

  lemma NextLife(calls: seq<Call>, key: string, w: nat, limit: nat, k: nat)
    requires CellFull(calls, key, w, limit, k, limit) && limit > 0
    ensures CellFull(calls, key, w, limit, k + 1, 0)
  {
  }

  function FirstIds(m: nat): (ids: set<nat>)
    ensures |ids| == m && forall id: nat :: id in ids <==> id < m
  {
    if m == 0 then {} else FirstIds(m - 1) + {m - 1}
  }

  /** Requests 0..m-1, and no others, were admitted in window 0 of the only rule. */
  ghost predicate AllAdmitted(s: State, req: RateRequest, m: nat) {
    && (forall id: nat :: (id in s.requests <==> id < m) && (id in s.reading <==> id < m))
    && (forall id :: id in s.requests ==> s.requests[id] == Decided(req, AllowDecision()))
    && (forall id :: id in s.reading ==> s.reading[id] == 0)
  }

  /** One more request arrives and is admitted. */
  lemma ArriveAsk(u: Setup, s: State, req: RateRequest, id: nat, input: RateInput) returns (s': State)
    requires u.Valid() && |u.Rules()| == 1 && u.Rule().windowSeconds > 0 && Subject(u.app, u.Rule(), req)
    requires Reachable(u, s) && id !in s.requests && id !in s.reading && input.fault == NoFault
    requires Answered(StoreOf(u, s), CallFor(u.app, u.Rule(), req, u.hash, input)) <= u.Rule().limit
    ensures Reachable(u, s') && s'.calls == s.calls + [CallFor(u.app, u.Rule(), req, u.hash, input)]
    ensures s'.requests == s.requests[id := Decided(req, AllowDecision())] && s'.reading == s.reading[id := input.now]
  {
    var s1 := Apply(u, s, Arrive(id, req));
    ReachableStep(u, s, Arrive(id, req));
    OnlyAsk(u, s1, id, input);
    ReachableStep(u, s1, Ask(id, input));
    s' := Apply(u, s1, Ask(id, input));
  }

  lemma OneMoreAdmitted(s: State, s': State, req: RateRequest, m: nat)
    requires AllAdmitted(s, req, m)
    requires s'.requests == s.requests[m := Decided(req, AllowDecision())] && s'.reading == s.reading[m := 0]
    ensures AllAdmitted(s', req, m + 1)
  {
  }

  lemma InitReachable(u: Setup)
    requires u.Valid()
    ensures Reachable(u, Init())
  {
    assert IsRun(u, Init(), []);
  }

  lemma FillOne(u: Setup, s: State, req: RateRequest, w: nat, limit: nat, k: nat, j: nat, m: nat) returns (s': State)
    requires u.Valid() && |u.Rules()| == 1 && u.inRedis && Subject(u.app, u.Rule(), req)
    requires u.Rule().windowSeconds == w > 0 && u.Rule().limit == limit && j < limit
    requires Reachable(u, s) && AllAdmitted(s, req, m)
    requires CellFull(s.calls, CounterKey(u.app, u.Rule(), req, u.hash, 0), w, limit, k, j)
    ensures Reachable(u, s') && AllAdmitted(s', req, m + 1)
    ensures CellFull(s'.calls, CounterKey(u.app, u.Rule(), req, u.hash, 0), w, limit, k, j + 1)
  {
    var input := RateInput(0, LifeStart(k, w), NoFault);
    FillCell(s.calls, CounterKey(u.app, u.Rule(), req, u.hash, 0), w, limit, k, j);
    s' := ArriveAsk(u, s, req, m, input);
    OneMoreAdmitted(s, s', req, m);
  }

  lemma {:induction false} Fill(u: Setup, req: RateRequest, w: nat, limit: nat, k: nat, j: nat) returns (s: State)
    requires u.Valid() && |u.Rules()| == 1 && u.inRedis && Subject(u.app, u.Rule(), req)
    requires u.Rule().windowSeconds == w > 0 && u.Rule().limit == limit && j <= limit
    ensures Reachable(u, s) && AllAdmitted(s, req, k * limit + j)
    ensures CellFull(s.calls, CounterKey(u.app, u.Rule(), req, u.hash, 0), w, limit, k, j)
    decreases k, j
  {
    var key := CounterKey(u.app, u.Rule(), req, u.hash, 0);
    if j > 0 {
      s := Fill(u, req, w, limit, k, j - 1);
      s := FillOne(u, s, req, w, limit, k, j - 1, k * limit + j - 1);
    } else if k > 0 {
      s := Fill(u, req, w, limit, k - 1, limit);
      NextLife(s.calls, key, w, limit, k - 1);
      assert (k - 1) * limit + limit == k * limit;
    } else {
      s := Init();
      InitReachable(u);
    }
  }

  /**
   The bound by lives is exact: for every limit, window and number of lives there is a run
   over Redis in which that many times the limit of requests of one key and window reach
   the origin.
   */
  lemma BoundIsAttained(origin: OriginUrl, hash: string -> string, req: RateRequest, w: nat, limit: nat, lives: nat)
    returns (u: Setup, s: State, ids: set<nat>)
    requires w > 0 && limit > 0
    ensures u.Valid() && u.app.mode == BlockMode && u.inRedis && u.Rule().limit == limit && u.Rule().windowSeconds == w
    ensures Reachable(u, s) && Matching(u, s, ids, _ => Rest(false, WafSilent), hash(req.ipText))
    ensures forall id :: id in ids ==> id in s.reading && WindowIndex(s.reading[id], w) == 0
    ensures WindowLives(u, s, hash(req.ipText), 0) == lives && |ids| == lives * limit
  {
    u := Setup(OneRuleApp(origin, w, limit), hash, true, true, 0);
    s := Fill(u, req, w, limit, lives, 0);
    ids := FirstIds(lives * limit);
    WindowIndexExact(0, w, 0);
    AdmittedMatch(u, s, req, lives * limit);
  }

  lemma AdmittedMatch(u: Setup, s: State, req: RateRequest, m: nat)
    requires u.Valid() && AllAdmitted(s, req, m) && u.app.mode == BlockMode && Subject(u.app, u.Rule(), req)
    requires u.app.ipBlocklist == [] && u.app.ipAllowlist == [] && u.app.customRules == [] && u.app.defaultAction == Allow
    ensures Matching(u, s, FirstIds(m), _ => Rest(false, WafSilent), u.hash(KeyPart(u.Rule(), req)))
  {
    forall id | id in FirstIds(m) ensures Forwarded(u, s, id, Rest(false, WafSilent)) && s.requests[id].req == req {
      OnlyRateDecides(u, s, id);
    }
  }
}

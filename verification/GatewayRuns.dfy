/**
 What one rate limit rule lets through, over any interleaving of any number of requests:
 every request asks its rules one by one, and the store, Redis or the in-memory map,
 executes the increments of different requests in any order, each at an instant of its own
 (services/gateway/internal/proxy/gateway.go and
 services/gateway/internal/ratelimit/ratelimit.go).
 */
module GatewayRuns {
  import opened Common
  import opened Decisions
  import opened Conditions
  import opened Policy
  import opened CounterStores
  import opened RateLimiter
  import opened RequestBody
  import opened Gateway
  import LimiterKeys

  /** The app, the digest, the store and its failure mode, and the position of the rule under study. */
  datatype Setup = Setup(app: App, hash: string -> string, inRedis: bool, failClosed: bool, target: nat)
  {
    function Rules(): seq<RateLimitRule> { app.rateLimits }

    /** The rule blocks, and every enabled rule asked before it blocks too when it is over its limit. */
    ghost predicate Valid() {
      && WindowsPositive(Rules())
      && target < |Rules()| && Rules()[target].action == Block && Rules()[target].limit > 0
      && forall i :: 0 <= i < target && Rules()[i].enabled ==> Rules()[i].action == Block
    }

    function Check(req: RateRequest): Check {
      Checker(app, req, hash, failClosed)
    }

    function Rule(): RateLimitRule
      requires target < |Rules()|
    {
      Rules()[target]
    }
  }

  datatype Progress = Checking(req: RateRequest, next: nat) | Decided(req: RateRequest, rate: Decision)

  /**
   `calls` are the increments the store has executed, which determine its contents.
   `passed` and `reading` are history: who was admitted by the rule on which counter, and
   at what clock reading.
   */
  datatype State = State(
    calls: seq<Call>, requests: map<nat, Progress>, passed: map<string, set<nat>>, reading: map<nat, nat>)

  /** `Foreign`: an increment sent for another app, or by another gateway. */
  datatype Step = Arrive(id: nat, req: RateRequest) | Ask(id: nat, input: RateInput) | Foreign(call: Call)

  predicate Enabled(u: Setup, s: State, step: Step) {
    match step
    case Arrive(id, _) => id !in s.requests && id !in s.reading
    case Ask(id, input) =>
      id in s.requests && s.requests[id].Checking? && s.requests[id].next < |u.Rules()|
      && (u.failClosed || input.fault == NoFault)
    case Foreign(_) => true
  }

  function StoreOf(u: Setup, s: State): Store {
    StoreAfter(u.inRedis, s.calls)
  }

  function Passed(s: State, key: string): set<nat> {
    if key in s.passed then s.passed[key] else {}
  }

  /** The increment a check makes the store execute, if any. */
  function Executed(u: Setup, rule: RateLimitRule, req: RateRequest, input: RateInput): seq<Call>
    requires rule.windowSeconds > 0
  {
    if Subject(u.app, rule, req) && input.fault != LostRequest then [CallFor(u.app, rule, req, u.hash, input)] else []
  }

  function NextProgress(u: Setup, p: Progress, d: Decision): Progress
    requires p.Checking?
  {
    if d.action != Allow then Decided(p.req, d)
    else if p.next + 1 == |u.Rules()| then Decided(p.req, AllowDecision())
    else Checking(p.req, p.next + 1)
  }

  function Apply(u: Setup, s: State, step: Step): State
    requires WindowsPositive(u.Rules()) && u.target < |u.Rules()| && Enabled(u, s, step)
  {
    match step
    case Arrive(id, req) => s.(requests := s.requests[id := Checking(req, 0)])
    case Foreign(call) => s.(calls := s.calls + [call])
    case Ask(id, input) =>
      var p := s.requests[id];
      var rule := u.Rules()[p.next];
      assert rule in u.Rules();
      var d := CheckOne(u.app, rule, p.req, u.hash, input, StoreOf(u, s), u.failClosed).0;
      var s' := s.(calls := s.calls + Executed(u, rule, p.req, input), requests := s.requests[id := NextProgress(u, p, d)]);
      if p.next == u.target && Subject(u.app, rule, p.req) && d.action == Allow then
        var key := CounterKey(u.app, rule, p.req, u.hash, input.now);
        s'.(passed := s.passed[key := Passed(s, key) + {id}], reading := s.reading[id := input.now])
      else s'
  }

  ghost predicate IsRun(u: Setup, s: State, steps: seq<Step>)
    requires WindowsPositive(u.Rules()) && u.target < |u.Rules()|
    decreases |steps|
  {
    steps == [] || (Enabled(u, s, steps[0]) && IsRun(u, Apply(u, s, steps[0]), steps[1..]))
  }

  ghost function After(u: Setup, s: State, steps: seq<Step>): State
    requires WindowsPositive(u.Rules()) && u.target < |u.Rules()| && IsRun(u, s, steps)
    decreases |steps|
  {
    if steps == [] then s else After(u, Apply(u, s, steps[0]), steps[1..])
  }

  /** No requests yet and an empty store; foreign increments can fill it at any time. */
  function Init(): State {
    State([], map[], map[], map[])
  }

  ghost predicate Reachable(u: Setup, s: State)
    requires u.Valid()
  {
    exists steps :: IsRun(u, Init(), steps) && s == After(u, Init(), steps)
  }

  // ---------------------------------------------------------------- invariant

  function Min(a: int, b: int): int {
    if a <= b then a else b
  }

  /** The earlier lives of a counter admitted at most the limit each, the current one no more than it counted. */
  ghost predicate Bounded(u: Setup, s: State, key: string)
    requires u.target < |u.Rules()|
  {
    var lives, limit := StoreLives(u.inRedis, s.calls, key), u.Rule().limit;
    if lives == 0 then Passed(s, key) == {}
    else |Passed(s, key)| <= (lives - 1) * limit + Min(Counted(StoreOf(u, s), key), limit)
  }

  /** Request `id` was admitted by the rule, on the counter of its clock reading. */
  ghost predicate Admitted(u: Setup, s: State, id: nat, req: RateRequest)
    requires u.Valid()
  {
    assert u.Rule() in u.Rules();
    id in s.reading && id in Passed(s, CounterKey(u.app, u.Rule(), req, u.hash, s.reading[id]))
  }

  /** A request the rule counts has been admitted by it once it is past it, or over and not stopped. */
  ghost predicate RequestOk(u: Setup, s: State, id: nat)
    requires u.Valid() && id in s.requests
  {
    var p := s.requests[id];
    && (p.Checking? ==> p.next <= |u.Rules()|)
    && ((Subject(u.app, u.Rule(), p.req) && if p.Checking? then p.next > u.target else !p.rate.WouldBlock()) ==>
          Admitted(u, s, id, p.req))
  }

  ghost predicate Inv(u: Setup, s: State)
    requires u.Valid()
  {
    && (forall key :: Bounded(u, s, key))
    && (forall id :: id in s.requests ==> RequestOk(u, s, id))
  }

  /** The bound of one counter over one more increment, which admits at most one request, and only within the limit. */
  lemma BoundStep(before: nat, after: nat, lives: nat, lives': nat, count: nat, count': nat, limit: int)
    requires limit > 0 && (if lives == 0 then before == 0 else before <= (lives - 1) * limit + Min(count, limit))
    requires (lives' == lives > 0 && count' == count + 1) || (lives' == lives + 1 && count' == 1)
    requires after <= before || (after == before + 1 && count' <= limit)
    ensures lives' > 0 && after <= (lives' - 1) * limit + Min(count', limit)
  {
    if lives' == lives + 1 && lives > 0 {
      assert lives * limit == (lives - 1) * limit + limit;
    }
  }

  lemma CallBounded(u: Setup, s: State, s': State, call: Call, key: string)
    requires u.Valid() && Bounded(u, s, key) && s'.calls == s.calls + [call]
    requires Passed(s', key) == Passed(s, key)
             || (call.key == key && Answered(StoreOf(u, s), call) <= u.Rule().limit
                 && |Passed(s', key)| <= |Passed(s, key)| + 1)
    ensures Bounded(u, s', key)
  {
    OneMoreCall(u.inRedis, s.calls, call, key);
    if call.key == key {
      var before, after := |Passed(s, key)|, |Passed(s', key)|;
      BoundStep(before, if after <= before + 1 then after else before,
                StoreLives(u.inRedis, s.calls, key), StoreLives(u.inRedis, s'.calls, key),
                Counted(StoreOf(u, s), key), Counted(StoreOf(u, s'), key), u.Rule().limit);
    }
  }

  /** A check that admits a counted request made the store execute its increment, within the limit. */
  lemma AdmittingCheck(u: Setup, rule: RateLimitRule, req: RateRequest, input: RateInput, store: Store)
    requires rule.windowSeconds > 0 && (u.failClosed || input.fault == NoFault) && Subject(u.app, rule, req)
    requires CheckOne(u.app, rule, req, u.hash, input, store, u.failClosed).0.action == Allow
    ensures input.fault == NoFault && Answered(store, CallFor(u.app, rule, req, u.hash, input)) <= rule.limit
    ensures Executed(u, rule, req, input) == [CallFor(u.app, rule, req, u.hash, input)]
  {
  }

  lemma AskBounded(u: Setup, s: State, step: Step, key: string)
    requires u.Valid() && Enabled(u, s, step) && step.Ask? && Bounded(u, s, key)
    ensures Bounded(u, Apply(u, s, step), key)
  {
    var s' := Apply(u, s, step);
    var p := s.requests[step.id];
    var rule := u.Rules()[p.next];
    assert rule in u.Rules();
    var d := CheckOne(u.app, rule, p.req, u.hash, step.input, StoreOf(u, s), u.failClosed).0;
    if p.next == u.target && Subject(u.app, rule, p.req) && d.action == Allow {
      AdmittingCheck(u, rule, p.req, step.input, StoreOf(u, s));
      assert |Passed(s, key) + {step.id}| <= |Passed(s, key)| + 1;
      CallBounded(u, s, s', CallFor(u.app, rule, p.req, u.hash, step.input), key);
    } else if Executed(u, rule, p.req, step.input) == [] {
      assert s'.calls == s.calls;
    } else {
      CallBounded(u, s, s', CallFor(u.app, rule, p.req, u.hash, step.input), key);
    }
  }

  lemma BoundedStep(u: Setup, s: State, step: Step, key: string)
    requires u.Valid() && Enabled(u, s, step) && Bounded(u, s, key)
    ensures Bounded(u, Apply(u, s, step), key)
  {
    match step
    case Arrive(_, _) =>
    case Foreign(call) => CallBounded(u, s, Apply(u, s, step), call, key);
    case Ask(_, _) => AskBounded(u, s, step, key);
  }

  lemma RequestStep(u: Setup, s: State, step: Step, id: nat)
    requires u.Valid() && Enabled(u, s, step) && id in Apply(u, s, step).requests
    requires id in s.requests ==> RequestOk(u, s, id)
    ensures RequestOk(u, Apply(u, s, step), id)
  {
    var s' := Apply(u, s, step);
    if id in s.requests && !(step.Ask? && step.id == id) {
      assert s'.requests[id] == s.requests[id];
      assert id in s.reading ==> id in s'.reading && s'.reading[id] == s.reading[id];
      assert forall key :: Passed(s, key) <= Passed(s', key);
    } else if step.Ask? {
      AskedOk(u, s, step);
    }
  }

  lemma AskedOk(u: Setup, s: State, step: Step)
    requires u.Valid() && Enabled(u, s, step) && step.Ask? && RequestOk(u, s, step.id)
    ensures RequestOk(u, Apply(u, s, step), step.id)
  {
    var s' := Apply(u, s, step);
    var p := s.requests[step.id];
    var rule := u.Rules()[p.next];
    assert rule in u.Rules();
    assert forall key :: Passed(s, key) <= Passed(s', key);
    OneRule(u.app, rule, p.req, u.hash, step.input, StoreOf(u, s), u.failClosed);
  }

  lemma {:induction false} InvRun(u: Setup, s: State, steps: seq<Step>)
    requires u.Valid() && Inv(u, s) && IsRun(u, s, steps)
    ensures Inv(u, After(u, s, steps))
    decreases |steps|
  {
    if steps != [] {
      var s' := Apply(u, s, steps[0]);
      forall key ensures Bounded(u, s', key) {
        BoundedStep(u, s, steps[0], key);
      }
      forall id | id in s'.requests ensures RequestOk(u, s', id) {
        RequestStep(u, s, steps[0], id);
      }
      InvRun(u, s', steps[1..]);
    }
  }

  lemma ReachableInv(u: Setup, s: State)
    requires u.Valid() && Reachable(u, s)
    ensures Inv(u, s)
  {
    var steps :| IsRun(u, Init(), steps) && s == After(u, Init(), steps);
    InvRun(u, Init(), steps);
  }

  // ---------------------------------------------------------------- what reaches the origin

  /** The rest of what the pipeline meets on a request: the body limit and the WAF. */
  datatype Rest = Rest(bodyExceeded: bool, waf: WafOutcome)

  ghost function DecidedStages(u: Setup, p: Progress, rest: Rest): Stages
    requires p.Decided?
  {
    Stages(EvaluateIp(u.app, p.req.ctx.clientIp), p.rate, rest.bodyExceeded, CustomStage(u.app, p.req.ctx), rest.waf)
  }

  /** The request is over and is not denied: only block mode denies, and only what would block. */
  ghost predicate Forwarded(u: Setup, s: State, id: nat, rest: Rest) {
    && id in s.requests && s.requests[id].Decided?
    && !(u.app.mode == BlockMode && Final(DecidedStages(u, s.requests[id], rest), u.app.defaultAction).WouldBlock())
  }

  lemma StepThen(u: Setup, s: State, step: Step, steps: seq<Step>)
    requires u.Valid() && Enabled(u, s, step) && IsRun(u, Apply(u, s, step), steps)
    ensures IsRun(u, s, [step] + steps) && After(u, s, [step] + steps) == After(u, Apply(u, s, step), steps)
  {
    assert ([step] + steps)[1..] == steps;
  }

  /** What the loop makes of the rest of a request's rules, and the store it leaves. */
  ghost function RestVerdict(u: Setup, s: State, id: nat, inputs: seq<RateInput>): (Decision, Store)
    requires u.Valid() && id in s.requests && s.requests[id].Checking? && s.requests[id].next <= |u.Rules()|
    requires |inputs| == |u.Rules()| - s.requests[id].next
  {
    RateVerdict(u.Check(s.requests[id].req), u.Rules()[s.requests[id].next..], inputs, StoreOf(u, s))
  }

  /** The steps end the request with that verdict. */
  ghost predicate Concludes(u: Setup, s: State, id: nat, inputs: seq<RateInput>, steps: seq<Step>)
    requires u.Valid() && id in s.requests && s.requests[id].Checking? && s.requests[id].next <= |u.Rules()|
    requires |inputs| == |u.Rules()| - s.requests[id].next
  {
    && IsRun(u, s, steps)
    && var (d, store) := RestVerdict(u, s, id, inputs);
       && StoreOf(u, After(u, s, steps)) == store
       && After(u, s, steps).requests == s.requests[id := Decided(s.requests[id].req, d)]
  }

  /** A request that asks its remaining rules undisturbed meets the verdict of the loop over them. */
  lemma {:induction false} UndisturbedAsks(u: Setup, s: State, id: nat, inputs: seq<RateInput>) returns (steps: seq<Step>)
    requires u.Valid() && id in s.requests && s.requests[id].Checking? && s.requests[id].next < |u.Rules()|
    requires |inputs| == |u.Rules()| - s.requests[id].next
    requires u.failClosed || forall i :: 0 <= i < |inputs| ==> inputs[i].fault == NoFault
    ensures Concludes(u, s, id, inputs, steps)
    decreases |inputs|
  {
    var s' := Apply(u, s, Ask(id, inputs[0]));
    OneAsk(u, s, id, inputs);
    var more := [];
    if s'.requests[id].Checking? {
      more := UndisturbedAsks(u, s', id, inputs[1..]);
    }
    AskThen(u, s, id, inputs, more);
    steps := [Ask(id, inputs[0])] + more;
  }

  lemma AskThen(u: Setup, s: State, id: nat, inputs: seq<RateInput>, more: seq<Step>)
    requires u.Valid() && id in s.requests && s.requests[id].Checking? && s.requests[id].next < |u.Rules()|
    requires |inputs| == |u.Rules()| - s.requests[id].next && Enabled(u, s, Ask(id, inputs[0]))
    requires var s' := Apply(u, s, Ask(id, inputs[0]));
             && id in s'.requests
             && if s'.requests[id].Checking?
                then s'.requests[id].next == s.requests[id].next + 1 && Concludes(u, s', id, inputs[1..], more)
                else more == []
    ensures Concludes(u, s, id, inputs, [Ask(id, inputs[0])] + more)
  {
    OneAsk(u, s, id, inputs);
    StepThen(u, s, Ask(id, inputs[0]), more);
  }

  /** One ask takes one round of the loop. */
  lemma OneAsk(u: Setup, s: State, id: nat, inputs: seq<RateInput>)
    requires u.Valid() && id in s.requests && s.requests[id].Checking? && s.requests[id].next < |u.Rules()|
    requires |inputs| == |u.Rules()| - s.requests[id].next && Enabled(u, s, Ask(id, inputs[0]))
    ensures var s', req := Apply(u, s, Ask(id, inputs[0])), s.requests[id].req;
            && id in s'.requests && s'.requests == s.requests[id := s'.requests[id]] && s'.requests[id].req == req
            && if s'.requests[id].Checking? then
                 s'.requests[id].next == s.requests[id].next + 1 < |u.Rules()|
                 && RestVerdict(u, s, id, inputs) == RestVerdict(u, s', id, inputs[1..])
               else RestVerdict(u, s, id, inputs) == (s'.requests[id].rate, StoreOf(u, s'))
  {
    var p := s.requests[id];
    var rules := u.Rules()[p.next..];
    assert rules[0] == u.Rules()[p.next] && rules[0] in u.Rules() && rules[1..] == u.Rules()[p.next + 1..];
    AskStore(u, s, Ask(id, inputs[0]));
    VerdictRound(u.Check(p.req), rules, inputs, StoreOf(u, s));
  }

  lemma AskStore(u: Setup, s: State, step: Step)
    requires u.Valid() && Enabled(u, s, step) && step.Ask?
    ensures var p, s' := s.requests[step.id], Apply(u, s, step);
            var rule := u.Rules()[p.next];
            && rule.windowSeconds > 0
            && var (d, after) := CheckOne(u.app, rule, p.req, u.hash, step.input, StoreOf(u, s), u.failClosed);
               StoreOf(u, s') == after && s'.requests == s.requests[step.id := NextProgress(u, p, d)]
  {
    var p := s.requests[step.id];
    var rule := u.Rules()[p.next];
    assert rule in u.Rules();
    AskApplies(u, s, step, p, rule);
    ExecutedStore(u, s.calls, rule, p.req, step.input);
  }

  lemma AskApplies(u: Setup, s: State, step: Step, p: Progress, rule: RateLimitRule)
    requires u.Valid() && Enabled(u, s, step) && step.Ask? && rule.windowSeconds > 0
    requires p == s.requests[step.id] && rule == u.Rules()[p.next]
    ensures var s' := Apply(u, s, step);
            var d := CheckOne(u.app, rule, p.req, u.hash, step.input, StoreOf(u, s), u.failClosed).0;
            s'.calls == s.calls + Executed(u, rule, p.req, step.input) && s'.requests == s.requests[step.id := NextProgress(u, p, d)]
  {
  }

  lemma ExecutedStore(u: Setup, calls: seq<Call>, rule: RateLimitRule, req: RateRequest, input: RateInput)
    requires rule.windowSeconds > 0
    ensures StoreAfter(u.inRedis, calls + Executed(u, rule, req, input)) ==
            CheckOne(u.app, rule, req, u.hash, input, StoreAfter(u.inRedis, calls), u.failClosed).1
  {
    var made := Executed(u, rule, req, input);
    if made == [] {
      assert calls + made == calls;
    } else {
      OneMoreCall(u.inRedis, calls, made[0], made[0].key);
    }
  }

  /**
   The pipeline and the runs agree: whatever outcome `ServeHTTP` has on a request in some
   state of the store, the request's own steps lead there, and it got an answer from the
   origin exactly if it is forwarded, unless its body or the WAF failed.
   */
  lemma ServedIsForwarded(
    u: Setup, s: State, id: nat, req: RateRequest, inputs: seq<RateInput>, body: Body, bodyLimit: int, waf: WafOutcome,
    resp: Response, e: Event) returns (steps: seq<Step>)
    requires u.Valid() && id !in s.requests && id !in s.reading && |inputs| == |u.Rules()|
    requires u.failClosed || forall i :: 0 <= i < |inputs| ==> inputs[i].fault == NoFault
    requires Outcome(u.app, req, u.hash, inputs, StoreOf(u, s), u.failClosed, body, bodyLimit, waf, resp, e)
    ensures IsRun(u, s, steps)
    ensures var end, rest := After(u, s, steps), Rest(Exceeds(body, bodyLimit), waf);
            && id in end.requests && end.requests[id].Decided? && end.requests[id].req == req
            && (resp == FromOrigin ==> Forwarded(u, end, id, rest))
            && (Forwarded(u, end, id, rest) ==>
                  || resp == FromOrigin || Unreadable(body, bodyLimit)
                  || (waf == WafError && WafAsked(DecidedStages(u, end.requests[id], rest))))
            && (!Unreadable(body, bodyLimit) && !EvaluateIp(u.app, req.ctx.clientIp).WouldBlock() ==>
                  StoreOf(u, end) == StoreServed(u.app, req, u.hash, inputs, StoreOf(u, s), u.failClosed, body, bodyLimit))
  {
    var s' := Apply(u, s, Arrive(id, req));
    assert u.Rules()[0..] == u.Rules();
    var asks := UndisturbedAsks(u, s', id, inputs);
    StepThen(u, s, Arrive(id, req), asks);
    steps := [Arrive(id, req)] + asks;
    assert StoreOf(u, s') == StoreOf(u, s);
    var end := After(u, s, steps);
    assert end == After(u, s', asks);
    var rest := Rest(Exceeds(body, bodyLimit), waf);
    assert DecidedStages(u, end.requests[id], rest)
        == StagesOf(u.app, req, u.hash, inputs, StoreOf(u, s), u.failClosed, Exceeds(body, bodyLimit), waf);
  }

  // ---------------------------------------------------------------- the bound

  /** Forwarded requests that the rule counts, all on the counters of one digest `h`. */
  ghost predicate Matching(u: Setup, s: State, ids: set<nat>, rest: nat -> Rest, h: string)
    requires u.Valid()
  {
    forall id :: id in ids ==>
      Forwarded(u, s, id, rest(id)) && Subject(u.app, u.Rule(), s.requests[id].req)
      && u.hash(KeyPart(u.Rule(), s.requests[id].req)) == h
  }

  function WindowKey(u: Setup, h: string, index: nat): string
    requires u.target < |u.Rules()|
  {
    LimiterKeys.Key(u.app.tenantId, u.app.id, u.Rule().id, h, index)
  }

  /** In block mode a forwarded request that the rule counts was admitted by it, on the counter of its own clock reading. */
  lemma ForwardedWasAdmitted(u: Setup, s: State, id: nat, rest: Rest)
    requires u.Valid() && Reachable(u, s) && u.app.mode == BlockMode
    requires Forwarded(u, s, id, rest) && Subject(u.app, u.Rule(), s.requests[id].req)
    ensures Admitted(u, s, id, s.requests[id].req)
  {
    ReachableInv(u, s);
    FinalByStages(DecidedStages(u, s.requests[id], rest), u.app.defaultAction);
    assert RequestOk(u, s, id);
  }

  lemma {:induction false} SubsetSize(a: set<nat>, b: set<nat>)
    requires a <= b
    ensures |a| <= |b|
  {
    if a != {} {
      var x :| x in a;
      SubsetSize(a - {x}, b - {x});
    }
  }

  /** How many times the store made the counter of a window. */
  function WindowLives(u: Setup, s: State, h: string, index: nat): nat
    requires u.target < |u.Rules()|
  {
    StoreLives(u.inRedis, s.calls, WindowKey(u, h, index))
  }

  /**
   In any run, in block mode, with a store that never fails or fails closed: of the
   requests a blocking rule counts on one key in one window, at most the limit reach the
   origin for each life of the key, provided every enabled rule asked before it blocks too.
   */
  lemma AtMostLimitPerLife(u: Setup, s: State, ids: set<nat>, rest: nat -> Rest, h: string, index: nat)
    requires u.Valid() && u.app.mode == BlockMode && Reachable(u, s) && Matching(u, s, ids, rest, h)
    requires forall id :: id in ids && id in s.reading ==> WindowIndex(s.reading[id], u.Rule().windowSeconds) == index
    ensures |ids| <= WindowLives(u, s, h, index) * u.Rule().limit
  {
    var key := WindowKey(u, h, index);
    forall id | id in ids ensures id in Passed(s, key) {
      AdmittedOnKey(u, s, id, rest(id), h, index);
    }
    SubsetSize(ids, Passed(s, key));
    KeyAdmits(u, s, key);
  }

  lemma AdmittedOnKey(u: Setup, s: State, id: nat, rest: Rest, h: string, index: nat)
    requires u.Valid() && u.app.mode == BlockMode && Reachable(u, s)
    requires Forwarded(u, s, id, rest) && Subject(u.app, u.Rule(), s.requests[id].req)
    requires u.hash(KeyPart(u.Rule(), s.requests[id].req)) == h
    requires id in s.reading ==> WindowIndex(s.reading[id], u.Rule().windowSeconds) == index
    ensures id in Passed(s, WindowKey(u, h, index))
  {
    ForwardedWasAdmitted(u, s, id, rest);
  }

  /** A counter admits at most the limit in each of its lives. */
  lemma KeyAdmits(u: Setup, s: State, key: string)
    requires u.Valid() && Reachable(u, s)
    ensures |Passed(s, key)| <= StoreLives(u.inRedis, s.calls, key) * u.Rule().limit
  {
    ReachableInv(u, s);
    assert Bounded(u, s, key);
    var lives, limit := StoreLives(u.inRedis, s.calls, key), u.Rule().limit;
    assert lives > 0 ==> (lives - 1) * limit + limit == lives * limit;
  }

  /** The counter lived once: Redis executed each increment on it within the lifetime set by the first; memory forgets nothing. */
  ghost predicate Prompt(u: Setup, s: State, h: string, index: nat)
    requires u.target < |u.Rules()|
  {
    u.inRedis ==> TimelyFor(s.calls, WindowKey(u, h, index))
  }

  /** Exactly then does the window's counter have one life. */
  lemma PromptIffOneLife(u: Setup, s: State, h: string, index: nat)
    requires u.target < |u.Rules()|
    ensures Prompt(u, s, h, index) <==> WindowLives(u, s, h, index) <= 1
  {
    OneLifeIff(s.calls, WindowKey(u, h, index));
  }

  /** It is enough that each increment is executed in the window it was counted for. */
  lemma OwnWindowIsPrompt(u: Setup, s: State, h: string, index: nat)
    requires u.target < |u.Rules()| && u.Rule().windowSeconds > 0
    requires InOwnWindow(s.calls, WindowKey(u, h, index), index, u.Rule().windowSeconds)
    ensures Prompt(u, s, h, index)
  {
    InOwnWindowIsTimely(s.calls, WindowKey(u, h, index), index, u.Rule().windowSeconds);
  }

  /** With prompt increments, at most the limit of them reach the origin per window. */
  lemma AtMostLimitPerWindow(u: Setup, s: State, ids: set<nat>, rest: nat -> Rest, h: string, index: nat)
    requires u.Valid() && u.app.mode == BlockMode && Reachable(u, s) && Matching(u, s, ids, rest, h)
    requires forall id :: id in ids && id in s.reading ==> WindowIndex(s.reading[id], u.Rule().windowSeconds) == index
    requires Prompt(u, s, h, index)
    ensures |ids| <= u.Rule().limit
  {
    AtMostLimitPerLife(u, s, ids, rest, h, index);
    PromptIffOneLife(u, s, h, index);
    MulMonotone(WindowLives(u, s, h, index), 1, u.Rule().limit);
  }

  function CeilDiv(n: nat, d: nat): nat
    requires d > 0
  {
    (n + d - 1) / d
  }

  ghost function Slice(ids: set<nat>, window: map<nat, nat>, i: int): set<nat>
    requires ids <= window.Keys
  {
    set id | id in ids && window[id] == i
  }

  /** A set whose members fall into `hi - lo + 1` slices of at most `most` each. */
  lemma {:induction false} SlicesBound(ids: set<nat>, window: map<nat, nat>, lo: int, hi: int, most: nat)
    requires ids <= window.Keys && lo <= hi + 1 && forall id :: id in ids ==> lo <= window[id] <= hi
    requires forall i :: lo <= i <= hi ==> |Slice(ids, window, i)| <= most
    ensures |ids| <= (hi - lo + 1) * most
    decreases hi - lo
  {
    if lo > hi {
      assert ids == {};
    } else {
      var last := Slice(ids, window, hi);
      var others := ids - last;
      forall i | lo <= i <= hi - 1 ensures |Slice(others, window, i)| <= most {
        assert Slice(others, window, i) == Slice(ids, window, i);
      }
      SlicesBound(others, window, lo, hi - 1, most);
      assert ids == others + last;
      assert (hi - lo + 1) * most == (hi - lo) * most + most;
    }
  }

  lemma ManyWindows(u: Setup, s: State, ids: set<nat>, rest: nat -> Rest, h: string, lo: nat, hi: nat, lives: nat)
    requires u.Valid() && u.app.mode == BlockMode && Reachable(u, s) && Matching(u, s, ids, rest, h)
    requires lo <= hi + 1 && u.Rule().windowSeconds > 0
    requires forall id :: id in ids ==> id in s.reading && lo <= WindowIndex(s.reading[id], u.Rule().windowSeconds) <= hi
    requires forall i: nat :: lo <= i <= hi ==> WindowLives(u, s, h, i) <= lives
    ensures |ids| <= (hi - lo + 1) * (lives * u.Rule().limit)
  {
    var w, most := u.Rule().windowSeconds, lives * u.Rule().limit;
    var window := map id | id in ids :: WindowIndex(s.reading[id], w);
    forall i: int | lo <= i <= hi ensures |Slice(ids, window, i)| <= most {
      AtMostLimitPerLife(u, s, Slice(ids, window, i), rest, h, i);
      MulMonotone(WindowLives(u, s, h, i), lives, u.Rule().limit);
    }
    SlicesBound(ids, window, lo, hi, most);
  }

  lemma WindowsInSpan(start: nat, seconds: nat, w: nat)
    requires w > 0
    ensures WindowIndex(start + 1000 * seconds, w) <= WindowIndex(start, w) + CeilDiv(seconds, w)
  {
    var q, c := start / 1000, CeilDiv(seconds, w);
    assert (start + 1000 * seconds) / 1000 == q + seconds;
    DivideBounds(q, w);
    DivideBounds(q + seconds, w);
    DivideBounds(seconds + w - 1, w);
    var i, j := q / w, (q + seconds) / w;
    assert j * w <= q + seconds && q < i * w + w && seconds <= c * w;
    assert (j - i - c) * w == j * w - i * w - c * w;
    MulMonotone(1, j - i - c, w);
  }

  lemma WindowMonotone(a: nat, b: nat, w: nat)
    requires w > 0 && a <= b
    ensures WindowIndex(a, w) <= WindowIndex(b, w)
  {
    var i, j := WindowIndex(a, w), WindowIndex(b, w);
    DivideBounds(a / 1000, w);
    DivideBounds(b / 1000, w);
    MulMonotone(j + 1, i, w);
  }

  /**
   Over any span of `seconds` seconds of clock readings, if the store makes no counter of
   the rule more than `lives` times, at most (ceil(seconds / W) + 1) * lives times the
   limit of those requests reach the origin.
   */
  lemma AtMostLivesPerSpan(
    u: Setup, s: State, ids: set<nat>, rest: nat -> Rest, h: string, start: nat, seconds: nat, lives: nat)
    requires u.Valid() && u.app.mode == BlockMode && Reachable(u, s) && Matching(u, s, ids, rest, h)
    requires forall id :: id in ids && id in s.reading ==> start <= s.reading[id] <= start + 1000 * seconds
    requires forall i: nat :: WindowLives(u, s, h, i) <= lives
    ensures u.Rule().windowSeconds > 0
    ensures |ids| <= (CeilDiv(seconds, u.Rule().windowSeconds) + 1) * (lives * u.Rule().limit)
  {
    assert u.Rule() in u.Rules();
    var w, most := u.Rule().windowSeconds, lives * u.Rule().limit;
    var lo, hi := WindowIndex(start, w), WindowIndex(start + 1000 * seconds, w);
    ReadingsBetween(u, s, ids, rest, h, start, start + 1000 * seconds);
    WindowMonotone(start, start + 1000 * seconds, w);
    ManyWindows(u, s, ids, rest, h, lo, hi, lives);
    SpanProduct(start, seconds, w, most);
  }

  lemma ReadingsBetween(u: Setup, s: State, ids: set<nat>, rest: nat -> Rest, h: string, first: nat, last: nat)
    requires u.Valid() && u.app.mode == BlockMode && Reachable(u, s) && Matching(u, s, ids, rest, h) && u.Rule().windowSeconds > 0
    requires forall id :: id in ids && id in s.reading ==> first <= s.reading[id] <= last
    ensures var w := u.Rule().windowSeconds;
            forall id :: id in ids ==>
              id in s.reading && WindowIndex(first, w) <= WindowIndex(s.reading[id], w) <= WindowIndex(last, w)
  {
    var w := u.Rule().windowSeconds;
    forall id | id in ids
      ensures id in s.reading && WindowIndex(first, w) <= WindowIndex(s.reading[id], w) <= WindowIndex(last, w)
    {
      ForwardedWasAdmitted(u, s, id, rest(id));
      WindowBetween(first, s.reading[id], last, w);
    }
  }

  lemma WindowBetween(a: nat, b: nat, c: nat, w: nat)
    requires w > 0 && a <= b <= c
    ensures WindowIndex(a, w) <= WindowIndex(b, w) <= WindowIndex(c, w)
  {
    WindowMonotone(a, b, w);
    WindowMonotone(b, c, w);
  }

  lemma SpanProduct(start: nat, seconds: nat, w: nat, most: nat)
    requires w > 0
    ensures (WindowIndex(start + 1000 * seconds, w) - WindowIndex(start, w) + 1) * most <= (CeilDiv(seconds, w) + 1) * most
  {
    WindowsInSpan(start, seconds, w);
    if most > 0 {
      MulMonotone(WindowIndex(start + 1000 * seconds, w) - WindowIndex(start, w) + 1, CeilDiv(seconds, w) + 1, most);
    }
  }

  /** With prompt increments, at most (ceil(seconds / W) + 1) times the limit. */
  lemma AtMostLimitPerSpan(u: Setup, s: State, ids: set<nat>, rest: nat -> Rest, h: string, start: nat, seconds: nat)
    requires u.Valid() && u.app.mode == BlockMode && Reachable(u, s) && Matching(u, s, ids, rest, h)
    requires forall id :: id in ids && id in s.reading ==> start <= s.reading[id] <= start + 1000 * seconds
    requires forall i: nat :: Prompt(u, s, h, i)
    ensures u.Rule().windowSeconds > 0
    ensures |ids| <= (CeilDiv(seconds, u.Rule().windowSeconds) + 1) * u.Rule().limit
  {
    forall i: nat ensures WindowLives(u, s, h, i) <= 1 {
      PromptIffOneLife(u, s, h, i);
    }
    AtMostLivesPerSpan(u, s, ids, rest, h, start, seconds, 1);
    assert 1 * u.Rule().limit == u.Rule().limit;
  }
}

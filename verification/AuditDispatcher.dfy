/**
 The audit dispatcher (services/gateway/internal/audit/audit.go): any number of concurrent
 `Log` calls feed a bounded queue that one worker drains into every sink, until `Shutdown`
 closes the queue. Every atomic step of the code is a step here; the environment chooses
 the sinks' answers.
 */
module AuditDispatcher {
  import opened Decisions

  datatype Event = Event(requestId: string, action: Action)

  /** Where a `Log` call is; the last three are its ways to end. A send on the closed queue panics. */
  datatype Progress = Entered | Counted | FoundFull | Accepted | Dropped | Panicked

  datatype Call = Call(event: Event, progress: Progress)

  datatype Entry = Entry(call: nat, event: Event)

  datatype Worker = Idle | Writing(entry: Entry, answers: seq<bool>, sent: bool) | Done

  /** `sinks` and `capacity` are fixed; `calls`, `accepted`, `processed`, `answers` and `offers` are history. */
  datatype State = State(
    capacity: nat,
    sinks: nat,
    queue: seq<Entry>,
    closed: bool,
    worker: Worker,
    blockedTotal: nat,
    allowedTotal: nat,
    droppedTotal: nat,
    sentTotal: nat,
    calls: map<nat, Call>,
    accepted: seq<Entry>,
    processed: seq<Entry>,
    answers: seq<seq<bool>>,
    offers: seq<seq<Entry>>)

  datatype Step =
    | Log(t: nat, event: Event)
    | CountCall(t: nat)
    | Send(t: nat)
    | CountDrop(t: nat)
    | Close
    | Receive
    | WriteSink(ok: bool)
    | EndWrite
    | Finish

  predicate At(s: State, t: nat, progress: Progress) {
    t in s.calls && s.calls[t].progress == progress
  }

  predicate Enabled(s: State, step: Step) {
    match step
    case Log(t, _) => t !in s.calls
    case CountCall(t) => At(s, t, Entered)
    case Send(t) => At(s, t, Counted)
    case CountDrop(t) => At(s, t, FoundFull)
    case Close => !s.closed
    case Receive => s.worker.Idle? && s.queue != []
    case WriteSink(_) => s.worker.Writing? && |s.worker.answers| < s.sinks <= |s.offers|
    case EndWrite => s.worker.Writing? && |s.worker.answers| == s.sinks
    case Finish => s.worker.Idle? && s.queue == [] && s.closed
  }

  /** Counted by `blockedRequestsTotal`, not `allowedRequestsTotal`. */
  predicate CountsAsBlocked(e: Event) {
    e.action == Block || e.action == RateLimited
  }

  function Moved(calls: map<nat, Call>, t: nat, progress: Progress): map<nat, Call>
    requires t in calls
  {
    calls[t := calls[t].(progress := progress)]
  }

  function Apply(s: State, step: Step): State
    requires Enabled(s, step)
  {
    match step
    case Log(t, event) => s.(calls := s.calls[t := Call(event, Entered)])
    case CountCall(t) =>
      var counted := s.(calls := Moved(s.calls, t, Counted));
      if CountsAsBlocked(s.calls[t].event) then counted.(blockedTotal := s.blockedTotal + 1)
      else counted.(allowedTotal := s.allowedTotal + 1)
    case Send(t) =>
      if s.closed then s.(calls := Moved(s.calls, t, Panicked))
      else if |s.queue| < s.capacity then
        var entry := Entry(t, s.calls[t].event);
        s.(calls := Moved(s.calls, t, Accepted), queue := s.queue + [entry], accepted := s.accepted + [entry])
      else s.(calls := Moved(s.calls, t, FoundFull))
    case CountDrop(t) => s.(calls := Moved(s.calls, t, Dropped), droppedTotal := s.droppedTotal + 1)
    case Close => s.(closed := true)
    case Receive => s.(queue := s.queue[1..], worker := Writing(s.queue[0], [], false))
    case WriteSink(ok) =>
      var w, k := s.worker, |s.worker.answers|;
      s.(worker := w.(answers := w.answers + [ok], sent := w.sent || ok), offers := s.offers[k := s.offers[k] + [w.entry]])
    case EndWrite =>
      s.(worker := Idle, processed := s.processed + [s.worker.entry], answers := s.answers + [s.worker.answers],
         sentTotal := s.sentTotal + if s.worker.sent then 1 else 0)
    case Finish => s.(worker := Done)
  }

  predicate IsRun(s: State, steps: seq<Step>)
    decreases |steps|
  {
    steps == [] || (Enabled(s, steps[0]) && IsRun(Apply(s, steps[0]), steps[1..]))
  }

  function After(s: State, steps: seq<Step>): State
    requires IsRun(s, steps)
    decreases |steps|
  {
    if steps == [] then s else After(Apply(s, steps[0]), steps[1..])
  }

  /** What `NewDispatcher` sets up; it refuses a queue size or a number of sinks that is not positive. */
  function Init(capacity: nat, sinks: nat): State {
    State(capacity, sinks, [], false, Idle, 0, 0, 0, 0, map[], [], [], [], seq(sinks, _ => []))
  }

  ghost predicate Reachable(s: State) {
    exists capacity: nat, sinks: nat, steps: seq<Step> ::
      capacity > 0 && sinks > 0 && IsRun(Init(capacity, sinks), steps) && s == After(Init(capacity, sinks), steps)
  }

  // ---------------------------------------------------------------- the calls and their counters

  function Those(calls: map<nat, Call>, p: Call -> bool): set<nat> {
    set t | t in calls && p(calls[t])
  }

  function Is(progress: Progress): Call -> bool {
    (c: Call) => c.progress == progress
  }

  function CountedAs(blocked: bool): Call -> bool {
    (c: Call) => c.progress != Entered && CountsAsBlocked(c.event) == blocked
  }

  function InProgress(): Call -> bool {
    (c: Call) => c.progress == Entered || c.progress == Counted || c.progress == FoundFull
  }

  lemma ThoseUpdate(calls: map<nat, Call>, t: nat, c: Call, p: Call -> bool)
    ensures |Those(calls[t := c], p)| == |Those(calls, p)| - (if t in calls && p(calls[t]) then 1 else 0) + (if p(c) then 1 else 0)
  {
    var before, after := Those(calls, p), Those(calls[t := c], p);
    forall u ensures u in after - {t} <==> u in before - {t} {
    }
    SameBut(before, after, t);
  }

  lemma SameBut(a: set<nat>, b: set<nat>, t: nat)
    requires forall u :: u in b - {t} <==> u in a - {t}
    ensures |b| == |a| - (if t in a then 1 else 0) + (if t in b then 1 else 0)
  {
    Remove(a, t);
    Remove(b, t);
    assert b - {t} == a - {t};
  }

  lemma Remove(s: set<nat>, t: nat)
    ensures |s - {t}| == |s| - if t in s then 1 else 0
  {
    if t !in s { assert s - {t} == s; }
  }

  ghost predicate CountersOk(s: State) {
    && s.blockedTotal == |Those(s.calls, CountedAs(true))|
    && s.allowedTotal == |Those(s.calls, CountedAs(false))|
    && s.droppedTotal == |Those(s.calls, Is(Dropped))|
    && |s.accepted| == |Those(s.calls, Is(Accepted))|
    && (!s.closed ==> forall t :: t in s.calls ==> !s.calls[t].progress.Panicked?)
  }

  lemma CallMoves(s: State, t: nat, c: Call, s': State)
    requires CountersOk(s) && s'.calls == s.calls[t := c] && s'.closed == s.closed
    requires t in s.calls ==> s.calls[t].event == c.event && !s.calls[t].progress.Accepted? && !s.calls[t].progress.Dropped?
    requires c.progress.Panicked? ==> s.closed
    requires var uncounted := t !in s.calls || s.calls[t].progress.Entered?;
             var counts := uncounted && !c.progress.Entered?;
             && (c.progress.Entered? ==> uncounted)
             && s'.blockedTotal == s.blockedTotal + (if counts && CountsAsBlocked(c.event) then 1 else 0)
             && s'.allowedTotal == s.allowedTotal + (if counts && !CountsAsBlocked(c.event) then 1 else 0)
    requires s'.droppedTotal == s.droppedTotal + (if c.progress.Dropped? then 1 else 0)
    requires |s'.accepted| == |s.accepted| + (if c.progress.Accepted? then 1 else 0)
    ensures CountersOk(s')
  {
    ThoseUpdate(s.calls, t, c, CountedAs(true));
    ThoseUpdate(s.calls, t, c, CountedAs(false));
    ThoseUpdate(s.calls, t, c, Is(Dropped));
    ThoseUpdate(s.calls, t, c, Is(Accepted));
  }

  lemma CountersStep(s: State, step: Step)
    requires CountersOk(s) && Enabled(s, step)
    ensures CountersOk(Apply(s, step))
  {
    match step
    case Log(t, e) => CallMoves(s, t, Call(e, Entered), Apply(s, step));
    case CountCall(t) => CallMoves(s, t, s.calls[t].(progress := Counted), Apply(s, step));
    case Send(t) => CallMoves(s, t, Apply(s, step).calls[t], Apply(s, step));
    case CountDrop(t) => CallMoves(s, t, s.calls[t].(progress := Dropped), Apply(s, step));
    case _ =>
  }

  // ---------------------------------------------------------------- the queue and the worker

  function InFlight(w: Worker): seq<Entry> {
    if w.Writing? then [w.entry] else []
  }

  /** The events of which some sink took delivery. */
  function Delivered(answers: seq<seq<bool>>): nat {
    if answers == [] then 0 else Delivered(answers[..|answers| - 1]) + if true in answers[|answers| - 1] then 1 else 0
  }

  ghost predicate QueueOk(s: State) {
    && s.capacity > 0 && s.sinks > 0 && |s.queue| <= s.capacity
    && s.accepted == s.processed + InFlight(s.worker) + s.queue
    && (s.worker.Done? ==> s.closed && s.queue == [])
  }

  ghost predicate WorkerOk(s: State) {
    && |s.answers| == |s.processed| && (forall i :: 0 <= i < |s.answers| ==> |s.answers[i]| == s.sinks)
    && s.sentTotal == Delivered(s.answers)
    && (s.worker.Writing? ==> |s.worker.answers| <= s.sinks && (s.worker.sent <==> true in s.worker.answers))
    && |s.offers| == s.sinks
    && (forall k :: 0 <= k < s.sinks ==>
          s.offers[k] == s.processed + if s.worker.Writing? && k < |s.worker.answers| then [s.worker.entry] else [])
  }

  /** The accepted entries are exactly the calls that got through, once each, with their events. */
  ghost predicate AcceptedOk(s: State) {
    && (forall i :: 0 <= i < |s.accepted| ==> s.accepted[i].call in s.calls && s.calls[s.accepted[i].call] == Call(s.accepted[i].event, Accepted))
    && (forall i, j :: 0 <= i < j < |s.accepted| ==> s.accepted[i].call != s.accepted[j].call)
    && (forall t :: At(s, t, Accepted) ==> Entry(t, s.calls[t].event) in s.accepted)
  }

  ghost predicate Inv(s: State) {
    CountersOk(s) && QueueOk(s) && WorkerOk(s) && AcceptedOk(s)
  }

  lemma QueueStep(s: State, step: Step)
    requires QueueOk(s) && Enabled(s, step)
    ensures QueueOk(Apply(s, step))
  {
  }

  lemma WorkerStep(s: State, step: Step)
    requires s.sinks > 0 && WorkerOk(s) && Enabled(s, step)
    ensures WorkerOk(Apply(s, step))
  {
    match step
    case WriteSink(ok) => SinkStep(s, ok);
    case EndWrite => EndStep(s);
    case _ =>
  }

  lemma SinkStep(s: State, ok: bool)
    requires WorkerOk(s) && Enabled(s, WriteSink(ok))
    ensures WorkerOk(Apply(s, WriteSink(ok)))
  {
  }

  lemma EndStep(s: State)
    requires WorkerOk(s) && Enabled(s, EndWrite)
    ensures WorkerOk(Apply(s, EndWrite))
  {
    assert (s.answers + [s.worker.answers])[..|s.answers|] == s.answers;
  }

  lemma AcceptedStep(s: State, step: Step)
    requires AcceptedOk(s) && Enabled(s, step)
    ensures AcceptedOk(Apply(s, step))
  {
    match step
    case Send(t) => AcceptedSend(s, t);
    case _ =>
  }

  lemma AcceptedSend(s: State, t: nat)
    requires AcceptedOk(s) && Enabled(s, Send(t))
    ensures AcceptedOk(Apply(s, Send(t)))
  {
  }

  lemma {:induction false} InvRun(s: State, steps: seq<Step>)
    requires Inv(s) && IsRun(s, steps)
    ensures Inv(After(s, steps))
    decreases |steps|
  {
    if steps != [] {
      CountersStep(s, steps[0]);
      QueueStep(s, steps[0]);
      WorkerStep(s, steps[0]);
      AcceptedStep(s, steps[0]);
      InvRun(Apply(s, steps[0]), steps[1..]);
    }
  }

  lemma ReachableInv(s: State)
    requires Reachable(s)
    ensures Inv(s)
  {
    var capacity: nat, sinks: nat, steps: seq<Step> :|
      capacity > 0 && sinks > 0 && IsRun(Init(capacity, sinks), steps) && s == After(Init(capacity, sinks), steps);
    InvInit(capacity, sinks);
    InvRun(Init(capacity, sinks), steps);
  }

  lemma InvInit(capacity: nat, sinks: nat)
    requires capacity > 0 && sinks > 0
    ensures Inv(Init(capacity, sinks))
  {
    var none: map<nat, Call> := map[];
    assert Those(none, CountedAs(true)) == {} && Those(none, CountedAs(false)) == {};
    assert Those(none, Is(Dropped)) == {} && Those(none, Is(Accepted)) == {};
  }

  // ---------------------------------------------------------------- what every run keeps

  lemma Divide(all: set<nat>, a: set<nat>, b: set<nat>)
    requires (forall t :: t in all <==> t in a || t in b) && a !! b
    ensures |all| == |a| + |b|
  {
    assert all == a + b;
  }

  lemma PartitionByEnd(calls: map<nat, Call>)
    ensures |calls| == |Those(calls, InProgress())| + |Those(calls, Is(Accepted))| + |Those(calls, Is(Dropped))| + |Those(calls, Is(Panicked))|
  {
    var ended := set t | t in calls && !InProgress()(calls[t]);
    Divide(calls.Keys, Those(calls, InProgress()), ended);
    EndsApart(calls, ended);
    assert |calls| == |calls.Keys|;
  }

  lemma EndsApart(calls: map<nat, Call>, ended: set<nat>)
    requires forall t :: t in ended <==> t in calls && !InProgress()(calls[t])
    ensures |ended| == |Those(calls, Is(Accepted))| + |Those(calls, Is(Dropped))| + |Those(calls, Is(Panicked))|
  {
    var missed := set t | t in ended && calls[t].progress != Accepted;
    Divide(ended, Those(calls, Is(Accepted)), missed);
    Divide(missed, Those(calls, Is(Dropped)), Those(calls, Is(Panicked)));
  }

  lemma PartitionByCounter(calls: map<nat, Call>)
    ensures |calls| == |Those(calls, Is(Entered))| + |Those(calls, CountedAs(true))| + |Those(calls, CountedAs(false))|
  {
    var counted := set t | t in calls && !calls[t].progress.Entered?;
    Divide(calls.Keys, Those(calls, Is(Entered)), counted);
    Divide(counted, Those(calls, CountedAs(true)), Those(calls, CountedAs(false)));
    assert |calls| == |calls.Keys|;
  }

  /**
   No event is lost without trace or counted twice, in any interleaving: every call is
   still going on, accepted, dropped, or hit the closed queue, and is counted as blocked
   or allowed once it is past its first step.
   */
  lemma CallsAreConserved(s: State)
    requires Reachable(s)
    ensures |s.calls| == |Those(s.calls, InProgress())| + |s.accepted| + s.droppedTotal + |Those(s.calls, Is(Panicked))|
    ensures |s.calls| == |Those(s.calls, Is(Entered))| + s.blockedTotal + s.allowedTotal
    ensures !s.closed && Those(s.calls, InProgress()) == {} ==>
              |s.calls| == |s.accepted| + s.droppedTotal == s.blockedTotal + s.allowedTotal
  {
    ReachableInv(s);
    PartitionByEnd(s.calls);
    PartitionByCounter(s.calls);
    assert Those(s.calls, Is(Entered)) <= Those(s.calls, InProgress());
    assert !s.closed ==> Those(s.calls, Is(Panicked)) == {};
  }

  /** The calls that are past their first step with one of these actions, or without. */
  function With(calls: map<nat, Call>, actions: set<Action>): set<nat> {
    set t | t in calls && calls[t].progress != Entered && calls[t].event.action in actions
  }

  function Without(calls: map<nat, Call>, actions: set<Action>): set<nat> {
    set t | t in calls && calls[t].progress != Entered && calls[t].event.action !in actions
  }

  /** What the two totals count: a blocked or rate-limited request by the one, every other request by the other. */
  lemma TotalsAreExact(s: State)
    requires Reachable(s)
    ensures s.blockedTotal == |With(s.calls, {Block, RateLimited})| && s.allowedTotal == |Without(s.calls, {Block, RateLimited})|
  {
    ReachableInv(s);
    TotalsApart(s.calls);
  }

  lemma TotalsApart(calls: map<nat, Call>)
    ensures Those(calls, CountedAs(true)) == With(calls, {Block, RateLimited})
    ensures Those(calls, CountedAs(false)) == Without(calls, {Block, RateLimited})
  {
  }

  /** `Log` calls that are over before `Shutdown`, and none after it: then nothing hits the closed queue. */
  lemma {:induction false} NoLateLogNoPanic(s: State, steps: seq<Step>)
    requires IsRun(s, steps) && Those(s.calls, InProgress()) == {} && forall i :: 0 <= i < |steps| ==> !steps[i].Log?
    ensures After(s, steps).calls == s.calls
    decreases |steps|
  {
    if steps != [] {
      assert !steps[0].Log?;
      forall t | t in s.calls ensures !InProgress()(s.calls[t]) {
        assert t !in Those(s.calls, InProgress());
      }
      NoLateLogNoPanic(Apply(s, steps[0]), steps[1..]);
    }
  }

  /** The bounded queue is first-in first-out, end to end, and holds just the accepted calls. */
  lemma QueueIsFifo(s: State)
    requires Reachable(s)
    ensures s.accepted == s.processed + InFlight(s.worker) + s.queue && |s.queue| <= s.capacity
    ensures forall t, e :: Entry(t, e) in s.accepted <==> t in s.calls && s.calls[t] == Call(e, Accepted)
    ensures forall i, j :: 0 <= i < j < |s.accepted| ==> s.accepted[i].call != s.accepted[j].call
  {
    ReachableInv(s);
    forall t, e | t in s.calls && s.calls[t] == Call(e, Accepted) ensures Entry(t, e) in s.accepted {
      assert At(s, t, Accepted);
    }
  }

  function Successes(answers: seq<seq<bool>>): set<int> {
    set i | 0 <= i < |answers| && true in answers[i]
  }

  lemma {:induction false} DeliveredCounts(answers: seq<seq<bool>>)
    ensures Delivered(answers) == |Successes(answers)|
  {
    if answers != [] {
      var n := |answers| - 1;
      DeliveredCounts(answers[..n]);
      assert Successes(answers) == Successes(answers[..n]) + if true in answers[n] then {n} else {};
    }
  }

  /** `eventsSentTotal` is the number of finished events some sink took; failures of other sinks do not matter. */
  lemma SentIsExact(s: State)
    requires Reachable(s)
    ensures |s.answers| == |s.processed| && forall i :: 0 <= i < |s.answers| ==> |s.answers[i]| == s.sinks
    ensures s.sentTotal == |Successes(s.answers)|
  {
    ReachableInv(s);
    DeliveredCounts(s.answers);
  }

  /** Once the worker is done, every accepted event was offered to every sink once, in the order of acceptance. */
  lemma DrainedWhenDone(s: State)
    requires Reachable(s) && s.worker.Done?
    ensures s.closed && s.queue == [] && s.processed == s.accepted
    ensures |s.offers| == s.sinks && forall k :: 0 <= k < s.sinks ==> s.offers[k] == s.accepted
  {
    ReachableInv(s);
  }

  /** With no `Log` call during or after `Shutdown` the books balance, and when the worker is done every sink has seen it all. */
  lemma CleanShutdown(s: State, steps: seq<Step>)
    requires Reachable(s) && !s.closed && Those(s.calls, InProgress()) == {}
    requires IsRun(s, steps) && forall i :: 0 <= i < |steps| ==> !steps[i].Log?
    ensures var s' := After(s, steps);
            && |s'.calls| == |s'.accepted| + s'.droppedTotal == s'.blockedTotal + s'.allowedTotal
            && (s'.worker.Done? ==> |s'.offers| == s'.sinks && forall k :: 0 <= k < s'.sinks ==> s'.offers[k] == s'.accepted)
  {
    ReachableInv(s);
    CallsAreConserved(s);
    InvRun(s, steps);
    NoLateLogNoPanic(s, steps);
  }

  // ---------------------------------------------------------------- Shutdown comes to an end

  predicate OfWorker(step: Step) {
    step.Receive? || step.WriteSink? || step.EndWrite? || step.Finish?
  }

  /** An upper bound on the worker's remaining steps once the queue is closed. */
  function Remaining(s: State): int {
    |s.queue| * (s.sinks + 2)
    + (match s.worker case Done => 0 case Idle => 1 case Writing(_, answers, _) => s.sinks - |answers| + 2)
  }

  /** After `Shutdown` the worker never stalls before it is done. */
  lemma WorkerProceeds(s: State) returns (step: Step)
    requires Reachable(s) && s.closed && !s.worker.Done?
    ensures Remaining(s) > 0 && OfWorker(step) && Enabled(s, step)
  {
    ReachableInv(s);
    match s.worker
    case Idle => step := if s.queue == [] then Finish else Receive;
    case Writing(_, answers, _) => step := if |answers| == s.sinks then EndWrite else WriteSink(true);
  }

  /** Each of its steps brings the end closer, and no other step defers it. */
  lemma RemainingFalls(s: State, step: Step)
    requires Enabled(s, step) && s.closed
    ensures Remaining(Apply(s, step)) == Remaining(s) - if OfWorker(step) then 1 else 0
  {
    if step.Receive? {
      assert |s.queue| * (s.sinks + 2) == (|s.queue| - 1) * (s.sinks + 2) + (s.sinks + 2);
    }
  }

  // ---------------------------------------------------------------- the methods, one at a time

  function Offered(offers: seq<seq<Event>>, e: Event): (r: seq<seq<Event>>)
    ensures |r| == |offers| && forall k :: 0 <= k < |offers| ==> r[k] == offers[k] + [e]
  {
    seq(|offers|, k requires 0 <= k < |offers| => offers[k] + [e])
  }

  /** Some sink takes the event; a sink's answer may depend on what it was offered before. */
  predicate SomeSinkTakes(sinks: seq<(seq<Event>, Event) -> bool>, offers: seq<seq<Event>>, e: Event)
    requires |offers| == |sinks|
  {
    exists k :: 0 <= k < |sinks| && sinks[k](offers[k], e)
  }

  /** What draining the queue adds to `eventsSentTotal`. */
  function SentBy(sinks: seq<(seq<Event>, Event) -> bool>, offers: seq<seq<Event>>, events: seq<Event>): nat
    requires |offers| == |sinks|
    decreases |events|
  {
    if events == [] then 0
    else (if SomeSinkTakes(sinks, offers, events[0]) then 1 else 0) + SentBy(sinks, Offered(offers, events[0]), events[1..])
  }

  /** The dispatcher between two calls, without concurrency; `offers` records what each sink was given. */
  class Dispatcher {
    const capacity: nat
    const sinks: seq<(seq<Event>, Event) -> bool>
    var queue: seq<Event>
    var offers: seq<seq<Event>>
    var blockedTotal: nat
    var allowedTotal: nat
    var droppedTotal: nat
    var sentTotal: nat

    ghost predicate Valid()
      reads this
    {
      |queue| <= capacity && |offers| == |sinks|
    }

    constructor (capacity: nat, sinks: seq<(seq<Event>, Event) -> bool>)
      ensures Valid() && this.capacity == capacity && this.sinks == sinks && queue == [] && offers == seq(|sinks|, _ => [])
      ensures blockedTotal == 0 && allowedTotal == 0 && droppedTotal == 0 && sentTotal == 0
    {
      this.capacity, this.sinks := capacity, sinks;
      queue, offers := [], seq(|sinks|, _ => []);
      blockedTotal, allowedTotal, droppedTotal, sentTotal := 0, 0, 0, 0;
    }

    method Log(e: Event)
      requires Valid()
      modifies this
      ensures Valid() && offers == old(offers) && sentTotal == old(sentTotal)
      ensures blockedTotal == old(blockedTotal) + (if e.action == Block || e.action == RateLimited then 1 else 0)
      ensures blockedTotal + allowedTotal == old(blockedTotal) + old(allowedTotal) + 1
      ensures if old(|queue|) < capacity then queue == old(queue) + [e] && droppedTotal == old(droppedTotal)
              else queue == old(queue) && droppedTotal == old(droppedTotal) + 1
    {
      if e.action == Block || e.action == RateLimited {
        blockedTotal := blockedTotal + 1;
      } else {
        allowedTotal := allowedTotal + 1;
      }
      if |queue| < capacity {
        queue := queue + [e];
      } else {
        droppedTotal := droppedTotal + 1;
      }
    }

    method Write(e: Event)
      requires Valid()
      modifies this`offers, this`sentTotal
      ensures Valid() && offers == Offered(old(offers), e)
      ensures sentTotal == old(sentTotal) + (if SomeSinkTakes(sinks, old(offers), e) then 1 else 0)
    {
      var sent := false;
      for k := 0 to |sinks|
        invariant |offers| == |sinks| && sentTotal == old(sentTotal)
        invariant forall j :: 0 <= j < k ==> offers[j] == old(offers)[j] + [e]
        invariant forall j :: k <= j < |sinks| ==> offers[j] == old(offers)[j]
        invariant sent <==> exists j :: 0 <= j < k && sinks[j](old(offers)[j], e)
      {
        var ok := sinks[k](offers[k], e);
        offers := offers[k := offers[k] + [e]];
        if !ok { continue; }
        sent := true;
      }
      if sent {
        sentTotal := sentTotal + 1;
      }
    }

    /** `run` on a queue that has been closed. */
    method Run()
      requires Valid()
      modifies this`queue, this`offers, this`sentTotal
      ensures Valid() && queue == []
      ensures forall k :: 0 <= k < |sinks| ==> offers[k] == old(offers)[k] + old(queue)
      ensures sentTotal == old(sentTotal) + SentBy(sinks, old(offers), old(queue))
    {
      ghost var done := 0;
      while queue != []
        invariant Valid() && done <= |old(queue)| && queue == old(queue)[done..]
        invariant forall k :: 0 <= k < |sinks| ==> offers[k] == old(offers)[k] + old(queue)[..done]
        invariant sentTotal + SentBy(sinks, offers, queue) == old(sentTotal) + SentBy(sinks, old(offers), old(queue))
        decreases |queue|
      {
        var e := queue[0];
        queue := queue[1..];
        Write(e);
        done := done + 1;
        assert old(queue)[..done] == old(queue)[..done - 1] + [e];
      }
    }
  }
}

/**
 The counters behind the rate limiter (services/gateway/internal/ratelimit/ratelimit.go):
 the in-memory store, and the Redis script that increments a key and gives it a lifetime
 on first use. Times are in milliseconds, the resolution of Redis expiry.
 */
module CounterStores {
  import opened Common

  function Remaining(limit: int, count: int): int {
    if limit - count < 0 then 0 else limit - count
  }

  datatype Reply = Reply(count: int, remaining: int)

  /** One increment: its key, the rule's limit and window, and when the store executes it. */
  datatype Call = Call(key: string, limit: int, windowSeconds: nat, at: int)

  // ---------------------------------------------------------------- the in-memory store

  type Counts = map<string, nat>

  function CountOf(counts: Counts, key: string): nat {
    if key in counts then counts[key] else 0
  }

  function MemoryStep(counts: Counts, key: string): Counts {
    counts[key := CountOf(counts, key) + 1]
  }

  class MemoryStore {
    var counts: Counts

    constructor ()
      ensures counts == map[]
    {
      counts := map[];
    }

    method IncrementFixedWindow(key: string, limit: int) returns (count: int, remaining: int)
      modifies this
      ensures counts == MemoryStep(old(counts), key)
      ensures count == counts[key] && remaining == if limit < count then 0 else limit - count
    {
      if key in counts {
        counts := counts[key := counts[key] + 1];
      } else {
        counts := counts[key := 1];
      }
      remaining := limit - counts[key];
      if remaining < 0 { remaining := 0; }
      count := counts[key];
    }
  }

  // ---------------------------------------------------------------- the Redis script

  type Positive = n: int | n >= 1 witness 1

  /** A key exists from its first increment, so its count is positive. */
  datatype Cell = Cell(count: Positive, expiresAt: int)

  type Cells = map<string, Cell>

  predicate Live(cells: Cells, key: string, now: int) {
    key in cells && now <= cells[key].expiresAt
  }

  function RedisStep(cells: Cells, call: Call): Cells {
    cells[call.key :=
      if Live(cells, call.key, call.at) then cells[call.key].(count := cells[call.key].count + 1)
      else Cell(1, call.at + 1000 * call.windowSeconds)]
  }

  class RedisServer {
    var cells: Cells

    constructor ()
      ensures cells == map[]
    {
      cells := map[];
    }

    /** INCR: an expired key counts as missing; a created key gets its lifetime from the EXPIRE that follows. */
    method Incr(key: string, now: int) returns (current: nat, created: bool)
      modifies this
      ensures created == !Live(old(cells), key, now)
      ensures current == if created then 1 else old(cells)[key].count + 1
      ensures key in cells && cells[key].count == current
      ensures !created ==> cells[key].expiresAt == old(cells)[key].expiresAt
      ensures forall k :: k != key ==> (k in cells <==> k in old(cells)) && (k in cells ==> cells[k] == old(cells)[k])
    {
      created := !(key in cells && now <= cells[key].expiresAt);
      current := if created then 1 else cells[key].count + 1;
      cells := cells[key := Cell(current, if created then now else cells[key].expiresAt)];
    }

    /** `fixedWindowLua`: increment, set the lifetime when the count is one, report the remainder. */
    method FixedWindow(call: Call) returns (count: int, remaining: int)
      modifies this
      ensures cells == RedisStep(old(cells), call)
      ensures count == cells[call.key].count && remaining == if call.limit < count then 0 else call.limit - count
    {
      var current, created := Incr(call.key, call.at);
      if current == 1 {
        cells := cells[call.key := cells[call.key].(expiresAt := call.at + 1000 * call.windowSeconds)];
      }
      remaining := call.limit - current;
      if remaining < 0 { remaining := 0; }
      count := current;
    }
  }

  // ---------------------------------------------------------------- either store

  /** What a limiter counts in: the in-memory map, or Redis, which a configured gateway uses. */
  datatype Store = InMemory(counts: Counts) | InRedis(cells: Cells)

  /** The counter of a key as it stands, 0 without one. */
  function Counted(store: Store, key: string): nat {
    match store
    case InMemory(counts) => CountOf(counts, key)
    case InRedis(cells) => if key in cells then cells[key].count else 0
  }

  /** The count an increment is answered with. */
  function Answered(store: Store, call: Call): nat {
    match store
    case InMemory(counts) => CountOf(counts, call.key) + 1
    case InRedis(cells) => if Live(cells, call.key, call.at) then cells[call.key].count + 1 else 1
  }

  function Incremented(store: Store, call: Call): Store {
    match store
    case InMemory(counts) => InMemory(MemoryStep(counts, call.key))
    case InRedis(cells) => InRedis(RedisStep(cells, call))
  }

  /** The `Store` interface with its two implementations. */
  class CounterStore {
    const inRedis: bool
    const memory: MemoryStore
    const redis: RedisServer

    constructor (inRedis: bool, memory: MemoryStore, redis: RedisServer)
      ensures this.inRedis == inRedis && this.memory == memory && this.redis == redis
    {
      this.inRedis, this.memory, this.redis := inRedis, memory, redis;
    }

    ghost function State(): Store
      reads memory, redis
    {
      if inRedis then InRedis(redis.cells) else InMemory(memory.counts)
    }

    method IncrementFixedWindow(call: Call) returns (count: int, remaining: int)
      modifies memory, redis
      ensures State() == Incremented(old(State()), call)
      ensures count == Answered(old(State()), call) && remaining == Remaining(call.limit, count)
    {
      if inRedis {
        count, remaining := redis.FixedWindow(call);
      } else {
        count, remaining := memory.IncrementFixedWindow(call.key, call.limit);
      }
    }
  }

  // ---------------------------------------------------------------- runs

  function MemoryAfter(calls: seq<Call>): Counts {
    if calls == [] then map[] else MemoryStep(MemoryAfter(calls[..|calls| - 1]), calls[|calls| - 1].key)
  }

  function RedisAfter(calls: seq<Call>): Cells {
    if calls == [] then map[] else RedisStep(RedisAfter(calls[..|calls| - 1]), calls[|calls| - 1])
  }

  /** What the memory store answers to the last of `calls`. */
  function MemoryReply(calls: seq<Call>): Reply
    requires calls != []
  {
    var last := calls[|calls| - 1];
    var count := MemoryAfter(calls)[last.key];
    Reply(count, Remaining(last.limit, count))
  }

  /** What the Redis script answers to the last of `calls`. */
  function RedisReply(calls: seq<Call>): Reply
    requires calls != []
  {
    var last := calls[|calls| - 1];
    var count := RedisAfter(calls)[last.key].count;
    Reply(count, Remaining(last.limit, count))
  }

  /** How many of the calls used `key`. */
  function Uses(calls: seq<Call>, key: string): nat {
    if calls == [] then 0
    else Uses(calls[..|calls| - 1], key) + if calls[|calls| - 1].key == key then 1 else 0
  }

  /** The position of the first call on `key`. */
  function FirstUse(calls: seq<Call>, key: string): (i: nat)
    requires Uses(calls, key) > 0
    ensures i < |calls| && calls[i].key == key
    ensures forall j :: 0 <= j < i ==> calls[j].key != key
  {
    var front := calls[..|calls| - 1];
    if Uses(front, key) > 0 then FirstUse(front, key)
    else
      assert forall j :: 0 <= j < |front| ==> calls[j] == front[j];
      UnusedKey(front, key);
      |calls| - 1
  }

  lemma {:induction false} UnusedKey(calls: seq<Call>, key: string)
    ensures Uses(calls, key) == 0 <==> forall j :: 0 <= j < |calls| ==> calls[j].key != key
  {
    if calls != [] {
      var front := calls[..|calls| - 1];
      UnusedKey(front, key);
      assert forall j :: 0 <= j < |front| ==> calls[j] == front[j];
    }
  }

  /** The k-th call on a key is answered with count k and what is left of the limit after k calls. */
  lemma {:induction false} MemoryCounts(calls: seq<Call>, key: string)
    ensures CountOf(MemoryAfter(calls), key) == Uses(calls, key)
    ensures calls != [] ==>
              var last := calls[|calls| - 1];
              var k := Uses(calls, last.key);
              MemoryReply(calls) == Reply(k, if last.limit < k then 0 else last.limit - k)
  {
    if calls != [] {
      MemoryCounts(calls[..|calls| - 1], key);
      MemoryCounts(calls[..|calls| - 1], calls[|calls| - 1].key);
    }
  }

  /** Every call on a key falls within the lifetime the key's first call gave it. */
  ghost predicate Timely(calls: seq<Call>) {
    forall j :: 0 <= j < |calls| ==> TimelyAt(calls, j)
  }

  ghost predicate TimelyAt(calls: seq<Call>, j: int)
    requires 0 <= j < |calls|
  {
    Uses(calls[..j], calls[j].key) > 0 ==>
      var first := calls[FirstUse(calls[..j], calls[j].key)];
      calls[j].at <= first.at + 1000 * first.windowSeconds
  }

  /** The Redis script answers every call as the memory store does. */
  ghost predicate Agree(calls: seq<Call>) {
    forall n :: 0 < n <= |calls| ==> RedisReply(calls[..n]) == MemoryReply(calls[..n])
  }

  /** The calls on one key are timely. */
  ghost predicate TimelyFor(calls: seq<Call>, key: string) {
    forall j :: 0 <= j < |calls| && calls[j].key == key ==> TimelyAt(calls, j)
  }

  lemma {:induction false} TimelyCells(calls: seq<Call>, key: string)
    requires TimelyFor(calls, key)
    ensures key in RedisAfter(calls) <==> Uses(calls, key) > 0
    ensures Uses(calls, key) > 0 ==>
              var first := calls[FirstUse(calls, key)];
              RedisAfter(calls)[key] == Cell(Uses(calls, key), first.at + 1000 * first.windowSeconds)
  {
    if calls != [] {
      var n := |calls| - 1;
      TimelyForSplit(calls, key, n);
      TimelyCells(calls[..n], key);
    }
  }

  lemma TimelyForSplit(calls: seq<Call>, key: string, n: nat)
    requires |calls| == n + 1
    ensures TimelyFor(calls, key) <==> TimelyFor(calls[..n], key) && (calls[n].key == key ==> TimelyAt(calls, n))
  {
    var front := calls[..n];
    forall j | 0 <= j < n ensures TimelyAt(front, j) <==> TimelyAt(calls, j) {
      assert front[..j] == calls[..j];
    }
  }

  lemma TimelyForEach(calls: seq<Call>)
    ensures Timely(calls) <==> forall key :: TimelyFor(calls, key)
  {
    if forall key :: TimelyFor(calls, key) {
      forall j | 0 <= j < |calls| ensures TimelyAt(calls, j) {
        assert TimelyFor(calls, calls[j].key);
      }
    }
  }

  /** The reply to the last call agrees exactly when that call is timely, if all before it were. */
  lemma ReplyAgrees(calls: seq<Call>)
    requires calls != [] && Timely(calls[..|calls| - 1])
    ensures RedisReply(calls) == MemoryReply(calls) <==> TimelyAt(calls, |calls| - 1)
  {
    var front, last := calls[..|calls| - 1], calls[|calls| - 1];
    TimelyCells(front, last.key);
    MemoryCounts(calls, last.key);
  }

  lemma AgreeSplit(calls: seq<Call>, n: nat)
    requires |calls| == n + 1
    ensures Agree(calls) <==> Agree(calls[..n]) && RedisReply(calls) == MemoryReply(calls)
  {
    var front := calls[..n];
    assert calls[..n + 1] == calls;
    assert forall m :: 0 < m <= n ==> front[..m] == calls[..m];
    if Agree(calls) {
      forall m | 0 < m <= n ensures RedisReply(front[..m]) == MemoryReply(front[..m]) {
        assert RedisReply(calls[..m]) == MemoryReply(calls[..m]);
      }
      assert RedisReply(calls[..n + 1]) == MemoryReply(calls[..n + 1]);
    }
  }

  lemma TimelySplit(calls: seq<Call>, n: nat)
    requires |calls| == n + 1
    ensures Timely(calls) <==> Timely(calls[..n]) && TimelyAt(calls, n)
  {
    var front := calls[..n];
    forall j | 0 <= j < n ensures TimelyAt(front, j) <==> TimelyAt(calls, j) {
      assert front[..j] == calls[..j];
    }
  }

  /**
   Redis refines the memory store exactly on the runs where no call outlives its key: the
   two answer every call alike if and only if each call comes within the window length of
   the first call on its key.
   */
  lemma {:induction false} RedisRefinesMemory(calls: seq<Call>)
    ensures Agree(calls) <==> Timely(calls)
  {
    if calls != [] {
      var n := |calls| - 1;
      RedisRefinesMemory(calls[..n]);
      AgreeSplit(calls, n);
      TimelySplit(calls, n);
      if Timely(calls[..n]) {
        ReplyAgrees(calls);
      }
    }
  }

  // ---------------------------------------------------------------- the lives of a key

  /** How often Redis created the key: its calls that found it missing or expired. */
  function Lives(calls: seq<Call>, key: string): nat {
    if calls == [] then 0
    else
      var front, last := calls[..|calls| - 1], calls[|calls| - 1];
      Lives(front, key) + if last.key == key && !Live(RedisAfter(front), key, last.at) then 1 else 0
  }

  lemma {:induction false} KeysHaveLives(calls: seq<Call>, key: string)
    ensures (Lives(calls, key) > 0 <==> Uses(calls, key) > 0) && (key in RedisAfter(calls) <==> Uses(calls, key) > 0)
  {
    if calls != [] { KeysHaveLives(calls[..|calls| - 1], key); }
  }

  /** A key lives once if and only if each call on it comes within the lifetime its first call set. */
  lemma {:induction false} OneLifeIff(calls: seq<Call>, key: string)
    ensures Lives(calls, key) <= 1 <==> TimelyFor(calls, key)
  {
    if calls != [] {
      var n := |calls| - 1;
      OneLifeIff(calls[..n], key);
      TimelyForSplit(calls, key, n);
      KeysHaveLives(calls[..n], key);
      if TimelyFor(calls[..n], key) {
        TimelyCells(calls[..n], key);
      }
    }
  }

  /** The store after a run of calls, and how many lives it gave a key. */
  function StoreAfter(inRedis: bool, calls: seq<Call>): Store {
    if inRedis then InRedis(RedisAfter(calls)) else InMemory(MemoryAfter(calls))
  }

  function StoreLives(inRedis: bool, calls: seq<Call>, key: string): nat {
    if inRedis then Lives(calls, key) else if Uses(calls, key) > 0 then 1 else 0
  }

  /** One more call: it continues the life of its key or begins the next, and touches no other key. */
  lemma OneMoreCall(inRedis: bool, calls: seq<Call>, call: Call, key: string)
    ensures StoreAfter(inRedis, calls + [call]) == Incremented(StoreAfter(inRedis, calls), call)
    ensures var before, after := StoreAfter(inRedis, calls), StoreAfter(inRedis, calls + [call]);
            var lives, lives' := StoreLives(inRedis, calls, key), StoreLives(inRedis, calls + [call], key);
            if call.key != key then lives' == lives && Counted(after, key) == Counted(before, key)
            else
              && Counted(after, key) == Answered(before, call)
              && ((lives' == lives > 0 && Counted(after, key) == Counted(before, key) + 1)
                  || (lives' == lives + 1 && Counted(after, key) == 1))
  {
    assert (calls + [call])[..|calls|] == calls;
    KeysHaveLives(calls, key);
    MemoryCounts(calls, key);
  }

  /** A call that comes after its key has expired starts over at one. */
  lemma LateCallStartsOver() returns (calls: seq<Call>)
    ensures |calls| == 2 && calls[0].key == calls[1].key
    ensures MemoryReply(calls).count == 2 && RedisReply(calls).count == 1
  {
    calls := [Call("k", 1, 1, 0), Call("k", 1, 1, 1001)];
    assert calls[..1] == [calls[0]];
    assert calls[..1][..0] == [];
    assert RedisAfter(calls[..1]) == map["k" := Cell(1, 1000)];
    assert MemoryAfter(calls[..1]) == map["k" := 1];
  }

  // ---------------------------------------------------------------- fixed windows

  /** The start, in milliseconds, of window number `index`. */
  function WindowStart(index: nat, windowSeconds: nat): int {
    1000 * (index * windowSeconds)
  }

  /** The window a clock reading falls into: `now.Unix() / windowSeconds`. */
  function WindowIndex(now: nat, windowSeconds: nat): nat
    requires windowSeconds > 0
  {
    now / 1000 / windowSeconds
  }

  lemma DivideBounds(n: nat, d: nat)
    requires d > 0
    ensures (n / d) * d <= n < (n / d) * d + d
  {
  }

  /** A clock reading lies in the window computed from it, and in no other. */
  lemma WindowIndexExact(now: nat, windowSeconds: nat, index: nat)
    requires windowSeconds > 0
    ensures index == WindowIndex(now, windowSeconds) <==>
            var start := WindowStart(index, windowSeconds); start <= now < start + 1000 * windowSeconds
  {
    var seconds := now / 1000;
    var i := seconds / windowSeconds;
    DivideBounds(now, 1000);
    DivideBounds(seconds, windowSeconds);
    if index < i {
      MulMonotone(index + 1, i, windowSeconds);
    } else if i < index {
      MulMonotone(i + 1, index, windowSeconds);
    }
  }

  /** The call is executed inside window number `index` of its rule. */
  ghost predicate InWindow(call: Call, index: nat) {
    var start := WindowStart(index, call.windowSeconds);
    start <= call.at < start + 1000 * call.windowSeconds
  }

  /** A key names one rule window: its calls share a window length and all fall into window `windowOf(key)`. */
  ghost predicate KeyedByWindow(calls: seq<Call>, windowOf: string -> nat) {
    && (forall i :: 0 <= i < |calls| ==> InWindow(calls[i], windowOf(calls[i].key)))
    && (forall i, j :: 0 <= i < |calls| && 0 <= j < |calls| && calls[i].key == calls[j].key ==>
          calls[i].windowSeconds == calls[j].windowSeconds)
  }

  /** Every call on the key is executed inside window number `index` of length `w`. */
  ghost predicate InOwnWindow(calls: seq<Call>, key: string, index: nat, w: nat) {
    forall j :: 0 <= j < |calls| && calls[j].key == key ==> calls[j].windowSeconds == w && InWindow(calls[j], index)
  }

  lemma InOwnWindowIsTimely(calls: seq<Call>, key: string, index: nat, w: nat)
    requires InOwnWindow(calls, key, index, w)
    ensures TimelyFor(calls, key)
  {
    forall j | 0 <= j < |calls| && calls[j].key == key ensures TimelyAt(calls, j) {
      if Uses(calls[..j], key) > 0 {
        var i := FirstUse(calls[..j], key);
        assert calls[..j][i] == calls[i];
        assert InWindow(calls[i], index) && InWindow(calls[j], index);
      }
    }
  }

  /** When every increment lands inside its own window, Redis and the memory store never differ. */
  lemma InWindowRunsAgree(calls: seq<Call>, windowOf: string -> nat)
    requires KeyedByWindow(calls, windowOf)
    ensures Agree(calls)
  {
    forall key ensures TimelyFor(calls, key) {
      KeyInOwnWindow(calls, windowOf, key);
    }
    TimelyForEach(calls);
    RedisRefinesMemory(calls);
  }

  lemma KeyInOwnWindow(calls: seq<Call>, windowOf: string -> nat, key: string)
    requires KeyedByWindow(calls, windowOf)
    ensures TimelyFor(calls, key)
  {
    if j :| 0 <= j < |calls| && calls[j].key == key {
      InOwnWindowIsTimely(calls, key, windowOf(key), calls[j].windowSeconds);
    }
  }

  /** A Redis key that is still live belongs to the current window of its rule or to the one before. */
  lemma LiveKeysAreRecent(calls: seq<Call>, windowOf: string -> nat, key: string, now: int)
    requires KeyedByWindow(calls, windowOf) && Live(RedisAfter(calls), key, now)
    requires forall i :: 0 <= i < |calls| ==> 0 <= calls[i].at <= now
    ensures Uses(calls, key) > 0
    ensures var w := calls[FirstUse(calls, key)].windowSeconds;
            w > 0 && now >= 0 && windowOf(key) <= WindowIndex(now, w) <= windowOf(key) + 1
  {
    KeyInOwnWindow(calls, windowOf, key);
    TimelyCells(calls, key);
    var first := calls[FirstUse(calls, key)];
    assert InWindow(first, windowOf(first.key));
    WithinTwoWindows(now, windowOf(key), first.windowSeconds);
  }

  lemma WithinTwoWindows(now: nat, index: nat, w: nat)
    requires var start := WindowStart(index, w); start <= now < start + 2000 * w
    ensures w > 0 && index <= WindowIndex(now, w) <= index + 1
  {
    assert (index + 1) * w == index * w + w;
    WindowIndexExact(now, w, index);
    WindowIndexExact(now, w, index + 1);
  }
}

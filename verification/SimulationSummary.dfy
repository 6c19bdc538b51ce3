/**
 The summary of what a policy in count mode would have blocked
 (services/control-api/internal/events/events.go). Go iterates over maps in any order and
 sorts afterwards; here an arbitrary element is chosen in each round.
 */
module SimulationSummary {
  import opened Text
  import opened Sorting

  datatype Event = Event(
    wouldBlock: bool, matchedRuleId: string, matchedRuleName: string, clientIp: string, path: string, requestId: string)

  datatype RuleSummary = RuleSummary(
    ruleId: string, ruleName: string, wouldBlockCount: nat, uniqueIps: nat, topPaths: seq<string>, sampleRequestIds: seq<string>)

  // ---------------------------------------------------------------- specification

  function RuleOf(e: Event): string {
    var id := TrimSpace(e.matchedRuleId);
    if id == "" then "unknown" else id
  }

  /** The would-block events of one rule, in input order. */
  function Group(events: seq<Event>, id: string): (g: seq<Event>) {
    if events == [] then []
    else
      var e, front := events[|events| - 1], Group(events[..|events| - 1], id);
      if e.wouldBlock && RuleOf(e) == id then front + [e] else front
  }

  function Ips(g: seq<Event>): set<string> {
    set e | e in g && e.clientIp != "" :: e.clientIp
  }

  function Paths(g: seq<Event>): set<string> {
    set e | e in g && e.path != "" :: e.path
  }

  function PathCount(g: seq<Event>, path: string): nat {
    if g == [] then 0 else PathCount(g[..|g| - 1], path) + if g[|g| - 1].path == path then 1 else 0
  }

  function RequestIds(g: seq<Event>): seq<string> {
    if g == [] then []
    else
      var e, front := g[|g| - 1], RequestIds(g[..|g| - 1]);
      if e.requestId != "" then front + [e.requestId] else front
  }

  function First<T>(n: nat, s: seq<T>): seq<T> {
    if |s| <= n then s else s[..n]
  }

  /** More often, or as often and earlier in the alphabet. */
  predicate Outranks(count: string -> nat, a: string, b: string) {
    count(a) > count(b) || (count(a) == count(b) && Less(a, b))
  }

  ghost predicate Ranked(names: seq<string>, count: string -> nat) {
    forall i, j :: 0 <= i < j < |names| ==> Outranks(count, names[i], names[j])
  }

  /** The `limit` highest-ranked of the names, in order: what is left out is outranked by all that is listed. */
  ghost predicate IsTop(top: seq<string>, names: set<string>, count: string -> nat, limit: nat) {
    && Ranked(top, count) && |top| <= limit
    && (forall x :: x in top ==> x in names)
    && (forall x :: x in names && x !in top ==> |top| == limit && forall y :: y in top ==> Outranks(count, y, x))
  }

  function CountsIn(g: seq<Event>): string -> nat {
    (path: string) => PathCount(g, path)
  }

  function GroupSizes(events: seq<Event>): string -> nat {
    (id: string) => |Group(events, id)|
  }

  /** The summary of one rule whose group is not empty. */
  ghost predicate Summarises(r: RuleSummary, g: seq<Event>) {
    && g != [] && r.ruleName == g[0].matchedRuleName && r.wouldBlockCount == |g| && r.uniqueIps == |Ips(g)|
    && IsTop(r.topPaths, Paths(g), CountsIn(g), 5)
    && r.sampleRequestIds == First(5, RequestIds(g))
  }

  /** One summary for each rule with a would-block event, most frequent first. */
  ghost predicate IsSummary(events: seq<Event>, out: seq<RuleSummary>) {
    && Ranked(Ids(out), GroupSizes(events))
    && (forall r :: r in out ==> Summarises(r, Group(events, r.ruleId)))
    && (forall id :: Group(events, id) != [] ==> id in Ids(out))
  }

  function Ids(out: seq<RuleSummary>): (ids: seq<string>)
    ensures |ids| == |out| && forall i :: 0 <= i < |out| ==> ids[i] == out[i].ruleId
  {
    seq(|out|, i requires 0 <= i < |out| => out[i].ruleId)
  }

  // ---------------------------------------------------------------- the result does not depend on map order

  lemma OutranksOrder(count: string -> nat, a: string, b: string)
    ensures !(Outranks(count, a, b) && Outranks(count, b, a))
    ensures a != b ==> Outranks(count, a, b) || Outranks(count, b, a)
    ensures !Outranks(count, a, a)
  {
    LessTotal(a, b);
    LessTotal(a, a);
  }

  lemma OutranksTransitive(count: string -> nat, a: string, b: string, c: string)
    requires Outranks(count, a, b) && Outranks(count, b, c)
    ensures Outranks(count, a, c)
  {
    if count(a) == count(c) { LessTransitive(a, b, c); }
  }

  lemma RankedTogether(a: seq<string>, b: seq<string>, names: set<string>, count: string -> nat, limit: nat, i: nat)
    requires IsTop(a, names, count, limit) && IsTop(b, names, count, limit) && i < |a| && i < |b| && a[..i] == b[..i]
    ensures !Outranks(count, a[i], b[i])
  {
    OutranksOrder(count, a[i], b[i]);
    OutranksOrder(count, a[i], a[i]);
    assert forall j :: 0 <= j < i ==> b[j] == a[..i][j] == a[j];
    assert forall j :: 0 <= j < |b| && b[j] == a[i] ==> i <= j;
    assert a[i] in a && b[i] in b;
  }

  lemma NoLonger(a: seq<string>, b: seq<string>, names: set<string>, count: string -> nat, limit: nat)
    requires IsTop(a, names, count, limit) && IsTop(b, names, count, limit) && |a| <= |b| && a == b[..|a|]
    ensures |a| == |b|
  {
    if b != [] {
      var x := b[|b| - 1];
      assert x in b;
      OutranksOrder(count, x, x);
      if x in a {
        var j :| 0 <= j < |a| && a[j] == x;
        assert b[j] == x;
        assert j == |b| - 1;
      }
    }
  }

  /** There is only one such list. */
  lemma TopIsUnique(a: seq<string>, b: seq<string>, names: set<string>, count: string -> nat, limit: nat)
    requires IsTop(a, names, count, limit) && IsTop(b, names, count, limit)
    ensures a == b
  {
    var n := if |a| <= |b| then |a| else |b|;
    var i := 0;
    while i < n
      invariant 0 <= i <= n && a[..i] == b[..i]
    {
      RankedTogether(a, b, names, count, limit, i);
      RankedTogether(b, a, names, count, limit, i);
      OutranksOrder(count, a[i], b[i]);
      assert a[..i + 1] == a[..i] + [a[i]] && b[..i + 1] == b[..i] + [b[i]];
      i := i + 1;
    }
    if |a| <= |b| {
      NoLonger(a, b, names, count, limit);
    } else {
      NoLonger(b, a, names, count, limit);
    }
  }

  /** Two summaries of the same events are equal, whatever order their maps were walked in. */
  lemma SummaryIsUnique(events: seq<Event>, a: seq<RuleSummary>, b: seq<RuleSummary>)
    requires IsSummary(events, a) && IsSummary(events, b)
    ensures a == b
  {
    var count := GroupSizes(events);
    var limit := |a| + |b|;
    var names := set x | x in Ids(a);
    forall s: seq<RuleSummary> | s == a || s == b ensures forall x :: x in Ids(s) <==> Group(events, x) != [] {
      forall x | x in Ids(s) ensures Group(events, x) != [] {
        var i :| 0 <= i < |s| && Ids(s)[i] == x;
        assert s[i] in s;
      }
    }
    TopIsUnique(Ids(a), Ids(b), names, count, limit);
    forall i | 0 <= i < |a| ensures a[i] == b[i] {
      assert Ids(a)[i] == Ids(b)[i] && a[i] in a && b[i] in b;
      var g := Group(events, a[i].ruleId);
      TopIsUnique(a[i].topPaths, b[i].topPaths, Paths(g), CountsIn(g), 5);
    }
  }

  // ---------------------------------------------------------------- counts add up

  function WouldBlocks(events: seq<Event>, ids: set<string>): nat {
    if events == [] then 0
    else
      var e := events[|events| - 1];
      WouldBlocks(events[..|events| - 1], ids) + if e.wouldBlock && RuleOf(e) in ids then 1 else 0
  }

  function AllWouldBlocks(events: seq<Event>): nat {
    if events == [] then 0 else AllWouldBlocks(events[..|events| - 1]) + if events[|events| - 1].wouldBlock then 1 else 0
  }

  lemma {:induction false} OneMoreRule(events: seq<Event>, ids: set<string>, id: string)
    requires id !in ids
    ensures WouldBlocks(events, ids + {id}) == WouldBlocks(events, ids) + |Group(events, id)|
  {
    if events != [] { OneMoreRule(events[..|events| - 1], ids, id); }
  }

  lemma {:induction false} NoRules(events: seq<Event>)
    ensures WouldBlocks(events, {}) == 0
  {
    if events != [] { NoRules(events[..|events| - 1]); }
  }

  lemma {:induction false} EveryRule(events: seq<Event>, ids: set<string>)
    requires forall id :: Group(events, id) != [] ==> id in ids
    ensures WouldBlocks(events, ids) == AllWouldBlocks(events)
  {
    if events != [] {
      var e, front := events[|events| - 1], events[..|events| - 1];
      assert e.wouldBlock ==> Group(events, RuleOf(e)) != [];
      forall id | Group(front, id) != [] ensures id in ids {
        assert Group(events, id) != [];
      }
      EveryRule(front, ids);
    }
  }

  function Total(out: seq<RuleSummary>): nat {
    if out == [] then 0 else Total(out[..|out| - 1]) + out[|out| - 1].wouldBlockCount
  }

  lemma {:induction false} TotalIs(events: seq<Event>, out: seq<RuleSummary>)
    requires Ranked(Ids(out), GroupSizes(events)) && forall r :: r in out ==> r.wouldBlockCount == |Group(events, r.ruleId)|
    ensures Total(out) == WouldBlocks(events, set x | x in Ids(out))
  {
    if out == [] {
      assert (set x | x in Ids(out)) == {};
      NoRules(events);
    } else {
      var front, r := out[..|out| - 1], out[|out| - 1];
      assert Ids(front) == Ids(out)[..|out| - 1];
      assert Ids(out) == Ids(front) + [r.ruleId];
      TotalIs(events, front);
      var ids := set x | x in Ids(front);
      OutranksOrder(GroupSizes(events), r.ruleId, r.ruleId);
      assert r.ruleId == Ids(out)[|out| - 1];
      assert (set x | x in Ids(out)) == ids + {r.ruleId};
      OneMoreRule(events, ids, r.ruleId);
    }
  }

  /** The counts of a summary add up to the number of would-block events. */
  lemma CountsAddUp(events: seq<Event>, out: seq<RuleSummary>)
    requires IsSummary(events, out)
    ensures Total(out) == AllWouldBlocks(events)
  {
    TotalIs(events, out);
    EveryRule(events, set x | x in Ids(out));
  }

  /** The most frequent rule comes first, and of two as frequent the one that is earlier in the alphabet. */
  lemma SummaryOrder(events: seq<Event>, out: seq<RuleSummary>, i: nat, j: nat)
    requires IsSummary(events, out) && i < j < |out|
    ensures || out[i].wouldBlockCount > out[j].wouldBlockCount
            || (out[i].wouldBlockCount == out[j].wouldBlockCount && exists k: nat :: SmallerAt(out[i].ruleId, out[j].ruleId, k))
  {
    assert out[i] in out && out[j] in out;
    assert Outranks(GroupSizes(events), Ids(out)[i], Ids(out)[j]);
    LessIff(out[i].ruleId, out[j].ruleId);
  }

  // ---------------------------------------------------------------- the loops

  datatype Item = Item(path: string, count: nat)

  function ItemLess(): (Item, Item) -> bool {
    (a: Item, b: Item) => if a.count == b.count then Less(a.path, b.path) else a.count > b.count
  }

  lemma ItemsOrdered(count: string -> nat, xs: set<Item>)
    requires forall x :: x in xs ==> x.count == count(x.path)
    ensures Orders(ItemLess(), xs)
    ensures forall x, y :: x in xs && y in xs ==> (ItemLess()(x, y) <==> Outranks(count, x.path, y.path))
  {
    forall x, y | x in xs && y in xs && x != y ensures ItemLess()(x, y) || ItemLess()(y, x) {
      OutranksOrder(count, x.path, y.path);
    }
    forall x, y, z | x in xs && y in xs && z in xs && ItemLess()(x, y) && ItemLess()(y, z) ensures ItemLess()(x, z) {
      OutranksTransitive(count, x.path, y.path, z.path);
    }
  }

  function CountOf(counts: map<string, nat>): string -> nat {
    (path: string) => if path in counts then counts[path] else 0
  }

  /** `topPaths`: the paths of the highest count, ties in alphabetical order. */
  method TopPaths(counts: map<string, nat>, limit: nat) returns (top: seq<string>)
    ensures IsTop(top, counts.Keys, CountOf(counts), limit)
  {
    var items := ItemsOf(counts);
    SortedItems(items, counts);
    var sorted := SortBy(items, ItemLess());
    var kept := if |sorted| > limit then sorted[..limit] else sorted;
    top := [];
    for i := 0 to |kept|
      invariant |top| == i && forall j :: 0 <= j < i ==> top[j] == kept[j].path
    {
      top := top + [kept[i].path];
    }
    TopOfSorted(sorted, kept, top, counts, limit);
  }

  /** The range over the map: its entries, in some order. */
  method ItemsOf(counts: map<string, nat>) returns (items: seq<Item>)
    ensures forall x :: x in items <==> x.path in counts && x.count == counts[x.path]
    ensures forall i, j :: 0 <= i < j < |items| ==> items[i] != items[j]
  {
    items := [];
    var left := counts.Keys;
    while left != {}
      invariant left <= counts.Keys
      invariant forall x :: x in items <==> x.path in counts && x.path !in left && x.count == counts[x.path]
      invariant forall i, j :: 0 <= i < j < |items| ==> items[i] != items[j]
      decreases left
    {
      var p :| p in left;
      items := items + [Item(p, counts[p])];
      left := left - {p};
    }
  }

  lemma SortedItems(items: seq<Item>, counts: map<string, nat>)
    requires forall x :: x in items <==> x.path in counts && x.count == counts[x.path]
    requires forall i, j :: 0 <= i < j < |items| ==> items[i] != items[j]
    ensures StrictlyOrdered(SortBy(items, ItemLess()), ItemLess())
    ensures forall x :: x in SortBy(items, ItemLess()) <==> x in items
  {
    var xs := set x | x in items;
    ItemsOrdered(CountOf(counts), xs);
    SortByOrders(items, ItemLess(), xs);
  }

  lemma TopOfSorted(sorted: seq<Item>, kept: seq<Item>, top: seq<string>, counts: map<string, nat>, limit: nat)
    requires StrictlyOrdered(sorted, ItemLess()) && kept == First(limit, sorted)
    requires |top| == |kept| && forall j :: 0 <= j < |top| ==> top[j] == kept[j].path
    requires forall x :: x in sorted <==> x.path in counts && x.count == counts[x.path]
    ensures IsTop(top, counts.Keys, CountOf(counts), limit)
  {
    forall i | 0 <= i < |top|
      ensures top[i] in top && top[i] in counts.Keys && kept[i] == sorted[i] && CountOf(counts)(top[i]) == sorted[i].count
    {
      assert sorted[i] in sorted;
    }
    forall x | x in counts.Keys && x !in top ensures |top| == limit && forall y :: y in top ==> Outranks(CountOf(counts), y, x) {
      assert Item(x, counts[x]) in sorted;
      var k :| 0 <= k < |sorted| && sorted[k] == Item(x, counts[x]);
    }
  }

  datatype Accumulator = Accumulator(ruleName: string, count: nat, ips: set<string>, paths: map<string, nat>, samples: seq<string>)

  /** The accumulator holds what there is to know of the group. */
  ghost predicate Tallies(acc: Accumulator, g: seq<Event>) {
    && g != [] && acc.ruleName == g[0].matchedRuleName && acc.count == |g| && acc.ips == Ips(g)
    && acc.paths.Keys == Paths(g) && (forall p :: p in acc.paths ==> acc.paths[p] == PathCount(g, p))
    && acc.samples == First(5, RequestIds(g))
  }

  /** The part of the loop body that updates `got`. */
  function Add(acc: Accumulator, e: Event): Accumulator {
    acc.(count := acc.count + 1,
         ips := if e.clientIp != "" then acc.ips + {e.clientIp} else acc.ips,
         paths := if e.path != "" then acc.paths[e.path := (if e.path in acc.paths then acc.paths[e.path] else 0) + 1] else acc.paths,
         samples := if e.requestId != "" && |acc.samples| < 5 then acc.samples + [e.requestId] else acc.samples)
  }

  function NoEvents(e: Event): Accumulator {
    Accumulator(e.matchedRuleName, 0, {}, map[], [])
  }

  lemma {:induction false} UncountedPath(g: seq<Event>, p: string)
    requires p !in Paths(g) && p != ""
    ensures PathCount(g, p) == 0
  {
    if g != [] {
      var front := g[..|g| - 1];
      assert g == front + [g[|g| - 1]];
      assert g[|g| - 1] in g;
      assert p !in Paths(front);
      UncountedPath(front, p);
    }
  }

  lemma IpsOneMore(g: seq<Event>, e: Event)
    ensures Ips(g + [e]) == if e.clientIp != "" then Ips(g) + {e.clientIp} else Ips(g)
  {
    assert e in g + [e];
    forall ip | ip in Ips(g) ensures ip in Ips(g + [e]) {
      var x :| x in g && x.clientIp != "" && x.clientIp == ip;
      assert x in g + [e];
    }
  }

  lemma PathsOneMore(g: seq<Event>, e: Event)
    ensures Paths(g + [e]) == if e.path != "" then Paths(g) + {e.path} else Paths(g)
  {
    assert e in g + [e];
    forall p | p in Paths(g) ensures p in Paths(g + [e]) {
      var x :| x in g && x.path != "" && x.path == p;
      assert x in g + [e];
    }
  }

  lemma PathTallies(paths: map<string, nat>, g: seq<Event>, e: Event)
    requires paths.Keys == Paths(g) && forall p :: p in paths ==> paths[p] == PathCount(g, p)
    ensures var paths' := Add(Accumulator("", 0, {}, paths, []), e).paths;
            paths'.Keys == Paths(g + [e]) && forall p :: p in paths' ==> paths'[p] == PathCount(g + [e], p)
  {
    var g' := g + [e];
    assert g'[..|g'| - 1] == g;
    PathsOneMore(g, e);
    if e.path != "" && e.path !in Paths(g) { UncountedPath(g, e.path); }
    assert forall p :: p in Paths(g') ==> p != "";
  }

  lemma SampleTallies(samples: seq<string>, g: seq<Event>, e: Event)
    requires samples == First(5, RequestIds(g))
    ensures Add(Accumulator("", 0, {}, map[], samples), e).samples == First(5, RequestIds(g + [e]))
  {
    assert (g + [e])[..|g|] == g;
  }

  lemma AddTallies(acc: Accumulator, g: seq<Event>, e: Event)
    requires if g == [] then acc == NoEvents(e) else Tallies(acc, g)
    ensures Tallies(Add(acc, e), g + [e])
  {
    var g' := g + [e];
    assert g'[..|g'| - 1] == g;
    IpsOneMore(g, e);
    PathTallies(acc.paths, g, e);
    SampleTallies(acc.samples, g, e);
  }

  lemma GroupOneMore(events: seq<Event>, e: Event, id: string)
    ensures Group(events + [e], id) == if e.wouldBlock && RuleOf(e) == id then Group(events, id) + [e] else Group(events, id)
  {
    assert (events + [e])[..|events|] == events;
  }

  /** The accumulators are those of the events seen so far. */
  ghost predicate Accumulated(byRule: map<string, Accumulator>, seen: seq<Event>) {
    forall id :: if id in byRule then Tallies(byRule[id], Group(seen, id)) else Group(seen, id) == []
  }

  lemma AccumulateOne(byRule: map<string, Accumulator>, seen: seq<Event>, e: Event)
    requires Accumulated(byRule, seen)
    ensures !e.wouldBlock ==> Accumulated(byRule, seen + [e])
    ensures e.wouldBlock ==>
              Accumulated(byRule[RuleOf(e) := Add(if RuleOf(e) in byRule then byRule[RuleOf(e)] else NoEvents(e), e)], seen + [e])
  {
    if e.wouldBlock {
      AccumulateBlocked(byRule, seen, e);
    } else {
      forall id ensures if id in byRule then Tallies(byRule[id], Group(seen + [e], id)) else Group(seen + [e], id) == [] {
        GroupOneMore(seen, e, id);
      }
    }
  }

  lemma AccumulateBlocked(byRule: map<string, Accumulator>, seen: seq<Event>, e: Event)
    requires Accumulated(byRule, seen) && e.wouldBlock
    ensures Accumulated(byRule[RuleOf(e) := Add(if RuleOf(e) in byRule then byRule[RuleOf(e)] else NoEvents(e), e)], seen + [e])
  {
    var rule := RuleOf(e);
    var got := if rule in byRule then byRule[rule] else NoEvents(e);
    var byRule' := byRule[rule := Add(got, e)];
    AddTallies(got, Group(seen, rule), e);
    forall id ensures if id in byRule' then Tallies(byRule'[id], Group(seen + [e], id)) else Group(seen + [e], id) == [] {
      GroupOneMore(seen, e, id);
    }
  }

  /** The first loop of `BuildSimulationSummary`. */
  method Accumulate(events: seq<Event>) returns (byRule: map<string, Accumulator>)
    ensures Accumulated(byRule, events)
  {
    byRule := map[];
    for i := 0 to |events|
      invariant Accumulated(byRule, events[..i])
    {
      var e := events[i];
      AccumulateOne(byRule, events[..i], e);
      assert events[..i] + [e] == events[..i + 1];
      if !e.wouldBlock { continue; }
      var ruleId := TrimSpace(e.matchedRuleId);
      if ruleId == "" { ruleId := "unknown"; }
      var got := if ruleId in byRule then byRule[ruleId] else NoEvents(e);
      byRule := byRule[ruleId := Add(got, e)];
    }
    assert events[..|events|] == events;
  }

  function SummaryLess(): (RuleSummary, RuleSummary) -> bool {
    (a: RuleSummary, b: RuleSummary) =>
      if a.wouldBlockCount == b.wouldBlockCount then Less(a.ruleId, b.ruleId) else a.wouldBlockCount > b.wouldBlockCount
  }

  /** The output lists each rule but those left, once. */
  ghost predicate Listed(out: seq<RuleSummary>, byRule: map<string, Accumulator>, left: set<string>, events: seq<Event>) {
    && (forall r :: r in out ==> r.ruleId in byRule && r.ruleId !in left && Summarises(r, Group(events, r.ruleId)))
    && (forall id :: id in byRule && id !in left ==> id in Ids(out))
    && (forall i, j :: 0 <= i < j < |out| ==> out[i].ruleId != out[j].ruleId)
  }

  lemma ListOneMore(out: seq<RuleSummary>, byRule: map<string, Accumulator>, left: set<string>, events: seq<Event>, r: RuleSummary)
    requires Listed(out, byRule, left, events) && r.ruleId in byRule && r.ruleId in left && Summarises(r, Group(events, r.ruleId))
    ensures Listed(out + [r], byRule, left - {r.ruleId}, events)
  {
    assert Ids(out + [r]) == Ids(out) + [r.ruleId];
    assert forall i :: 0 <= i < |out| ==> out[i] in out;
  }

  /** The second loop: one summary for each accumulator, in some order. */
  method Summaries(byRule: map<string, Accumulator>, ghost events: seq<Event>) returns (out: seq<RuleSummary>)
    requires Accumulated(byRule, events)
    ensures Listed(out, byRule, {}, events)
  {
    out := [];
    var left := byRule.Keys;
    while left != {}
      invariant left <= byRule.Keys && Listed(out, byRule, left, events)
      decreases left
    {
      var id :| id in left;
      var r := Summarise(id, byRule[id], Group(events, id));
      ListOneMore(out, byRule, left, events, r);
      out := out + [r];
      left := left - {id};
    }
  }

  method Summarise(id: string, got: Accumulator, ghost g: seq<Event>) returns (r: RuleSummary)
    requires Tallies(got, g)
    ensures r.ruleId == id && Summarises(r, g)
  {
    var top := TopPaths(got.paths, 5);
    SameTop(top, got.paths.Keys, CountOf(got.paths), CountsIn(g), 5);
    r := RuleSummary(id, got.ruleName, got.count, |got.ips|, top, got.samples);
  }

  lemma SameTop(top: seq<string>, names: set<string>, count: string -> nat, count': string -> nat, limit: nat)
    requires IsTop(top, names, count, limit) && forall x :: x in names ==> count(x) == count'(x)
    ensures IsTop(top, names, count', limit)
  {
    assert forall i :: 0 <= i < |top| ==> top[i] in top && top[i] in names;
  }

  lemma SortedSummaries(out: seq<RuleSummary>, events: seq<Event>)
    requires forall r :: r in out ==> Summarises(r, Group(events, r.ruleId))
    requires forall i, j :: 0 <= i < j < |out| ==> out[i].ruleId != out[j].ruleId
    ensures var sorted := SortBy(out, SummaryLess());
            (forall r :: r in sorted <==> r in out) && Ranked(Ids(sorted), GroupSizes(events))
  {
    var xs := set r | r in out;
    var count := GroupSizes(events);
    forall x, y | x in xs && y in xs && x != y ensures SummaryLess()(x, y) || SummaryLess()(y, x) {
      OutranksOrder(count, x.ruleId, y.ruleId);
    }
    forall x, y, z | x in xs && y in xs && z in xs && SummaryLess()(x, y) && SummaryLess()(y, z) ensures SummaryLess()(x, z) {
      OutranksTransitive(count, x.ruleId, y.ruleId, z.ruleId);
    }
    SortByOrders(out, SummaryLess(), xs);
    var sorted := SortBy(out, SummaryLess());
    forall i, j | 0 <= i < j < |sorted| ensures Outranks(count, Ids(sorted)[i], Ids(sorted)[j]) {
      assert sorted[i] in sorted && sorted[j] in sorted;
    }
  }

  /** `BuildSimulationSummary`. */
  method BuildSimulationSummary(events: seq<Event>) returns (out: seq<RuleSummary>)
    ensures IsSummary(events, out)
    ensures Total(out) == AllWouldBlocks(events)
  {
    var byRule := Accumulate(events);
    var unsorted := Summaries(byRule, events);
    SummaryOfSorted(byRule, unsorted, events);
    out := SortBy(unsorted, SummaryLess());
    CountsAddUp(events, out);
  }

  lemma SummaryOfSorted(byRule: map<string, Accumulator>, unsorted: seq<RuleSummary>, events: seq<Event>)
    requires Accumulated(byRule, events) && Listed(unsorted, byRule, {}, events)
    ensures IsSummary(events, SortBy(unsorted, SummaryLess()))
  {
    SortedSummaries(unsorted, events);
    var out := SortBy(unsorted, SummaryLess());
    forall id | Group(events, id) != [] ensures id in Ids(out) {
      assert id in byRule;
      SameIds(unsorted, out, id);
    }
  }

  lemma SameIds(a: seq<RuleSummary>, b: seq<RuleSummary>, id: string)
    requires id in Ids(a) && forall r :: r in a ==> r in b
    ensures id in Ids(b)
  {
    var i :| 0 <= i < |a| && Ids(a)[i] == id;
    assert a[i] in b;
    var j :| 0 <= j < |b| && b[j] == a[i];
    assert Ids(b)[j] == id;
  }
}

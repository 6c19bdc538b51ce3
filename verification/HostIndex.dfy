/** The map from host names to apps behind `Store.MatchHost` (services/gateway/internal/policy/store.go). */
module HostIndex {
  import opened Common

  datatype Listing<T> = Listing(host: string, app: T)

  /** The pairs one app contributes; `norm` is the normalisation of host names. */
  function HostsOf<T>(hostnames: seq<string>, norm: string -> string, app: T): (ls: seq<Listing<T>>)
    ensures |ls| == |hostnames|
  {
    seq(|hostnames|, i requires 0 <= i < |hostnames| => Listing(norm(hostnames[i]), app))
  }

  datatype Entry<T> = Entry(hostnames: seq<string>, app: T)

  /** The pairs of every configuration that compiles, in order. */
  function Listings<C, T>(cfgs: seq<C>, compile: C -> Result<Entry<T>>, norm: string -> string): seq<Listing<T>> {
    if cfgs == [] then []
    else
      var last := compile(cfgs[|cfgs| - 1]);
      Listings(cfgs[..|cfgs| - 1], compile, norm)
      + if last.Ok? then HostsOf(last.value.hostnames, norm, last.value.app) else []
  }

  ghost predicate AllCompile<C, T>(cfgs: seq<C>, compile: C -> Result<Entry<T>>) {
    forall i :: 0 <= i < |cfgs| ==> compile(cfgs[i]).Ok?
  }

  lemma CompileStep<C, T>(cfgs: seq<C>, compile: C -> Result<Entry<T>>, a: nat)
    requires a < |cfgs| && AllCompile(cfgs[..a], compile) && compile(cfgs[a]).Ok?
    ensures AllCompile(cfgs[..a + 1], compile)
  {
    assert cfgs[..a + 1] == cfgs[..a] + [cfgs[a]];
  }

  lemma {:induction false} ListingsPrefix<C, T>(cfgs: seq<C>, compile: C -> Result<Entry<T>>, norm: string -> string, a: nat)
    requires a <= |cfgs|
    ensures Listings(cfgs[..a], compile, norm) <= Listings(cfgs, compile, norm)
    decreases |cfgs|
  {
    if a < |cfgs| {
      ListingsPrefix(cfgs[..|cfgs| - 1], compile, norm, a);
      assert cfgs[..|cfgs| - 1][..a] == cfgs[..a];
    } else {
      assert cfgs[..a] == cfgs;
    }
  }

  lemma ListingsStep<C, T>(cfgs: seq<C>, compile: C -> Result<Entry<T>>, norm: string -> string, a: nat)
    requires a < |cfgs| && compile(cfgs[a]).Ok?
    ensures var entry := compile(cfgs[a]).value;
            Listings(cfgs[..a + 1], compile, norm) ==
            Listings(cfgs[..a], compile, norm) + HostsOf(entry.hostnames, norm, entry.app)
  {
    assert cfgs[..a + 1][..a] == cfgs[..a];
  }

  lemma DistinctPrefix<T>(part: seq<Listing<T>>, all: seq<Listing<T>>)
    requires part <= all && HostsDistinct(all)
    ensures HostsDistinct(part)
  {
    assert forall i :: 0 <= i < |part| ==> part[i] == all[i];
  }

  ghost predicate HostsDistinct<T>(ls: seq<Listing<T>>) {
    forall i, j :: 0 <= i < j < |ls| ==> ls[i].host != ls[j].host
  }

  /** A linear scan for a host. */
  function Scan<T>(ls: seq<Listing<T>>, host: string): Option<T> {
    if ls == [] then None else if ls[0].host == host then Some(ls[0].app) else Scan(ls[1..], host)
  }

  /** The map holds each pair of the list and nothing else, and no host is listed twice. */
  ghost predicate Indexes<T>(byHost: map<string, T>, ls: seq<Listing<T>>) {
    if ls == [] then byHost == map[]
    else
      var last := ls[|ls| - 1];
      && last.host in byHost && byHost[last.host] == last.app
      && Indexes(byHost - {last.host}, ls[..|ls| - 1])
  }

  lemma {:induction false} IndexHolds<T>(byHost: map<string, T>, ls: seq<Listing<T>>, i: nat)
    requires Indexes(byHost, ls) && i < |ls|
    ensures ls[i].host in byHost && byHost[ls[i].host] == ls[i].app
    decreases |ls|
  {
    var n := |ls| - 1;
    if i < n {
      IndexHolds(byHost - {ls[n].host}, ls[..n], i);
    }
  }

  lemma {:induction false} IndexSeparates<T>(byHost: map<string, T>, ls: seq<Listing<T>>, i: nat, j: nat)
    requires Indexes(byHost, ls) && i < j < |ls|
    ensures ls[i].host != ls[j].host
    decreases |ls|
  {
    var n := |ls| - 1;
    var rest := byHost - {ls[n].host};
    if j < n {
      IndexSeparates(rest, ls[..n], i, j);
    } else {
      IndexHolds(rest, ls[..n], i);
    }
  }

  lemma {:induction false} IndexCovers<T>(byHost: map<string, T>, ls: seq<Listing<T>>, host: string) returns (i: nat)
    requires Indexes(byHost, ls) && host in byHost
    ensures i < |ls| && ls[i].host == host
    decreases |ls|
  {
    i := |ls| - 1;
    if host != ls[i].host {
      i := IndexCovers(byHost - {ls[i].host}, ls[..i], host);
    }
  }

  lemma IndexFacts<T>(byHost: map<string, T>, ls: seq<Listing<T>>)
    requires Indexes(byHost, ls)
    ensures HostsDistinct(ls)
    ensures forall i :: 0 <= i < |ls| ==> ls[i].host in byHost && byHost[ls[i].host] == ls[i].app
    ensures forall host :: host in byHost ==> exists i :: 0 <= i < |ls| && ls[i].host == host
  {
    forall i, j | 0 <= i < j < |ls| ensures ls[i].host != ls[j].host {
      IndexSeparates(byHost, ls, i, j);
    }
    forall i | 0 <= i < |ls| ensures ls[i].host in byHost && byHost[ls[i].host] == ls[i].app {
      IndexHolds(byHost, ls, i);
    }
    forall host | host in byHost ensures exists i :: 0 <= i < |ls| && ls[i].host == host {
      var i := IndexCovers(byHost, ls, host);
    }
  }

  lemma {:induction false} ScanFinds<T>(ls: seq<Listing<T>>, host: string)
    ensures Scan(ls, host).None? <==> forall i :: 0 <= i < |ls| ==> ls[i].host != host
    ensures Scan(ls, host).Some? ==>
              exists i :: 0 <= i < |ls| && ls[i].host == host && Scan(ls, host) == Some(ls[i].app)
  {
    if ls != [] && ls[0].host != host {
      ScanFinds(ls[1..], host);
      assert forall i :: 0 < i < |ls| ==> ls[i] == ls[1..][i - 1];
      if Scan(ls[1..], host).Some? {
        var i :| 0 <= i < |ls[1..]| && ls[1..][i].host == host && Scan(ls[1..], host) == Some(ls[1..][i].app);
        assert ls[i + 1].host == host;
      }
    }
  }

  lemma IndexAnswersAsScan<T>(byHost: map<string, T>, ls: seq<Listing<T>>, host: string)
    requires Indexes(byHost, ls)
    ensures Scan(ls, host) == (if host in byHost then Some(byHost[host]) else None)
  {
    IndexFacts(byHost, ls);
    ScanFinds(ls, host);
  }

  /** Indexing one more pair: it fits exactly when its host is free. */
  lemma IndexStep<T>(byHost: map<string, T>, done: seq<Listing<T>>, x: Listing<T>)
    requires Indexes(byHost, done)
    ensures x.host in byHost ==> !HostsDistinct(done + [x])
    ensures x.host !in byHost ==> Indexes(byHost[x.host := x.app], done + [x])
  {
    IndexFacts(byHost, done);
    var all, n := done + [x], |done|;
    if x.host in byHost {
      var i :| 0 <= i < n && done[i].host == x.host;
      assert all[i].host == all[n].host;
    } else {
      assert byHost[x.host := x.app] - {x.host} == byHost;
      assert all[..n] == done;
    }
  }

  lemma HostsOfStep<T>(hostnames: seq<string>, norm: string -> string, app: T, before: seq<Listing<T>>, k: nat)
    requires k < |hostnames|
    ensures var part := before + HostsOf(hostnames[..k + 1], norm, app);
            && part == before + HostsOf(hostnames[..k], norm, app) + [Listing(norm(hostnames[k]), app)]
            && part <= before + HostsOf(hostnames, norm, app)
  {
    var whole := HostsOf(hostnames, norm, app);
    assert HostsOf(hostnames[..k + 1], norm, app) == whole[..k + 1];
    assert HostsOf(hostnames[..k], norm, app) == whole[..k];
    assert whole[..k + 1] == whole[..k] + [whole[k]];
  }

  /** The inner loop of `NewStore`: add one app's host names, failing on a taken one. */
  method AddHosts<T>(byHost: map<string, T>, hostnames: seq<string>, norm: string -> string, app: T, ghost before: seq<Listing<T>>)
    returns (r: Result<map<string, T>>)
    requires Indexes(byHost, before)
    ensures r.Ok? <==> HostsDistinct(before + HostsOf(hostnames, norm, app))
    ensures r.Ok? ==> Indexes(r.value, before + HostsOf(hostnames, norm, app))
  {
    var index := byHost;
    ghost var done := before;
    for k := 0 to |hostnames|
      invariant Indexes(index, done) && done == before + HostsOf(hostnames[..k], norm, app)
    {
      var host := norm(hostnames[k]);
      IndexStep(index, done, Listing(host, app));
      HostsOfStep(hostnames, norm, app, before, k);
      done := done + [Listing(host, app)];
      if host in index {
        if HostsDistinct(before + HostsOf(hostnames, norm, app)) {
          DistinctPrefix(done, before + HostsOf(hostnames, norm, app));
        }
        return Err;
      }
      index := index[host := app];
    }
    assert hostnames[..|hostnames|] == hostnames;
    IndexFacts(index, done);
    return Ok(index);
  }

  lemma RepeatedHost<C, T>(cfgs: seq<C>, compile: C -> Result<Entry<T>>, norm: string -> string, a: nat)
    requires a <= |cfgs| && !HostsDistinct(Listings(cfgs[..a], compile, norm))
    ensures !HostsDistinct(Listings(cfgs, compile, norm))
  {
    ListingsPrefix(cfgs, compile, norm, a);
    if HostsDistinct(Listings(cfgs, compile, norm)) {
      DistinctPrefix(Listings(cfgs[..a], compile, norm), Listings(cfgs, compile, norm));
    }
  }

  /** The loops of `NewStore`, for any way of compiling an app. */
  method BuildIndex<C, T>(cfgs: seq<C>, compile: C -> Result<Entry<T>>, norm: string -> string)
    returns (r: Result<map<string, T>>)
    ensures r.Ok? <==> AllCompile(cfgs, compile) && HostsDistinct(Listings(cfgs, compile, norm))
    ensures r.Ok? ==> Indexes(r.value, Listings(cfgs, compile, norm))
  {
    var byHost: map<string, T> := map[];
    ghost var done: seq<Listing<T>> := [];
    for a := 0 to |cfgs|
      invariant Indexes(byHost, done) && done == Listings(cfgs[..a], compile, norm)
      invariant AllCompile(cfgs[..a], compile)
    {
      var entry := compile(cfgs[a]);
      if entry.Err? { return Err; }
      CompileStep(cfgs, compile, a);
      ListingsStep(cfgs, compile, norm, a);
      var added := AddHosts(byHost, entry.value.hostnames, norm, entry.value.app, done);
      done := done + HostsOf(entry.value.hostnames, norm, entry.value.app);
      if added.Err? {
        RepeatedHost(cfgs, compile, norm, a + 1);
        return Err;
      }
      byHost := added.value;
    }
    assert cfgs[..|cfgs|] == cfgs;
    IndexFacts(byHost, done);
    return Ok(byHost);
  }

  /** Every value has an image under `f`, and no two share one. */
  ghost predicate DistinctImages(values: seq<string>, f: string -> Result<string>) {
    && (forall i :: 0 <= i < |values| ==> f(values[i]).Ok?)
    && (forall i, j :: 0 <= i < j < |values| ==> f(values[i]) != f(values[j]))
  }

  /** The loop of `validateHostnames` with its `seen` map, for any check `f` of one name. */
  method AllDistinct(values: seq<string>, f: string -> Result<string>) returns (ok: bool)
    ensures ok <==> DistinctImages(values, f)
  {
    var seen: set<string> := {};
    for n := 0 to |values|
      invariant forall i :: 0 <= i < n ==> f(values[i]).Ok? && f(values[i]).value in seen
      invariant forall i, j :: 0 <= i < j < n ==> f(values[i]) != f(values[j])
      invariant forall host :: host in seen ==> exists i :: 0 <= i < n && f(values[i]) == Ok(host)
    {
      var host := f(values[n]);
      if host.Err? { return false; }
      if host.value in seen {
        ghost var i :| 0 <= i < n && f(values[i]) == Ok(host.value);
        assert f(values[i]) == f(values[n]);
        return false;
      }
      seen := seen + {host.value};
    }
    return true;
  }
}

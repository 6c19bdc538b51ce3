/**
 Drafting and publishing policies (services/control-api/internal/db/db.go, with the
 handlers of services/control-api/internal/httpapi/server.go): any interleaving of
 create, update and publish transactions over the policy tables. A transaction gets its
 time stamp when it begins, locks the policy row, and takes effect when it commits.
 */
module PolicyLifecycle {
  import opened Common

  datatype PolicyRow<D> = PolicyRow(
    tenantId: string, appId: string, name: string, blockMode: bool, enabled: bool, activeVersion: Option<string>,
    draft: D, updatedAt: nat)

  /** `source` is history: the policy row the version was compiled from. */
  datatype VersionRow<D, G> = VersionRow(
    tenantId: string, appId: string, policyId: string, version: nat, blockMode: bool, snapshot: G, source: PolicyRow<D>)

  /** The row of gateway node 'default'; its status is always 'active'. */
  datatype DeploymentRow = DeploymentRow(tenantId: string, appId: string, versionId: string, deployedAt: nat)

  /** The apps, each with its tenant, do not change. */
  datatype Db<D, G> = Db(
    apps: map<string, string>,
    policies: map<string, PolicyRow<D>>,
    versions: map<string, VersionRow<D, G>>,
    deployments: map<string, DeploymentRow>)

  /** What the handlers check of a draft, and what publishing makes of a policy row. */
  datatype Rules<!D, !G> = Rules(valid: D -> bool, compile: (string, PolicyRow<D>, string) -> G)

  datatype Op<D> =
    | Create(appId: string, name: string, blockMode: bool, draft: D)
    | Update(policyId: string, newName: Option<string>, newMode: Option<bool>, newEnabled: Option<bool>,
             newDraft: Option<D>, expected: nat)
    | Publish(policyId: string)

  datatype Phase<D> = Begun | Locked(row: PolicyRow<D>) | Numbered(row: PolicyRow<D>, version: nat)

  datatype Tx<D> = Tx(tenantId: string, op: Op<D>, stamp: nat, phase: Phase<D>)

  /** `owner`: the transaction holding each policy's row lock; `stamps`: every stamp handed out. */
  datatype State<D, G> = State(db: Db<D, G>, txs: map<nat, Tx<D>>, owner: map<string, nat>, stamps: set<nat>)

  datatype Step<D> =
    | Begin(t: nat, tenantId: string, op: Op<D>, stamp: nat)
    | Lock(t: nat)
    | Number(t: nat, version: nat)
    | CommitCreate(t: nat, id: string)
    | CommitUpdate(t: nat)
    | CommitPublish(t: nat, id: string)
    | Abort(t: nat)

  predicate Owns<D, G>(db: Db<D, G>, tenantId: string, policyId: string) {
    policyId in db.policies && db.policies[policyId].tenantId == tenantId
  }

  /** The handler's checks before the transaction begins; publishing validates the row as it reads it then. */
  predicate Admissible<D, G>(rules: Rules<D, G>, db: Db<D, G>, tenantId: string, op: Op<D>) {
    match op
    case Create(appId, name, _, draft) => name != "" && appId in db.apps && db.apps[appId] == tenantId && rules.valid(draft)
    case Update(_, newName, _, _, newDraft, _) => newName != Some("") && (newDraft.Some? ==> rules.valid(newDraft.value))
    case Publish(policyId) => Owns(db, tenantId, policyId) && rules.valid(db.policies[policyId].draft)
  }

  predicate VersionOf<D, G>(db: Db<D, G>, v: string, policyId: string) {
    v in db.versions && db.versions[v].policyId == policyId
  }

  /** `COALESCE(MAX(version), 0) + 1` over the versions of a policy. */
  ghost predicate NextVersion<D, G>(db: Db<D, G>, policyId: string, version: nat) {
    && (forall v :: VersionOf(db, v, policyId) ==> db.versions[v].version < version)
    && (version == 1 || (version > 1 && exists v :: VersionOf(db, v, policyId) && db.versions[v].version == version - 1))
  }

  /** The tables keep policy names unique within an app: no other policy of the app has this name. */
  ghost predicate NameFree<D, G>(db: Db<D, G>, appId: string, name: string, p: string) {
    forall q :: q in db.policies && q != p ==> db.policies[q].appId != appId || db.policies[q].name != name
  }

  ghost predicate Enabled<D(!new), G(!new)>(rules: Rules<D, G>, s: State<D, G>, step: Step<D>) {
    match step
    case Begin(t, tenantId, op, stamp) => t !in s.txs && stamp !in s.stamps && Admissible(rules, s.db, tenantId, op)
    case Lock(t) =>
      && t in s.txs && s.txs[t].phase.Begun? && !s.txs[t].op.Create?
      && Owns(s.db, s.txs[t].tenantId, s.txs[t].op.policyId) && s.txs[t].op.policyId !in s.owner
    case Number(t, version) =>
      t in s.txs && s.txs[t].op.Publish? && s.txs[t].phase.Locked? && NextVersion(s.db, s.txs[t].op.policyId, version)
    case CommitCreate(t, id) =>
      && t in s.txs && s.txs[t].op.Create? && id !in s.db.policies
      && NameFree(s.db, s.txs[t].op.appId, s.txs[t].op.name, id)
    case CommitUpdate(t) =>
      && t in s.txs && s.txs[t].op.Update? && s.txs[t].phase.Locked?
      && s.txs[t].phase.row.updatedAt == s.txs[t].op.expected && Owns(s.db, s.txs[t].tenantId, s.txs[t].op.policyId)
      && NameFree(s.db, s.db.policies[s.txs[t].op.policyId].appId, GetOr(s.txs[t].op.newName, s.txs[t].phase.row.name),
                  s.txs[t].op.policyId)
    case CommitPublish(t, id) =>
      && t in s.txs && s.txs[t].op.Publish? && s.txs[t].phase.Numbered? && id !in s.db.versions
      && s.txs[t].op.policyId in s.db.policies
    case Abort(t) => t in s.txs
  }

  function GetOr<T>(o: Option<T>, default: T): T {
    if o.Some? then o.value else default
  }

  /** The columns `UPDATE policies` sets, from the row read under the lock and the request. */
  function Updated<D>(row: PolicyRow<D>, read: PolicyRow<D>, op: Op<D>, stamp: nat): PolicyRow<D>
    requires op.Update?
  {
    row.(name := GetOr(op.newName, read.name), blockMode := GetOr(op.newMode, read.blockMode),
         enabled := GetOr(op.newEnabled, read.enabled), draft := GetOr(op.newDraft, read.draft), updatedAt := stamp)
  }

  function Finish<D, G>(s: State<D, G>, t: nat): State<D, G> {
    s.(txs := s.txs - {t}, owner := map p | p in s.owner && s.owner[p] != t :: s.owner[p])
  }

  ghost function Apply<D(!new), G(!new)>(rules: Rules<D, G>, s: State<D, G>, step: Step<D>): State<D, G>
    requires Enabled(rules, s, step)
  {
    match step
    case Begin(t, tenantId, op, stamp) =>
      s.(txs := s.txs[t := Tx(tenantId, op, stamp, Begun)], stamps := s.stamps + {stamp})
    case Lock(t) =>
      var p := s.txs[t].op.policyId;
      s.(txs := s.txs[t := s.txs[t].(phase := Locked(s.db.policies[p]))], owner := s.owner[p := t])
    case Number(t, version) =>
      s.(txs := s.txs[t := s.txs[t].(phase := Numbered(s.txs[t].phase.row, version))])
    case CommitCreate(t, id) =>
      var tx := s.txs[t];
      var row := PolicyRow(tx.tenantId, tx.op.appId, tx.op.name, tx.op.blockMode, true, None, tx.op.draft, tx.stamp);
      Finish(s, t).(db := s.db.(policies := s.db.policies[id := row]))
    case CommitUpdate(t) =>
      var tx := s.txs[t];
      var p := tx.op.policyId;
      Finish(s, t).(db := s.db.(policies := s.db.policies[p := Updated(s.db.policies[p], tx.phase.row, tx.op, tx.stamp)]))
    case CommitPublish(t, id) =>
      var tx := s.txs[t];
      var p, read := tx.op.policyId, tx.phase.row;
      var version := VersionRow(read.tenantId, read.appId, p, tx.phase.version, read.blockMode, rules.compile(p, read, id), read);
      Finish(s, t).(db := s.db.(
        versions := s.db.versions[id := version],
        policies := s.db.policies[p := s.db.policies[p].(activeVersion := Some(id), updatedAt := tx.stamp)],
        deployments := s.db.deployments[p := DeploymentRow(read.tenantId, read.appId, id, tx.stamp)]))
    case Abort(t) => Finish(s, t)
  }

  ghost predicate IsRun<D(!new), G(!new)>(rules: Rules<D, G>, s: State<D, G>, steps: seq<Step<D>>)
    decreases |steps|
  {
    steps == [] || (Enabled(rules, s, steps[0]) && IsRun(rules, Apply(rules, s, steps[0]), steps[1..]))
  }

  ghost function After<D(!new), G(!new)>(rules: Rules<D, G>, s: State<D, G>, steps: seq<Step<D>>): State<D, G>
    requires IsRun(rules, s, steps)
    decreases |steps|
  {
    if steps == [] then s else After(rules, Apply(rules, s, steps[0]), steps[1..])
  }

  function Init<D, G>(apps: map<string, string>): State<D, G> {
    State(Db(apps, map[], map[], map[]), map[], map[], {})
  }

  // ---------------------------------------------------------------- invariant

  predicate Holding<D>(tx: Tx<D>) {
    tx.phase.Locked? || tx.phase.Numbered?
  }

  /** A transaction past the lock holds its policy's row, and has read what is there now. */
  ghost predicate TxOk<D(!new), G(!new)>(rules: Rules<D, G>, s: State<D, G>, t: nat)
    requires t in s.txs
  {
    var tx := s.txs[t];
    && tx.stamp in s.stamps
    && (match tx.op
        case Create(appId, name, _, draft) =>
          tx.phase.Begun? && name != "" && appId in s.db.apps && s.db.apps[appId] == tx.tenantId && rules.valid(draft)
        case Update(_, newName, _, _, newDraft, _) =>
          !tx.phase.Numbered? && newName != Some("") && (newDraft.Some? ==> rules.valid(newDraft.value))
        case Publish(_) => true)
    && (Holding(tx) ==>
          var p := tx.op.policyId;
          p in s.owner && s.owner[p] == t && Owns(s.db, tx.tenantId, p) && tx.phase.row == s.db.policies[p])
    && (tx.phase.Numbered? ==> NextVersion(s.db, tx.op.policyId, tx.phase.version))
  }

  ghost predicate OwnerOk<D, G>(s: State<D, G>, p: string)
    requires p in s.owner
  {
    && s.owner[p] in s.txs && Holding(s.txs[s.owner[p]]) && !s.txs[s.owner[p]].op.Create?
    && s.txs[s.owner[p]].op.policyId == p
  }

  /**
   The versions of a policy are 1..n with one row each, and both the policy's active
   version and the deployment name number n.
   */
  ghost predicate VersionsOk<D, G>(db: Db<D, G>, p: string)
    requires p in db.policies
  {
    match db.policies[p].activeVersion
    case None => p !in db.deployments && forall v :: !VersionOf(db, v, p)
    case Some(a) =>
      && VersionOf(db, a, p) && p in db.deployments && db.deployments[p].versionId == a
      && (forall v :: VersionOf(db, v, p) ==> 1 <= db.versions[v].version <= db.versions[a].version)
      && (forall v, w :: VersionOf(db, v, p) && VersionOf(db, w, p) && db.versions[v].version == db.versions[w].version ==> v == w)
      && (forall n :: 1 <= n <= db.versions[a].version ==> HasVersion(db, p, n))
  }

  ghost predicate HasVersion<D, G>(db: Db<D, G>, p: string, n: int) {
    exists v :: VersionOf(db, v, p) && db.versions[v].version == n
  }

  ghost predicate PolicyOk<D(!new), G(!new)>(rules: Rules<D, G>, s: State<D, G>, p: string)
    requires p in s.db.policies
  {
    var row := s.db.policies[p];
    && row.appId in s.db.apps && s.db.apps[row.appId] == row.tenantId
    && row.name != "" && rules.valid(row.draft)
    && row.updatedAt in s.stamps
    && (p in s.db.deployments ==>
          var d := s.db.deployments[p];
          d.tenantId == row.tenantId && d.appId == row.appId)
    && VersionsOk(s.db, p)
  }

  /** A version carries the tenant and app of its policy, and was compiled from a valid draft of it. */
  ghost predicate VersionOk<D(!new), G(!new)>(rules: Rules<D, G>, db: Db<D, G>, v: string)
    requires v in db.versions
  {
    var r := db.versions[v];
    && r.policyId in db.policies
    && r.tenantId == db.policies[r.policyId].tenantId && r.appId == db.policies[r.policyId].appId
    && r.source.tenantId == r.tenantId && r.source.appId == r.appId
    && rules.valid(r.source.draft) && r.snapshot == rules.compile(r.policyId, r.source, v)
    && r.blockMode == r.source.blockMode
  }

  /** No row carries the stamp of a transaction that has not committed; stamps of live transactions differ. */
  ghost predicate StampsOk<D, G>(s: State<D, G>) {
    && (forall t, p :: t in s.txs && p in s.db.policies ==> s.txs[t].stamp != s.db.policies[p].updatedAt)
    && (forall t, u :: t in s.txs && u in s.txs && s.txs[t].stamp == s.txs[u].stamp ==> t == u)
  }

  /** The same for deployments, whose stamps also differ from one another. */
  ghost predicate DeploymentsOk<D, G>(s: State<D, G>) {
    && (forall p :: p in s.db.deployments ==> p in s.db.policies && s.db.deployments[p].deployedAt in s.stamps)
    && (forall t, p :: t in s.txs && p in s.db.deployments ==> s.txs[t].stamp != s.db.deployments[p].deployedAt)
    && (forall p, q :: p in s.db.deployments && q in s.db.deployments && p != q ==>
          s.db.deployments[p].deployedAt != s.db.deployments[q].deployedAt)
  }

  ghost predicate Inv<D(!new), G(!new)>(rules: Rules<D, G>, s: State<D, G>) {
    && (forall t :: t in s.txs ==> TxOk(rules, s, t))
    && (forall p :: p in s.owner ==> OwnerOk(s, p))
    && (forall p :: p in s.db.policies ==> PolicyOk(rules, s, p))
    && (forall v :: v in s.db.versions ==> VersionOk(rules, s.db, v))
    && StampsOk(s) && DeploymentsOk(s)
  }

  // ---------------------------------------------------------------- every step keeps the invariant

  /** The rows that concern policy `p` are the same in both databases. */
  ghost predicate SamePolicy<D(!new), G(!new)>(db: Db<D, G>, db': Db<D, G>, p: string) {
    && db'.apps == db.apps
    && (p in db.policies <==> p in db'.policies) && (p in db.policies ==> db'.policies[p] == db.policies[p])
    && (p in db.deployments <==> p in db'.deployments) && (p in db.deployments ==> db'.deployments[p] == db.deployments[p])
    && SameVersions(db, db', p)
  }

  ghost predicate SameVersions<D(!new), G(!new)>(db: Db<D, G>, db': Db<D, G>, p: string) {
    forall v :: (VersionOf(db', v, p) <==> VersionOf(db, v, p)) && (VersionOf(db, v, p) ==> db'.versions[v] == db.versions[v])
  }

  /** The policy a step writes to, if any. */
  predicate Writes<D, G>(s: State<D, G>, step: Step<D>, p: string) {
    match step
    case CommitCreate(_, id) => p == id
    case CommitUpdate(t) => t in s.txs && !s.txs[t].op.Create? && p == s.txs[t].op.policyId
    case CommitPublish(t, _) => t in s.txs && !s.txs[t].op.Create? && p == s.txs[t].op.policyId
    case _ => false
  }

  lemma UnwrittenPolicy<D(!new), G(!new)>(rules: Rules<D, G>, s: State<D, G>, step: Step<D>, p: string)
    requires Enabled(rules, s, step) && !Writes(s, step, p)
    ensures SamePolicy(s.db, Apply(rules, s, step).db, p)
  {
  }

  lemma NextVersionFrame<D(!new), G(!new)>(db: Db<D, G>, db': Db<D, G>, p: string, n: nat)
    requires SameVersions(db, db', p) && NextVersion(db, p, n)
    ensures NextVersion(db', p, n)
  {
    if n > 1 {
      var v :| VersionOf(db, v, p) && db.versions[v].version == n - 1;
      assert VersionOf(db', v, p);
    }
  }

  lemma VersionsFrame<D(!new), G(!new)>(db: Db<D, G>, db': Db<D, G>, p: string)
    requires p in db.policies && SamePolicy(db, db', p) && VersionsOk(db, p)
    ensures VersionsOk(db', p)
  {
    if db.policies[p].activeVersion.Some? {
      var a := db.policies[p].activeVersion.value;
      assert VersionOf(db', a, p);
      forall n | 1 <= n <= db.versions[a].version ensures HasVersion(db', p, n) {
        assert HasVersion(db, p, n);
        var v :| VersionOf(db, v, p) && db.versions[v].version == n;
        assert VersionOf(db', v, p);
      }
    }
  }

  /** A transaction that is not the one taking the step keeps what it knows. */
  lemma TxOther<D(!new), G(!new)>(rules: Rules<D, G>, s: State<D, G>, step: Step<D>, u: nat)
    requires Enabled(rules, s, step) && u in s.txs && step.t != u && TxOk(rules, s, u)
    requires step.t in s.txs ==> TxOk(rules, s, step.t)
    ensures u in Apply(rules, s, step).txs && TxOk(rules, Apply(rules, s, step), u)
  {
    var s' := Apply(rules, s, step);
    var tx := s.txs[u];
    if Holding(tx) {
      var p := tx.op.policyId;
      assert !Writes(s, step, p);
      UnwrittenPolicy(rules, s, step, p);
      if tx.phase.Numbered? {
        NextVersionFrame(s.db, s'.db, p, tx.phase.version);
      }
    }
  }

  lemma TxSelf<D(!new), G(!new)>(rules: Rules<D, G>, s: State<D, G>, step: Step<D>)
    requires Enabled(rules, s, step) && step.t in Apply(rules, s, step).txs
    requires step.t in s.txs ==> TxOk(rules, s, step.t)
    ensures TxOk(rules, Apply(rules, s, step), step.t)
  {
  }

  lemma OwnerStep<D(!new), G(!new)>(rules: Rules<D, G>, s: State<D, G>, step: Step<D>, p: string)
    requires Enabled(rules, s, step) && p in Apply(rules, s, step).owner && (p in s.owner ==> OwnerOk(s, p))
    requires step.t in s.txs ==> TxOk(rules, s, step.t)
    ensures OwnerOk(Apply(rules, s, step), p)
  {
  }

  /** A policy the step does not write keeps its rows. */
  lemma PolicyOther<D(!new), G(!new)>(rules: Rules<D, G>, s: State<D, G>, step: Step<D>, p: string)
    requires Enabled(rules, s, step) && !Writes(s, step, p) && p in s.db.policies && PolicyOk(rules, s, p)
    ensures p in Apply(rules, s, step).db.policies && PolicyOk(rules, Apply(rules, s, step), p)
  {
    UnwrittenPolicy(rules, s, step, p);
    VersionsFrame(s.db, Apply(rules, s, step).db, p);
  }

  lemma PolicyCreated<D(!new), G(!new)>(rules: Rules<D, G>, s: State<D, G>, t: nat, id: string)
    requires Enabled(rules, s, CommitCreate(t, id)) && TxOk(rules, s, t)
    requires forall v :: v in s.db.versions ==> s.db.versions[v].policyId in s.db.policies
    requires forall p :: p in s.db.deployments ==> p in s.db.policies
    ensures PolicyOk(rules, Apply(rules, s, CommitCreate(t, id)), id)
  {
  }

  lemma PolicyUpdated<D(!new), G(!new)>(rules: Rules<D, G>, s: State<D, G>, t: nat, p: string)
    requires Enabled(rules, s, CommitUpdate(t)) && TxOk(rules, s, t)
    requires p == s.txs[t].op.policyId && p in s.db.policies && PolicyOk(rules, s, p)
    ensures PolicyOk(rules, Apply(rules, s, CommitUpdate(t)), p)
  {
    var db, db' := s.db, Apply(rules, s, CommitUpdate(t)).db;
    assert db'.policies[p].activeVersion == db.policies[p].activeVersion;
    forall v ensures VersionOf(db', v, p) <==> VersionOf(db, v, p) {
    }
    forall n | HasVersion(db, p, n) ensures HasVersion(db', p, n) {
      var v :| VersionOf(db, v, p) && db.versions[v].version == n;
      assert VersionOf(db', v, p);
    }
    assert VersionsOk(db', p);
  }

  /** Publishing adds number n + 1 to 1..n and moves both pointers to it. */
  lemma VersionsPublished<D(!new), G(!new)>(db: Db<D, G>, db': Db<D, G>, p: string, id: string, n: nat)
    requires p in db.policies && VersionsOk(db, p) && NextVersion(db, p, n) && id !in db.versions
    requires id in db'.versions && db'.versions == db.versions[id := db'.versions[id]]
    requires db'.versions[id].policyId == p && db'.versions[id].version == n
    requires p in db'.policies && db'.policies[p].activeVersion == Some(id)
    requires p in db'.deployments && db'.deployments[p].versionId == id
    ensures VersionsOk(db', p)
  {
    assert VersionOf(db', id, p);
    forall v ensures VersionOf(db', v, p) <==> v == id || VersionOf(db, v, p) {
    }
    forall k | 1 <= k <= n ensures HasVersion(db', p, k) {
      if k < n {
        PublishedBefore(db, p, n, k);
        var v :| VersionOf(db, v, p) && db.versions[v].version == k;
        assert VersionOf(db', v, p);
      }
    }
  }

  lemma PublishedBefore<D(!new), G(!new)>(db: Db<D, G>, p: string, n: nat, k: nat)
    requires p in db.policies && VersionsOk(db, p) && NextVersion(db, p, n) && 1 <= k < n
    ensures HasVersion(db, p, k)
  {
    var v :| VersionOf(db, v, p) && db.versions[v].version == n - 1;
    assert db.policies[p].activeVersion.Some?;
  }

  lemma PolicyPublished<D(!new), G(!new)>(rules: Rules<D, G>, s: State<D, G>, t: nat, id: string, p: string)
    requires Enabled(rules, s, CommitPublish(t, id)) && TxOk(rules, s, t)
    requires p == s.txs[t].op.policyId && p in s.db.policies && PolicyOk(rules, s, p)
    ensures PolicyOk(rules, Apply(rules, s, CommitPublish(t, id)), p)
  {
    VersionsPublished(s.db, Apply(rules, s, CommitPublish(t, id)).db, p, id, s.txs[t].phase.version);
  }

  lemma PolicyStep<D(!new), G(!new)>(rules: Rules<D, G>, s: State<D, G>, step: Step<D>, p: string)
    requires Inv(rules, s) && Enabled(rules, s, step) && p in Apply(rules, s, step).db.policies
    ensures PolicyOk(rules, Apply(rules, s, step), p)
  {
    if !Writes(s, step, p) {
      UnwrittenPolicy(rules, s, step, p);
      PolicyOther(rules, s, step, p);
    } else {
      match step
      case CommitCreate(t, id) => PolicyCreated(rules, s, t, id);
      case CommitUpdate(t) => PolicyUpdated(rules, s, t, p);
      case CommitPublish(t, id) => PolicyPublished(rules, s, t, id, p);
    }
  }

  lemma VersionStep<D(!new), G(!new)>(rules: Rules<D, G>, s: State<D, G>, step: Step<D>, v: string)
    requires Enabled(rules, s, step) && v in Apply(rules, s, step).db.versions
    requires v in s.db.versions ==> VersionOk(rules, s.db, v)
    requires step.t in s.txs ==> TxOk(rules, s, step.t)
    requires forall p :: p in s.db.policies ==> rules.valid(s.db.policies[p].draft)
    ensures VersionOk(rules, Apply(rules, s, step).db, v)
  {
  }

  lemma StampsStep<D(!new), G(!new)>(rules: Rules<D, G>, s: State<D, G>, step: Step<D>)
    requires Enabled(rules, s, step) && StampsOk(s)
    requires forall t :: t in s.txs ==> s.txs[t].stamp in s.stamps
    requires forall p :: p in s.db.policies ==> s.db.policies[p].updatedAt in s.stamps
    ensures StampsOk(Apply(rules, s, step))
  {
  }

  lemma DeploymentsStep<D(!new), G(!new)>(rules: Rules<D, G>, s: State<D, G>, step: Step<D>)
    requires Enabled(rules, s, step) && DeploymentsOk(s)
    requires forall t :: t in s.txs ==> s.txs[t].stamp in s.stamps
    requires forall t, u :: t in s.txs && u in s.txs && s.txs[t].stamp == s.txs[u].stamp ==> t == u
    ensures DeploymentsOk(Apply(rules, s, step))
  {
  }

  lemma InvStep<D(!new), G(!new)>(rules: Rules<D, G>, s: State<D, G>, step: Step<D>)
    requires Inv(rules, s) && Enabled(rules, s, step)
    ensures Inv(rules, Apply(rules, s, step))
  {
    var s' := Apply(rules, s, step);
    forall u | u in s'.txs ensures TxOk(rules, s', u) {
      if u == step.t {
        TxSelf(rules, s, step);
      } else {
        TxOther(rules, s, step, u);
      }
    }
    forall p | p in s'.owner ensures OwnerOk(s', p) { OwnerStep(rules, s, step, p); }
    forall p | p in s'.db.policies ensures PolicyOk(rules, s', p) { PolicyStep(rules, s, step, p); }
    forall v | v in s'.db.versions ensures VersionOk(rules, s'.db, v) { VersionStep(rules, s, step, v); }
    StampsStep(rules, s, step);
    DeploymentsStep(rules, s, step);
  }

  lemma {:induction false} InvRun<D(!new), G(!new)>(rules: Rules<D, G>, s: State<D, G>, steps: seq<Step<D>>)
    requires Inv(rules, s) && IsRun(rules, s, steps)
    ensures Inv(rules, After(rules, s, steps))
    decreases |steps|
  {
    if steps != [] {
      InvStep(rules, s, steps[0]);
      InvRun(rules, Apply(rules, s, steps[0]), steps[1..]);
    }
  }

  /** Reachable from empty tables by some run. */
  ghost predicate Reachable<D(!new), G(!new)>(rules: Rules<D, G>, s: State<D, G>) {
    exists apps, steps :: IsRun(rules, Init(apps), steps) && s == After(rules, Init(apps), steps)
  }

  lemma ReachableInv<D(!new), G(!new)>(rules: Rules<D, G>, s: State<D, G>)
    requires Reachable(rules, s)
    ensures Inv(rules, s)
  {
    var apps, steps :| IsRun(rules, Init(apps), steps) && s == After(rules, Init(apps), steps);
    InvRun(rules, Init(apps), steps);
  }

  // ---------------------------------------------------------------- version numbers

  /** The number of the version the policy row calls active; 0 before the first publication. */
  function ActiveNumber<D, G>(db: Db<D, G>, p: string): nat
    requires p in db.policies
  {
    match db.policies[p].activeVersion
    case None => 0
    case Some(a) => if a in db.versions then db.versions[a].version else 0
  }

  /**
   In every reachable state the versions of a policy are numbered 1..n without gap or
   repetition, and the active version and the deployment are both number n.
   */
  lemma VersionsAreDense<D(!new), G(!new)>(rules: Rules<D, G>, s: State<D, G>, p: string)
    requires Reachable(rules, s) && p in s.db.policies
    ensures forall n :: HasVersion(s.db, p, n) <==> 1 <= n <= ActiveNumber(s.db, p)
    ensures forall v, w :: VersionOf(s.db, v, p) && VersionOf(s.db, w, p) && s.db.versions[v].version == s.db.versions[w].version ==> v == w
    ensures p in s.db.deployments <==> ActiveNumber(s.db, p) > 0
    ensures p in s.db.deployments ==>
              && VersionOf(s.db, s.db.deployments[p].versionId, p)
              && s.db.policies[p].activeVersion == Some(s.db.deployments[p].versionId)
  {
    ReachableInv(rules, s);
    assert PolicyOk(rules, s, p);
  }

  /** A published version never changes and never disappears. */
  lemma {:induction false} VersionsAreImmutable<D(!new), G(!new)>(rules: Rules<D, G>, s: State<D, G>, steps: seq<Step<D>>, v: string)
    requires IsRun(rules, s, steps) && v in s.db.versions
    ensures v in After(rules, s, steps).db.versions && After(rules, s, steps).db.versions[v] == s.db.versions[v]
    decreases |steps|
  {
    if steps != [] {
      VersionsAreImmutable(rules, Apply(rules, s, steps[0]), steps[1..], v);
    }
  }

  /**
   Every stored draft is valid, and so is the draft every version was compiled from, also
   when it changed between the publisher's check and the compilation. Versions and
   deployments carry their policy's tenant and app, and an app belongs to the tenant.
   */
  lemma StoredPoliciesAreValid<D(!new), G(!new)>(rules: Rules<D, G>, s: State<D, G>, p: string)
    requires Reachable(rules, s) && p in s.db.policies
    ensures rules.valid(s.db.policies[p].draft) && s.db.policies[p].name != ""
    ensures s.db.policies[p].appId in s.db.apps && s.db.apps[s.db.policies[p].appId] == s.db.policies[p].tenantId
    ensures forall v :: VersionOf(s.db, v, p) ==>
              var r := s.db.versions[v];
              && r.tenantId == r.source.tenantId == s.db.policies[p].tenantId
              && r.appId == r.source.appId == s.db.policies[p].appId
              && rules.valid(r.source.draft) && r.snapshot == rules.compile(p, r.source, v) && r.blockMode == r.source.blockMode
    ensures p in s.db.deployments ==>
              && s.db.deployments[p].tenantId == s.db.policies[p].tenantId
              && s.db.deployments[p].appId == s.db.policies[p].appId
  {
    ReachableInv(rules, s);
    assert PolicyOk(rules, s, p);
    forall v | VersionOf(s.db, v, p) ensures VersionOk(rules, s.db, v) {
    }
  }

  /**
   A publication compiles the row as it is when it commits, gives it the next number, and
   moves both pointers; it changes nothing else of the row and no other policy.
   */
  lemma PublishAddsNext<D(!new), G(!new)>(rules: Rules<D, G>, s: State<D, G>, t: nat, id: string)
    requires Reachable(rules, s) && Enabled(rules, s, CommitPublish(t, id))
    ensures var p, db' := s.txs[t].op.policyId, Apply(rules, s, CommitPublish(t, id)).db;
            && p in s.db.policies && p in db'.policies && VersionOf(db', id, p) && p in db'.deployments
            && ActiveNumber(db', p) == ActiveNumber(s.db, p) + 1 && db'.versions[id].source == s.db.policies[p]
            && db'.policies[p] == s.db.policies[p].(activeVersion := Some(id), updatedAt := s.txs[t].stamp)
            && db'.deployments[p] == DeploymentRow(s.db.policies[p].tenantId, s.db.policies[p].appId, id, s.txs[t].stamp)
            && db'.versions[id].snapshot == rules.compile(p, s.db.policies[p], id)
            && forall q :: q != p ==> SamePolicy(s.db, db', q)
  {
    ReachableInv(rules, s);
    assert TxOk(rules, s, t);
    var p := s.txs[t].op.policyId;
    assert PolicyOk(rules, s, p);
    NextIsOneMore(s.db, p, s.txs[t].phase.version);
    PublishRow(rules, s, t, id);
    forall q | q != p ensures SamePolicy(s.db, Apply(rules, s, CommitPublish(t, id)).db, q) {
      UnwrittenPolicy(rules, s, CommitPublish(t, id), q);
    }
  }

  lemma PublishRow<D(!new), G(!new)>(rules: Rules<D, G>, s: State<D, G>, t: nat, id: string)
    requires Enabled(rules, s, CommitPublish(t, id)) && TxOk(rules, s, t)
    ensures var p, db' := s.txs[t].op.policyId, Apply(rules, s, CommitPublish(t, id)).db;
            && p in s.db.policies && p in db'.policies && VersionOf(db', id, p) && p in db'.deployments
            && ActiveNumber(db', p) == s.txs[t].phase.version && db'.versions[id].source == s.db.policies[p]
            && db'.policies[p] == s.db.policies[p].(activeVersion := Some(id), updatedAt := s.txs[t].stamp)
            && db'.deployments[p] == DeploymentRow(s.db.policies[p].tenantId, s.db.policies[p].appId, id, s.txs[t].stamp)
            && db'.versions[id].snapshot == rules.compile(p, s.db.policies[p], id)
  {
  }

  lemma NextIsOneMore<D(!new), G(!new)>(db: Db<D, G>, p: string, n: nat)
    requires p in db.policies && VersionsOk(db, p) && NextVersion(db, p, n)
    ensures n == ActiveNumber(db, p) + 1
  {
  }

  /** A creation stores the request as a new policy, enabled and not yet published, and touches no other. */
  lemma CreateStoresRequest<D(!new), G(!new)>(rules: Rules<D, G>, s: State<D, G>, t: nat, id: string)
    requires Reachable(rules, s) && Enabled(rules, s, CommitCreate(t, id))
    ensures var tx, db' := s.txs[t], Apply(rules, s, CommitCreate(t, id)).db;
            && id !in s.db.policies && id in db'.policies && id !in db'.deployments && ActiveNumber(db', id) == 0
            && db'.policies[id] == PolicyRow(
                 tx.tenantId, tx.op.appId, tx.op.name, tx.op.blockMode, true, None, tx.op.draft, tx.stamp)
            && (forall v :: !VersionOf(db', v, id))
            && forall q :: q != id ==> SamePolicy(s.db, db', q)
  {
    ReachableInv(rules, s);
    forall v ensures !VersionOf(s.db, v, id) {
      assert v in s.db.versions ==> VersionOk(rules, s.db, v);
    }
    forall q | q != id ensures SamePolicy(s.db, Apply(rules, s, CommitCreate(t, id)).db, q) {
      UnwrittenPolicy(rules, s, CommitCreate(t, id), q);
    }
  }

  // ---------------------------------------------------------------- names

  ghost predicate NamesUnique<D, G>(db: Db<D, G>) {
    forall p, q :: p in db.policies && q in db.policies && p != q ==>
      db.policies[p].appId != db.policies[q].appId || db.policies[p].name != db.policies[q].name
  }

  lemma NamesStep<D(!new), G(!new)>(rules: Rules<D, G>, s: State<D, G>, step: Step<D>)
    requires NamesUnique(s.db) && Enabled(rules, s, step)
    ensures NamesUnique(Apply(rules, s, step).db)
  {
  }

  lemma {:induction false} NamesRun<D(!new), G(!new)>(rules: Rules<D, G>, s: State<D, G>, steps: seq<Step<D>>)
    requires NamesUnique(s.db) && IsRun(rules, s, steps)
    ensures NamesUnique(After(rules, s, steps).db)
    decreases |steps|
  {
    if steps != [] {
      NamesStep(rules, s, steps[0]);
      NamesRun(rules, Apply(rules, s, steps[0]), steps[1..]);
    }
  }

  /** In every interleaving no two policies of an app share a name. */
  lemma NamesAreUnique<D(!new), G(!new)>(rules: Rules<D, G>, s: State<D, G>)
    requires Reachable(rules, s)
    ensures NamesUnique(s.db)
  {
    var apps, steps :| IsRun(rules, Init(apps), steps) && s == After(rules, Init(apps), steps);
    NamesRun(rules, Init(apps), steps);
  }

  // ---------------------------------------------------------------- undisturbed transactions

  lemma StepThen<D(!new), G(!new)>(rules: Rules<D, G>, s: State<D, G>, step: Step<D>, steps: seq<Step<D>>)
    requires Enabled(rules, s, step) && IsRun(rules, Apply(rules, s, step), steps)
    ensures IsRun(rules, s, [step] + steps) && After(rules, s, [step] + steps) == After(rules, Apply(rules, s, step), steps)
  {
    assert ([step] + steps)[1..] == steps;
  }

  lemma OneStep<D(!new), G(!new)>(rules: Rules<D, G>, s: State<D, G>, step: Step<D>)
    requires Enabled(rules, s, step)
    ensures IsRun(rules, s, [step]) && After(rules, s, [step]) == Apply(rules, s, step)
  {
    assert IsRun(rules, Apply(rules, s, step), []);
    StepThen(rules, s, step, []);
    assert [step] + [] == [step];
  }

  /** A transaction over and nothing of it left but its effect on the tables. */
  ghost predicate Settled<D(!new), G(!new)>(s: State<D, G>, end: State<D, G>) {
    end.txs == s.txs && end.owner == s.owner
  }

  /** A publication whose policy no one else has locked goes through, whatever the policy's history. */
  lemma UndisturbedPublish<D(!new), G(!new)>(
    rules: Rules<D, G>, s: State<D, G>, t: nat, tenantId: string, p: string, stamp: nat, id: string)
    returns (steps: seq<Step<D>>)
    requires Reachable(rules, s) && Owns(s.db, tenantId, p) && p !in s.owner
    requires t !in s.txs && stamp !in s.stamps && id !in s.db.versions
    ensures IsRun(rules, s, steps) && Settled(s, After(rules, s, steps))
    ensures var db', row := After(rules, s, steps).db, s.db.policies[p];
            && p in db'.policies && p in db'.deployments && VersionOf(db', id, p)
            && db'.deployments[p] == DeploymentRow(row.tenantId, row.appId, id, stamp)
            && db'.policies[p] == row.(activeVersion := Some(id), updatedAt := stamp)
            && db'.versions[id] == VersionRow(row.tenantId, row.appId, p, ActiveNumber(s.db, p) + 1, row.blockMode,
                                              rules.compile(p, row, id), row)
  {
    ReachableInv(rules, s);
    assert PolicyOk(rules, s, p);
    NextAfterActive(s.db, p);
    var n := ActiveNumber(s.db, p) + 1;
    var first := BeginAndLock(rules, s, t, tenantId, Publish(p), stamp);
    var second := [Number(t, n), CommitPublish(t, id)];
    NumberAndCommit(rules, After(rules, s, first), t, p, s.db.policies[p], n, id);
    RunAppend(rules, s, first, second);
    steps := first + second;
    FinishReleases(s, After(rules, s, first), t, p);
  }

  /** The transaction after it has begun and locked its policy's row. */
  function LockedBy<D, G>(s: State<D, G>, t: nat, tenantId: string, op: Op<D>, stamp: nat): State<D, G>
    requires !op.Create? && op.policyId in s.db.policies
  {
    s.(txs := s.txs[t := Tx(tenantId, op, stamp, Locked(s.db.policies[op.policyId]))], owner := s.owner[op.policyId := t],
       stamps := s.stamps + {stamp})
  }

  lemma BeginAndLock<D(!new), G(!new)>(rules: Rules<D, G>, s: State<D, G>, t: nat, tenantId: string, op: Op<D>, stamp: nat)
    returns (steps: seq<Step<D>>)
    requires !op.Create? && Owns(s.db, tenantId, op.policyId) && op.policyId !in s.owner
    requires t !in s.txs && stamp !in s.stamps && Admissible(rules, s.db, tenantId, op)
    ensures IsRun(rules, s, steps) && After(rules, s, steps) == LockedBy(s, t, tenantId, op, stamp)
  {
    var s1 := Apply(rules, s, Begin(t, tenantId, op, stamp));
    OneStep(rules, s1, Lock(t));
    StepThen(rules, s, Begin(t, tenantId, op, stamp), [Lock(t)]);
    steps := [Begin(t, tenantId, op, stamp)] + [Lock(t)];
  }

  lemma NumberAndCommit<D(!new), G(!new)>(rules: Rules<D, G>, s: State<D, G>, t: nat, p: string, row: PolicyRow<D>, n: nat, id: string)
    requires t in s.txs && s.txs[t].op == Publish(p) && s.txs[t].phase == Locked(row) && p in s.db.policies && s.db.policies[p] == row
    requires NextVersion(s.db, p, n) && id !in s.db.versions
    ensures var steps := [Number(t, n), CommitPublish(t, id)];
            && IsRun(rules, s, steps)
            && var end := After(rules, s, steps);
               && end.txs == s.txs - {t} && end.owner == Finish(s, t).owner
               && p in end.db.policies && p in end.db.deployments && VersionOf(end.db, id, p)
               && end.db.deployments[p] == DeploymentRow(row.tenantId, row.appId, id, s.txs[t].stamp)
               && end.db.policies[p] == row.(activeVersion := Some(id), updatedAt := s.txs[t].stamp)
               && end.db.versions[id] == VersionRow(row.tenantId, row.appId, p, n, row.blockMode, rules.compile(p, row, id), row)
  {
    var s1 := Apply(rules, s, Number(t, n));
    OneStep(rules, s1, CommitPublish(t, id));
    StepThen(rules, s, Number(t, n), [CommitPublish(t, id)]);
    var number: Step<D> := Number(t, n);
    assert [number] + [CommitPublish(t, id)] == [number, CommitPublish(t, id)];
    assert s1.txs - {t} == s.txs - {t};
  }

  lemma {:induction false} RunAppend<D(!new), G(!new)>(rules: Rules<D, G>, s: State<D, G>, a: seq<Step<D>>, b: seq<Step<D>>)
    requires IsRun(rules, s, a) && IsRun(rules, After(rules, s, a), b)
    ensures IsRun(rules, s, a + b) && After(rules, s, a + b) == After(rules, After(rules, s, a), b)
    decreases |a|
  {
    if a == [] {
      assert a + b == b;
    } else {
      assert (a + b)[1..] == a[1..] + b;
      RunAppend(rules, Apply(rules, s, a[0]), a[1..], b);
    }
  }

  lemma NextAfterActive<D(!new), G(!new)>(db: Db<D, G>, p: string)
    requires p in db.policies && VersionsOk(db, p)
    ensures NextVersion(db, p, ActiveNumber(db, p) + 1)
  {
  }

  /** Ending a transaction leaves the others and their locks as they were before it began. */
  lemma FinishReleases<D(!new), G(!new)>(s: State<D, G>, s': State<D, G>, t: nat, p: string)
    requires t !in s.txs && (forall q :: q in s.owner ==> s.owner[q] in s.txs) && p !in s.owner
    requires t in s'.txs && s'.txs == s.txs[t := s'.txs[t]] && s'.owner == s.owner[p := t]
    ensures Settled(s, Finish(s', t))
  {
    assert s'.txs - {t} == s.txs;
    assert (map q | q in s'.owner && s'.owner[q] != t :: s'.owner[q]) == s.owner;
  }

  /** An update that expects the stamp the row carries goes through if its new name is free. */
  lemma UndisturbedUpdate<D(!new), G(!new)>(
    rules: Rules<D, G>, s: State<D, G>, t: nat, tenantId: string, op: Op<D>, stamp: nat) returns (steps: seq<Step<D>>)
    requires Reachable(rules, s) && op.Update? && Owns(s.db, tenantId, op.policyId) && op.policyId !in s.owner
    requires t !in s.txs && stamp !in s.stamps
    requires op.newName != Some("") && (op.newDraft.Some? ==> rules.valid(op.newDraft.value))
    requires var row := s.db.policies[op.policyId];
             op.expected == row.updatedAt && NameFree(s.db, row.appId, GetOr(op.newName, row.name), op.policyId)
    ensures IsRun(rules, s, steps) && Settled(s, After(rules, s, steps))
    ensures var end, row := After(rules, s, steps), s.db.policies[op.policyId];
            && end.db.versions == s.db.versions && end.db.deployments == s.db.deployments
            && end.db.policies == s.db.policies[op.policyId := PolicyRow(
                 row.tenantId, row.appId, GetOr(op.newName, row.name), GetOr(op.newMode, row.blockMode),
                 GetOr(op.newEnabled, row.enabled), row.activeVersion, GetOr(op.newDraft, row.draft), stamp)]
  {
    ReachableInv(rules, s);
    var first := BeginAndLock(rules, s, t, tenantId, op, stamp);
    var locked := After(rules, s, first);
    OneStep(rules, locked, CommitUpdate(t));
    RunAppend(rules, s, first, [CommitUpdate(t)]);
    steps := first + [CommitUpdate(t)];
    FinishReleases(s, locked, t, op.policyId);
  }

  /** An update commits only if the row still carries the stamp it expects; a stale one is refused. */
  lemma StaleUpdateRefused<D(!new), G(!new)>(rules: Rules<D, G>, s: State<D, G>, t: nat)
    requires Reachable(rules, s) && t in s.txs && s.txs[t].op.Update? && s.txs[t].op.policyId in s.db.policies
    requires s.db.policies[s.txs[t].op.policyId].updatedAt != s.txs[t].op.expected
    ensures !Enabled(rules, s, CommitUpdate(t))
  {
    ReachableInv(rules, s);
    assert TxOk(rules, s, t);
  }

  // ---------------------------------------------------------------- no lost update

  /** Stamp `x` was handed out, its transaction is over, and the row of `p` does not carry it. */
  ghost predicate Spent<D, G>(s: State<D, G>, p: string, x: nat) {
    && x in s.stamps && (forall t :: t in s.txs ==> s.txs[t].stamp != x)
    && (p in s.db.policies ==> s.db.policies[p].updatedAt != x)
  }

  /** A spent stamp does not come back. */
  lemma {:induction false} SpentForever<D(!new), G(!new)>(rules: Rules<D, G>, s: State<D, G>, steps: seq<Step<D>>, p: string, x: nat)
    requires Spent(s, p, x) && IsRun(rules, s, steps)
    ensures Spent(After(rules, s, steps), p, x)
    decreases |steps|
  {
    if steps != [] {
      SpentForever(rules, Apply(rules, s, steps[0]), steps[1..], p, x);
    }
  }

  /** A step that writes a policy spends the stamp its row carried. */
  lemma WriteSpends<D(!new), G(!new)>(rules: Rules<D, G>, s: State<D, G>, step: Step<D>, p: string)
    requires Inv(rules, s) && Enabled(rules, s, step) && p in s.db.policies
    ensures p in Apply(rules, s, step).db.policies
    ensures if Writes(s, step, p) then Spent(Apply(rules, s, step), p, s.db.policies[p].updatedAt)
            else Apply(rules, s, step).db.policies[p] == s.db.policies[p]
  {
    assert PolicyOk(rules, s, p);
    if Writes(s, step, p) {
      WrittenStamp(rules, s, step, p);
    } else {
      UnwrittenPolicy(rules, s, step, p);
    }
  }

  /** The row then carries the stamp of the transaction that wrote it, which is over. */
  lemma WrittenStamp<D(!new), G(!new)>(rules: Rules<D, G>, s: State<D, G>, step: Step<D>, p: string)
    requires Enabled(rules, s, step) && Writes(s, step, p) && p in s.db.policies && StampsOk(s)
    requires s.db.policies[p].updatedAt in s.stamps
    ensures p in Apply(rules, s, step).db.policies && Spent(Apply(rules, s, step), p, s.db.policies[p].updatedAt)
  {
  }

  /** If the row still carries the stamp it had, nothing wrote it in between. */
  lemma {:induction false} SameStampSameRow<D(!new), G(!new)>(rules: Rules<D, G>, s: State<D, G>, a: seq<Step<D>>, b: seq<Step<D>>, p: string)
    requires Inv(rules, s) && IsRun(rules, s, a) && IsRun(rules, After(rules, s, a), b) && p in s.db.policies
    requires var end := After(rules, After(rules, s, a), b); p in end.db.policies && end.db.policies[p].updatedAt == s.db.policies[p].updatedAt
    ensures var mid := After(rules, s, a);
            && p in mid.db.policies && mid.db.policies[p] == s.db.policies[p]
            && (b != [] ==> !Writes(mid, b[0], p))
    decreases |a|
  {
    var x := s.db.policies[p].updatedAt;
    if a != [] {
      var s1 := Apply(rules, s, a[0]);
      WriteSpends(rules, s, a[0], p);
      InvStep(rules, s, a[0]);
      if Writes(s, a[0], p) {
        SpentForever(rules, s1, a[1..], p, x);
        SpentForever(rules, After(rules, s, a), b, p, x);
      }
      SameStampSameRow(rules, s1, a[1..], b, p);
    } else if b != [] {
      WriteSpends(rules, s, b[0], p);
      if Writes(s, b[0], p) {
        SpentForever(rules, Apply(rules, s, b[0]), b[1..], p, x);
      }
    }
  }

  /**
   A client reads a policy in state `s` and later an update that expects the stamp it read
   commits. Then at every moment in between the row is the one that was read and the next
   step does not write it, and the update is applied to that row.
   */
  lemma NoLostUpdate<D(!new), G(!new)>(rules: Rules<D, G>, s: State<D, G>, a: seq<Step<D>>, b: seq<Step<D>>, t: nat)
    requires Reachable(rules, s) && IsRun(rules, s, a) && IsRun(rules, After(rules, s, a), b)
    requires Enabled(rules, After(rules, After(rules, s, a), b), CommitUpdate(t))
    requires var op := After(rules, After(rules, s, a), b).txs[t].op;
             op.policyId in s.db.policies && op.expected == s.db.policies[op.policyId].updatedAt
    ensures var mid, end := After(rules, s, a), After(rules, After(rules, s, a), b);
            var tx := end.txs[t];
            var p := tx.op.policyId;
            var row := s.db.policies[p];
            && p in mid.db.policies && mid.db.policies[p] == row && (b != [] ==> !Writes(mid, b[0], p))
            && p in Apply(rules, end, CommitUpdate(t)).db.policies
            && Apply(rules, end, CommitUpdate(t)).db.policies[p] == PolicyRow(
                 row.tenantId, row.appId, GetOr(tx.op.newName, row.name), GetOr(tx.op.newMode, row.blockMode),
                 GetOr(tx.op.newEnabled, row.enabled), row.activeVersion, GetOr(tx.op.newDraft, row.draft), tx.stamp)
  {
    ReachableInv(rules, s);
    InvRun(rules, s, a);
    InvRun(rules, After(rules, s, a), b);
    var end := After(rules, After(rules, s, a), b);
    assert TxOk(rules, end, t);
    var p := end.txs[t].op.policyId;
    SameStampSameRow(rules, s, a, b, p);
    RunSame(rules, s, a, b, p);
  }

  lemma RunSame<D(!new), G(!new)>(rules: Rules<D, G>, s: State<D, G>, a: seq<Step<D>>, b: seq<Step<D>>, p: string)
    requires Inv(rules, s) && IsRun(rules, s, a) && IsRun(rules, After(rules, s, a), b) && p in s.db.policies
    requires var end := After(rules, After(rules, s, a), b); p in end.db.policies && end.db.policies[p].updatedAt == s.db.policies[p].updatedAt
    ensures After(rules, After(rules, s, a), b).db.policies[p] == s.db.policies[p]
  {
    SameStampSameRow(rules, s, a, b, p);
    InvRun(rules, s, a);
    InvRun(rules, After(rules, s, a), b);
    SameStampSameRow(rules, After(rules, s, a), b, [], p);
  }

  // ---------------------------------------------------------------- tenants

  /** `GetPolicy` and `ListPoliciesByApp`. */
  function ReadPolicy<D, G>(db: Db<D, G>, tenantId: string, p: string): Option<PolicyRow<D>> {
    if Owns(db, tenantId, p) then Some(db.policies[p]) else None
  }

  function ListPolicies<D, G>(db: Db<D, G>, tenantId: string, appId: string): map<string, PolicyRow<D>> {
    map p | p in db.policies && db.policies[p].tenantId == tenantId && db.policies[p].appId == appId :: db.policies[p]
  }

  /** The rows `GetActivePolicyByApp` joins. */
  predicate Deployed<D, G>(db: Db<D, G>, tenantId: string, appId: string, p: string) {
    && p in db.deployments && db.deployments[p].tenantId == tenantId && db.deployments[p].appId == appId
    && p in db.policies && db.policies[p].enabled && db.deployments[p].versionId in db.versions
  }

  /** `GetActivePolicyByApp` answers with the version deployed for policy `p`: the one deployed last. */
  ghost predicate Active<D, G>(db: Db<D, G>, tenantId: string, appId: string, p: string) {
    && Deployed(db, tenantId, appId, p)
    && forall q :: Deployed(db, tenantId, appId, q) ==> db.deployments[q].deployedAt <= db.deployments[p].deployedAt
  }

  /** On whose behalf a step is taken. */
  function StepTenant<D, G>(s: State<D, G>, step: Step<D>): Option<string> {
    if step.Begin? then Some(step.tenantId) else if step.t in s.txs then Some(s.txs[step.t].tenantId) else None
  }

  /** No step of the run is taken on behalf of `tenantId`. */
  ghost predicate ForeignRun<D(!new), G(!new)>(rules: Rules<D, G>, s: State<D, G>, steps: seq<Step<D>>, tenantId: string)
    requires IsRun(rules, s, steps)
    decreases |steps|
  {
    steps == [] || (StepTenant(s, steps[0]) != Some(tenantId) && ForeignRun(rules, Apply(rules, s, steps[0]), steps[1..], tenantId))
  }

  /** The two databases look the same to a tenant. */
  ghost predicate SameView<D(!new), G(!new)>(db: Db<D, G>, db': Db<D, G>, tenantId: string) {
    && (forall p :: ReadPolicy(db', tenantId, p) == ReadPolicy(db, tenantId, p))
    && (forall a, p :: Deployed(db', tenantId, a, p) <==> Deployed(db, tenantId, a, p))
    && (forall a, p :: Deployed(db, tenantId, a, p) ==>
          && db'.deployments[p] == db.deployments[p]
          && db'.versions[db.deployments[p].versionId] == db.versions[db.deployments[p].versionId])
  }

  /** A policy of the tenant, before or after a foreign step, is one the step does not write. */
  lemma ForeignWrites<D(!new), G(!new)>(rules: Rules<D, G>, s: State<D, G>, step: Step<D>, tenantId: string, p: string)
    requires Enabled(rules, s, step) && StepTenant(s, step) != Some(tenantId)
    requires step.t in s.txs ==> TxOk(rules, s, step.t)
    requires Owns(s.db, tenantId, p) || Owns(Apply(rules, s, step).db, tenantId, p)
    ensures !Writes(s, step, p)
  {
  }

  lemma ForeignDeployed<D(!new), G(!new)>(rules: Rules<D, G>, s: State<D, G>, step: Step<D>, tenantId: string, a: string, p: string)
    requires Enabled(rules, s, step) && Inv(rules, s) && Inv(rules, Apply(rules, s, step)) && StepTenant(s, step) != Some(tenantId)
    requires Deployed(s.db, tenantId, a, p) || Deployed(Apply(rules, s, step).db, tenantId, a, p)
    ensures var db' := Apply(rules, s, step).db;
            && Deployed(db', tenantId, a, p) && Deployed(s.db, tenantId, a, p) && db'.deployments[p] == s.db.deployments[p]
            && db'.versions[db'.deployments[p].versionId] == s.db.versions[s.db.deployments[p].versionId]
  {
    var s' := Apply(rules, s, step);
    if Deployed(s.db, tenantId, a, p) {
      assert PolicyOk(rules, s, p);
    } else {
      assert PolicyOk(rules, s', p);
    }
    ForeignWrites(rules, s, step, tenantId, p);
    UnwrittenPolicy(rules, s, step, p);
    assert PolicyOk(rules, s, p) && PolicyOk(rules, s', p);
    assert VersionOf(s.db, s.db.deployments[p].versionId, p);
  }

  lemma ForeignStep<D(!new), G(!new)>(rules: Rules<D, G>, s: State<D, G>, step: Step<D>, tenantId: string)
    requires Enabled(rules, s, step) && Inv(rules, s) && Inv(rules, Apply(rules, s, step)) && StepTenant(s, step) != Some(tenantId)
    ensures SameView(s.db, Apply(rules, s, step).db, tenantId)
  {
    var db' := Apply(rules, s, step).db;
    forall p ensures ReadPolicy(db', tenantId, p) == ReadPolicy(s.db, tenantId, p) {
      if Owns(s.db, tenantId, p) || Owns(db', tenantId, p) {
        ForeignWrites(rules, s, step, tenantId, p);
        UnwrittenPolicy(rules, s, step, p);
      }
    }
    forall a, p | Deployed(s.db, tenantId, a, p) || Deployed(db', tenantId, a, p)
      ensures Deployed(db', tenantId, a, p) && Deployed(s.db, tenantId, a, p) && db'.deployments[p] == s.db.deployments[p]
      ensures db'.versions[db'.deployments[p].versionId] == s.db.versions[s.db.deployments[p].versionId]
    {
      ForeignDeployed(rules, s, step, tenantId, a, p);
    }
  }

  lemma {:induction false} ForeignRunSameView<D(!new), G(!new)>(rules: Rules<D, G>, s: State<D, G>, steps: seq<Step<D>>, tenantId: string)
    requires Inv(rules, s) && IsRun(rules, s, steps) && ForeignRun(rules, s, steps, tenantId)
    ensures SameView(s.db, After(rules, s, steps).db, tenantId)
    decreases |steps|
  {
    if steps != [] {
      InvStep(rules, s, steps[0]);
      ForeignStep(rules, s, steps[0], tenantId);
      ForeignRunSameView(rules, Apply(rules, s, steps[0]), steps[1..], tenantId);
    }
  }

  /**
   Whatever other tenants do, a tenant's policies, its lists and the active policy of each
   of its apps read the same.
   */
  lemma TenantIsolation<D(!new), G(!new)>(rules: Rules<D, G>, s: State<D, G>, steps: seq<Step<D>>, tenantId: string, appId: string, p: string)
    requires Reachable(rules, s) && IsRun(rules, s, steps) && ForeignRun(rules, s, steps, tenantId)
    ensures var db' := After(rules, s, steps).db;
            && ReadPolicy(db', tenantId, p) == ReadPolicy(s.db, tenantId, p)
            && ListPolicies(db', tenantId, appId) == ListPolicies(s.db, tenantId, appId)
            && (Active(db', tenantId, appId, p) <==> Active(s.db, tenantId, appId, p))
            && (Active(db', tenantId, appId, p) ==>
                  db'.versions[db'.deployments[p].versionId] == s.db.versions[s.db.deployments[p].versionId])
  {
    ReachableInv(rules, s);
    ForeignRunSameView(rules, s, steps, tenantId);
    var db' := After(rules, s, steps).db;
    forall q ensures q in ListPolicies(db', tenantId, appId) <==> q in ListPolicies(s.db, tenantId, appId)
    {
      assert ReadPolicy(db', tenantId, q) == ReadPolicy(s.db, tenantId, q);
    }
    forall q | q in ListPolicies(s.db, tenantId, appId) ensures db'.policies[q] == s.db.policies[q] {
      assert ReadPolicy(db', tenantId, q) == ReadPolicy(s.db, tenantId, q);
    }
  }

  /** The active-policy read has at most one answer, and it is the newest version of an enabled policy of that app. */
  lemma ActivePolicyIsUnique<D(!new), G(!new)>(rules: Rules<D, G>, s: State<D, G>, tenantId: string, appId: string, p: string)
    requires Reachable(rules, s) && Active(s.db, tenantId, appId, p)
    ensures forall q :: Active(s.db, tenantId, appId, q) ==> q == p
    ensures s.db.policies[p].enabled && s.db.policies[p].tenantId == tenantId && s.db.policies[p].appId == appId
    ensures var v := s.db.versions[s.db.deployments[p].versionId];
            && v.policyId == p && v.tenantId == tenantId && v.appId == appId && rules.valid(v.source.draft)
            && forall w :: VersionOf(s.db, w, p) ==> s.db.versions[w].version <= v.version
  {
    ReachableInv(rules, s);
    assert PolicyOk(rules, s, p);
    assert VersionOk(rules, s.db, s.db.deployments[p].versionId);
  }

  /**
   After a publication of an enabled policy the active-policy read hands out its new
   version, exactly if no other deployment of the app carries a later stamp.
   */
  lemma PublishedIsActive<D(!new), G(!new)>(rules: Rules<D, G>, s: State<D, G>, t: nat, id: string)
    requires Reachable(rules, s) && Enabled(rules, s, CommitPublish(t, id))
    requires s.db.policies[s.txs[t].op.policyId].enabled
    ensures var p, db' := s.txs[t].op.policyId, Apply(rules, s, CommitPublish(t, id)).db;
            var row := s.db.policies[p];
            && p in db'.deployments && db'.deployments[p].versionId == id && id in db'.versions
            && db'.versions[id].snapshot == rules.compile(p, row, id)
            && (Active(db', row.tenantId, row.appId, p) <==>
                  forall q :: q != p && Deployed(s.db, row.tenantId, row.appId, q) ==> s.db.deployments[q].deployedAt < s.txs[t].stamp)
  {
    ReachableInv(rules, s);
    PublishAddsNext(rules, s, t, id);
    var p, db' := s.txs[t].op.policyId, Apply(rules, s, CommitPublish(t, id)).db;
    var row := s.db.policies[p];
    forall q | q != p
      ensures Deployed(db', row.tenantId, row.appId, q) <==> Deployed(s.db, row.tenantId, row.appId, q)
      ensures Deployed(s.db, row.tenantId, row.appId, q) ==>
                db'.deployments[q] == s.db.deployments[q] && s.db.deployments[q].deployedAt != s.txs[t].stamp
    {
      OtherDeployed(rules, s, t, id, row.tenantId, row.appId, q);
    }
    assert Deployed(db', row.tenantId, row.appId, p);
  }

  lemma OtherDeployed<D(!new), G(!new)>(rules: Rules<D, G>, s: State<D, G>, t: nat, id: string, tenantId: string, appId: string, q: string)
    requires Inv(rules, s) && Enabled(rules, s, CommitPublish(t, id)) && q != s.txs[t].op.policyId
    ensures var db' := Apply(rules, s, CommitPublish(t, id)).db;
            && (Deployed(db', tenantId, appId, q) <==> Deployed(s.db, tenantId, appId, q))
            && (Deployed(s.db, tenantId, appId, q) ==>
                  db'.deployments[q] == s.db.deployments[q] && s.db.deployments[q].deployedAt != s.txs[t].stamp)
  {
    UnwrittenPolicy(rules, s, CommitPublish(t, id), q);
    if q in s.db.policies {
      assert PolicyOk(rules, s, q);
    }
  }

  lemma {:induction false} LatestDeployment<D(!new), G(!new)>(db: Db<D, G>, ps: set<string>) returns (p: string)
    requires ps != {} && ps <= db.deployments.Keys
    ensures p in ps && forall q :: q in ps ==> db.deployments[q].deployedAt <= db.deployments[p].deployedAt
    decreases ps
  {
    p :| p in ps;
    if ps != {p} {
      var best := LatestDeployment(db, ps - {p});
      if db.deployments[p].deployedAt <= db.deployments[best].deployedAt { p := best; }
    }
  }

  /** The app has an enabled policy `p` that was published. */
  ghost predicate Published<D, G>(db: Db<D, G>, tenantId: string, appId: string, p: string) {
    p in db.policies && db.policies[p].tenantId == tenantId && db.policies[p].appId == appId && db.policies[p].enabled && HasVersion(db, p, 1)
  }

  lemma DeployedIsPublished<D(!new), G(!new)>(rules: Rules<D, G>, s: State<D, G>, tenantId: string, appId: string, p: string)
    requires Reachable(rules, s)
    ensures Deployed(s.db, tenantId, appId, p) <==> Published(s.db, tenantId, appId, p)
  {
    if p in s.db.policies {
      VersionsAreDense(rules, s, p);
      StoredPoliciesAreValid(rules, s, p);
    }
  }

  /** The active-policy read finds something exactly when the app has an enabled policy that was published. */
  lemma ActivePolicyExists<D(!new), G(!new)>(rules: Rules<D, G>, s: State<D, G>, tenantId: string, appId: string)
    requires Reachable(rules, s)
    ensures (exists p :: Active(s.db, tenantId, appId, p)) <==> (exists p :: Published(s.db, tenantId, appId, p))
  {
    forall p ensures Deployed(s.db, tenantId, appId, p) <==> Published(s.db, tenantId, appId, p) {
      DeployedIsPublished(rules, s, tenantId, appId, p);
    }
    if p :| Published(s.db, tenantId, appId, p) {
      var ps := set q | q in s.db.deployments && Deployed(s.db, tenantId, appId, q);
      assert p in ps;
      var latest := LatestDeployment(s.db, ps);
      assert Active(s.db, tenantId, appId, latest);
    }
  }
}

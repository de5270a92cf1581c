/**
 The tables behind a release and the transactions that write them: applying a pending release,
 withdrawing an API from an environment, the operation spine's direct publication, and pruning.
 Each transaction is one atomic function of the tables.
 */
module ReleaseTables {
  import opened Text

  type Id = nat

  datatype ReleaseState = Pending | Converging | Converged | Superseded | Withdrawn | Failed | Stale

  /** A row of the release table; `Gone` is a row removed with its API. */
  datatype Release =
    | Gone
    | Release(resource: Id, environment: Id, revision: Id, state: ReleaseState)

  datatype Lease = Lease(holder: Id, expires: int)
  datatype Target = Target(environment: Id, lease: Option<Lease>)

  /** `artifact` absent is the empty digest of a revision that declares no schemas. */
  datatype Revision = Revision(resource: Id, rev: nat, createdAt: int, pruned: bool, artifact: Option<Id>)

  /** Releases are listed in insertion order: the position is the row id. */
  datatype Tables = Tables(
    releases: seq<Release>,
    targets: map<Id, Target>,
    applied: map<(Id, Id), Id>,         // (target, resource) -> revision
    bindings: set<(Id, Id, Id)>,        // (resource, environment, target)
    revisions: map<Id, Revision>,
    artifacts: set<Id>)

  predicate Reached(st: ReleaseState) { st == Converged || st == Superseded || st == Withdrawn }

  predicate Keyed(r: Release, resource: Id, environment: Id) {
    r.Release? && r.resource == resource && r.environment == environment
  }

  predicate Is(t: Tables, i: nat, st: ReleaseState)
  {
    i < |t.releases| && t.releases[i].Release? && t.releases[i].state == st
  }

  predicate HasReached(t: Tables, i: nat) {
    i < |t.releases| && t.releases[i].Release? && Reached(t.releases[i].state)
  }

  predicate KeyedAt(t: Tables, i: nat, resource: Id, environment: Id) {
    i < |t.releases| && Keyed(t.releases[i], resource, environment)
  }

  // ----- UPDATE release SET state = ... WHERE ...

  function Moved(r: Release, resource: Id, environment: Id, from: ReleaseState, to: ReleaseState): Release {
    if Keyed(r, resource, environment) && r.state == from then r.(state := to) else r
  }

  function MoveAll(rs: seq<Release>, resource: Id, environment: Id, from: ReleaseState,
                   to: ReleaseState): (r: seq<Release>)
    ensures |r| == |rs|
    ensures forall i :: 0 <= i < |rs| ==> r[i] == Moved(rs[i], resource, environment, from, to)
  {
    seq(|rs|, i requires 0 <= i < |rs| => Moved(rs[i], resource, environment, from, to))
  }

  // ----- intent: apply

  predicate Overtaken(t: Tables, rel: nat, resource: Id, environment: Id) {
    exists k :: rel < k < |t.releases| && KeyedAt(t, k, resource, environment) && HasReached(t, k)
  }

  function BoundTargets(t: Tables, resource: Id, environment: Id): set<Id> {
    set x | x in t.targets && (resource, environment, x) in t.bindings
  }

  function EnvironmentTargets(t: Tables, environment: Id): set<Id> {
    set x | x in t.targets && t.targets[x].environment == environment
  }

  /** Where the release lands: its bindings, or every gateway of the environment. */
  function Landing(t: Tables, resource: Id, environment: Id): set<Id> {
    var bound := BoundTargets(t, resource, environment);
    if bound == {} then EnvironmentTargets(t, environment) else bound
  }

  function Publish(t: Tables, resource: Id, environment: Id, revision: Id): Tables {
    var on := Landing(t, resource, environment);
    t.(bindings := BoundOn(t.bindings, on, resource, environment),
       applied := ServedOn(t.applied, on, resource, revision))
  }

  function BoundOn(bindings: set<(Id, Id, Id)>, on: set<Id>, resource: Id, environment: Id): set<(Id, Id, Id)> {
    bindings + (set x | x in on :: (resource, environment, x))
  }

  function ServedOn(applied: map<(Id, Id), Id>, on: set<Id>, resource: Id, revision: Id): map<(Id, Id), Id> {
    applied + (map x | x in on :: (x, resource) := revision)
  }

  function Converge(t: Tables, rel: nat, resource: Id, environment: Id): Tables
    requires rel < |t.releases| && t.releases[rel].Release?
  {
    var moved := MoveAll(t.releases, resource, environment, Converged, Superseded);
    t.(releases := moved[rel := t.releases[rel].(state := Converged)])
  }

  datatype Verdict = Settled | Retry | Hopeless

  datatype Result = Result(tables: Tables, verdict: Verdict)

  /**
   The apply transaction. `planOk` and `routeOk` are the outcomes of recomputing the plan and of
   building the route; a throw leaves the tables as they were.
   */
  function ApplyTx(t: Tables, rel: nat, resource: Id, environment: Id, planOk: bool, routeOk: bool): Result {
    if rel >= |t.releases| || t.releases[rel].Gone? then Result(t, Settled)
    else if t.releases[rel].state != Pending then Result(t, Settled)
    else if Overtaken(t, rel, resource, environment) then
      Result(t.(releases := t.releases[rel := t.releases[rel].(state := Stale)]), Settled)
    else if !planOk || !routeOk then Result(t, Retry)
    else Result(Publish(Converge(t, rel, resource, environment), resource, environment, t.releases[rel].revision),
                Settled)
  }

  // ----- intent: remove

  function RemoveTx(t: Tables, resource: Id, environment: Id): Tables {
    var withdrawn := MoveAll(t.releases, resource, environment, Converged, Withdrawn);
    t.(releases := MoveAll(withdrawn, resource, environment, Pending, Stale),
       applied := map k | k in t.applied && !(k.1 == resource && k.0 in EnvironmentTargets(t, environment)) ::
             t.applied[k],
       bindings := set b | b in t.bindings && !(b.0 == resource && b.1 == environment))
  }

  // ----- other writers

  /** Publication by the operation spine: the row is inserted already converged. */
  function SpineTx(t: Tables, resource: Id, environment: Id, revision: Id): Tables {
    t.(releases := MoveAll(t.releases, resource, environment, Converged, Superseded)
                   + [Release(resource, environment, revision, Converged)])
  }

  function RequestTx(t: Tables, resource: Id, environment: Id, revision: Id): Tables {
    t.(releases := t.releases + [Release(resource, environment, revision, Pending)])
  }

  /** Only a release still waiting can fail. */
  function FailTx(t: Tables, rel: nat): Tables {
    if Is(t, rel, Pending) then t.(releases := t.releases[rel := t.releases[rel].(state := Failed)]) else t
  }

  /** Deleting an API takes its releases, routes and applied rows with it. */
  function DeleteApiTx(t: Tables, resource: Id): Tables {
    t.(releases := seq(|t.releases|, i requires 0 <= i < |t.releases| =>
         if t.releases[i].Release? && t.releases[i].resource == resource then Gone else t.releases[i]),
       applied := map k | k in t.applied && k.1 != resource :: t.applied[k],
       bindings := set b | b in t.bindings && b.0 != resource)
  }

  // ----- leases

  const LEASE_MS: int := 30_000

  predicate Leasable(t: Tables, target: Id, holder: Id, now: int) {
    && target in t.targets
    && var l := t.targets[target].lease;
       l.None? || l.value.holder == holder || l.value.expires <= now
  }

  function AcquireTx(t: Tables, target: Id, holder: Id, now: int): Tables
    requires target in t.targets
  {
    t.(targets := t.targets[target := t.targets[target].(lease := Some(Lease(holder, now + LEASE_MS)))])
  }

  /** Only the runner's own lease is cleared. */
  function ReleaseTx(t: Tables, target: Id, holder: Id): Tables {
    if target in t.targets && t.targets[target].lease.Some? && t.targets[target].lease.value.holder == holder
    then t.(targets := t.targets[target := t.targets[target].(lease := None)])
    else t
  }

  // ----- retention

  /** `planned` and `operated`: revisions a live plan or an unfinished operation points at. */
  datatype Retention = Retention(keepCount: nat, ageCutoff: int, planned: set<Id>, operated: set<Id>)

  predicate Unpruned(t: Tables, v: Id) { v in t.revisions && !t.revisions[v].pruned }

  /** The unpruned revisions of the same API that are newer. */
  function Outranking(t: Tables, v: Id): set<Id>
    requires v in t.revisions
  {
    set u | u in t.revisions && !t.revisions[u].pruned && t.revisions[u].resource == t.revisions[v].resource
            && t.revisions[u].rev > t.revisions[v].rev
  }

  /** Position among the unpruned revisions of the same API, newest first. */
  function Rank(t: Tables, v: Id): nat
    requires v in t.revisions
  {
    1 + |Outranking(t, v)|
  }

  /** One of the newest two releases that reached the fleet in some environment. */
  predicate Recent(t: Tables, v: Id) {
    exists i :: && 0 <= i < |t.releases| && HasReached(t, i) && t.releases[i].revision == v
                && |set k | i < k < |t.releases| && HasReached(t, k)
                            && Keyed(t.releases[k], t.releases[i].resource, t.releases[i].environment)| < 2
  }

  predicate InUse(t: Tables, v: Id) {
    exists i :: && 0 <= i < |t.releases| && t.releases[i].Release? && t.releases[i].revision == v
                && (t.releases[i].state == Pending || t.releases[i].state == Converging
                    || t.releases[i].state == Converged)
  }

  predicate Prunable(t: Tables, v: Id, p: Retention) {
    && Unpruned(t, v)
    && (Rank(t, v) > p.keepCount || t.revisions[v].createdAt < p.ageCutoff)
    && !Recent(t, v) && !InUse(t, v) && v !in p.planned && v !in p.operated
  }

  function PrunableRevisions(t: Tables, p: Retention): set<Id> { set v | v in t.revisions && Prunable(t, v, p) }

  /** Tombstones the doomed revisions and drops the artifacts no other revision references. */
  function PruneTx(t: Tables, doomed: set<Id>): Tables {
    if doomed == {} then t
    else
      var revisions := Tombstoned(t.revisions, doomed);
      t.(revisions := revisions, artifacts := set a | a in t.artifacts && Referenced(revisions, a))
  }

  function Tombstoned(revisions: map<Id, Revision>, doomed: set<Id>): map<Id, Revision> {
    map v | v in revisions :: if v in doomed then revisions[v].(pruned := true) else revisions[v]
  }

  predicate Referenced(revisions: map<Id, Revision>, a: Id) {
    exists v :: v in revisions && !revisions[v].pruned && revisions[v].artifact == Some(a)
  }
}

/**
 Release reconciliation as one state machine: the job table, the release table, leases and
 pruning, with any number of runners that may crash at any point. A job left running is queued
 again after a minute even if somebody is still on it, and a runner works through a list it read
 earlier, so it may take a job another has taken or finished: every transaction may be replayed.
 */
module ReleaseMachine {
  import opened Text
  import opened ReleaseTables

  // ----- jobs and runners

  datatype Payload =
    | Apply(release: nat, resource: Id, environment: Id)
    | Remove(resource: Id, environment: Id)

  datatype JobState = Queued | Running | Done | JobFailed

  datatype Job = Job(payload: Payload, state: JobState, updatedAt: int)

  /** Where a runner is in its loop. */
  datatype Runner =
    | Idle
    | Busy(job: nat)                                        // took the job, outside the lease
    | Inside(job: nat, target: Id, since: int)              // holds the lease section
    | Leaving(job: nat, target: Id, since: int, verdict: Verdict)
    | Ended(job: nat, verdict: Verdict)                     // lease given back, job row still to be written

  /**
   `withdrawnAt` remembers, per API and environment, how many releases existed at the last
   withdrawal; it is history only and guards nothing.
   */
  datatype System = System(
    tables: Tables, jobs: seq<Job>, runners: map<Id, Runner>, now: int, usedTargets: set<Id>,
    withdrawnAt: map<(Id, Id), nat>, selected: map<Id, Selection>)

  /**
   What a pruner read and has not yet acted on. `count` is how many releases existed when it read;
   it is history and guards nothing.
   */
  datatype Selection = Selection(doomed: set<Id>, count: nat)

  datatype Action =
    | NewRevision(revision: Id, resource: Id, rev: nat, artifact: Option<Id>)
    | Request(resource: Id, environment: Id, revision: Id)
    | Spine(resource: Id, environment: Id, revision: Id)
    | QueueRemove(resource: Id, environment: Id)
    | DeleteApi(resource: Id)
    | AddTarget(target: Id, environment: Id)
    | DropTarget(target: Id)
    | Take(runner: Id, job: nat)
    | Enter(runner: Id, target: Id)
    | GiveUp(runner: Id, verdict: Verdict)
    | Commit(runner: Id, planOk: bool, routeOk: bool)
    | Leave(runner: Id)
    | Finish(runner: Id)
    | Crash(runner: Id)
    | Requeue(job: nat)
    | SelectDoomed(pruner: Id, policy: Retention)
    | CommitPrune(pruner: Id)
    | DropPrune(pruner: Id)
    | Tick(ms: nat)

  const STUCK_MS: int := 60_000

  function At(s: System, r: Id): Runner { if r in s.runners then s.runners[r] else Idle }

  predicate InSection(u: Runner) { u.Inside? || u.Leaving? }

  /** Content that can be published: not a tombstone. */
  predicate Publishable(t: Tables, revision: Id) { Unpruned(t, revision) }

  predicate Enabled(s: System, a: Action) {
    match a
    case NewRevision(v, _, _, _) => v !in s.tables.revisions
    case Request(_, _, v) => Publishable(s.tables, v)
    case Spine(_, _, v) => Publishable(s.tables, v)
    case QueueRemove(_, _) => true
    case DeleteApi(_) => true
    case AddTarget(x, _) => x !in s.usedTargets
    case DropTarget(x) => x in s.tables.targets
    case Take(r, j) => At(s, r).Idle? && j < |s.jobs|
    case Enter(r, x) => At(s, r).Busy? && Leasable(s.tables, x, r, s.now)
    case GiveUp(r, v) => At(s, r).Busy? && At(s, r).job < |s.jobs|
        && (v == Settled ==> NothingLeft(s.tables, s.jobs[At(s, r).job].payload))
    case Commit(r, _, _) => At(s, r).Inside? && At(s, r).job < |s.jobs|
    case Leave(r) => At(s, r).Leaving?
    case Finish(r) => At(s, r).Ended? && At(s, r).job < |s.jobs|
    case Crash(_) => true
    case Requeue(j) => j < |s.jobs| && s.jobs[j].state == Running && s.jobs[j].updatedAt < s.now - STUCK_MS
    case SelectDoomed(_, _) => true
    case CommitPrune(q) => q in s.selected
    case DropPrune(q) => q in s.selected
    case Tick(_) => true
  }

  /** The release went away with its API, so its job has nothing to do. */
  predicate NothingLeft(t: Tables, p: Payload)
  {
    p.Apply? && (p.release >= |t.releases| || t.releases[p.release].Gone?)
  }

  function Queue(s: System, p: Payload): seq<Job> { s.jobs + [Job(p, Queued, s.now)] }

  function Place(s: System, r: Id, u: Runner): map<Id, Runner> { s.runners[r := u] }

  /** The transaction a job's payload runs. */
  function Transact(t: Tables, p: Payload, planOk: bool, routeOk: bool): Result {
    match p
    case Apply(rel, resource, environment) => ApplyTx(t, rel, resource, environment, planOk, routeOk)
    case Remove(resource, environment) => Result(RemoveTx(t, resource, environment), Settled)
  }

  function Marked(s: System, p: Payload): map<(Id, Id), nat> {
    if p.Remove? then s.withdrawnAt[(p.resource, p.environment) := |s.tables.releases|] else s.withdrawnAt
  }

  /** How the job row and the release end once the runner writes the outcome down. */
  function FinishJob(s: System, r: Id): System
    requires At(s, r).Ended? && At(s, r).job < |s.jobs|
  {
    var u := At(s, r);
    var job := s.jobs[u.job];
    var state := match u.verdict case Settled => Done case Retry => Queued case Hopeless => JobFailed;
    s.(jobs := s.jobs[u.job := Job(job.payload, state, s.now)],
       runners := Place(s, r, Idle),
       tables := if u.verdict == Hopeless && job.payload.Apply? then FailTx(s.tables, job.payload.release)
           else s.tables)
  }

  function Do(s: System, a: Action): System
    requires Enabled(s, a)
  {
    match a
    case NewRevision(v, resource, rev, artifact) =>
      s.(tables := s.tables.(
           revisions := s.tables.revisions[v := Revision(resource, rev, s.now, false, artifact)],
           artifacts := s.tables.artifacts + (if artifact.Some? then {artifact.value} else {})))
    case Request(resource, environment, v) =>
      s.(tables := RequestTx(s.tables, resource, environment, v),
         jobs := Queue(s, Apply(|s.tables.releases|, resource, environment)))
    case Spine(resource, environment, v) => s.(tables := SpineTx(s.tables, resource, environment, v))
    case QueueRemove(resource, environment) => s.(jobs := Queue(s, Remove(resource, environment)))
    case DeleteApi(resource) => s.(tables := DeleteApiTx(s.tables, resource))
    case AddTarget(x, environment) =>
      s.(tables := s.tables.(targets := s.tables.targets[x := Target(environment, None)]),
         usedTargets := s.usedTargets + {x})
    case DropTarget(x) =>
      s.(tables := s.tables.(targets := s.tables.targets - {x},
           applied := map k | k in s.tables.applied && k.0 != x :: s.tables.applied[k],
           bindings := set b | b in s.tables.bindings && b.2 != x))
    case Take(r, j) =>
      s.(jobs := s.jobs[j := Job(s.jobs[j].payload, Running, s.now)], runners := Place(s, r, Busy(j)))
    case Enter(r, x) =>
      s.(tables := AcquireTx(s.tables, x, r, s.now), runners := Place(s, r, Inside(At(s, r).job, x, s.now)))
    case GiveUp(r, v) => s.(runners := Place(s, r, Ended(At(s, r).job, v)))
    case Commit(r, planOk, routeOk) =>
      var u := At(s, r);
      var p := s.jobs[u.job].payload;
      var res := Transact(s.tables, p, planOk, routeOk);
      s.(tables := res.tables, runners := Place(s, r, Leaving(u.job, u.target, u.since, res.verdict)),
         withdrawnAt := Marked(s, p))
    case Leave(r) =>
      var u := At(s, r);
      s.(tables := ReleaseTx(s.tables, u.target, r), runners := Place(s, r, Ended(u.job, u.verdict)))
    case Finish(r) => FinishJob(s, r)
    case Crash(r) => s.(runners := Place(s, r, Idle))
    case Requeue(j) => s.(jobs := s.jobs[j := s.jobs[j].(state := Queued)])
    case SelectDoomed(q, policy) =>
      s.(selected := s.selected[q := Selection(PrunableRevisions(s.tables, policy), |s.tables.releases|)])
    case CommitPrune(q) =>
      s.(tables := PruneTx(s.tables, s.selected[q].doomed), selected := s.selected - {q})
    case DropPrune(q) => s.(selected := s.selected - {q})
    case Tick(ms) => s.(now := s.now + ms)
  }

  // ----- runs

  predicate CanRun(s: System, actions: seq<Action>)
    decreases |actions|
  {
    actions == [] || (Enabled(s, actions[0]) && CanRun(Do(s, actions[0]), actions[1..]))
  }

  function Run(s: System, actions: seq<Action>): System
    requires CanRun(s, actions)
    decreases |actions|
  {
    if actions == [] then s else Run(Do(s, actions[0]), actions[1..])
  }

  function Initial(now: int): System {
    System(Tables([], map[], map[], {}, map[], {}), [], map[], now, {}, map[], map[])
  }

  // ----- the invariant

  /** The live release is the newest that ever reached the fleet; in particular there is one at most. */
  ghost predicate NewestIsLive(t: Tables) {
    forall i: nat, j: nat {:trigger Is(t, i, Converged), HasReached(t, j)} ::
      Is(t, i, Converged) && HasReached(t, j) && SameKey(t.releases[i], t.releases[j]) ==> j <= i
  }

  predicate SameKey(a: Release, b: Release) {
    a.Release? && b.Release? && a.resource == b.resource && a.environment == b.environment
  }

  /** Nothing that existed at a withdrawal is waiting or live. */
  ghost predicate WithdrawalsHold(s: System) {
    forall i: nat, k {:trigger Settles(s, i, k)} :: k in s.withdrawnAt && i < s.withdrawnAt[k] ==> Settles(s, i, k)
  }

  predicate Settles(s: System, i: nat, k: (Id, Id)) {
    KeyedAt(s.tables, i, k.0, k.1) ==> !Is(s.tables, i, Pending) && !Is(s.tables, i, Converged)
  }

  /** The artifacts of unpruned revisions are stored, and no release is halfway. */
  ghost predicate Stored(t: Tables) {
    && (forall v :: Unpruned(t, v) && t.revisions[v].artifact.Some? ==> t.revisions[v].artifact.value in t.artifacts)
    && (forall i: nat :: !Is(t, i, Converging))
  }

  /** A job's payload speaks of the release it names. */
  ghost predicate JobsMatch(s: System) {
    forall j :: 0 <= j < |s.jobs| && s.jobs[j].payload.Apply? ==> PayloadFits(s.tables, s.jobs[j].payload)
  }

  predicate PayloadFits(t: Tables, p: Payload)
    requires p.Apply?
  {
    p.release < |t.releases| && (t.releases[p.release].Gone? || Keyed(t.releases[p.release], p.resource, p.environment))
  }

  /** What a gateway serves is a revision of that API that reached the fleet. */
  ghost predicate AppliedReached(t: Tables) {
    forall k :: k in t.applied ==> ServedFrom(t, k)
  }

  ghost predicate ServedFrom(t: Tables, k: (Id, Id))
    requires k in t.applied
  {
    exists i ::
          0 <= i < |t.releases| && HasReached(t, i) && t.releases[i].resource == k.1
              && t.releases[i].revision == t.applied[k]
  }

  /** A runner in the section of a target holds its lease, or its thirty seconds are over. */
  ghost predicate LeaseHeld(s: System, r: Id) {
    var u := At(s, r);
    InSection(u) ==>
      && u.since <= s.now
      && u.target in s.usedTargets
      && (u.target in s.tables.targets ==>
            s.tables.targets[u.target].lease == Some(Lease(r, u.since + LEASE_MS)) || s.now >= u.since + LEASE_MS)
  }

  /** Two runners in one section: the earlier lease had expired when the later was taken. */
  ghost predicate LeasesApart(s: System) {
    forall p, q :: p != q ==> Apart(At(s, p), At(s, q))
  }

  predicate Apart(a: Runner, b: Runner) {
    InSection(a) && InSection(b) && a.target == b.target ==>
          b.since >= a.since + LEASE_MS || a.since >= b.since + LEASE_MS
  }

  ghost predicate LeasesOk(s: System) {
    && (forall r {:trigger At(s, r)} :: LeaseHeld(s, r))
    && LeasesApart(s)
    && (forall x :: x in s.tables.targets ==> x in s.usedTargets)
  }

  ghost predicate Inv(s: System) {
    && NewestIsLive(s.tables) && WithdrawalsHold(s) && Stored(s.tables) && JobsMatch(s)
    && AppliedReached(s.tables) && LeasesOk(s)
    && (forall k :: k in s.withdrawnAt ==> s.withdrawnAt[k] <= |s.tables.releases|)
  }
}

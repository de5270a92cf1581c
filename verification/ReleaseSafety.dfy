/**
 Safety of release reconciliation over every run: what each step keeps, and what that means for
 supersession, withdrawal, replay, content and leases.
 */
module ReleaseSafety {
  import opened Text
  import opened ReleaseTables
  import opened ReleaseMachine

  // ----- how one row may change

  /**
   A row keeps its identity, never waits again, never loses having reached the fleet, and goes live only from waiting.
   */
  predicate RowStep(a: Release, b: Release) {
    b.Gone? ||
    (&& a.Release? && SameKey(a, b) && b.revision == a.revision
     && (Reached(a.state) ==> Reached(b.state))
     && (a.state != Pending ==> b.state != Pending)
     && (b.state == Converged && a.state != Converged ==> a.state == Pending))
  }

  ghost predicate Evolves(t: Tables, u: Tables) {
    |t.releases| <= |u.releases| && forall i :: 0 <= i < |t.releases| ==> RowStep(t.releases[i], u.releases[i])
  }

  lemma EvolvesTransitive(t: Tables, u: Tables, v: Tables)
    requires Evolves(t, u) && Evolves(u, v)
    ensures Evolves(t, v)
  {
  }

  /** The part of the invariant that speaks of the tables alone. */
  ghost predicate TablesOk(t: Tables) { NewestIsLive(t) && Stored(t) && AppliedReached(t) }

  lemma ServedStays(t: Tables, u: Tables, k: (Id, Id))
    requires Evolves(t, u) && k in t.applied && k in u.applied && u.applied[k] == t.applied[k] && ServedFrom(t, k)
    requires forall i :: 0 <= i < |t.releases| && t.releases[i].Release? && t.releases[i].resource == k.1 ==>
               !u.releases[i].Gone?
    ensures ServedFrom(u, k)
  {
    var i :| 0 <= i < |t.releases| && HasReached(t, i) && t.releases[i].resource == k.1
        && t.releases[i].revision == t.applied[k];
    assert RowStep(t.releases[i], u.releases[i]);
    assert HasReached(u, i);
  }

  // ----- the transactions

  lemma StaleOk(t: Tables, rel: nat, st: ReleaseState)
    requires TablesOk(t) && Is(t, rel, Pending) && (st == Stale || st == Failed)
    ensures var u := t.(releases := t.releases[rel := t.releases[rel].(state := st)]); TablesOk(u) && Evolves(t, u)
  {
    var u := t.(releases := t.releases[rel := t.releases[rel].(state := st)]);
    assert Evolves(t, u);
    assert forall i: nat :: Is(u, i, Converged) ==> Is(t, i, Converged);
    assert forall i: nat :: HasReached(u, i) ==> HasReached(t, i);
    assert forall i: nat :: Is(u, i, Pending) ==> Is(t, i, Pending);
    assert forall i: nat :: Is(u, i, Converging) ==> Is(t, i, Converging);
    forall k | k in u.applied ensures ServedFrom(u, k) { ServedStays(t, u, k); }
  }

  lemma ConvergeOk(t: Tables, rel: nat, resource: Id, environment: Id)
    requires TablesOk(t) && Is(t, rel, Pending) && KeyedAt(t, rel, resource, environment)
             && !Overtaken(t, rel, resource, environment)
    ensures var u := Converge(t, rel, resource, environment); TablesOk(u) && Evolves(t, u) && Is(u, rel, Converged)
  {
    var u := Converge(t, rel, resource, environment);
    assert Evolves(t, u);
    assert forall i: nat :: Is(u, i, Converged) && i != rel ==>
             Is(t, i, Converged) && !Keyed(t.releases[i], resource, environment);
    assert forall i: nat :: HasReached(u, i) && i != rel ==> HasReached(t, i);
    forall i: nat, j: nat | Is(u, i, Converged) && HasReached(u, j) && SameKey(u.releases[i], u.releases[j])
      ensures j <= i {
      if i == rel {
        assert KeyedAt(t, j, resource, environment);
        assert j > rel ==> HasReached(t, j);
      } else {
        assert !Keyed(u.releases[i], resource, environment) && Keyed(u.releases[rel], resource, environment);
        assert j != rel;
        assert HasReached(t, j);
      }
    }
    assert forall i: nat :: Is(u, i, Pending) ==> Is(t, i, Pending);
    assert forall i: nat :: Is(u, i, Converging) ==> Is(t, i, Converging);
    forall k | k in u.applied ensures ServedFrom(u, k) { ServedStays(t, u, k); }
  }

  lemma PublishOk(t: Tables, rel: nat, resource: Id, environment: Id)
    requires TablesOk(t) && Is(t, rel, Converged) && KeyedAt(t, rel, resource, environment)
    ensures var u := Publish(t, resource, environment, t.releases[rel].revision); TablesOk(u) && Evolves(t, u)
  {
    var revision := t.releases[rel].revision;
    var u := Publish(t, resource, environment, revision);
    assert u.releases == t.releases;
    assert forall i: nat, st :: Is(u, i, st) == Is(t, i, st);
    assert forall i: nat :: HasReached(u, i) == HasReached(t, i);
    assert forall v :: Unpruned(u, v) == Unpruned(t, v);
    forall k | k in u.applied ensures ServedFrom(u, k) {
      if k.1 == resource && k.0 in Landing(t, resource, environment) {
        assert u.applied[k] == revision;
        assert HasReached(u, rel);
      } else {
        assert k in t.applied;
        ServedStays(t, u, k);
      }
    }
  }

  lemma ApplyOk(t: Tables, rel: nat, resource: Id, environment: Id, planOk: bool, routeOk: bool)
    requires TablesOk(t) && PayloadFits(t, Apply(rel, resource, environment))
    ensures var u := ApplyTx(t, rel, resource, environment, planOk, routeOk).tables; TablesOk(u) && Evolves(t, u)
  {
    if t.releases[rel].Release? && t.releases[rel].state == Pending {
      if Overtaken(t, rel, resource, environment) {
        StaleOk(t, rel, Stale);
      } else if planOk && routeOk {
        ConvergeOk(t, rel, resource, environment);
        var c := Converge(t, rel, resource, environment);
        PublishOk(c, rel, resource, environment);
        EvolvesTransitive(t, c, Publish(c, resource, environment, c.releases[rel].revision));
      } else {
        Unchanged(t);
      }
    } else {
      Unchanged(t);
    }
  }

  lemma Unchanged(t: Tables)
    ensures Evolves(t, t)
  {
  }

  /** One of the two row updates of a withdrawal. */
  lemma MoveOk(t: Tables, resource: Id, environment: Id, from: ReleaseState, to: ReleaseState)
    requires TablesOk(t) && ((from == Converged && to == Withdrawn) || (from == Pending && to == Stale))
    ensures var u := t.(releases := MoveAll(t.releases, resource, environment, from, to)); TablesOk(u) && Evolves(t, u)
  {
    var u := t.(releases := MoveAll(t.releases, resource, environment, from, to));
    assert Evolves(t, u);
    assert forall i: nat :: Is(u, i, Converged) ==> Is(t, i, Converged);
    assert forall i: nat :: HasReached(u, i) ==> HasReached(t, i);
    assert forall i: nat :: Is(u, i, Pending) ==> Is(t, i, Pending);
    assert forall i: nat :: Is(u, i, Converging) ==> Is(t, i, Converging);
    forall k | k in u.applied ensures ServedFrom(u, k) { ServedStays(t, u, k); }
  }

  lemma RemoveOk(t: Tables, resource: Id, environment: Id)
    requires TablesOk(t)
    ensures var u := RemoveTx(t, resource, environment);
            && TablesOk(u) && Evolves(t, u)
            && (forall i: nat :: KeyedAt(u, i, resource, environment) ==> !Is(u, i, Pending) && !Is(u, i, Converged))
  {
    hide TablesOk, Evolves;
    var a := t.(releases := MoveAll(t.releases, resource, environment, Converged, Withdrawn));
    var b := a.(releases := MoveAll(a.releases, resource, environment, Pending, Stale));
    MoveOk(t, resource, environment, Converged, Withdrawn);
    MoveOk(a, resource, environment, Pending, Stale);
    EvolvesTransitive(t, a, b);
    var u := RemoveTx(t, resource, environment);
    SameRowsOk(b, u);
    EvolvesTransitive(t, b, u);
    assert forall i: nat :: i < |u.releases| ==>
        u.releases[i] == Moved(Moved(t.releases[i], resource, environment, Converged, Withdrawn), resource, environment,
                               Pending, Stale);
  }

  lemma SpineOk(t: Tables, resource: Id, environment: Id, revision: Id)
    requires TablesOk(t) && Publishable(t, revision)
    ensures var u := SpineTx(t, resource, environment, revision); TablesOk(u) && Evolves(t, u)
  {
    var u := SpineTx(t, resource, environment, revision);
    var n := |t.releases|;
    assert Evolves(t, u);
    assert forall i: nat :: Is(u, i, Converged) && i != n ==>
             Is(t, i, Converged) && !Keyed(t.releases[i], resource, environment);
    assert forall i: nat :: HasReached(u, i) && i != n ==> HasReached(t, i);
    forall i: nat, j: nat | Is(u, i, Converged) && HasReached(u, j) && SameKey(u.releases[i], u.releases[j])
      ensures j <= i {
      if i != n {
        assert !Keyed(u.releases[i], resource, environment) && j != n;
        assert HasReached(t, j);
      }
    }
    assert forall i: nat :: Is(u, i, Pending) ==> Is(t, i, Pending);
    assert forall i: nat :: Is(u, i, Converging) ==> Is(t, i, Converging);
    forall k | k in u.applied ensures ServedFrom(u, k) { ServedStays(t, u, k); }
  }

  lemma RequestOk(t: Tables, resource: Id, environment: Id, revision: Id)
    requires TablesOk(t) && Publishable(t, revision)
    ensures var u := RequestTx(t, resource, environment, revision); TablesOk(u) && Evolves(t, u)
  {
    var u := RequestTx(t, resource, environment, revision);
    var n := |t.releases|;
    assert Evolves(t, u);
    assert forall i: nat :: Is(u, i, Converged) ==> Is(t, i, Converged);
    assert forall i: nat :: HasReached(u, i) ==> HasReached(t, i);
    assert forall i: nat :: Is(u, i, Pending) && i != n ==> Is(t, i, Pending);
    assert forall i: nat :: Is(u, i, Converging) ==> Is(t, i, Converging);
    forall k | k in u.applied ensures ServedFrom(u, k) { ServedStays(t, u, k); }
  }

  lemma DeleteApiOk(t: Tables, resource: Id)
    requires TablesOk(t)
    ensures var u := DeleteApiTx(t, resource); TablesOk(u) && Evolves(t, u)
  {
    var u := DeleteApiTx(t, resource);
    assert Evolves(t, u);
    assert forall i: nat :: Is(u, i, Converged) ==> Is(t, i, Converged);
    assert forall i: nat :: HasReached(u, i) ==> HasReached(t, i);
    assert forall i: nat :: Is(u, i, Pending) ==> Is(t, i, Pending);
    assert forall i: nat :: Is(u, i, Converging) ==> Is(t, i, Converging);
    assert forall i: nat, j: nat :: HasReached(u, i) && HasReached(u, j) && SameKey(u.releases[i], u.releases[j]) ==>
             SameKey(t.releases[i], t.releases[j]);
    forall k | k in u.applied ensures ServedFrom(u, k) { ServedStays(t, u, k); }
  }

  /** Tables whose releases, applied rows and content are the same. */
  lemma SameRowsOk(t: Tables, u: Tables)
    requires TablesOk(t) && u.releases == t.releases && u.revisions == t.revisions && u.artifacts == t.artifacts
    requires forall k :: k in u.applied ==> k in t.applied && u.applied[k] == t.applied[k]
    ensures TablesOk(u) && Evolves(t, u)
  {
    assert forall i: nat, st :: Is(u, i, st) == Is(t, i, st);
    assert forall i: nat :: HasReached(u, i) == HasReached(t, i);
    assert forall v :: Unpruned(u, v) == Unpruned(t, v);
    forall k | k in u.applied ensures ServedFrom(u, k) { ServedStays(t, u, k); }
  }

  lemma NewRevisionOk(t: Tables, v: Id, r: Revision)
    requires TablesOk(t) && v !in t.revisions && !r.pruned
    ensures var u := t.(revisions := t.revisions[v := r],
                        artifacts := t.artifacts + (if r.artifact.Some? then {r.artifact.value} else {}));
            TablesOk(u) && Evolves(t, u)
  {
    var u := t.(revisions := t.revisions[v := r],
                artifacts := t.artifacts + (if r.artifact.Some? then {r.artifact.value} else {}));
    assert forall i: nat, st :: Is(u, i, st) == Is(t, i, st);
    assert forall i: nat :: HasReached(u, i) == HasReached(t, i);
    assert forall x :: Unpruned(u, x) <==> Unpruned(t, x) || x == v;
    forall k | k in u.applied ensures ServedFrom(u, k) { ServedStays(t, u, k); }
  }

  lemma PruneOk(t: Tables, doomed: set<Id>)
    requires TablesOk(t)
    ensures TablesOk(PruneTx(t, doomed)) && Evolves(t, PruneTx(t, doomed))
  {
    var u := PruneTx(t, doomed);
    if doomed != {} {
      assert forall i: nat, st :: Is(u, i, st) == Is(t, i, st);
      assert forall i: nat :: HasReached(u, i) == HasReached(t, i);
      forall v | Unpruned(u, v) && u.revisions[v].artifact.Some? ensures u.revisions[v].artifact.value in u.artifacts {
        assert Unpruned(t, v) && u.revisions[v] == t.revisions[v];
        assert Referenced(u.revisions, u.revisions[v].artifact.value);
      }
      forall k | k in u.applied ensures ServedFrom(u, k) { ServedStays(t, u, k); }
    }
  }

  // ----- one step of the machine

  /** The parts of the invariant beside the tables and the leases. */
  ghost predicate RestOk(s: System) {
    WithdrawalsHold(s) && JobsMatch(s) && forall k :: k in s.withdrawnAt ==> s.withdrawnAt[k] <= |s.tables.releases|
  }

  lemma TablesStep(s: System, a: Action)
    requires Inv(s) && Enabled(s, a)
    ensures TablesOk(Do(s, a).tables) && Evolves(s.tables, Do(s, a).tables)
  {
    hide TablesOk, Evolves, ApplyTx, RemoveTx, SpineTx, RequestTx, DeleteApiTx, PruneTx, PrunableRevisions;
    var t, u := s.tables, Do(s, a).tables;
    assert TablesOk(t) by { TablesPart(s); }
    match a {
      case NewRevision(v, resource, rev, artifact) =>
        NewRevisionOk(t, v, Revision(resource, rev, s.now, false, artifact));
      case Request(resource, environment, v) => RequestOk(t, resource, environment, v);
      case Spine(resource, environment, v) => SpineOk(t, resource, environment, v);
      case DeleteApi(resource) => DeleteApiOk(t, resource);
      case Commit(r, planOk, routeOk) =>
        match s.jobs[At(s, r).job].payload {
          case Apply(rel, resource, environment) => ApplyOk(t, rel, resource, environment, planOk, routeOk);
          case Remove(resource, environment) => RemoveOk(t, resource, environment);
        }
      case Finish(r) =>
        var p := s.jobs[At(s, r).job].payload;
        if p.Apply? && Is(t, p.release, Pending) { StaleOk(t, p.release, Failed); }
        SameRowsOk(t, t);
      case CommitPrune(q) => PruneOk(t, s.selected[q].doomed);
      case _ => SameRowsOk(t, u);
    }
  }

  lemma TablesPart(s: System)
    requires Inv(s)
    ensures TablesOk(s.tables)
  {
  }

  /** Rows that had settled stay settled. */
  lemma SettledStays(s: System, u: System, i: nat, k: (Id, Id))
    requires Evolves(s.tables, u.tables) && i < |s.tables.releases| && Settles(s, i, k)
    ensures Settles(u, i, k)
  {
    assert RowStep(s.tables.releases[i], u.tables.releases[i]);
  }

  lemma PayloadStays(t: Tables, u: Tables, p: Payload)
    requires Evolves(t, u) && p.Apply? && PayloadFits(t, p)
    ensures PayloadFits(u, p)
  {
    assert RowStep(t.releases[p.release], u.releases[p.release]);
  }

  lemma RestStep(s: System, a: Action)
    requires Inv(s) && Enabled(s, a) && Evolves(s.tables, Do(s, a).tables)
    ensures RestOk(Do(s, a))
  {
    hide ApplyTx, RemoveTx, SpineTx, RequestTx, DeleteApiTx, PruneTx, PrunableRevisions, FailTx;
    var u := Do(s, a);
    forall i: nat, k | k in u.withdrawnAt && i < u.withdrawnAt[k] ensures Settles(u, i, k) {
      if k in s.withdrawnAt && i < s.withdrawnAt[k] {
        assert Settles(s, i, k);
        SettledStays(s, u, i, k);
      } else {
        RemoveOk(s.tables, k.0, k.1);
      }
    }
    JobsStep(s, a);
  }

  lemma JobsStep(s: System, a: Action)
    requires Inv(s) && Enabled(s, a) && Evolves(s.tables, Do(s, a).tables)
    ensures JobsMatch(Do(s, a))
  {
    var u := Do(s, a);
    forall j | 0 <= j < |u.jobs| && u.jobs[j].payload.Apply? ensures PayloadFits(u.tables, u.jobs[j].payload) {
      if j < |s.jobs| {
        assert u.jobs[j].payload == s.jobs[j].payload;
        PayloadStays(s.tables, u.tables, s.jobs[j].payload);
      } else if a.Request? {
        assert u.tables.releases[|s.tables.releases|] == Release(a.resource, a.environment, a.revision, Pending);
      }
    }
  }

  // ----- leases

  lemma LeaseStep(s: System, a: Action)
    requires Inv(s) && Enabled(s, a)
    ensures LeasesOk(Do(s, a))
  {
    hide ApplyTx, RemoveTx, SpineTx, RequestTx, DeleteApiTx, PruneTx, PrunableRevisions, FailTx;
    var u := Do(s, a);
    match a {
      case Enter(r, x) => EnterLease(s, r, x);
      case Leave(r) => LeaveLease(s, r);
      case Commit(r, planOk, routeOk) => CommitLease(s, r, planOk, routeOk);
      case AddTarget(x, environment) => SameSections(s, u);
      case DropTarget(x) => SameSections(s, u);
      case Finish(r) => FinishLease(s, r);
      case _ => OtherLease(s, a);
    }
  }

  /** Whoever is in a section stays there, or leaves it, and no lease changes. */
  lemma SameSections(s: System, u: System)
    requires LeasesOk(s) && s.now <= u.now && s.usedTargets <= u.usedTargets
    requires forall x :: x in u.tables.targets ==> x in u.usedTargets
    requires forall x :: x in u.tables.targets && x in s.usedTargets ==>
               x in s.tables.targets && u.tables.targets[x].lease == s.tables.targets[x].lease
    requires forall r :: InSection(At(u, r)) ==>
               InSection(At(s, r)) && At(u, r).target == At(s, r).target && At(u, r).since == At(s, r).since
    ensures LeasesOk(u)
  {
    forall r ensures LeaseHeld(u, r) { assert LeaseHeld(s, r); }
    assert LeasesApart(s);
    forall p: Id, q: Id | p != q ensures Apart(At(u, p), At(u, q)) { assert Apart(At(s, p), At(s, q)); }
  }

  lemma TargetsKept(t: Tables, p: Payload, planOk: bool, routeOk: bool)
    ensures Transact(t, p, planOk, routeOk).tables.targets == t.targets
  {
  }

  lemma CommitLease(s: System, r: Id, planOk: bool, routeOk: bool)
    requires Inv(s) && Enabled(s, Commit(r, planOk, routeOk))
    ensures LeasesOk(Do(s, Commit(r, planOk, routeOk)))
  {
    hide Transact;
    TargetsKept(s.tables, s.jobs[At(s, r).job].payload, planOk, routeOk);
    SameSections(s, Do(s, Commit(r, planOk, routeOk)));
  }

  lemma FinishLease(s: System, r: Id)
    requires Inv(s) && Enabled(s, Finish(r))
    ensures LeasesOk(Do(s, Finish(r)))
  {
    SameSections(s, Do(s, Finish(r)));
  }

  lemma OtherLease(s: System, a: Action)
    requires Inv(s) && Enabled(s, a)
    requires !a.Enter? && !a.Leave? && !a.Commit? && !a.AddTarget? && !a.DropTarget? && !a.Finish?
    ensures LeasesOk(Do(s, a))
  {
    hide PrunableRevisions;
    SameSections(s, Do(s, a));
  }

  lemma EnterLease(s: System, r: Id, x: Id)
    requires Inv(s) && Enabled(s, Enter(r, x))
    ensures LeasesOk(Do(s, Enter(r, x)))
  {
    var u := Do(s, Enter(r, x));
    assert forall q :: q != r ==> At(u, q) == At(s, q);
    forall q ensures LeaseHeld(u, q) { assert LeaseHeld(s, q); }
    assert LeasesApart(s);
    forall p: Id, q: Id | p != q ensures Apart(At(u, p), At(u, q)) {
      assert Apart(At(s, p), At(s, q));
      assert LeaseHeld(s, p) && LeaseHeld(s, q);
    }
  }

  lemma LeaveLease(s: System, r: Id)
    requires Inv(s) && Enabled(s, Leave(r))
    ensures LeasesOk(Do(s, Leave(r)))
  {
    var u := Do(s, Leave(r));
    assert forall q :: q != r ==> At(u, q) == At(s, q);
    forall q ensures LeaseHeld(u, q) { assert LeaseHeld(s, q); }
    assert LeasesApart(s);
    forall p: Id, q: Id | p != q ensures Apart(At(u, p), At(u, q)) { assert Apart(At(s, p), At(s, q)); }
  }

  lemma StepKeepsInv(s: System, a: Action)
    requires Inv(s) && Enabled(s, a)
    ensures Inv(Do(s, a)) && Evolves(s.tables, Do(s, a).tables)
  {
    hide Do, NewestIsLive, WithdrawalsHold, Stored, JobsMatch, AppliedReached, LeasesOk, Evolves;
    TablesStep(s, a);
    RestStep(s, a);
    LeaseStep(s, a);
  }

  // ----- whole runs

  lemma InitialOk(now: int)
    ensures Inv(Initial(now))
  {
    var s := Initial(now);
    assert forall r :: At(s, r) == Idle;
    assert forall i: nat, st :: !Is(s.tables, i, st);
    assert NewestIsLive(s.tables) && Stored(s.tables) && AppliedReached(s.tables);
    assert forall r: Id :: LeaseHeld(s, r);
    assert forall p: Id, q: Id :: p != q ==> Apart(At(s, p), At(s, q));
    assert LeasesApart(s);
  }

  lemma {:induction false} RunKeepsInv(s: System, actions: seq<Action>)
    requires Inv(s) && CanRun(s, actions)
    ensures Inv(Run(s, actions)) && Evolves(s.tables, Run(s, actions).tables)
    decreases |actions|
  {
    if actions == [] {
      Unchanged(s.tables);
    } else {
      StepKeepsInv(s, actions[0]);
      RunKeepsInv(Do(s, actions[0]), actions[1..]);
      EvolvesTransitive(s.tables, Do(s, actions[0]).tables, Run(s, actions).tables);
    }
  }

  /** In every run from the start: one live release per API and environment, the newest that reached the fleet. */
  lemma OneNewestLive(now: int, actions: seq<Action>, i: nat, j: nat)
    requires CanRun(Initial(now), actions)
    requires var t := Run(Initial(now), actions).tables;
             Is(t, i, Converged) && HasReached(t, j) && SameKey(t.releases[i], t.releases[j])
    ensures j <= i
    ensures Is(Run(Initial(now), actions).tables, j, Converged) ==> j == i
  {
    InitialOk(now);
    RunKeepsInv(Initial(now), actions);
    var t := Run(Initial(now), actions).tables;
    if Is(t, j, Converged) { assert HasReached(t, i); }
  }

  /** Having reached the fleet is never lost, except with the API itself. */
  lemma ReachedForever(s: System, actions: seq<Action>, i: nat)
    requires Inv(s) && CanRun(s, actions) && HasReached(s.tables, i)
    ensures var t := Run(s, actions).tables; i < |t.releases| && (t.releases[i].Gone? || HasReached(t, i))
  {
    RunKeepsInv(s, actions);
    assert RowStep(s.tables.releases[i], Run(s, actions).tables.releases[i]);
  }

  /** Once a release is no longer waiting, its job may run again at any later time and changes nothing. */
  lemma ReplayIsNoOp(s: System, actions: seq<Action>, rel: nat, resource: Id, environment: Id, planOk: bool,
                     routeOk: bool)
    requires Inv(s) && CanRun(s, actions) && rel < |s.tables.releases| && !Is(s.tables, rel, Pending)
    ensures var t := Run(s, actions).tables;
            ApplyTx(t, rel, resource, environment, planOk, routeOk) == Result(t, Settled)
  {
    RunKeepsInv(s, actions);
    assert RowStep(s.tables.releases[rel], Run(s, actions).tables.releases[rel]);
  }

  /** A committed apply leaves its release settled, so the replay theorem covers it. */
  lemma CommittedIsSettled(t: Tables, rel: nat, resource: Id, environment: Id, planOk: bool, routeOk: bool)
    requires ApplyTx(t, rel, resource, environment, planOk, routeOk).verdict == Settled
    ensures !Is(ApplyTx(t, rel, resource, environment, planOk, routeOk).tables, rel, Pending)
  {
  }

  /** A release that converges is served, at its revision, on every gateway it lands on, and nothing else is touched. */
  lemma ConvergedIsServed(t: Tables, rel: nat, resource: Id, environment: Id, x: Id, other: Id)
    requires Is(t, rel, Pending) && KeyedAt(t, rel, resource, environment) && !Overtaken(t, rel, resource, environment)
    ensures var u := ApplyTx(t, rel, resource, environment, true, true).tables;
            && Is(u, rel, Converged)
            && (x in Landing(t, resource, environment) ==>
                  (resource, environment, x) in u.bindings && (x, resource) in u.applied
                      && u.applied[(x, resource)] == t.releases[rel].revision)
            && (other != resource || x !in Landing(t, resource, environment) ==>
                  ((x, other) in u.applied <==> (x, other) in t.applied)
                      && ((x, other) in t.applied ==> u.applied[(x, other)] == t.applied[(x, other)]))
  {
    hide Overtaken;
    var c := Converge(t, rel, resource, environment);
    LandingSame(t, c, resource, environment);
    hide Landing;
  }

  lemma LandingSame(t: Tables, u: Tables, resource: Id, environment: Id)
    requires t.targets == u.targets && t.bindings == u.bindings
    ensures Landing(t, resource, environment) == Landing(u, resource, environment)
  {
    assert BoundTargets(t, resource, environment) == BoundTargets(u, resource, environment);
    assert EnvironmentTargets(t, environment) == EnvironmentTargets(u, environment);
  }

  /** After a withdrawal no gateway of the environment serves the API, and every other row is as it was. */
  lemma WithdrawnIsGone(t: Tables, resource: Id, environment: Id, x: Id, other: Id)
    ensures var u := RemoveTx(t, resource, environment);
            && (x in EnvironmentTargets(t, environment) ==> (x, resource) !in u.applied)
            && (other != resource || x !in EnvironmentTargets(t, environment) ==>
                  ((x, other) in u.applied <==> (x, other) in t.applied)
                      && ((x, other) in t.applied ==> u.applied[(x, other)] == t.applied[(x, other)]))
            && (resource, environment, x) !in u.bindings
            && forall i: nat :: KeyedAt(u, i, resource, environment) ==> !Is(u, i, Converged) && !Is(u, i, Pending)
  {
    hide EnvironmentTargets;
  }

  /** A withdrawal wins over everything that existed when it was committed. */
  lemma WithdrawalWins(s: System, r: Id, planOk: bool, routeOk: bool, actions: seq<Action>, i: nat)
    requires Inv(s) && Enabled(s, Commit(r, planOk, routeOk)) && s.jobs[At(s, r).job].payload.Remove?
    requires CanRun(Do(s, Commit(r, planOk, routeOk)), actions) && i < |s.tables.releases|
    requires var p := s.jobs[At(s, r).job].payload; KeyedAt(s.tables, i, p.resource, p.environment)
    ensures !Is(Run(Do(s, Commit(r, planOk, routeOk)), actions).tables, i, Converged)
  {
    var p := s.jobs[At(s, r).job].payload;
    var u := Do(s, Commit(r, planOk, routeOk));
    StepKeepsInv(s, Commit(r, planOk, routeOk));
    RunKeepsInv(u, actions);
    assert u.withdrawnAt[(p.resource, p.environment)] == |s.tables.releases|;
    assert Settles(u, i, (p.resource, p.environment));
    assert RowStep(s.tables.releases[i], u.tables.releases[i]);
    assert RowStep(u.tables.releases[i], Run(u, actions).tables.releases[i]);
  }

  /** In every run, two runners share a section only after the earlier lease ran out. */
  lemma LeaseExclusion(now: int, actions: seq<Action>, p: Id, q: Id)
    requires CanRun(Initial(now), actions) && p != q
    requires var s := Run(Initial(now), actions);
             InSection(At(s, p)) && InSection(At(s, q)) && At(s, p).target == At(s, q).target
    ensures var s := Run(Initial(now), actions);
            At(s, q).since >= At(s, p).since + LEASE_MS || At(s, p).since >= At(s, q).since + LEASE_MS
  {
    InitialOk(now);
    RunKeepsInv(Initial(now), actions);
    var s := Run(Initial(now), actions);
    assert LeasesApart(s) && Apart(At(s, p), At(s, q));
  }

  /** Leaving a section clears no lease but the runner's own. */
  lemma LeaveKeepsOthers(s: System, r: Id, x: Id)
    requires Enabled(s, Leave(r)) && x in s.tables.targets
    requires s.tables.targets[x].lease.Some? && s.tables.targets[x].lease.value.holder != r
    ensures x in Do(s, Leave(r)).tables.targets && Do(s, Leave(r)).tables.targets[x].lease == s.tables.targets[x].lease
  {
  }
}

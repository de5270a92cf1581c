/**
 The reconciler against its store: tables as mutable fields, transactions as procedures that write
 row by row and put everything back when they throw. Each is proved to be the transaction of the
 model, so the safety theorems speak about this code.
 */
module ReleaseStore {
  import opened Text
  import opened ReleaseTables

  method BoundAll(bindings: set<(Id, Id, Id)>, on: set<Id>, resource: Id, environment: Id)
    returns (r: set<(Id, Id, Id)>)
    ensures r == BoundOn(bindings, on, resource, environment)
  {
    var rest := on;
    r := bindings;
    while rest != {}
      invariant rest <= on
      invariant forall b :: b in r <==>
                b in bindings || (b.0 == resource && b.1 == environment && b.2 in on && b.2 !in rest)
      decreases rest
    {
      var x :| x in rest;
      r := r + {(resource, environment, x)};
      rest := rest - {x};
    }
  }

  method ServedAll(applied: map<(Id, Id), Id>, on: set<Id>, resource: Id, revision: Id) returns (r: map<(Id, Id), Id>)
    ensures r == ServedOn(applied, on, resource, revision)
  {
    hide *;
    var rest := on;
    r := applied;
    while rest != {}
      invariant rest <= on
      invariant forall k :: k in r <==> k in applied || (k.1 == resource && k.0 in on && k.0 !in rest)
      invariant forall k :: k in r ==>
                  r[k] == if k.1 == resource && k.0 in on && k.0 !in rest then revision else applied[k]
      decreases rest
    {
      var x :| x in rest;
      r := r[(x, resource) := revision];
      rest := rest - {x};
    }
    ServedMeans(r, applied, on, resource, revision);
  }

  lemma ServedMeans(r: map<(Id, Id), Id>, applied: map<(Id, Id), Id>, on: set<Id>, resource: Id, revision: Id)
    requires forall k :: k in r <==> k in applied || (k.1 == resource && k.0 in on)
    requires forall k :: k in r ==> r[k] == if k.1 == resource && k.0 in on then revision else applied[k]
    ensures r == ServedOn(applied, on, resource, revision)
  {
  }

  class Store {
    var releases: seq<Release>
    var targets: map<Id, Target>
    var applied: map<(Id, Id), Id>
    var bindings: set<(Id, Id, Id)>
    var revisions: map<Id, Revision>
    var artifacts: set<Id>

    ghost function Snapshot(): Tables
      reads this
    {
      Tables(releases, targets, applied, bindings, revisions, artifacts)
    }

    constructor ()
      ensures Snapshot() == Tables([], map[], map[], {}, map[], {})
    {
      releases, targets, applied, bindings, revisions, artifacts := [], map[], map[], {}, map[], {};
    }

    /** UPDATE release SET state = to WHERE resource, environment and state = from. */
    method UpdateReleases(resource: Id, environment: Id, from: ReleaseState, to: ReleaseState)
      modifies this`releases
      ensures releases == MoveAll(old(releases), resource, environment, from, to)
    {
      for i := 0 to |releases|
        invariant |releases| == |old(releases)|
        invariant forall k :: 0 <= k < i ==> releases[k] == Moved(old(releases)[k], resource, environment, from, to)
        invariant forall k :: i <= k < |releases| ==> releases[k] == old(releases)[k]
      {
        var row := releases[i];
        if row.Release? && row.resource == resource && row.environment == environment && row.state == from {
          releases := releases[i := row.(state := to)];
        }
      }
    }

    /** SELECT a later release of the same key that reached the fleet. */
    method IsOvertaken(rel: nat, resource: Id, environment: Id) returns (yes: bool)
      requires rel < |releases|
      ensures yes == Overtaken(Snapshot(), rel, resource, environment)
    {
      yes := false;
      for k := rel + 1 to |releases|
        invariant yes <==> exists j ::
                    rel < j < k && KeyedAt(Snapshot(), j, resource, environment) && HasReached(Snapshot(), j)
      {
        var row := releases[k];
        if row.Release? && row.resource == resource && row.environment == environment && Reached(row.state) {
          assert KeyedAt(Snapshot(), k, resource, environment) && HasReached(Snapshot(), k);
          yes := true;
        }
      }
    }

    /** Binds the API to gateways where nothing has, and records what each of them serves. */
    method PublishOn(resource: Id, environment: Id, revision: Id)
      modifies this`bindings, this`applied
      ensures Snapshot() == Publish(old(Snapshot()), resource, environment, revision)
    {
      hide Landing, BoundOn, ServedOn;
      var on := Landing(Tables(releases, targets, applied, bindings, revisions, artifacts), resource, environment);
      bindings := BoundAll(bindings, on, resource, environment);
      applied := ServedAll(applied, on, resource, revision);
    }

    /** The apply transaction; a throw puts the tables back. */
    method ApplyRelease(rel: nat, resource: Id, environment: Id, planOk: bool, routeOk: bool) returns (verdict: Verdict)
      modifies this
      ensures Result(Snapshot(), verdict) == ApplyTx(old(Snapshot()), rel, resource, environment, planOk, routeOk)
    {
      hide Publish, Overtaken, Landing;
      if rel >= |releases| || releases[rel].Gone? { return Settled; }
      var row := releases[rel];
      if row.state != Pending { return Settled; }
      var late := IsOvertaken(rel, resource, environment);
      if late {
        releases := releases[rel := row.(state := Stale)];
        return Settled;
      }
      if !planOk { return Retry; }
      var saved := releases;
      UpdateReleases(resource, environment, Converged, Superseded);
      releases := releases[rel := row.(state := Converged)];
      if !routeOk {
        releases := saved;
        return Retry;
      }
      assert Snapshot() == Converge(old(Snapshot()), rel, resource, environment);
      PublishOn(resource, environment, row.revision);
      return Settled;
    }

    /** The withdrawal transaction. */
    method Withdraw(resource: Id, environment: Id)
      modifies this
      ensures Snapshot() == RemoveTx(old(Snapshot()), resource, environment)
    {
      hide MoveAll;
      UpdateReleases(resource, environment, Converged, Withdrawn);
      UpdateReleases(resource, environment, Pending, Stale);
      var there := set x | x in targets && targets[x].environment == environment;
      applied := map k | k in applied && !(k.1 == resource && k.0 in there) :: applied[k];
      bindings := set b | b in bindings && !(b.0 == resource && b.1 == environment);
    }

    /** Only a release still waiting can fail. */
    method FailPending(rel: nat)
      modifies this`releases
      ensures Snapshot() == FailTx(old(Snapshot()), rel)
    {
      if rel < |releases| && releases[rel].Release? && releases[rel].state == Pending {
        releases := releases[rel := releases[rel].(state := Failed)];
      }
    }

    /** Takes the lease of a target unless another holder's is still running. */
    method Acquire(target: Id, holder: Id, now: int) returns (ok: bool)
      modifies this`targets
      ensures ok == Leasable(old(Snapshot()), target, holder, now)
      ensures Snapshot() == if ok then AcquireTx(old(Snapshot()), target, holder, now) else old(Snapshot())
    {
      if target !in targets { return false; }
      var l := targets[target].lease;
      if l.Some? && l.value.holder != holder && l.value.expires > now { return false; }
      targets := targets[target := targets[target].(lease := Some(Lease(holder, now + LEASE_MS)))];
      return true;
    }

    method GiveBack(target: Id, holder: Id)
      modifies this`targets
      ensures Snapshot() == ReleaseTx(old(Snapshot()), target, holder)
    {
      if target in targets {
        var l := targets[target].lease;
        if l.Some? && l.value.holder == holder {
          targets := targets[target := targets[target].(lease := None)];
        }
      }
    }

    /** The query, outside any transaction. */
    method SelectDoomed(p: Retention) returns (doomed: set<Id>)
      ensures doomed == PrunableRevisions(Snapshot(), p)
    {
      doomed := PrunableRevisions(Tables(releases, targets, applied, bindings, revisions, artifacts), p);
    }

    /** The transaction: tombstones what was selected, then drops artifacts nothing references. */
    method Tombstone(doomed: set<Id>)
      modifies this
      ensures Snapshot() == PruneTx(old(Snapshot()), doomed)
    {
      if doomed == {} { return; }
      var rest := doomed;
      while rest != {}
        invariant rest <= doomed && revisions == Tombstoned(old(revisions), doomed - rest)
        invariant releases == old(releases) && targets == old(targets) && applied == old(applied)
        invariant bindings == old(bindings) && artifacts == old(artifacts)
        decreases rest
      {
        var v :| v in rest;
        if v in revisions { revisions := revisions[v := revisions[v].(pruned := true)]; }
        rest := rest - {v};
      }
      assert doomed - {} == doomed;
      artifacts := set a | a in artifacts && Referenced(revisions, a);
    }

    /** Query and transaction one after the other, as a single process does. */
    method PruneRevisions(p: Retention) returns (tombstoned: nat)
      modifies this
      ensures Snapshot() == PruneTx(old(Snapshot()), PrunableRevisions(old(Snapshot()), p))
      ensures tombstoned == |PrunableRevisions(old(Snapshot()), p)|
    {
      var doomed := SelectDoomed(p);
      Tombstone(doomed);
      tombstoned := |doomed|;
    }
  }
}

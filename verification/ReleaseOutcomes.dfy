/**
 What each transaction and each job comes to, row by row and in the rows' own terms: not only that
 nothing wrong is published, but exactly when a release is, and what becomes of its job.
 */
module ReleaseOutcomes {
  import opened Text
  import opened ReleaseTables
  import opened ReleaseMachine
  import opened ReleaseSafety
  import opened ReleaseRunner

  // ----- applying a release

  /** Row `k` is a release of this API in this environment that is, or was, on the fleet. */
  predicate WasServed(t: Tables, k: int, resource: Id, environment: Id) {
    && 0 <= k < |t.releases| && t.releases[k].Release?
    && t.releases[k].resource == resource && t.releases[k].environment == environment
    && t.releases[k].state in {Converged, Superseded, Withdrawn}
  }

  /** A gateway the release lands on: one it is bound to, or any of the environment if it is bound nowhere. */
  ghost predicate LandsOn(t: Tables, x: Id, resource: Id, environment: Id) {
    && x in t.targets
    && if exists y :: y in t.targets && (resource, environment, y) in t.bindings
       then (resource, environment, x) in t.bindings
       else t.targets[x].environment == environment
  }

  lemma LandingExact(t: Tables, x: Id, resource: Id, environment: Id)
    ensures x in Landing(t, resource, environment) <==> LandsOn(t, x, resource, environment)
  {
    var bound := BoundTargets(t, resource, environment);
    if y :| y in t.targets && (resource, environment, y) in t.bindings { assert y in bound; }
    assert bound != {} ==> exists y :: y in bound;
  }

  /** What a published release leaves behind, row by row and gateway by gateway. */
  ghost predicate Published(t: Tables, u: Tables, rel: nat, resource: Id, environment: Id)
    requires rel < |t.releases| && t.releases[rel].Release?
  {
    && |u.releases| == |t.releases| && u.releases[rel] == t.releases[rel].(state := Converged)
    && (forall k :: 0 <= k < |t.releases| && k != rel ==>
          u.releases[k] ==
            if t.releases[k].Release? && t.releases[k].resource == resource && t.releases[k].environment == environment
               && t.releases[k].state == Converged
            then t.releases[k].(state := Superseded) else t.releases[k])
    && (forall k :: k in u.applied <==> k in t.applied || (k.1 == resource && LandsOn(t, k.0, resource, environment)))
    && (forall k :: k in u.applied ==>
          u.applied[k] == if k.1 == resource && LandsOn(t, k.0, resource, environment) then t.releases[rel].revision
                          else t.applied[k])
    && (forall b :: b in u.bindings <==>
          b in t.bindings || (b.0 == resource && b.1 == environment && LandsOn(t, b.2, resource, environment)))
    && u.targets == t.targets && u.revisions == t.revisions && u.artifacts == t.artifacts
  }

  /** A waiting release whose plan and route are fine goes live exactly if no later one of its API was served there. */
  lemma ApplyPublishes(t: Tables, rel: nat, resource: Id, environment: Id)
    requires rel < |t.releases| && t.releases[rel].Release? && t.releases[rel].state == Pending
    ensures var r := ApplyTx(t, rel, resource, environment, true, true);
            && r.verdict == Settled
            && if exists k :: k > rel && WasServed(t, k, resource, environment)
               then r.tables == t.(releases := t.releases[rel := t.releases[rel].(state := Stale)])
               else Published(t, r.tables, rel, resource, environment)
  {
    OvertakenExact(t, rel, resource, environment);
    if !(exists k :: k > rel && WasServed(t, k, resource, environment)) {
      ConvergePublishes(t, rel, resource, environment);
    }
  }

  lemma OvertakenExact(t: Tables, rel: nat, resource: Id, environment: Id)
    ensures Overtaken(t, rel, resource, environment) <==> exists k :: k > rel && WasServed(t, k, resource, environment)
  {
    if k :| k > rel && WasServed(t, k, resource, environment) {
      assert KeyedAt(t, k, resource, environment) && HasReached(t, k);
    }
    if Overtaken(t, rel, resource, environment) {
      var k :| rel < k < |t.releases| && KeyedAt(t, k, resource, environment) && HasReached(t, k);
      assert WasServed(t, k, resource, environment);
    }
  }

  lemma ConvergePublishes(t: Tables, rel: nat, resource: Id, environment: Id)
    requires rel < |t.releases| && t.releases[rel].Release? && t.releases[rel].state == Pending
    ensures Published(t, Publish(Converge(t, rel, resource, environment), resource, environment,
                                 t.releases[rel].revision), rel, resource, environment)
  {
    var c := Converge(t, rel, resource, environment);
    LandingSame(t, c, resource, environment);
    forall x ensures x in Landing(c, resource, environment) <==> LandsOn(t, x, resource, environment) {
      LandingExact(t, x, resource, environment);
    }
    hide Landing, LandsOn;
  }

  /** In every other case nothing is published: the tables stay as they are, and a waiting release is retried. */
  lemma ApplyRefuses(t: Tables, rel: nat, resource: Id, environment: Id, planOk: bool, routeOk: bool)
    requires !planOk || !routeOk
             || !(rel < |t.releases| && t.releases[rel].Release? && t.releases[rel].state == Pending)
    ensures var r := ApplyTx(t, rel, resource, environment, planOk, routeOk);
            if rel < |t.releases| && t.releases[rel].Release? && t.releases[rel].state == Pending
            then if exists k :: k > rel && WasServed(t, k, resource, environment)
                 then r == Result(t.(releases := t.releases[rel := t.releases[rel].(state := Stale)]), Settled)
                 else r == Result(t, Retry)
            else r == Result(t, Settled)
  {
    OvertakenExact(t, rel, resource, environment);
  }

  // ----- withdrawing

  lemma WithdrawExactly(t: Tables, resource: Id, environment: Id)
    ensures var u := RemoveTx(t, resource, environment);
            && |u.releases| == |t.releases|
            && (forall k :: 0 <= k < |t.releases| ==>
                  u.releases[k] ==
                    if t.releases[k].Release? && t.releases[k].resource == resource
                       && t.releases[k].environment == environment && t.releases[k].state in {Converged, Pending}
                    then t.releases[k].(state := if t.releases[k].state == Converged then Withdrawn else Stale)
                    else t.releases[k])
            && (forall k :: k in u.applied <==> k in t.applied && !(k.1 == resource && k.0 in t.targets
                                                  && t.targets[k.0].environment == environment))
            && (forall k :: k in u.applied ==> u.applied[k] == t.applied[k])
            && (forall b :: b in u.bindings <==> b in t.bindings && !(b.0 == resource && b.1 == environment))
            && u.targets == t.targets && u.revisions == t.revisions && u.artifacts == t.artifacts
  {
  }

  // ----- the spine, failing, deleting

  /** A direct publication supersedes what was live and adds a row that is live. */
  lemma SpineExactly(t: Tables, resource: Id, environment: Id, revision: Id)
    ensures var u, n := SpineTx(t, resource, environment, revision), |t.releases|;
            && |u.releases| == n + 1 && u.releases[n] == Release(resource, environment, revision, Converged)
            && (forall k :: 0 <= k < n ==>
                  u.releases[k] ==
                    if t.releases[k].Release? && t.releases[k].resource == resource
                       && t.releases[k].environment == environment && t.releases[k].state == Converged
                    then t.releases[k].(state := Superseded) else t.releases[k])
            && u == t.(releases := u.releases)
  {
  }

  // ----- leases

  /** A lease is free, the runner's own, or over; taken, it runs for thirty seconds. */
  lemma LeaseExactly(t: Tables, x: Id, holder: Id, now: int)
    requires x in t.targets
    ensures Leasable(t, x, holder, now) <==>
            forall h, until :: t.targets[x].lease == Some(Lease(h, until)) ==> h == holder || until <= now
    ensures AcquireTx(t, x, holder, now).targets[x] == t.targets[x].(lease := Some(Lease(holder, now + 30000)))
    ensures ReleaseTx(t, x, holder).targets[x].lease
         == if exists until :: t.targets[x].lease == Some(Lease(holder, until)) then None else t.targets[x].lease
  {
    var l := t.targets[x].lease;
    if l.Some? { assert l == Some(Lease(l.value.holder, l.value.expires)); }
  }

  // ----- retention

  /** Later releases of the same API and environment that were served. */
  ghost function ServedSince(t: Tables, i: nat): set<int>
    requires i < |t.releases| && t.releases[i].Release?
  {
    set k | i < k < |t.releases| && WasServed(t, k, t.releases[i].resource, t.releases[i].environment)
  }

  /** The content that keeps a revision: one of the last two served, or a release that waits or is live. */
  ghost predicate Needed(t: Tables, v: Id) {
    exists i :: 0 <= i < |t.releases| && t.releases[i].Release? && t.releases[i].revision == v
                && (|| t.releases[i].state in {Pending, Converging, Converged}
                    || (t.releases[i].state in {Superseded, Withdrawn} && |ServedSince(t, i)| < 2))
  }

  lemma {:induction false} RecentPart(t: Tables, v: Id)
    ensures Recent(t, v) || InUse(t, v) <==> Needed(t, v)
  {
    forall i | 0 <= i < |t.releases| && t.releases[i].Release?
      ensures ServedSince(t, i) == set k | i < k < |t.releases| && HasReached(t, k)
                                           && Keyed(t.releases[k], t.releases[i].resource, t.releases[i].environment)
    {}
  }

  /** A revision goes exactly if it is old or one too many, and nothing needs it. */
  lemma PrunableExactly(t: Tables, v: Id, p: Retention)
    ensures v in PrunableRevisions(t, p) <==>
            && v in t.revisions && !t.revisions[v].pruned
            && (|Outranking(t, v)| >= p.keepCount || t.revisions[v].createdAt < p.ageCutoff)
            && !Needed(t, v) && v !in p.planned && v !in p.operated
  {
    RecentPart(t, v);
    hide Recent, InUse, Needed;
  }

  /** Pruning tombstones the doomed, and keeps exactly the artifacts that a revision still refers to. */
  lemma TombstoneExactly(t: Tables, doomed: set<Id>)
    requires doomed != {} && doomed <= t.revisions.Keys
    ensures var u := PruneTx(t, doomed);
            && u == t.(revisions := u.revisions, artifacts := u.artifacts)
            && u.revisions.Keys == t.revisions.Keys
            && (forall v :: v in t.revisions ==>
                  u.revisions[v] == if v in doomed then t.revisions[v].(pruned := true) else t.revisions[v])
            && (forall a :: a in u.artifacts <==>
                  a in t.artifacts && exists v :: v in t.revisions && v !in doomed && !t.revisions[v].pruned
                                                  && t.revisions[v].artifact == Some(a))
  {
    var us := Tombstoned(t.revisions, doomed);
    forall a: Id ensures Referenced(us, a) <==> exists v :: v in t.revisions && v !in doomed && !t.revisions[v].pruned
                                                        && t.revisions[v].artifact == Some(a)
    {
      if Referenced(us, a) {
        var v :| v in us && !us[v].pruned && us[v].artifact == Some(a);
        assert v !in doomed;
      }
      if v :| v in t.revisions && v !in doomed && !t.revisions[v].pruned && t.revisions[v].artifact == Some(a) {
        assert us[v] == t.revisions[v];
      }
    }
  }

  // ----- jobs

  /** A job that is settled is done, one to be retried is queued again, and a hopeless one fails. */
  lemma FinishExactly(s: System, r: Id)
    requires Enabled(s, Finish(r))
    ensures var u, t := At(s, r), Do(s, Finish(r));
            && At(t, r) == Idle && |t.jobs| == |s.jobs|
            && (forall j :: 0 <= j < |s.jobs| && j != u.job ==> t.jobs[j] == s.jobs[j])
            && t.jobs[u.job].payload == s.jobs[u.job].payload
            && (u.verdict == Settled ==> t.jobs[u.job].state == Done && t.tables == s.tables)
            && (u.verdict == Retry ==> t.jobs[u.job].state == Queued && t.tables == s.tables)
            && (u.verdict == Hopeless ==> t.jobs[u.job].state == JobFailed)
  {
  }

  /** A hopeless job fails its release only if that is still waiting. */
  lemma HopelessFails(s: System, r: Id)
    requires Enabled(s, Finish(r)) && At(s, r).verdict == Hopeless && s.jobs[At(s, r).job].payload.Apply?
    ensures var t, rel := s.tables, s.jobs[At(s, r).job].payload.release;
            Do(s, Finish(r)).tables ==
              if rel < |t.releases| && t.releases[rel].Release? && t.releases[rel].state == Pending
              then t.(releases := t.releases[rel := t.releases[rel].(state := Failed)]) else t
  {
  }

  /** The gateway is there and its lease is to be had at the time the job runs. */
  ghost predicate Served(s: System, r: Id, o: Outcome) {
    && o.gateway.Some? && o.gateway.value in s.tables.targets
    && forall h, until :: s.tables.targets[o.gateway.value].lease == Some(Lease(h, until)) ==>
         h == r || until <= s.now + o.elapsed
  }

  lemma ServedLeasable(s: System, r: Id, j: nat, o: Outcome)
    requires At(s, r).Idle? && j < |s.jobs| && Served(s, r, o)
    ensures Leasable(s.tables, o.gateway.value, r, s.now + o.elapsed)
  {
    LeaseExactly(s.tables, o.gateway.value, r, s.now + o.elapsed);
  }

  /** The tables once the job has its lease. */
  function Leased(s: System, r: Id, o: Outcome): Tables
    requires o.gateway.Some? && o.gateway.value in s.tables.targets
  {
    AcquireTx(s.tables, o.gateway.value, r, s.now + o.elapsed)
  }

  /** Leases apart, the tables are the same. */
  ghost predicate SameRows(t: Tables, u: Tables) {
    t.releases == u.releases && t.applied == u.applied && t.bindings == u.bindings && t.revisions == u.revisions
    && t.artifacts == u.artifacts
  }

  /** What applying the job's release comes to, under its lease. */
  function Applied(s: System, r: Id, p: Payload, o: Outcome): Result
    requires p.Apply? && o.gateway.Some? && o.gateway.value in s.tables.targets
  {
    ApplyTx(Leased(s, r, o), p.release, p.resource, p.environment, o.planOk, o.routeOk)
  }

  lemma TakenRows(s: System, r: Id, j: nat, o: Outcome)
    requires At(s, r).Idle? && j < |s.jobs|
    ensures var t := Taken(s, r, j, o);
            && t.tables == s.tables && t.now == s.now + o.elapsed && t.jobs[j].payload == s.jobs[j].payload
            && forall i :: 0 <= i < |s.jobs| && i != j ==> t.jobs[i] == s.jobs[i]
  {
  }

  lemma UnderLeaseRows(s: System, r: Id, o: Outcome, g: Id)
    requires At(s, r).Busy? && At(s, r).job < |s.jobs| && s.jobs[At(s, r).job].payload.Apply?
    requires Leasable(s.tables, g, r, s.now)
    ensures var p := s.jobs[At(s, r).job].payload;
            var x := ApplyTx(AcquireTx(s.tables, g, r, s.now), p.release, p.resource, p.environment, o.planOk,
                             o.routeOk);
            var t := UnderLease(s, r, o, g);
            SameRows(x.tables, t.tables) && At(t, r).verdict == x.verdict
  {
    hide ApplyTx, Leasable, AcquireTx;
  }

  /** The run of a job whose release is still there and that gets its lease: done if it settles, or queued again. */
  lemma JobExactly(s: System, r: Id, j: nat, o: Outcome)
    requires At(s, r).Idle? && j < |s.jobs| && s.jobs[j].payload.Apply? && Served(s, r, o)
    requires s.jobs[j].payload.release < |s.tables.releases|
             && s.tables.releases[s.jobs[j].payload.release].Release?
    ensures var x, t := Applied(s, r, s.jobs[j].payload, o), AfterJob(s, r, j, o);
            && SameRows(s.tables, Leased(s, r, o)) && SameRows(x.tables, t.tables)
            && t.jobs[j].state == (if x.verdict == Settled then Done else Queued)
            && forall i :: 0 <= i < |s.jobs| && i != j ==> t.jobs[i] == s.jobs[i]
  {
    hide ApplyTx, Leasable, Taken, UnderLease, FinishJob;
    ServedLeasable(s, r, j, o);
    TakenRows(s, r, j, o);
    var taken := Taken(s, r, j, o);
    UnderLeaseRows(taken, r, o, o.gateway.value);
    ApplyVerdict(Leased(s, r, o), s.jobs[j].payload, o);
    var worked := UnderLease(taken, r, o, o.gateway.value);
    assert Worked(taken, r, o) == worked && AfterJob(s, r, j, o) == Do(worked, Finish(r));
    FinishExactly(worked, r);
  }

  lemma ApplyVerdict(t: Tables, p: Payload, o: Outcome)
    requires p.Apply?
    ensures ApplyTx(t, p.release, p.resource, p.environment, o.planOk, o.routeOk).verdict != Hopeless
  {
  }

  /** A waiting release, and none of its API served there after it. */
  ghost predicate Next(t: Tables, p: Payload)
    requires p.Apply?
  {
    && p.release < |t.releases| && t.releases[p.release].Release? && t.releases[p.release].state == Pending
    && forall k :: k > p.release ==> !WasServed(t, k, p.resource, p.environment)
  }

  /** The release is live, and served wherever it lands. */
  ghost predicate LiveIn(t: Tables, u: Tables, p: Payload)
    requires p.Apply? && p.release < |t.releases| && t.releases[p.release].Release?
  {
    && p.release < |u.releases| && u.releases[p.release] == t.releases[p.release].(state := Converged)
    && forall x: Id :: LandsOn(t, x, p.resource, p.environment) ==>
         (x, p.resource) in u.applied && u.applied[(x, p.resource)] == t.releases[p.release].revision
  }

  lemma LeasedPublishes(s: System, r: Id, p: Payload, o: Outcome)
    requires p.Apply? && o.gateway.Some? && o.gateway.value in s.tables.targets && o.planOk && o.routeOk
    requires Next(s.tables, p)
    ensures Applied(s, r, p, o).verdict == Settled && LiveIn(s.tables, Applied(s, r, p, o).tables, p)
  {
    hide Published, ApplyTx, LandsOn;
    var c := Leased(s, r, o);
    assert forall k :: WasServed(c, k, p.resource, p.environment) == WasServed(s.tables, k, p.resource, p.environment);
    hide WasServed;
    ApplyPublishes(c, p.release, p.resource, p.environment);
    PublishedRows(c, ApplyTx(c, p.release, p.resource, p.environment, true, true).tables, p.release, p.resource,
                  p.environment);
    forall x: Id | LandsOn(s.tables, x, p.resource, p.environment) ensures LandsOn(c, x, p.resource, p.environment) {
      SameLanding(s.tables, c, x, p.resource, p.environment);
    }
  }

  /** So a release that waits, with everything in order and none served after it, is live once its job has run. */
  lemma JobPublishes(s: System, r: Id, j: nat, o: Outcome)
    requires At(s, r).Idle? && j < |s.jobs| && s.jobs[j].payload.Apply? && Served(s, r, o) && o.planOk && o.routeOk
    requires Next(s.tables, s.jobs[j].payload)
    ensures AfterJob(s, r, j, o).jobs[j].state == Done
    ensures LiveIn(s.tables, AfterJob(s, r, j, o).tables, s.jobs[j].payload)
  {
    JobExactly(s, r, j, o);
    LeasedPublishes(s, r, s.jobs[j].payload, o);
    hide AfterJob, Applied, LandsOn, WasServed;
  }

  lemma PublishedRows(t: Tables, u: Tables, rel: nat, resource: Id, environment: Id)
    requires rel < |t.releases| && t.releases[rel].Release? && Published(t, u, rel, resource, environment)
    ensures |u.releases| == |t.releases| && u.releases[rel] == t.releases[rel].(state := Converged)
    ensures forall x: Id :: LandsOn(t, x, resource, environment) ==>
              (x, resource) in u.applied && u.applied[(x, resource)] == t.releases[rel].revision
  {
    hide LandsOn;
  }

  /** Taking a lease moves no gateway. */
  lemma SameLanding(t: Tables, u: Tables, x: Id, resource: Id, environment: Id)
    requires t.bindings == u.bindings && t.targets.Keys == u.targets.Keys
    requires forall y :: y in t.targets ==> u.targets[y].environment == t.targets[y].environment
    ensures LandsOn(t, x, resource, environment) <==> LandsOn(u, x, resource, environment)
  {
    assert (exists y :: y in t.targets && (resource, environment, y) in t.bindings) <==>
           (exists y :: y in u.targets && (resource, environment, y) in u.bindings);
  }

  /** A job whose lease is taken, or whose gateway is missing, is queued again and changes no row. */
  lemma TurnedAway(s: System, r: Id, j: nat, o: Outcome)
    requires At(s, r).Idle? && j < |s.jobs|
    requires s.jobs[j].payload.Apply? ==>
               s.jobs[j].payload.release < |s.tables.releases|
               && s.tables.releases[s.jobs[j].payload.release].Release?
    requires if o.gateway.None? then !o.unrecoverable else !Served(s, r, o)
    ensures AfterJob(s, r, j, o).jobs[j].state == Queued && AfterJob(s, r, j, o).tables == s.tables
  {
    hide Leasable, Taken, FinishJob, Worked;
    TakenRows(s, r, j, o);
    if o.gateway.Some? { NotLeasable(s, r, o); }
    var taken := Taken(s, r, j, o);
    GivesUp(taken, r, o);
    var worked := Do(taken, GiveUp(r, Retry));
    assert AfterJob(s, r, j, o) == Do(worked, Finish(r));
    hide AfterJob;
    FinishExactly(worked, r);
  }

  lemma GivesUp(c: System, r: Id, o: Outcome)
    requires At(c, r).Busy? && At(c, r).job < |c.jobs| && !NothingLeft(c.tables, c.jobs[At(c, r).job].payload)
    requires if o.gateway.None? then !o.unrecoverable else !Leasable(c.tables, o.gateway.value, r, c.now)
    ensures Enabled(c, GiveUp(r, Retry)) && Worked(c, r, o) == Do(c, GiveUp(r, Retry))
  {
    hide Leasable, NothingLeft;
  }

  lemma NotLeasable(s: System, r: Id, o: Outcome)
    requires o.gateway.Some? && !Served(s, r, o)
    ensures !Leasable(s.tables, o.gateway.value, r, s.now + o.elapsed)
  {
  }

  /** Jobs left running for more than a minute, and no others, are queued again by a pass. */
  lemma RequeueExactly(jobs: seq<Job>, now: int, j: nat)
    requires j < |jobs|
    ensures Requeued(jobs, now)[j] ==
            if jobs[j].state == Running && now - jobs[j].updatedAt > 60000 then jobs[j].(state := Queued) else jobs[j]
  {
  }
}

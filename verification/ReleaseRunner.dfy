/**
 The job runner: one pass over the due jobs, each taken, reconciled under its target's lease and
 written back. A pass is a run of the release machine, so everything proved of runs holds of it.
 */
module ReleaseRunner {
  import opened Text
  import opened ReleaseTables
  import opened ReleaseMachine
  import opened ReleaseSafety
  import opened ReleaseStore

  const BATCH: nat := 20

  /**
   What the outside decides about one job: the time that passed, the gateway its lease is taken
   on, or how it is turned away before that, and how the plan and the route came out.
   */
  datatype Outcome = Outcome(elapsed: nat, gateway: Option<Id>, unrecoverable: bool, planOk: bool, routeOk: bool)

  lemma {:induction false} RunConcat(s: System, a: seq<Action>, b: seq<Action>)
    requires CanRun(s, a) && CanRun(Run(s, a), b)
    ensures CanRun(s, a + b) && Run(s, a + b) == Run(Run(s, a), b)
    decreases |a|
  {
    hide Enabled, Do;
    if a == [] {
      assert a + b == b;
    } else {
      assert (a + b)[1..] == a[1..] + b && (a + b)[0] == a[0];
      RunConcat(Do(s, a[0]), a[1..], b);
    }
  }

  /** The machine reaches this state from that one. */
  ghost predicate Reaches(s: System, t: System) { exists actions :: CanRun(s, actions) && Run(s, actions) == t }

  lemma ReachesSelf(s: System)
    ensures Reaches(s, s)
  {
    assert CanRun(s, []) && Run(s, []) == s;
  }

  lemma ReachesNext(s: System, t: System, a: Action)
    requires Reaches(s, t) && Enabled(t, a)
    ensures Reaches(s, Do(t, a))
  {
    hide Enabled, Do;
    var actions :| CanRun(s, actions) && Run(s, actions) == t;
    assert [a][1..] == [] && CanRun(Do(t, a), []) && Run(Do(t, a), []) == Do(t, a);
    assert CanRun(t, [a]) && Run(t, [a]) == Do(t, a);
    RunConcat(s, actions, [a]);
  }

  lemma ReachesChain(s: System, t: System, u: System)
    requires Reaches(s, t) && Reaches(t, u)
    ensures Reaches(s, u)
  {
    hide Enabled, Do, CanRun, Run;
    var a :| CanRun(s, a) && Run(s, a) == t;
    var b :| CanRun(t, b) && Run(t, b) == u;
    RunConcat(s, a, b);
  }

  lemma ReachesKeepsInv(s: System, t: System)
    requires Reaches(s, t) && Inv(s)
    ensures Inv(t)
  {
    hide Inv, Enabled, Do;
    var actions :| CanRun(s, actions) && Run(s, actions) == t;
    RunKeepsInv(s, actions);
  }

  // ----- what a job does to the system

  /** The job's work by the runner that took it, up to its verdict. */
  function Worked(s: System, r: Id, o: Outcome): (t: System)
    requires At(s, r).Busy? && At(s, r).job < |s.jobs|
    ensures At(t, r).Ended? && At(t, r).job == At(s, r).job && t.jobs == s.jobs
  {
    if NothingLeft(s.tables, s.jobs[At(s, r).job].payload) then Do(s, GiveUp(r, Settled))
    else if o.gateway.None? then Do(s, GiveUp(r, if o.unrecoverable then Hopeless else Retry))
    else UnderLease(s, r, o, o.gateway.value)
  }

  function UnderLease(s: System, r: Id, o: Outcome, gateway: Id): (t: System)
    requires At(s, r).Busy? && At(s, r).job < |s.jobs|
    ensures At(t, r).Ended? && At(t, r).job == At(s, r).job && t.jobs == s.jobs
  {
    if !Leasable(s.tables, gateway, r, s.now) then Do(s, GiveUp(r, Retry))
    else Do(Do(Do(s, Enter(r, gateway)), Commit(r, o.planOk, o.routeOk)), Leave(r))
  }

  function Taken(s: System, r: Id, j: nat, o: Outcome): (t: System)
    requires At(s, r).Idle? && j < |s.jobs|
    ensures At(t, r) == Busy(j) && |t.jobs| == |s.jobs|
  {
    Do(Do(s, Tick(o.elapsed)), Take(r, j))
  }

  function AfterJob(s: System, r: Id, j: nat, o: Outcome): (t: System)
    requires At(s, r).Idle? && j < |s.jobs|
    ensures At(t, r).Idle? && |t.jobs| == |s.jobs|
  {
    Do(Worked(Taken(s, r, j, o), r, o), Finish(r))
  }

  predicate Stuck(job: Job, now: int) { job.state == Running && job.updatedAt < now - STUCK_MS }

  function Requeued(jobs: seq<Job>, now: int): seq<Job> {
    seq(|jobs|, k requires 0 <= k < |jobs| => if Stuck(jobs[k], now) then jobs[k].(state := Queued) else jobs[k])
  }

  lemma WorkedReaches(s: System, r: Id, o: Outcome)
    requires At(s, r).Busy? && At(s, r).job < |s.jobs|
    ensures Reaches(s, Worked(s, r, o))
  {
    hide Reaches, Leasable, Transact, AcquireTx, ReleaseTx;
    ReachesSelf(s);
    if NothingLeft(s.tables, s.jobs[At(s, r).job].payload) {
      ReachesNext(s, s, GiveUp(r, Settled));
    } else if o.gateway.None? {
      ReachesNext(s, s, GiveUp(r, if o.unrecoverable then Hopeless else Retry));
    } else if !Leasable(s.tables, o.gateway.value, r, s.now) {
      ReachesNext(s, s, GiveUp(r, Retry));
    } else {
      var enter, commit := Enter(r, o.gateway.value), Commit(r, o.planOk, o.routeOk);
      ReachesNext(s, s, enter);
      ReachesNext(s, Do(s, enter), commit);
      ReachesNext(s, Do(Do(s, enter), commit), Leave(r));
    }
  }

  /** Whatever the outcome, a job is a run of the machine. */
  lemma JobReaches(s: System, r: Id, j: nat, o: Outcome)
    requires At(s, r).Idle? && j < |s.jobs|
    ensures Reaches(s, AfterJob(s, r, j, o))
  {
    hide Reaches, Worked, FinishJob;
    ReachesSelf(s);
    ReachesNext(s, s, Tick(o.elapsed));
    ReachesNext(s, Do(s, Tick(o.elapsed)), Take(r, j));
    var t := Taken(s, r, j, o);
    WorkedReaches(t, r, o);
    ReachesChain(s, t, Worked(t, r, o));
    ReachesNext(s, Worked(t, r, o), Finish(r));
  }

  /** So is putting stuck jobs back, one by one. */
  lemma {:induction false} RequeueReaches(s: System, n: nat)
    requires n <= |s.jobs|
    ensures Reaches(s, s.(jobs := Requeued(s.jobs[..n], s.now) + s.jobs[n..]))
  {
    hide Reaches;
    if n == 0 {
      ReachesSelf(s);
      assert Requeued(s.jobs[..0], s.now) + s.jobs[0..] == s.jobs;
    } else {
      RequeueReaches(s, n - 1);
      var t := s.(jobs := Requeued(s.jobs[..n - 1], s.now) + s.jobs[n - 1..]);
      var u := s.(jobs := Requeued(s.jobs[..n], s.now) + s.jobs[n..]);
      if Stuck(s.jobs[n - 1], s.now) {
        ReachesNext(s, t, Requeue(n - 1));
        assert u.jobs == t.jobs[n - 1 := t.jobs[n - 1].(state := Queued)];
      } else {
        assert u.jobs == t.jobs;
      }
    }
  }

  /** The jobs a pass takes: queued and due, in order, and all of them unless they fill a batch. */
  predicate DueSelection(jobs: seq<Job>, due: nat -> bool, picked: seq<nat>) {
    && |picked| <= BATCH
    && (forall k :: 0 <= k < |picked| ==> picked[k] < |jobs| && jobs[picked[k]].state == Queued && due(picked[k]))
    && (forall k, m :: 0 <= k < m < |picked| ==> picked[k] < picked[m])
    && (|picked| < BATCH ==> forall k: nat :: k < |jobs| && jobs[k].state == Queued && due(k) ==> k in picked)
  }

  /** The system after the first n of the picked jobs. */
  function AfterJobs(s: System, r: Id, picked: seq<nat>, outcome: nat -> Outcome): (t: System)
    requires At(s, r).Idle? && forall k :: 0 <= k < |picked| ==> picked[k] < |s.jobs|
    ensures At(t, r).Idle? && |t.jobs| == |s.jobs|
    decreases |picked|
  {
    if picked == [] then s
    else var n := |picked| - 1; AfterJob(AfterJobs(s, r, picked[..n], outcome), r, picked[n], outcome(picked[n]))
  }

  lemma {:induction false} JobsReach(s: System, r: Id, picked: seq<nat>, outcome: nat -> Outcome)
    requires At(s, r).Idle? && forall k :: 0 <= k < |picked| ==> picked[k] < |s.jobs|
    ensures Reaches(s, AfterJobs(s, r, picked, outcome))
    decreases |picked|
  {
    hide Reaches, AfterJob;
    if picked == [] {
      ReachesSelf(s);
    } else {
      var n := |picked| - 1;
      var t := AfterJobs(s, r, picked[..n], outcome);
      JobsReach(s, r, picked[..n], outcome);
      JobReaches(t, r, picked[n], outcome(picked[n]));
      ReachesChain(s, t, AfterJobs(s, r, picked, outcome));
    }
  }

  class Runner {
    const me: Id
    const store: Store
    var jobs: seq<Job>
    var now: int
    ghost var runners: map<Id, ReleaseMachine.Runner>
    ghost var usedTargets: set<Id>
    ghost var withdrawnAt: map<(Id, Id), nat>
    ghost var selected: map<Id, Selection>

    constructor (me: Id, now: int)
      ensures this.me == me && fresh(store) && Sys() == Initial(now)
    {
      this.me, this.now, jobs := me, now, [];
      store := new Store();
      runners, usedTargets, withdrawnAt, selected := map[], {}, map[], map[];
    }

    ghost function Sys(): System
      reads this, store
    {
      System(store.Snapshot(), jobs, runners, now, usedTargets, withdrawnAt, selected)
    }

    /** The transaction of the payload. */
    method Transaction(j: nat, o: Outcome) returns (verdict: Verdict)
      requires j < |jobs| && At(Sys(), me).Inside? && At(Sys(), me).job == j
      modifies this`runners, this`withdrawnAt, store
      ensures Sys() == Do(old(Sys()), Commit(me, o.planOk, o.routeOk)) && At(Sys(), me).verdict == verdict
    {
      hide ApplyTx, RemoveTx;
      ghost var was := At(Sys(), me);
      match jobs[j].payload {
        case Apply(rel, resource, environment) =>
          verdict := store.ApplyRelease(rel, resource, environment, o.planOk, o.routeOk);
        case Remove(resource, environment) =>
          withdrawnAt := withdrawnAt[(resource, environment) := |store.releases|];
          store.Withdraw(resource, environment);
          verdict := Settled;
      }
      runners := runners[me := Leaving(j, was.target, was.since, verdict)];
    }

    /** Takes the target's lease, works, and gives the lease back. */
    method WithTargetLease(j: nat, o: Outcome, gateway: Id) returns (verdict: Verdict)
      requires j < |jobs| && At(Sys(), me) == Busy(j)
      modifies this`runners, this`withdrawnAt, store
      ensures Sys() == UnderLease(old(Sys()), me, o, gateway) && At(Sys(), me).verdict == verdict
    {
      hide Leasable, AcquireTx, ReleaseTx, Transact, Marked;
      var ok := store.Acquire(gateway, me, now);
      if !ok {
        runners := runners[me := Ended(j, Retry)];
        return Retry;
      }
      runners := runners[me := Inside(j, gateway, now)];
      verdict := Transaction(j, o);
      store.GiveBack(gateway, me);
      runners := runners[me := Ended(j, verdict)];
    }

    /** The job's work, up to its verdict. */
    method Reconcile(j: nat, o: Outcome) returns (verdict: Verdict)
      requires j < |jobs| && At(Sys(), me) == Busy(j)
      modifies this`runners, this`withdrawnAt, store
      ensures Sys() == Worked(old(Sys()), me, o) && At(Sys(), me).verdict == verdict
    {
      hide UnderLease;
      var payload := jobs[j].payload;
      if payload.Apply? && (payload.release >= |store.releases| || store.releases[payload.release].Gone?) {
        runners := runners[me := Ended(j, Settled)];
        return Settled;
      }
      if o.gateway.None? {
        verdict := if o.unrecoverable then Hopeless else Retry;
        runners := runners[me := Ended(j, verdict)];
        return;
      }
      verdict := WithTargetLease(j, o, o.gateway.value);
    }

    method TakeJob(j: nat, elapsed: nat)
      requires j < |jobs| && At(Sys(), me).Idle?
      modifies this`jobs, this`now, this`runners
      ensures Sys() == Do(Do(old(Sys()), Tick(elapsed)), Take(me, j))
    {
      now := now + elapsed;
      jobs := jobs[j := Job(jobs[j].payload, Running, now)];
      runners := runners[me := Busy(j)];
    }

    /** Writes the verdict to the job's row, and fails the release of a job that never can succeed. */
    method FinishRow(j: nat, verdict: Verdict)
      requires j < |jobs| && At(Sys(), me) == Ended(j, verdict)
      modifies this`jobs, this`runners, store
      ensures Sys() == Do(old(Sys()), Finish(me))
    {
      hide FailTx;
      var job := jobs[j];
      match verdict {
        case Settled => jobs := jobs[j := Job(job.payload, Done, now)];
        case Retry => jobs := jobs[j := Job(job.payload, Queued, now)];
        case Hopeless =>
          jobs := jobs[j := Job(job.payload, JobFailed, now)];
          if job.payload.Apply? { store.FailPending(job.payload.release); }
      }
      runners := runners[me := Idle];
    }

    /** Takes a job, reconciles it and writes the outcome to its row. */
    method RunJob(j: nat, o: Outcome)
      requires j < |jobs| && At(Sys(), me).Idle?
      modifies this`jobs, this`now, this`runners, this`withdrawnAt, store
      ensures Sys() == AfterJob(old(Sys()), me, j, o)
    {
      hide Worked, Do, Enabled;
      TakeJob(j, o.elapsed);
      assert Sys() == Taken(old(Sys()), me, j, o);
      var verdict := Reconcile(j, o);
      FinishRow(j, verdict);
    }

    /** A job left running for a minute goes back to the queue. */
    method RequeueStuck()
      modifies this`jobs
      ensures jobs == Requeued(old(jobs), now)
    {
      for k := 0 to |jobs|
        invariant |jobs| == |old(jobs)|
        invariant forall i :: 0 <= i < k ==> jobs[i] == Requeued(old(jobs), now)[i]
        invariant forall i :: k <= i < |jobs| ==> jobs[i] == old(jobs)[i]
      {
        if jobs[k].state == Running && jobs[k].updatedAt < now - STUCK_MS {
          jobs := jobs[k := jobs[k].(state := Queued)];
        }
      }
    }

    method SelectDue(due: nat -> bool) returns (picked: seq<nat>)
      ensures DueSelection(jobs, due, picked)
    {
      picked := [];
      for k := 0 to |jobs|
        invariant |picked| <= BATCH && forall i :: 0 <= i < |picked| ==>
                    picked[i] < k && jobs[picked[i]].state == Queued && due(picked[i])
        invariant forall i, m :: 0 <= i < m < |picked| ==> picked[i] < picked[m]
        invariant |picked| < BATCH ==> forall i: nat :: i < k && jobs[i].state == Queued && due(i) ==> i in picked
      {
        if |picked| < BATCH && jobs[k].state == Queued && due(k) { picked := picked + [k]; }
      }
    }

    /** One pass: stuck jobs requeued, the due ones run in order; it keeps the machine's invariant. */
    method RunDueJobs(due: nat -> bool, outcome: nat -> Outcome) returns (ran: nat, ghost picked: seq<nat>)
      requires At(Sys(), me).Idle?
      modifies this`jobs, this`now, this`runners, this`withdrawnAt, store
      ensures ran == |picked| && DueSelection(Requeued(old(jobs), old(now)), due, picked)
      ensures Sys() == AfterJobs(old(Sys()).(jobs := Requeued(old(jobs), old(now))), me, picked, outcome)
      ensures Reaches(old(Sys()), Sys()) && (old(Inv(Sys())) ==> Inv(Sys()))
    {
      hide Reaches, Inv, DueSelection, AfterJob;
      ghost var s0 := Sys();
      RequeueStuck();
      ghost var s1 := Sys();
      var list := SelectDue(due);
      assert forall k :: 0 <= k < |list| ==> list[k] < |jobs| by { DueSelectionFits(jobs, due, list); }
      for k := 0 to |list|
        invariant |jobs| == |s1.jobs| && forall i :: 0 <= i < |list| ==> list[i] < |s1.jobs|
        invariant At(Sys(), me).Idle? && Sys() == AfterJobs(s1, me, list[..k], outcome)
      {
        RunJob(list[k], outcome(list[k]));
        assert list[..k + 1][..k] == list[..k];
      }
      assert list[..|list|] == list;
      PassReaches(s0, me, list, outcome);
      if Inv(s0) { ReachesKeepsInv(s0, Sys()); }
      return |list|, list;
    }
  }

  lemma DueSelectionFits(jobs: seq<Job>, due: nat -> bool, picked: seq<nat>)
    requires DueSelection(jobs, due, picked)
    ensures forall k :: 0 <= k < |picked| ==> picked[k] < |jobs|
  {
  }

  lemma PassReaches(s: System, r: Id, picked: seq<nat>, outcome: nat -> Outcome)
    requires At(s, r).Idle? && forall k :: 0 <= k < |picked| ==> picked[k] < |s.jobs|
    ensures Reaches(s, AfterJobs(s.(jobs := Requeued(s.jobs, s.now)), r, picked, outcome))
  {
    hide Reaches, AfterJob;
    var t := s.(jobs := Requeued(s.jobs, s.now));
    RequeueReaches(s, |s.jobs|);
    assert s.jobs[..|s.jobs|] == s.jobs && Requeued(s.jobs, s.now) + s.jobs[|s.jobs|..] == Requeued(s.jobs, s.now);
    JobsReach(t, r, picked, outcome);
    ReachesChain(s, t, AfterJobs(t, r, picked, outcome));
  }
}

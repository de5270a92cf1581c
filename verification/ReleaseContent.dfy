/**
 Releases and their content under pruning. The query that selects revisions runs before and outside
 the transaction that tombstones them, so with several control planes on one database a release can
 be created in between. Content is kept throughout a run exactly when no commit comes too late.
 */
module ReleaseContent {
  import opened Text
  import opened ReleaseTables
  import opened ReleaseMachine
  import opened ReleaseSafety

  predicate InPlay(t: Tables, i: nat) { Is(t, i, Pending) || Is(t, i, Converged) }

  /** Every waiting or live release has its content. */
  ghost predicate LiveKept(t: Tables) { forall i: nat :: InPlay(t, i) ==> Unpruned(t, t.releases[i].revision) }

  /** No release created since the selection, and still waiting or live, uses a selected revision. */
  ghost predicate Timely(s: System, pruner: Id)
    requires pruner in s.selected
  {
    var q := s.selected[pruner];
    forall i: nat :: q.count <= i && InPlay(s.tables, i) ==> s.tables.releases[i].revision !in q.doomed
  }

  // ----- one step

  /** Releases older than a selection never use what it selected. */
  ghost predicate SelectionsOk(s: System) {
    forall pruner :: pruner in s.selected ==> SelectionOk(s.tables, s.selected[pruner])
  }

  ghost predicate SelectionOk(t: Tables, q: Selection) {
    && q.count <= |t.releases|
    && forall i: nat :: i < q.count && InPlay(t, i) ==> t.releases[i].revision !in q.doomed
  }

  lemma SelectionStays(t: Tables, u: Tables, q: Selection)
    requires SelectionOk(t, q) && Evolves(t, u)
    ensures SelectionOk(u, q)
  {
    forall i: nat | i < q.count && InPlay(u, i) ensures u.releases[i].revision !in q.doomed {
      assert RowStep(t.releases[i], u.releases[i]);
      assert InPlay(t, i);
    }
  }

  lemma SelectionFresh(t: Tables, p: Retention)
    ensures SelectionOk(t, Selection(PrunableRevisions(t, p), |t.releases|))
  {
    forall i: nat | InPlay(t, i) ensures t.releases[i].revision !in PrunableRevisions(t, p) {
      assert InUse(t, t.releases[i].revision);
    }
  }

  lemma SelectionsStep(s: System, a: Action)
    requires Inv(s) && SelectionsOk(s) && Enabled(s, a)
    ensures SelectionsOk(Do(s, a))
  {
    var u := Do(s, a);
    StepKeepsInv(s, a);
    if a.SelectDoomed? { SelectionFresh(s.tables, a.policy); }
    hide SelectionOk, Inv, PrunableRevisions, Evolves;
    forall pruner | pruner in u.selected ensures SelectionOk(u.tables, u.selected[pruner]) {
      if !(a.SelectDoomed? && pruner == a.pruner) {
        assert pruner in s.selected && u.selected[pruner] == s.selected[pruner];
        SelectionStays(s.tables, u.tables, s.selected[pruner]);
      }
    }
  }

  /** Pruning keeps content exactly when no waiting or live release uses a doomed revision. */
  lemma PruneExact(t: Tables, doomed: set<Id>)
    requires LiveKept(t)
    ensures LiveKept(PruneTx(t, doomed)) <==> forall i: nat :: InPlay(t, i) ==> t.releases[i].revision !in doomed
  {
    var u := PruneTx(t, doomed);
    assert forall i: nat :: InPlay(u, i) == InPlay(t, i);
    if doomed != {} {
      assert forall v :: Unpruned(u, v) <==> Unpruned(t, v) && v !in doomed;
    }
  }

  /** A release is in play after a step only if it was before, or was just created on a revision with content. */
  lemma NewInPlay(s: System, a: Action, i: nat)
    requires Inv(s) && Enabled(s, a) && InPlay(Do(s, a).tables, i)
    ensures var u := Do(s, a).tables;
            if i < |s.tables.releases| then InPlay(s.tables, i)
                && u.releases[i].revision == s.tables.releases[i].revision
            else (a.Request? || a.Spine?) && u.releases[i].revision == a.revision && Publishable(s.tables, a.revision)
  {
    StepKeepsInv(s, a);
    var u := Do(s, a).tables;
    if i < |s.tables.releases| {
      hide Do, Inv;
      assert RowStep(s.tables.releases[i], u.releases[i]);
    } else {
      NewRows(s, a);
    }
  }

  /** Only a request or the spine adds a row. */
  lemma NewRows(s: System, a: Action)
    requires Enabled(s, a)
    ensures var t, u := s.tables, Do(s, a).tables;
            if a.Request? || a.Spine? then |u.releases| == |t.releases| + 1 && u.releases[|t.releases|].Release?
                && u.releases[|t.releases|].revision == a.revision
            else |u.releases| == |t.releases|
  {
    hide PrunableRevisions, Landing, Overtaken, Tombstoned, Referenced;
  }

  /** No step but the commit of a pruner touches the revisions releases already have. */
  lemma RevisionsStay(s: System, a: Action, v: Id)
    requires Enabled(s, a) && !a.CommitPrune? && Unpruned(s.tables, v)
    ensures Unpruned(Do(s, a).tables, v)
  {
    hide PrunableRevisions, Landing, Overtaken, MoveAll;
  }

  /** One step keeps content, but for a commit that comes too late. */
  lemma StepContent(s: System, a: Action)
    requires Inv(s) && SelectionsOk(s) && LiveKept(s.tables) && Enabled(s, a)
    ensures LiveKept(Do(s, a).tables) <==> (a.CommitPrune? ==> Timely(s, a.pruner))
  {
    if a.CommitPrune? {
      var q := s.selected[a.pruner];
      assert SelectionOk(s.tables, q);
      PruneExact(s.tables, q.doomed);
    } else {
      var u := Do(s, a).tables;
      hide Do, Inv, Unpruned, Enabled;
      forall i: nat | InPlay(u, i) ensures Unpruned(u, u.releases[i].revision) {
        NewInPlay(s, a, i);
        RevisionsStay(s, a, u.releases[i].revision);
      }
    }
  }

  // ----- whole runs

  ghost predicate KeptThroughout(s: System, actions: seq<Action>)
    requires CanRun(s, actions)
    decreases |actions|
  {
    LiveKept(s.tables) && (actions != [] ==> KeptThroughout(Do(s, actions[0]), actions[1..]))
  }

  ghost predicate PrunesTimely(s: System, actions: seq<Action>)
    requires CanRun(s, actions)
    decreases |actions|
  {
    actions != [] ==>
      && (actions[0].CommitPrune? ==> Timely(s, actions[0].pruner))
      && PrunesTimely(Do(s, actions[0]), actions[1..])
  }

  lemma {:induction false} RunContent(s: System, actions: seq<Action>)
    requires Inv(s) && SelectionsOk(s) && LiveKept(s.tables) && CanRun(s, actions)
    ensures KeptThroughout(s, actions) <==> PrunesTimely(s, actions)
    decreases |actions|
  {
    hide Inv, SelectionsOk, LiveKept, Timely, Do;
    if actions != [] {
      var u := Do(s, actions[0]);
      StepKeepsInv(s, actions[0]);
      SelectionsStep(s, actions[0]);
      StepContent(s, actions[0]);
      if LiveKept(u.tables) {
        RunContent(u, actions[1..]);
      } else {
        NotKept(u, actions[1..]);
      }
    }
  }

  lemma NotKept(s: System, actions: seq<Action>)
    requires CanRun(s, actions) && !LiveKept(s.tables)
    ensures !KeptThroughout(s, actions)
  {
  }

  /**
   In every run from the start, every pending and converged release has its content at all times, if
   and only if no commit finds a release, created since its selection and still waiting or live, on a
   revision it selected.
   */
  lemma LiveHasContent(now: int, actions: seq<Action>)
    requires CanRun(Initial(now), actions)
    ensures KeptThroughout(Initial(now), actions) <==> PrunesTimely(Initial(now), actions)
  {
    InitialOk(now);
    var s := Initial(now);
    assert forall i: nat :: !InPlay(s.tables, i);
    RunContent(s, actions);
  }

  // ----- a guard that suffices

  /** No release is created on a revision somebody has selected. */
  ghost predicate Careful(s: System, actions: seq<Action>)
    requires CanRun(s, actions)
    decreases |actions|
  {
    actions != [] ==>
      && (actions[0].Request? || actions[0].Spine? ==> forall q :: q in s.selected ==>
            actions[0].revision !in s.selected[q].doomed)
      && Careful(Do(s, actions[0]), actions[1..])
  }

  ghost predicate AllTimely(s: System) { forall q :: q in s.selected ==> Timely(s, q) }

  lemma TimelyStep(s: System, a: Action)
    requires Inv(s) && SelectionsOk(s) && AllTimely(s) && Enabled(s, a)
    requires a.Request? || a.Spine? ==> forall q :: q in s.selected ==> a.revision !in s.selected[q].doomed
    ensures AllTimely(Do(s, a))
  {
    var u := Do(s, a);
    hide Inv, PrunableRevisions, Unpruned;
    forall q, i: nat | q in u.selected && u.selected[q].count <= i && InPlay(u.tables, i)
      ensures u.tables.releases[i].revision !in u.selected[q].doomed
    {
      NewInPlay(s, a, i);
      NewRows(s, a);
      if !(a.SelectDoomed? && q == a.pruner) {
        assert q in s.selected && u.selected[q] == s.selected[q];
        assert Timely(s, q);
      }
    }
  }

  lemma {:induction false} CarefulIsTimely(s: System, actions: seq<Action>)
    requires Inv(s) && SelectionsOk(s) && AllTimely(s) && CanRun(s, actions) && Careful(s, actions)
    ensures PrunesTimely(s, actions)
    decreases |actions|
  {
    hide Inv, SelectionsOk, Do, Timely;
    if actions != [] {
      StepKeepsInv(s, actions[0]);
      SelectionsStep(s, actions[0]);
      TimelyStep(s, actions[0]);
      CarefulIsTimely(Do(s, actions[0]), actions[1..]);
    }
  }

  /** So content is kept wherever releases stay off revisions selected and not yet tombstoned. */
  lemma CarefulKeepsContent(now: int, actions: seq<Action>)
    requires CanRun(Initial(now), actions) && Careful(Initial(now), actions)
    ensures KeptThroughout(Initial(now), actions)
  {
    InitialOk(now);
    CarefulIsTimely(Initial(now), actions);
    LiveHasContent(now, actions);
  }

  // ----- the run that fails

  /** Any release requested on a selected revision before the commit loses its content to it. */
  lemma LateRequestTombstoned(t: Tables, p: Retention, resource: Id, environment: Id, v: Id)
    requires v in PrunableRevisions(t, p)
    ensures Publishable(t, v) && !LiveKept(PruneTx(RequestTx(t, resource, environment, v), PrunableRevisions(t, p)))
  {
    var u := PruneTx(RequestTx(t, resource, environment, v), PrunableRevisions(t, p));
    assert InPlay(u, |t.releases|) && u.releases[|t.releases|].revision == v;
  }

  /** One more step in front of a run. */
  lemma Prepend(s: System, a: Action, rest: seq<Action>)
    requires Enabled(s, a) && CanRun(Do(s, a), rest)
    ensures CanRun(s, [a] + rest) && (!KeptThroughout(Do(s, a), rest) ==> !KeptThroughout(s, [a] + rest))
  {
    hide Enabled, Do, LiveKept;
    assert ([a] + rest)[1..] == rest;
  }

  /** What a pruner, a request on a revision it selected, and the commit come to. */
  function LateCommit(pruner: Id, p: Retention, resource: Id, environment: Id, v: Id): seq<Action> {
    [SelectDoomed(pruner, p)] + ([Request(resource, environment, v)] + ([CommitPrune(pruner)] + []))
  }

  /** It can happen in any state, on any revision the policy lets go of. */
  lemma LateCommitLoses(s: System, pruner: Id, p: Retention, resource: Id, environment: Id, v: Id)
    requires v in PrunableRevisions(s.tables, p)
    ensures CanRun(s, LateCommit(pruner, p, resource, environment, v))
    ensures !KeptThroughout(s, LateCommit(pruner, p, resource, environment, v))
  {
    LateRequestTombstoned(s.tables, p, resource, environment, v);
    hide LiveKept, PrunableRevisions;
    var s1 := Do(s, SelectDoomed(pruner, p));
    var s2 := Do(s1, Request(resource, environment, v));
    var s3 := Do(s2, CommitPrune(pruner));
    assert !LiveKept(s3.tables);
    Prepend(s2, CommitPrune(pruner), []);
    Prepend(s1, Request(resource, environment, v), [CommitPrune(pruner)] + []);
    Prepend(s, SelectDoomed(pruner, p), [Request(resource, environment, v)] + ([CommitPrune(pruner)] + []));
  }

  /**
   From the start, with a keep count of one: the older of two revisions is selected, released, and
   tombstoned under its release.
   */
  lemma LateCommitLosesContent(now: int)
    ensures var late := LateCommit(7, Retention(1, now, {}, {}), 1, 1, 1);
            var actions := [NewRevision(1, 1, 1, None)] + ([NewRevision(2, 1, 2, None)] + late);
            CanRun(Initial(now), actions) && !KeptThroughout(Initial(now), actions)
  {
    var policy := Retention(1, now, {}, {});
    var s1 := Do(Initial(now), NewRevision(1, 1, 1, None));
    var s2 := Do(s1, NewRevision(2, 1, 2, None));
    OutrankedPrunable(s2.tables, policy);
    LateCommitLoses(s2, 7, policy, 1, 1, 1);
    hide LiveKept, PrunableRevisions, LateCommit;
    Prepend(s1, NewRevision(2, 1, 2, None), LateCommit(7, policy, 1, 1, 1));
    Prepend(Initial(now), NewRevision(1, 1, 1, None), [NewRevision(2, 1, 2, None)] + LateCommit(7, policy, 1, 1, 1));
  }

  /** A later revision of the same API pushes the older one out of a keep count of one. */
  lemma OutrankedPrunable(t: Tables, p: Retention)
    requires t.releases == [] && Unpruned(t, 1) && Unpruned(t, 2) && p == Retention(1, p.ageCutoff, {}, {})
    requires t.revisions[1].resource == t.revisions[2].resource && t.revisions[1].rev < t.revisions[2].rev
    ensures 1 in PrunableRevisions(t, p)
  {
    var above := Outranking(t, 1);
    assert 2 in above;
    assert Rank(t, 1) == 1 + |above|;
    assert Prunable(t, 1, p);
  }
}

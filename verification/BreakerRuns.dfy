/**
 Whole runs of the circuit breaker against a simple one: no table to sweep, no list to trim. The
 simple breaker keeps every report since the last reset and counts the grants of an episode, so
 what it promises can be read off it, and the real one answers every question the same.
 */
module BreakerRuns {
  import opened Text
  import opened Breaker

  datatype Phase = Resting | Tripped(since: int) | Probing(granted: int)
  datatype Ideal = Ideal(phase: Phase, reports: seq<int>)

  /** Settings are fixed for a run: none means no breaker on that backend. */
  type Config = Key -> Option<Settings>

  function IdealLooked(i: Ideal, s: Settings, now: int): Ideal {
    if i.phase.Tripped? && now - i.phase.since >= s.openSec * 1000 then i.(phase := Probing(0)) else i
  }

  /** How many reports, this one included, count at this moment. */
  function Counted(i: Ideal, s: Settings, now: int): nat { |After(i.reports, now - s.windowSec * 1000)| + 1 }

  predicate Trips(i: Ideal, s: Settings, now: int) { i.phase.Probing? || Counted(i, s, now) >= s.failures }

  predicate IdealGrants(i: Ideal, s: Settings) {
    i.phase.Resting? || (i.phase.Probing? && i.phase.granted < s.halfOpenProbes)
  }

  function IdealNext(i: Ideal, op: Op, s: Settings, now: int): Ideal {
    match op
    case Look => IdealLooked(i, s, now)
    case Acquire =>
      var j := IdealLooked(i, s, now);
      if j.phase.Probing? && IdealGrants(j, s) then j.(phase := Probing(j.phase.granted + 1)) else j
    case Success => Ideal(Resting, [])
    case Failure => if Trips(i, s, now) then Ideal(Tripped(now), []) else i.(reports := i.reports + [now])
    case Reopens => i
    case Sweep => i
  }

  function PhaseState(p: Phase): State {
    match p case Resting => Closed case Tripped(_) => Open case Probing(_) => HalfOpen
  }

  function IdealReply(i: Ideal, op: Op, s: Settings, now: int): Answer {
    match op
    case Look => Shown(PhaseState(IdealLooked(i, s, now).phase))
    case Acquire => Granted(IdealGrants(IdealLooked(i, s, now), s))
    case Reopens => Wait(if i.phase.Tripped?
                         && s.openSec * 1000 - (now - i.phase.since) > 0 then s.openSec * 1000 - (now - i.phase.since)
                             else 0)
    case _ => Silence
  }

  // ----- runs

  predicate Monotone(es: seq<Event>) { forall i, j :: 0 <= i <= j < |es| ==> es[i].at <= es[j].at }

  function Table(cfg: Config, es: seq<Event>): Entries {
    if es == [] then map[]
    else var e := es[|es| - 1]; Next(Table(cfg, es[..|es| - 1]), e, cfg(e.key))
  }

  /** The simple breaker of one key: it hears the events of that key only, and no sweep. */
  function Simple(s: Settings, key: Key, es: seq<Event>): Ideal {
    if es == [] then Ideal(Resting, [])
    else
      var e := es[|es| - 1];
      var i := Simple(s, key, es[..|es| - 1]);
      if e.key == key then IdealNext(i, e.op, s, e.at) else i
  }

  // ----- the entry and the simple breaker agree

  /** The trimmed list is what the last trim left of the full one. */
  predicate Trimmed(failures: seq<int>, reports: seq<int>, s: Settings) {
    if reports == [] then failures == []
    else
      var n := |reports| - 1;
      failures == After(reports[..n], reports[n] - s.windowSec * 1000) + [reports[n]]
  }

  predicate Agrees(e: Entry, i: Ideal, s: Settings) {
    && e.state == PhaseState(i.phase)
    && (i.phase.Tripped? ==> e.openedAt == i.phase.since)
    && (i.phase.Probing? ==> e.probes == i.phase.granted)
    && Trimmed(e.failures, i.reports, s)
  }

  predicate Past(i: Ideal, now: int) { forall k :: 0 <= k < |i.reports| ==> i.reports[k] <= now }

  lemma {:induction false} AfterTwice(ats: seq<int>, c: int, d: int)
    requires c <= d
    ensures After(After(ats, c), d) == After(ats, d)
  {
    if ats != [] {
      var n := |ats| - 1;
      AfterTwice(ats[..n], c, d);
      AfterAppend(After(ats[..n], c), if ats[n] > c then [ats[n]] else [], d);
    }
  }

  lemma {:induction false} AfterAppend(a: seq<int>, b: seq<int>, d: int)
    requires |b| <= 1
    ensures After(a + b, d) == After(a, d) + After(b, d)
  {
    if b == [] {
      assert a + b == a;
    } else {
      assert (a + b)[..|a|] == a && b[..0] == [];
      assert After(b, d) == (if b[0] > d then [b[0]] else []);
    }
  }

  /** Trimming as it goes counts the same reports as trimming once, because time only moves on. */
  lemma TrimmedCounts(failures: seq<int>, reports: seq<int>, s: Settings, now: int)
    requires Trimmed(failures, reports, s)
    requires forall k :: 0 <= k < |reports| ==> reports[k] <= now
    ensures After(failures, now - s.windowSec * 1000) == After(reports, now - s.windowSec * 1000)
  {
    hide After;
    if reports != [] {
      var n := |reports| - 1;
      TrimAgain(reports[..n], reports[n], reports[n] - s.windowSec * 1000, now - s.windowSec * 1000);
      assert reports[..n] + [reports[n]] == reports;
    }
  }

  lemma TrimAgain(front: seq<int>, last: int, c: int, d: int)
    requires c <= d
    ensures After(After(front, c) + [last], d) == After(front + [last], d)
  {
    hide After;
    AfterTwice(front, c, d);
    AfterAppend(After(front, c), [last], d);
    AfterAppend(front, [last], d);
  }

  lemma FailureAgrees(e: Entry, i: Ideal, s: Settings, now: int)
    requires Agrees(e, i, s) && Past(i, now)
    ensures Agrees(Failed(e, s, now), IdealNext(i, Failure, s, now), s)
  {
    TrimmedCounts(e.failures, i.reports, s, now);
    var more := i.reports + [now];
    assert more[..|i.reports|] == i.reports;
  }

  lemma StepAgrees(es: Entries, i: Ideal, e: Event, settings: Option<Settings>, key: Key, s: Settings)
    requires Agrees(EntryOf(es, key), i, s) && Past(i, e.at)
    requires e.key == key ==> settings == Some(s)
    ensures Agrees(EntryOf(Next(es, e, settings), key), if e.key == key then IdealNext(i, e.op, s, e.at) else i, s)
    ensures e.key == key ==> Reply(es, e, settings) == IdealReply(i, e.op, s, e.at)
  {
    hide After;
    if e.key == key && e.op == Failure { FailureAgrees(EntryOf(es, key), i, s, e.at); }
    if e.op == Sweep { SweepAgrees(es, i, key, s); }
  }

  /** What a sweep drops is what a key never heard of starts from. */
  lemma SweepAgrees(es: Entries, i: Ideal, key: Key, s: Settings)
    requires Agrees(EntryOf(es, key), i, s)
    ensures Agrees(EntryOf(Swept(es), key), i, s)
  {
    hide After;
  }

  lemma {:induction false} RunAgrees(cfg: Config, es: seq<Event>, key: Key, s: Settings)
    requires Monotone(es) && cfg(key) == Some(s)
    ensures Agrees(EntryOf(Table(cfg, es), key), Simple(s, key, es), s)
    ensures es != [] ==> Past(Simple(s, key, es), es[|es| - 1].at)
  {
    hide After, Next, IdealNext;
    if es != [] {
      var n := |es| - 1;
      RunAgrees(cfg, es[..n], key, s);
      StepAgrees(Table(cfg, es[..n]), Simple(s, key, es[..n]), es[n], cfg(es[n].key), key, s);
      NextPast(Simple(s, key, es[..n]), es[n].op, s, es[n].at);
    }
  }

  lemma NextPast(i: Ideal, op: Op, s: Settings, now: int)
    requires Past(i, now)
    ensures Past(IdealNext(i, op, s, now), now)
  {
    hide After;
  }

  // ----- sweeping is invisible

  function Unswept(es: seq<Event>): seq<Event> {
    if es == [] then []
    else Unswept(es[..|es| - 1]) + (if es[|es| - 1].op == Sweep then [] else [es[|es| - 1]])
  }

  lemma {:induction false} UnsweptMonotone(es: seq<Event>)
    requires Monotone(es)
    ensures Monotone(Unswept(es)) && |Unswept(es)| <= |es|
    ensures forall k :: 0 <= k < |Unswept(es)| ==> Unswept(es)[k].at <= es[|es| - 1].at
  {
    if es != [] { UnsweptMonotone(es[..|es| - 1]); }
  }

  lemma {:induction false} UnsweptSimple(s: Settings, key: Key, es: seq<Event>)
    ensures Simple(s, key, Unswept(es)) == Simple(s, key, es)
  {
    hide After;
    if es != [] {
      var n := |es| - 1;
      UnsweptSimple(s, key, es[..n]);
      if es[n].op != Sweep {
        assert Unswept(es)[..|Unswept(es)| - 1] == Unswept(es[..n]);
      } else {
        assert Unswept(es) == Unswept(es[..n]);
      }
    }
  }

  /** Whatever was asked and reported before, no answer depends on the sweeps made on the way. */
  lemma SweepInvisible(cfg: Config, es: seq<Event>, e: Event)
    requires Monotone(es + [e])
    ensures Reply(Table(cfg, es), e, cfg(e.key)) == Reply(Table(cfg, Unswept(es)), e, cfg(e.key))
  {
    hide After, Next, IdealNext;
    if cfg(e.key).Some? && es != [] {
      var s, n := cfg(e.key).value, |es| - 1;
      assert (es + [e])[n] == es[n] && (es + [e])[n + 1] == e;
      assert forall i :: 0 <= i < |es| ==> (es + [e])[i] == es[i];
      UnsweptMonotone(es);
      UnsweptSimple(s, e.key, es);
      RunAgrees(cfg, es, e.key, s);
      RunAgrees(cfg, Unswept(es), e.key, s);
      StepAgrees(Table(cfg, es), Simple(s, e.key, es), e, Some(s), e.key, s);
      StepAgrees(Table(cfg, Unswept(es)), Simple(s, e.key, es), e, Some(s), e.key, s);
    }
  }

  // ----- when it opens

  /** The entry as a failure that opened the breaker leaves it. */
  predicate JustOpened(e: Entry, now: int) { e.state == Open && e.failures == [] && e.openedAt == now }

  /** Event j ended the count of its key: a success, or the failure that opened the breaker. */
  predicate Resets(cfg: Config, es: seq<Event>, j: nat, key: Key)
    requires j < |es|
  {
    && es[j].key == key
    && (|| es[j].op == Success
        || (es[j].op == Failure && JustOpened(EntryOf(Table(cfg, es[..j + 1]), key), es[j].at)))
  }

  /** The failures reported for the key since its count was last ended. */
  function Reports(cfg: Config, es: seq<Event>, key: Key): seq<int> {
    if es == [] then []
    else
      var n := |es| - 1;
      if Resets(cfg, es, n, key) then []
      else Reports(cfg, es[..n], key) + (if es[n].key == key && es[n].op == Failure then [es[n].at] else [])
  }

  lemma FailureOpens(e: Entry, i: Ideal, s: Settings, now: int)
    requires Agrees(e, i, s) && Past(i, now)
    ensures JustOpened(Failed(e, s, now), now) <==> Trips(i, s, now)
  {
    TrimmedCounts(e.failures, i.reports, s, now);
  }

  lemma {:induction false} ReportsKept(cfg: Config, es: seq<Event>, key: Key, s: Settings)
    requires Monotone(es) && cfg(key) == Some(s)
    ensures Simple(s, key, es).reports == Reports(cfg, es, key)
  {
    hide After, Trips, Agrees;
    if es != [] {
      var n := |es| - 1;
      ReportsKept(cfg, es[..n], key, s);
      RunAgrees(cfg, es[..n], key, s);
      assert es[..n + 1] == es;
      if es[n].key == key && es[n].op == Failure {
        FailureOpens(EntryOf(Table(cfg, es[..n]), key), Simple(s, key, es[..n]), s, es[n].at);
      }
    }
  }

  lemma EventAgrees(cfg: Config, es: seq<Event>, e: Event, s: Settings)
    requires Monotone(es + [e]) && cfg(e.key) == Some(s)
    ensures Monotone(es)
    ensures Agrees(EntryOf(Table(cfg, es), e.key), Simple(s, e.key, es), s) && Past(Simple(s, e.key, es), e.at)
    ensures Table(cfg, es + [e]) == Next(Table(cfg, es), e, Some(s))
    ensures Simple(s, e.key, es + [e]) == IdealNext(Simple(s, e.key, es), e.op, s, e.at)
  {
    hide After, Next, IdealNext, Agrees;
    assert (es + [e])[..|es|] == es;
    assert forall i :: 0 <= i < |es| ==> (es + [e])[i] == es[i];
    assert (es + [e])[|es|] == e;
    RunAgrees(cfg, es, e.key, s);
  }

  /**
   Outside half-open the breaker opens exactly at the failure that brings the reports since the
   last reset, strictly inside the window, to the configured number.
   */
  lemma OpensExactly(cfg: Config, es: seq<Event>, key: Key, now: int, s: Settings)
    requires Monotone(es + [Event(Failure, key, now)]) && cfg(key) == Some(s)
    requires EntryOf(Table(cfg, es), key).state != HalfOpen
    ensures JustOpened(EntryOf(Table(cfg, es + [Event(Failure, key, now)]), key), now) <==>
            |After(Reports(cfg, es, key), now - s.windowSec * 1000)| + 1 >= s.failures
  {
    hide Simple, Reports, After, Monotone;
    EventAgrees(cfg, es, Event(Failure, key, now), s);
    ReportsKept(cfg, es, key, s);
    FailureOpens(EntryOf(Table(cfg, es), key), Simple(s, key, es), s, now);
  }

  // ----- while it is open

  predicate Quiet(es: seq<Event>, from: nat, key: Key) {
    forall j :: from <= j < |es| ==> !(es[j].key == key && es[j].op == Success)
  }

  lemma {:induction false} StaysTripped(s: Settings, key: Key, es: seq<Event>, from: nat, t: int)
    requires from <= |es| && Monotone(es) && Quiet(es, from, key)
    requires Simple(s, key, es[..from]).phase == Tripped(t)
    requires forall j :: from <= j < |es| ==> t <= es[j].at < t + s.openSec * 1000
    ensures Simple(s, key, es).phase.Tripped? && t <= Simple(s, key, es).phase.since
    ensures from < |es| ==> Simple(s, key, es).phase.since <= es[|es| - 1].at
    ensures from == |es| ==> Simple(s, key, es).phase.since == t
    decreases |es|
  {
    hide After, Counted;
    var n := |es| - 1;
    if from == |es| {
      assert es[..from] == es;
    } else {
      assert es[..n][..from] == es[..from];
      StaysTripped(s, key, es[..n], from, t);
      assert from < n ==> es[n - 1].at <= es[n].at;
    }
  }

  /** From a failure that opened it, for openSec and until a success, no request is let through. */
  lemma OpenGrantsNothing(cfg: Config, es: seq<Event>, from: nat, key: Key, s: Settings, t: int, now: int)
    requires cfg(key) == Some(s) && Monotone(es + [Event(Acquire, key, now)])
    requires 0 < from <= |es| && es[from - 1] == Event(Failure, key, t)
    requires JustOpened(EntryOf(Table(cfg, es[..from]), key), t)
    requires Quiet(es, from, key) && now < t + s.openSec * 1000
    ensures Reply(Table(cfg, es), Event(Acquire, key, now), Some(s)) == Granted(false)
  {
    hide After, Next, IdealNext, Table, Simple, Trimmed;
    var all := es + [Event(Acquire, key, now)];
    EventAgrees(cfg, es, Event(Acquire, key, now), s);
    assert forall i :: 0 <= i < |es| ==> all[i] == es[i];
    assert all[|es|].at == now;
    assert forall j :: from <= j < |es| ==> all[from - 1].at <= all[j].at <= all[|es|].at;
    RunAgrees(cfg, es[..from], key, s);
    StaysTripped(s, key, es, from, t);
    StepAgrees(Table(cfg, es), Simple(s, key, es), Event(Acquire, key, now), Some(s), key, s);
    assert all[|es| - 1].at <= all[|es|].at;
  }

  // ----- one half-open episode

  /** Requests for the key let through from event `from` on. */
  function Let(cfg: Config, es: seq<Event>, from: nat, key: Key): nat
    decreases |es|
  {
    if |es| <= from then 0
    else
      var n := |es| - 1;
      Let(cfg, es[..n], from, key) +
      (if es[n].key == key && es[n].op == Acquire && Reply(Table(cfg, es[..n]), es[n], cfg(key)) == Granted(true) then 1
       else 0)
  }

  /** No success, and no failure that found the breaker half-open: the episode goes on. */
  predicate SameEpisode(cfg: Config, es: seq<Event>, from: nat, key: Key) {
    Quiet(es, from, key) &&
    forall j :: from <= j < |es| && es[j].key == key && es[j].op == Failure ==>
          EntryOf(Table(cfg, es[..j]), key).state != HalfOpen
  }

  lemma {:induction false} EpisodeCounts(cfg: Config, es: seq<Event>, from: nat, key: Key, s: Settings)
    requires cfg(key) == Some(s) && Monotone(es) && from <= |es|
    requires EntryOf(Table(cfg, es[..from]), key).state == Open && SameEpisode(cfg, es, from, key)
    ensures var p := Simple(s, key, es).phase;
            match p
            case Resting => false
            case Tripped(_) => Let(cfg, es, from, key) == 0
            case Probing(granted) => Let(cfg, es, from, key) == granted && (granted == 0 || granted <= s.halfOpenProbes)
    decreases |es|
  {
    hide After, Next, IdealNext, Counted, Trimmed;
    RunAgrees(cfg, es, key, s);
    if from == |es| {
      assert es[..from] == es;
    } else {
      var n := |es| - 1;
      var before := es[..n];
      assert before[..from] == es[..from];
      assert forall j :: from <= j < n ==> before[..j] == es[..j];
      EpisodeCounts(cfg, before, from, key, s);
      RunAgrees(cfg, before, key, s);
      StepAgrees(Table(cfg, before), Simple(s, key, before), es[n], cfg(es[n].key), key, s);
      if es[n].key == key { EpisodeStep(Simple(s, key, before), es[n].op, s, es[n].at); }
    }
  }

  lemma EpisodeStep(i: Ideal, op: Op, s: Settings, now: int)
    requires !i.phase.Resting? && op != Success && (op == Failure ==> i.phase.Tripped?)
    requires i.phase.Probing? ==> i.phase.granted == 0 || i.phase.granted <= s.halfOpenProbes
    ensures var q := IdealNext(i, op, s, now).phase;
            var more := if op == Acquire && IdealReply(i, op, s, now) == Granted(true) then 1 else 0;
            var had := if i.phase.Probing? then i.phase.granted else 0;
            match q
            case Resting => false
            case Tripped(_) => i.phase.Tripped? && more == 0
            case Probing(granted) => granted == had + more && (granted == 0 || granted <= s.halfOpenProbes)
  {
    hide After, Counted;
  }

  /** From opening to the report that ends the episode, at most halfOpenProbes requests go through. */
  lemma EpisodeGrants(cfg: Config, es: seq<Event>, from: nat, key: Key, s: Settings)
    requires cfg(key) == Some(s) && Monotone(es) && from <= |es|
    requires EntryOf(Table(cfg, es[..from]), key).state == Open && SameEpisode(cfg, es, from, key)
    ensures Let(cfg, es, from, key) == 0 || Let(cfg, es, from, key) <= s.halfOpenProbes
  {
    EpisodeCounts(cfg, es, from, key, s);
  }
}

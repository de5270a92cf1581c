/**
 The circuit breaker of one gateway instance: what each call does to the table of entries, and the
 class that does it. Time is milliseconds, handed in by the clock.
 */
module Breaker {
  import opened Text

  datatype State = Closed | Open | HalfOpen

  datatype Settings = Settings(failures: int, windowSec: int, openSec: int, halfOpenProbes: int)

  datatype Entry = Entry(failures: seq<int>, state: State, openedAt: int, probes: int)

  type Key = Text
  type Entries = map<Key, Entry>

  const SWEEP_SIZE := 10_000

  const Fresh := Entry([], Closed, 0, 0)

  function EntryOf(es: Entries, key: Key): Entry { if key in es then es[key] else Fresh }

  /** Reports after the cutoff, in order. */
  function After(ats: seq<int>, cutoff: int): seq<int> {
    if ats == [] then []
    else After(ats[..|ats| - 1], cutoff) + (if ats[|ats| - 1] > cutoff then [ats[|ats| - 1]] else [])
  }

  function Less(probes: int): int { if probes - 1 > 0 then probes - 1 else 0 }

  // ----- what each call does to one entry

  function Looked(e: Entry, s: Settings, now: int): Entry {
    if e.state == Open && now - e.openedAt >= s.openSec * 1000 then e.(state := HalfOpen, probes := 0) else e
  }

  /** Whether the request may go, for an entry just looked at. */
  predicate Grants(e: Entry, s: Settings) { e.state == Closed || (e.state == HalfOpen && e.probes < s.halfOpenProbes) }

  function Granting(e: Entry, s: Settings): Entry {
    if e.state == HalfOpen && Grants(e, s) then e.(probes := e.probes + 1) else e
  }

  function Succeeded(e: Entry): Entry { Entry([], Closed, e.openedAt, Less(e.probes)) }

  function Failed(e: Entry, s: Settings, now: int): Entry {
    var recent := After(e.failures, now - s.windowSec * 1000) + [now];
    if e.state == HalfOpen || |recent| >= s.failures then Entry([], Open, now, Less(e.probes))
    else Entry(recent, e.state, e.openedAt, Less(e.probes))
  }

  function Remaining(e: Entry, s: Settings, now: int): int {
    var left := s.openSec * 1000 - (now - e.openedAt);
    if e.state == Open && left > 0 then left else 0
  }

  predicate Idle(e: Entry) { e.state == Closed && e.failures == [] }

  // ----- what each call does to the table, and what it answers

  datatype Op = Look | Acquire | Success | Failure | Reopens | Sweep
  datatype Event = Event(op: Op, key: Key, at: int)
  datatype Answer = Shown(state: State) | Granted(ok: bool) | Wait(ms: int) | Silence

  function Swept(es: Entries): Entries {
    if |es| < SWEEP_SIZE then es else map k | k in es && !Idle(es[k]) :: es[k]
  }

  function Touched(es: Entries, key: Key, e: Entry): Entries { if key in es then es[key := e] else es }

  function Next(es: Entries, e: Event, settings: Option<Settings>): Entries {
    if e.op == Sweep then Swept(es)
    else if settings.None? then es
    else
      var s := settings.value;
      match e.op
      case Look => Touched(es, e.key, Looked(EntryOf(es, e.key), s, e.at))
      case Acquire => Touched(es, e.key, Granting(Looked(EntryOf(es, e.key), s, e.at), s))
      case Success => es[e.key := Succeeded(EntryOf(es, e.key))]
      case Failure => es[e.key := Failed(EntryOf(es, e.key), s, e.at)]
      case Reopens => es
  }

  function Reply(es: Entries, e: Event, settings: Option<Settings>): Answer {
    match e.op
    case Look => Shown(if settings.None? then Closed else Looked(EntryOf(es, e.key), settings.value, e.at).state)
    case Acquire => Granted(settings.None? || Grants(Looked(EntryOf(es, e.key), settings.value, e.at), settings.value))
    case Reopens => Wait(if settings.None? then 0 else Remaining(EntryOf(es, e.key), settings.value, e.at))
    case _ => Silence
  }

  // ----- the class

  method FilterAfter(ats: seq<int>, cutoff: int) returns (kept: seq<int>)
    ensures kept == After(ats, cutoff)
  {
    kept := [];
    for i := 0 to |ats|
      invariant kept == After(ats[..i], cutoff)
    {
      assert ats[..i + 1][..i] == ats[..i];
      if ats[i] > cutoff { kept := kept + [ats[i]]; }
    }
    assert ats[..|ats|] == ats;
  }

  class CircuitBreaker {
    var entries: Entries

    constructor ()
      ensures entries == map[]
    {
      entries := map[];
    }

    method Status(key: Key, settings: Option<Settings>, now: int) returns (state: State)
      modifies this
      ensures entries == Next(old(entries), Event(Look, key, now), settings)
      ensures Shown(state) == Reply(old(entries), Event(Look, key, now), settings)
      ensures settings.Some? && key in entries ==> entries[key].state == state
    {
      if settings.None? || key !in entries { return Closed; }
      var entry := entries[key];
      if entry.state == Open && now - entry.openedAt >= settings.value.openSec * 1000 {
        entries := entries[key := entry.(state := HalfOpen, probes := 0)];
      }
      return entries[key].state;
    }

    method TryAcquire(key: Key, settings: Option<Settings>, now: int) returns (ok: bool)
      modifies this
      ensures entries == Next(old(entries), Event(Acquire, key, now), settings)
      ensures Granted(ok) == Reply(old(entries), Event(Acquire, key, now), settings)
    {
      if settings.None? { return true; }
      var state := Status(key, settings, now);
      if state == Open { return false; }
      if state == HalfOpen {
        var entry := entries[key];
        if entry.probes >= settings.value.halfOpenProbes { return false; }
        entries := entries[key := entry.(probes := entry.probes + 1)];
      }
      return true;
    }

    method OnSuccess(key: Key, settings: Option<Settings>, now: int)
      modifies this
      ensures entries == Next(old(entries), Event(Success, key, now), settings)
    {
      if settings.None? { return; }
      var entry := if key in entries then entries[key] else Entry([], Closed, 0, 0);
      entry := entry.(probes := Less(entry.probes));
      entry := entry.(failures := []);
      entry := entry.(state := Closed);
      entries := entries[key := entry];
    }

    method OnFailure(key: Key, settings: Option<Settings>, now: int)
      modifies this
      ensures entries == Next(old(entries), Event(Failure, key, now), settings)
    {
      if settings.None? { return; }
      var entry := if key in entries then entries[key] else Entry([], Closed, 0, 0);
      entry := entry.(probes := Less(entry.probes));
      if entry.state == HalfOpen {
        entries := entries[key := entry.(state := Open, openedAt := now, failures := [])];
        return;
      }
      var kept := FilterAfter(entry.failures, now - settings.value.windowSec * 1000);
      entry := entry.(failures := kept + [now]);
      if |entry.failures| >= settings.value.failures {
        entry := entry.(state := Open, openedAt := now, failures := []);
      }
      entries := entries[key := entry];
    }

    method ReopensInMs(key: Key, settings: Option<Settings>, now: int) returns (ms: int)
      ensures Wait(ms) == Reply(entries, Event(Reopens, key, now), settings)
      ensures ms >= 0
    {
      if settings.None? || key !in entries || entries[key].state != Open { return 0; }
      var left := settings.value.openSec * 1000 - (now - entries[key].openedAt);
      return if left > 0 then left else 0;
    }

    method SweepIdle()
      modifies this
      ensures entries == Swept(old(entries))
    {
      if |entries| < SWEEP_SIZE { return; }
      var rest := entries.Keys;
      while rest != {}
        invariant rest <= entries.Keys <= old(entries).Keys
        invariant forall k :: k in entries ==> entries[k] == old(entries)[k]
        invariant forall k :: k in old(entries) ==> (k in entries <==> k in rest || !Idle(old(entries)[k]))
        decreases rest
      {
        var k :| k in rest;
        if entries[k].state == Closed && entries[k].failures == [] { entries := entries - {k}; }
        rest := rest - {k};
      }
    }
  }
}

/**
 Where greedy matching is exact: on a flat, once-only sequence of element particles that satisfies
 Unique Particle Attribution (section 3.8.6 of XML Schema Part 1) it accepts a child list exactly
 when the list is not empty and can be split into runs within each min..max. The empty list is the
 one exception: every required particle refuses it, whether or not its language has the empty word.
 */
module XsdExactness {
  import opened Text
  import opened XsdModel
  import opened XsdSoundness

  predicate FlatSequence(p: Particle) {
    p.Group? && p.kind == Sequence && p.min == 1 && p.max == Some(1) && forall i :: 0 <= i < |p.items| ==>
          p.items[i].Element?
  }

  /**
   No child can be attributed to two particles: of two particles with one name and only optional
   ones between them, the earlier has a fixed number of occurrences.
   */
  predicate UniquelyAttributed(items: seq<Particle>)
    requires forall i :: 0 <= i < |items| ==> items[i].Element?
  {
    forall i, j :: 0 <= i < j < |items| && items[i].decl.qname == items[j].decl.qname && Optional(items, i + 1, j) ==>
      items[i].max == Some(items[i].min)
  }

  predicate Optional(items: seq<Particle>, lo: nat, hi: nat) {
    forall k :: lo <= k < hi && k < |items| ==> items[k].min == 0
  }

  predicate Within(p: Particle, c: nat) { p.min <= c && (p.max.Some? ==> c <= p.max.value) }

  predicate RunOf(e: Xml, lo: nat, c: nat, q: Text) {
    lo + c <= |e.children| && forall t :: lo <= t < lo + c ==> e.children[t].qname == q
  }

  /** The children from `pos` on split into runs, one for each particle from `k` on. */
  ghost predicate Splits(items: seq<Particle>, k: nat, e: Xml, pos: nat)
    requires k <= |items| && forall i :: 0 <= i < |items| ==> items[i].Element?
    decreases |items| - k
  {
    if k == |items| then pos == |e.children|
    else exists c: nat ::
          Within(items[k], c) && RunOf(e, pos, c, items[k].decl.qname) && Splits(items, k + 1, e, pos + c)
  }

  // ----- what greedy matching computes

  function Run(e: Xml, i: nat, q: Text, room: Option<nat>): (g: nat)
    ensures i <= |e.children| ==> RunOf(e, i, g, q)
    ensures room.Some? ==> g <= room.value
    decreases |e.children| - i
  {
    if room == Some(0) || i >= |e.children| || e.children[i].qname != q then 0
    else 1 + Run(e, i + 1, q, if room.Some? then Some(room.value - 1) else None)
  }

  function Greedy(items: seq<Particle>, k: nat, e: Xml, pos: nat): Option<nat>
    requires k <= |items| && pos <= |e.children| && forall i :: 0 <= i < |items| ==> items[i].Element?
    decreases |items| - k
  {
    if k == |items| then Some(pos)
    else
      var g := Run(e, pos, items[k].decl.qname, items[k].max);
      if g < items[k].min then None else Greedy(items, k + 1, e, pos + g)
  }

  function Room(max: Option<nat>, reps: nat): Option<nat> {
    if max.None? then None else if reps >= max.value then Some(0) else Some(max.value - reps)
  }

  lemma {:induction false} ElementGreedy(p: Particle, e: Xml, index: nat, reps: nat, depth: nat, n: nat, w: World)
    requires p.Element? && index <= |e.children|
    ensures var g := Run(e, index, p.decl.qname, Room(p.max, reps));
            MatchLoop(p, e, index, reps, depth, n, w).end
            == if reps + g < p.min then None else Some(index + g)
    decreases |e.children| - index
  {
    var q := p.decl.qname;
    assert FirstNames(p, 0) == {Name(q)};
    if Below(reps, p.max) && index < |e.children| && e.children[index].qname == q {
      var m := MatchOnce(p, e, index, depth, n, w);
      ElementGreedy(p, e, index + 1, reps + 1, depth, m.issues, w);
      assert Room(p.max, reps + 1) == if p.max.Some? then Some(Room(p.max, reps).value - 1) else None;
    }
  }

  lemma {:induction false} SequenceGreedy(p: Particle, k: nat, e: Xml, index: nat, depth: nat, n: nat, w: World)
    requires FlatSequence(p) && k <= |p.items| && index <= |e.children|
    ensures MatchSequence(p, k, e, index, depth, n, w).end == Greedy(p.items, k, e, index)
    decreases |p.items| - k
  {
    if k < |p.items| {
      var it := p.items[k];
      ElementGreedy(it, e, index, 0, depth, n, w);
      assert Room(it.max, 0) == it.max;
      var m := MatchParticle(it, e, index, depth, n, w);
      if m.end.Some? { SequenceGreedy(p, k + 1, e, m.end.value, depth, m.issues, w); }
    }
  }

  lemma {:induction false} GreedyEnd(items: seq<Particle>, k: nat, e: Xml, pos: nat)
    requires k <= |items| && pos <= |e.children| && forall i :: 0 <= i < |items| ==> items[i].Element?
    ensures Greedy(items, k, e, pos).Some? ==> pos <= Greedy(items, k, e, pos).value <= |e.children|
    decreases |items| - k
  {
    if k < |items| {
      var g := Run(e, pos, items[k].decl.qname, items[k].max);
      if g >= items[k].min { GreedyEnd(items, k + 1, e, pos + g); }
    }
  }

  lemma {:induction false} GreedySplits(items: seq<Particle>, k: nat, e: Xml, pos: nat)
    requires k <= |items| && pos <= |e.children| && forall i :: 0 <= i < |items| ==> items[i].Element?
    requires Greedy(items, k, e, pos) == Some(|e.children|)
    ensures Splits(items, k, e, pos)
    decreases |items| - k
  {
    if k < |items| {
      var g := Run(e, pos, items[k].decl.qname, items[k].max);
      GreedySplits(items, k + 1, e, pos + g);
    }
  }

  // ----- greedy finds the split when there is one

  /** The run is as long as the names and the maximum allow. */
  lemma {:induction false} RunIsMaximal(e: Xml, i: nat, q: Text, room: Option<nat>, c: nat)
    requires RunOf(e, i, c, q) && (room.Some? ==> c <= room.value)
    ensures c <= Run(e, i, q, room)
    decreases c
  {
    if c > 0 {
      assert e.children[i].qname == q;
      RunIsMaximal(e, i + 1, q, if room.Some? then Some(room.value - 1) else None, c - 1);
    }
  }

  /** The next child belongs to a later particle of its name, with only optional ones before it. */
  lemma {:induction false} NextOwner(items: seq<Particle>, k: nat, e: Xml, pos: nat) returns (j: nat)
    requires k <= |items| && pos < |e.children| && forall i :: 0 <= i < |items| ==> items[i].Element?
    requires Splits(items, k, e, pos)
    ensures k <= j < |items| && items[j].decl.qname == e.children[pos].qname && Optional(items, k, j)
    decreases |items| - k
  {
    var c: nat :| Within(items[k], c) && RunOf(e, pos, c, items[k].decl.qname) && Splits(items, k + 1, e, pos + c);
    if c > 0 {
      j := k;
      assert e.children[pos].qname == items[k].decl.qname;
    } else {
      j := NextOwner(items, k + 1, e, pos);
    }
  }

  /** A particle whose run goes on after its share has a fixed number of occurrences. */
  lemma OwnerFixed(items: seq<Particle>, k: nat, e: Xml, pos: nat, c: nat, g: nat)
    requires k < |items| && (forall i :: 0 <= i < |items| ==> items[i].Element?) && UniquelyAttributed(items)
    requires c < g && RunOf(e, pos, g, items[k].decl.qname) && Splits(items, k + 1, e, pos + c)
    ensures items[k].max == Some(items[k].min)
  {
    assert e.children[pos + c].qname == items[k].decl.qname;
    var j := NextOwner(items, k + 1, e, pos + c);
  }

  lemma {:induction false} SplitsGreedy(items: seq<Particle>, k: nat, e: Xml, pos: nat)
    requires k <= |items| && pos <= |e.children| && forall i :: 0 <= i < |items| ==> items[i].Element?
    requires UniquelyAttributed(items) && Splits(items, k, e, pos)
    ensures Greedy(items, k, e, pos) == Some(|e.children|)
    decreases |items| - k
  {
    if k < |items| {
      var q := items[k].decl.qname;
      var c: nat :| Within(items[k], c) && RunOf(e, pos, c, q) && Splits(items, k + 1, e, pos + c);
      var g := Run(e, pos, q, items[k].max);
      RunIsMaximal(e, pos, q, items[k].max, c);
      if c < g { OwnerFixed(items, k, e, pos, c, g); }
      SplitsGreedy(items, k + 1, e, pos + g);
    }
  }

  // ----- the theorem, with its exact condition

  /** Accepted exactly when there is a child and the children split into runs. */
  lemma FlatExact(p: Particle, e: Xml, depth: nat, n: nat, w: World)
    requires FlatSequence(p) && UniquelyAttributed(p.items)
    ensures MatchParticle(p, e, 0, depth, n, w).end == Some(|e.children|) <==>
            e.children != [] && Splits(p.items, 0, e, 0)
  {
    SequenceGreedy(p, 0, e, 0, depth, n, w);
    GreedyEnd(p.items, 0, e, 0);
    var g := Greedy(p.items, 0, e, 0);
    var m := MatchOnce(p, e, 0, depth, n, w);
    assert m.end == g;
    if m.end.Some? && m.end.value > 0 {
      assert MatchLoop(p, e, m.end.value, 1, depth, m.issues, w) == Outcome(m.end, m.issues);
    }
    if g == Some(|e.children|) { GreedySplits(p.items, 0, e, 0); }
    if Splits(p.items, 0, e, 0) { SplitsGreedy(p.items, 0, e, 0); }
  }

  // ----- particles at the end of the content

  /**
   At the end of the content a particle passes without a report: it is optional, and if it is a group
   that may occur, whatever of it is tried there passes too.
   */
  predicate Quiet(p: Particle)
    decreases p, 1
  {
    p.min == 0 && (p.max == Some(0) || !p.Group? || QuietInside(p.kind, p.items))
  }

  /** A sequence tries every item, a choice its first optional one, an all group none. */
  predicate QuietInside(kind: GroupKind, items: seq<Particle>)
    decreases items, 0
  {
    match kind
    case Sequence => forall i :: 0 <= i < |items| ==> Quiet(items[i])
    case Choice => forall i :: 0 <= i < |items| && FirstOptional(items, i) ==> Quiet(items[i])
    case Every => forall i :: 0 <= i < |items| ==> items[i].min == 0
  }

  predicate FirstOptional(items: seq<Particle>, i: nat)
    requires i < |items|
  {
    items[i].min == 0 && forall j :: 0 <= j < i ==> items[j].min > 0
  }

  /** The matcher reports nothing at the end of the content exactly on the particles that are quiet there. */
  lemma {:induction false} QuietExact(p: Particle, e: Xml, depth: nat, n: nat, w: World)
    requires n < w.maxErrors
    ensures var m := MatchParticle(p, e, |e.children|, depth, n, w);
            (m.issues == n <==> Quiet(p)) && (p.min == 0 ==> m.end == Some(|e.children|))
                && (p.min > 0 ==> m.end == None)
    decreases p, 1
  {
    var at := |e.children|;
    if Below(0, p.max) {
      var m := MatchOnce(p, e, at, depth, n, w);
      if p.Group? { InsideExact(p, e, depth, n, w); }
      assert MatchLoop(p, e, at, 0, depth, n, w) == Finish(p, at, 0, m.issues, w);
    }
  }

  lemma {:induction false} InsideExact(p: Particle, e: Xml, depth: nat, n: nat, w: World)
    requires p.Group? && n < w.maxErrors
    ensures MatchOnce(p, e, |e.children|, depth, n, w).issues == n <==> QuietInside(p.kind, p.items)
    decreases p, 0
  {
    match p.kind
    case Sequence => SequenceQuiet(p, 0, e, depth, n, w);
    case Choice => ChoiceQuiet(p, 0, e, depth, n, w);
    case Every =>
  }

  lemma {:induction false} SequenceQuiet(p: Particle, k: nat, e: Xml, depth: nat, n: nat, w: World)
    requires p.Group? && k <= |p.items| && n < w.maxErrors
    ensures MatchSequence(p, k, e, |e.children|, depth, n, w).issues == n <==> forall i :: k <= i < |p.items| ==>
              Quiet(p.items[i])
    decreases p, 0, |p.items| - k
  {
    if k < |p.items| {
      QuietExact(p.items[k], e, depth, n, w);
      if Quiet(p.items[k]) { SequenceQuiet(p, k + 1, e, depth, n, w); }
    }
  }

  lemma {:induction false} ChoiceQuiet(p: Particle, k: nat, e: Xml, depth: nat, n: nat, w: World)
    requires p.Group? && k <= |p.items| && n < w.maxErrors && forall j :: 0 <= j < k ==> p.items[j].min > 0
    ensures MatchChoice(p, k, e, |e.children|, depth, n, w).issues == n <==>
            forall i :: k <= i < |p.items| && FirstOptional(p.items, i) ==> Quiet(p.items[i])
    decreases p, 0, |p.items| - k
  {
    if k < |p.items| {
      QuietExact(p.items[k], e, depth, n, w);
      if p.items[k].min > 0 { ChoiceQuiet(p, k + 1, e, depth, n, w); } else { assert FirstOptional(p.items, k); }
    }
  }

  // ----- the empty word

  /** The particle may occur no time at all, or an allowed number of times as nothing. */
  predicate EmptyWord(p: Particle)
    decreases p, 1
  {
    p.min == 0 || (p.Group? && (p.max.Some? ==> p.min <= p.max.value) && EmptyInside(p.kind, p.items))
  }

  predicate EmptyInside(kind: GroupKind, items: seq<Particle>)
    decreases items, 0
  {
    match kind
    case Choice => exists i :: 0 <= i < |items| && EmptyWord(items[i])
    case _ => forall i :: 0 <= i < |items| ==> EmptyWord(items[i])
  }

  /** The language of a particle has the empty word if and only if its structure says so. */
  lemma {:induction false} EmptyWordExact(p: Particle, e: Xml, at: nat, w: World)
    requires at <= |e.children|
    ensures Matches(p, e, at, at, w) <==> EmptyWord(p)
    decreases p, 3
  {
    hide Once;
    if p.min == 0 {
      assert Repeats(p, 0, e, at, at, w);
    } else {
      OnceEmptyExact(p, e, at, w);
      if n: nat :| p.min <= n && (p.max.Some? ==> n <= p.max.value) && Repeats(p, n, e, at, at, w) {
        assert Once(p, e, at, at, w);
      }
      if Once(p, e, at, at, w) && (p.max.Some? ==> p.min <= p.max.value) { RepeatedNothing(p, p.min, e, at, w); }
    }
  }

  lemma {:induction false} RepeatedNothing(p: Particle, n: nat, e: Xml, at: nat, w: World)
    requires at <= |e.children| && Once(p, e, at, at, w)
    ensures Repeats(p, n, e, at, at, w)
    decreases n
  {
    hide Once;
    if n == 0 {
      assert Repeats(p, 0, e, at, at, w);
    } else {
      RepeatedNothing(p, n - 1, e, at, w);
      assert at <= at <= at && Repeats(p, n - 1, e, at, at, w) && Once(p, e, at, at, w);
    }
  }

  lemma {:induction false} OnceEmptyExact(p: Particle, e: Xml, at: nat, w: World)
    requires at <= |e.children|
    ensures Once(p, e, at, at, w) <==> p.Group? && EmptyInside(p.kind, p.items)
    decreases p, 2
  {
    if p.Group? {
      hide Matches, EmptyWord;
      forall i | 0 <= i < |p.items| ensures Matches(p.items[i], e, at, at, w) <==> EmptyWord(p.items[i]) {
        EmptyWordExact(p.items[i], e, at, w);
      }
      match p.kind
      case Sequence => InOrderEmpty(p, |p.items|, e, at, w);
      case Choice =>
      case Every => EveryEmpty(p, e, at, w);
    }
  }

  lemma {:induction false} InOrderEmpty(p: Particle, k: nat, e: Xml, at: nat, w: World)
    requires p.Group? && k <= |p.items| && at <= |e.children|
    ensures InOrder(p, k, e, at, at, w) <==> forall i :: 0 <= i < k ==> Matches(p.items[i], e, at, at, w)
    decreases k
  {
    hide Matches;
    if k > 0 {
      InOrderEmpty(p, k - 1, e, at, w);
      if InOrder(p, k - 1, e, at, at, w) && Matches(p.items[k - 1], e, at, at, w) {
        assert InOrder(p, k, e, at, at, w) by { assert at <= at <= at && InOrder(p, k - 1, e, at, at, w); }
      }
    }
  }

  lemma EveryEmpty(p: Particle, e: Xml, at: nat, w: World)
    requires p.Group? && p.kind == Every && at <= |e.children|
    ensures Once(p, e, at, at, w) <==> forall i :: 0 <= i < |p.items| ==> Matches(p.items[i], e, at, at, w)
  {
    hide Matches;
    if order: seq<nat> :| IsOrder(order, p.items, e, at, w) && InSome(p, order, e, at, at, w) {
      InSomeEmpty(p, order, e, at, w);
    }
    if forall i :: 0 <= i < |p.items| ==> Matches(p.items[i], e, at, at, w) {
      assert IsOrder([], p.items, e, at, w) && InSome(p, [], e, at, at, w);
    }
  }

  lemma {:induction false} InSomeEmpty(p: Particle, order: seq<nat>, e: Xml, at: nat, w: World)
    requires p.Group? && at <= |e.children| && (forall i :: 0 <= i < |order| ==> order[i] < |p.items|)
    requires InSome(p, order, e, at, at, w)
    ensures forall i :: i in order ==> Matches(p.items[i], e, at, at, w)
    decreases |order|
  {
    hide Matches;
    if order != [] {
      var front := order[..|order| - 1];
      InSomeEmpty(p, front, e, at, w);
      assert order == front + [order[|order| - 1]];
    }
  }

  /** Without children a required particle is refused, however much its language has the empty word. */
  lemma EmptyContentRefused(p: Particle, e: Xml, depth: nat, n: nat, w: World)
    requires p.min > 0 && e.children == []
    ensures MatchParticle(p, e, 0, depth, n, w).end == None
    ensures Matches(p, e, 0, 0, w) <==> EmptyWord(p)
  {
    EmptyWordExact(p, e, 0, w);
    var m := MatchOnce(p, e, 0, depth, n, w);
  }

  /** A silent pass at the end of the content is right; a report there is wrong exactly on these particles. */
  lemma EndExact(p: Particle, e: Xml, depth: nat, n: nat, w: World)
    requires n < w.maxErrors
    ensures var at, m := |e.children|, MatchParticle(p, e, |e.children|, depth, n, w);
            (m.end.Some? && m.issues == n <==> Matches(p, e, at, at, w)) <==> (EmptyWord(p) ==> Quiet(p))
  {
    QuietExact(p, e, depth, n, w);
    EmptyWordExact(p, e, |e.children|, w);
  }

  /** An optional sequence that begins with a required element is in the language there, and still reported. */
  lemma OptionalGroupReported(p: Particle, e: Xml, depth: nat, n: nat, w: World)
    requires p.Group? && p.kind == Sequence && p.min == 0 && Below(0, p.max) && n < w.maxErrors
    requires p.items != [] && p.items[0].Element? && p.items[0].min > 0
    ensures var at := |e.children|;
            Matches(p, e, at, at, w) && MatchParticle(p, e, at, depth, n, w).issues > n
  {
    assert Repeats(p, 0, e, |e.children|, |e.children|, w);
    assert !Quiet(p.items[0]);
    QuietExact(p, e, depth, n, w);
  }

  // ----- documents

  /** The element has a complex type with a particle, and nothing is wrong with it but perhaps its children. */
  predicate ParticleType(e: Xml, d: Decl, w: World) {
    && !e.nil && d.typ.Named? && d.typ.name in w.types && w.types[d.typ.name].Complex?
    && var c := w.types[d.typ.name].content;
       && c.textType.None? && c.particle.Some?
       && w.lib.attributeIssues(e, c) == 0 && (c.mixed || e.text == []) && (d.fixed.Some? ==> e.text == d.fixed.value)
  }

  function ParticleOf(e: Xml, d: Decl, w: World): Particle
    requires ParticleType(e, d, w)
  {
    w.types[d.typ.name].content.particle.value
  }

  /** Without children an element is accepted on a quiet particle only, and conforms on one with the empty word. */
  lemma EmptyElementExact(e: Xml, d: Decl, w: World)
    requires w.maxErrors >= 1 && ParticleType(e, d, w) && e.children == []
    ensures Accepts(e, d, w) <==> Quiet(ParticleOf(e, d, w))
    ensures Conforms(e, d, w) <==> EmptyWord(ParticleOf(e, d, w))
  {
    QuietExact(ParticleOf(e, d, w), e, 0, 0, w);
    EmptyWordExact(ParticleOf(e, d, w), e, 0, w);
    hide MatchParticle, Matches, Quiet, EmptyWord;
    assert CheckElement(e, d, 0, 0, w) == CheckComplex(e, w.types[d.typ.name].content, 0, 0, w);
  }

  /** The particle is a flat, uniquely attributed sequence. */
  predicate FlatType(e: Xml, d: Decl, w: World) {
    ParticleType(e, d, w) && FlatSequence(ParticleOf(e, d, w)) && UniquelyAttributed(ParticleOf(e, d, w).items)
  }

  /** No child has an issue of its own under an item that has its name. */
  predicate ChildrenFine(p: Particle, e: Xml, depth: nat, w: World)
    requires FlatSequence(p)
  {
    forall t, i :: 0 <= t < |e.children| && 0 <= i < |p.items| && e.children[t].qname == p.items[i].decl.qname ==>
      CheckElement(e.children[t], p.items[i].decl, depth + 1, 0, w) == 0
  }

  lemma {:induction false} LoopClean(p: Particle, k: nat, e: Xml, index: nat, reps: nat, depth: nat, w: World)
    requires FlatSequence(p) && k < |p.items| && index <= |e.children| && ChildrenFine(p, e, depth, w)
    ensures var m := MatchLoop(p.items[k], e, index, reps, depth, 0, w); m.end.Some? ==> m.issues == 0
    decreases |e.children| - index
  {
    var it := p.items[k];
    if Below(reps, it.max) && index < |e.children| && e.children[index].qname == it.decl.qname {
      LoopClean(p, k, e, index + 1, reps + 1, depth, w);
    }
  }

  lemma {:induction false} SequenceClean(p: Particle, k: nat, e: Xml, index: nat, depth: nat, w: World)
    requires FlatSequence(p) && k <= |p.items| && index <= |e.children| && ChildrenFine(p, e, depth, w)
    ensures var m := MatchSequence(p, k, e, index, depth, 0, w); m.end.Some? ==> m.issues == 0
    decreases |p.items| - k
  {
    if k < |p.items| {
      LoopClean(p, k, e, index, 0, depth, w);
      var m := MatchParticle(p.items[k], e, index, depth, 0, w);
      if m.end.Some? { SequenceClean(p, k + 1, e, m.end.value, depth, w); }
    }
  }

  lemma ParticleClean(p: Particle, e: Xml, depth: nat, w: World)
    requires FlatSequence(p) && ChildrenFine(p, e, depth, w)
    ensures var m := MatchParticle(p, e, 0, depth, 0, w); m.end.Some? ==> m.issues == 0
  {
    SequenceClean(p, 0, e, 0, depth, w);
    var m := MatchOnce(p, e, 0, depth, 0, w);
    if m.end.Some? && m.end.value > 0 {
      assert MatchLoop(p, e, m.end.value, 1, depth, m.issues, w) == Outcome(m.end, m.issues);
    }
  }

  lemma {:induction false} RepeatsRun(p: Particle, n: nat, e: Xml, lo: nat, hi: nat, w: World)
    requires p.Element? && lo <= hi <= |e.children| && Repeats(p, n, e, lo, hi, w)
    ensures hi == lo + n && RunOf(e, lo, n, p.decl.qname)
    decreases n
  {
    if n > 0 {
      var mid :| lo <= mid <= hi && Repeats(p, n - 1, e, lo, mid, w) && Once(p, e, mid, hi, w);
      RepeatsRun(p, n - 1, e, lo, mid, w);
    }
  }

  lemma MatchesRun(p: Particle, e: Xml, lo: nat, hi: nat, w: World) returns (c: nat)
    requires p.Element? && lo <= hi <= |e.children| && Matches(p, e, lo, hi, w)
    ensures Within(p, c) && RunOf(e, lo, c, p.decl.qname) && hi == lo + c
  {
    c :| p.min <= c && (p.max.Some? ==> c <= p.max.value) && Repeats(p, c, e, lo, hi, w);
    RepeatsRun(p, c, e, lo, hi, w);
  }

  lemma {:induction false} InOrderSplits(p: Particle, k: nat, e: Xml, at: nat, w: World)
    requires FlatSequence(p) && k <= |p.items| && at <= |e.children| && InOrder(p, k, e, 0, at, w)
             && Splits(p.items, k, e, at)
    ensures Splits(p.items, 0, e, 0)
    decreases k
  {
    if k > 0 {
      var it := p.items[k - 1];
      var mid: nat :| mid <= at && InOrder(p, k - 1, e, 0, mid, w) && Matches(it, e, mid, at, w);
      var c := MatchesRun(it, e, mid, at, w);
      assert Within(it, c) && RunOf(e, mid, c, it.decl.qname) && Splits(p.items, k, e, mid + c);
      InOrderSplits(p, k - 1, e, mid, w);
    }
  }

  lemma LastOnce(p: Particle, n: nat, e: Xml, lo: nat, hi: nat, w: World)
    requires lo <= hi <= |e.children| && n == 1 && Repeats(p, n, e, lo, hi, w)
    ensures Once(p, e, lo, hi, w)
  {
    var mid :| lo <= mid <= hi && Repeats(p, n - 1, e, lo, mid, w) && Once(p, e, mid, hi, w);
  }

  lemma MatchesSplits(p: Particle, e: Xml, w: World)
    requires FlatSequence(p) && Matches(p, e, 0, |e.children|, w)
    ensures Splits(p.items, 0, e, 0)
  {
    var n: nat :| p.min <= n && (p.max.Some? ==> n <= p.max.value) && Repeats(p, n, e, 0, |e.children|, w);
    LastOnce(p, n, e, 0, |e.children|, w);
    InOrderSplits(p, |p.items|, e, |e.children|, w);
  }

  /** On a flat type, with children fine in themselves, content is accepted exactly if it conforms. */
  lemma FlatAcceptsConforms(e: Xml, d: Decl, w: World)
    requires w.maxErrors >= 1 && FlatType(e, d, w) && e.children != [] && ChildrenFine(ParticleOf(e, d, w), e, 0, w)
    ensures Accepts(e, d, w) <==> Conforms(e, d, w)
  {
    var p := ParticleOf(e, d, w);
    if Accepts(e, d, w) { AcceptedConforms(e, d, w); }
    if Conforms(e, d, w) {
      MatchesSplits(p, e, w);
      FlatExact(p, e, 0, 0, w);
      ParticleClean(p, e, 0, w);
      hide MatchParticle, Splits;
      assert MatchParticle(p, e, 0, 0, 0, w) == Outcome(Some(|e.children|), 0);
      assert CheckComplex(e, w.types[d.typ.name].content, 0, 0, w) == 0;
      assert CheckType(e, d.typ, 0, 0, w) == 0;
    }
  }

  // ----- nil and text

  /** A nil element is accepted exactly if its declaration lets it be and it holds nothing. */
  lemma NilExact(e: Xml, d: Decl, w: World)
    requires w.maxErrors >= 1 && e.nil
    ensures Accepts(e, d, w) <==> d.nillable && e.children == [] && e.text == []
  {
    hide CheckType;
  }

  /** An accepted element has the fixed value of its declaration, if there is one. */
  lemma FixedHeld(e: Xml, d: Decl, w: World)
    requires w.maxErrors >= 1 && !e.nil && Accepts(e, d, w)
    ensures d.fixed.Some? ==> e.text == d.fixed.value
  {
    hide CheckType;
  }

  /** Text beside child elements is accepted in mixed content only, and a simple value has no child elements. */
  lemma TextHeld(e: Xml, d: Decl, w: World)
    requires w.maxErrors >= 1 && !e.nil && Accepts(e, d, w) && d.typ.Named? && d.typ.name in w.types
    ensures w.types[d.typ.name].SimpleType? ==> e.children == [] && w.lib.valueIssues(e, d.typ) == 0
    ensures w.types[d.typ.name].Complex? ==>
              var c := w.types[d.typ.name].content;
              && w.lib.attributeIssues(e, c) == 0
              && (c.textType.Some? ==> e.children == [] && w.lib.valueIssues(e, c.textType.value) == 0)
              && (c.textType.None? && !c.mixed && e.text != [] ==> c.particle.Some? && e.children == [])
  {
    hide MatchParticle;
    assert CheckElement(e, d, 0, 0, w) == CheckType(e, d.typ, 0, 0, w);
    if w.types[d.typ.name].Complex? {
      assert CheckType(e, d.typ, 0, 0, w) == CheckComplex(e, w.types[d.typ.name].content, 0, 0, w);
    } else {
      assert CheckType(e, d.typ, 0, 0, w) == CheckSimple(e, d.typ, 0, w);
    }
  }
}

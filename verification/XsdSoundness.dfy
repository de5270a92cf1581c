/**
 Soundness of the matcher for every content model: a run that reports nothing has seen, at every
 checked element, a child sequence in the language of its particle.
 */
module XsdSoundness {
  import opened Text
  import opened XsdModel

  lemma NoRepetition(p: Particle, e: Xml, at: nat, w: World)
    requires at <= |e.children| && p.min == 0
    ensures Matches(p, e, at, at, w)
  {
    assert Repeats(p, 0, e, at, at, w);
  }

  lemma {:induction false} ElementSound(e: Xml, d: Decl, depth: nat, w: World)
    requires w.maxErrors >= 1 && CheckElement(e, d, depth, 0, w) == 0
    ensures Conforms(e, d, w)
    decreases e, 2
  {
    if !e.nil && d.typ.Named? && d.typ.name in w.types && w.types[d.typ.name].Complex? {
      var c := w.types[d.typ.name].content;
      assert CheckComplex(e, c, depth, 0, w) == 0;
      if c.textType.None? && c.particle.Some? {
        var r := MatchParticle(c.particle.value, e, 0, depth, 0, w);
        assert r.end.Some? && r.issues == 0 by {
          if r.end.None? { FailureReported(c.particle.value, e, 0, depth, 0, w); }
        }
        ParticleSound(c.particle.value, e, 0, depth, w);
      }
    }
  }

  /** A particle that is not matched is reported. */
  lemma FailureReported(p: Particle, e: Xml, start: nat, depth: nat, n: nat, w: World)
    requires start <= |e.children| && n < w.maxErrors
    ensures MatchParticle(p, e, start, depth, n, w).end.None? ==> MatchParticle(p, e, start, depth, n, w).issues > n
  {
    LoopReports(p, e, start, 0, depth, n, w);
  }

  lemma {:induction false} LoopReports(p: Particle, e: Xml, index: nat, reps: nat, depth: nat, n: nat, w: World)
    requires index <= |e.children|
    ensures var r := MatchLoop(p, e, index, reps, depth, n, w); r.end.None? && n < w.maxErrors ==> r.issues > n
    decreases |e.children| - index
  {
    if Below(reps, p.max) && !(reps >= p.min && !CanStart(p, e, index)) {
      var m := MatchOnce(p, e, index, depth, n, w);
      if m.end.Some? && !(m.end.value == index && !p.Element?) {
        LoopReports(p, e, m.end.value, reps + 1, depth, m.issues, w);
      }
    }
  }

  lemma {:induction false} ParticleSound(p: Particle, e: Xml, start: nat, depth: nat, w: World)
    requires w.maxErrors >= 1 && start <= |e.children|
    requires var r := MatchParticle(p, e, start, depth, 0, w); r.issues == 0 && r.end.Some?
    ensures Matches(p, e, start, MatchParticle(p, e, start, depth, 0, w).end.value, w)
    decreases e, 0, p, 3
  {
    assert Repeats(p, 0, e, start, start, w);
    LoopSound(p, e, start, start, 0, depth, w);
  }

  lemma {:induction false} LoopSound(p: Particle, e: Xml, origin: nat, index: nat, reps: nat, depth: nat, w: World)
    requires w.maxErrors >= 1 && origin <= index <= |e.children|
    requires Repeats(p, reps, e, origin, index, w) && (p.max.Some? && reps > 0 ==> reps <= p.max.value)
    requires var r := MatchLoop(p, e, index, reps, depth, 0, w); r.issues == 0 && r.end.Some?
    ensures Matches(p, e, origin, MatchLoop(p, e, index, reps, depth, 0, w).end.value, w)
    decreases e, 0, p, 2, |e.children| - index
  {
    if Below(reps, p.max) && !(reps >= p.min && !CanStart(p, e, index)) {
      var m := MatchOnce(p, e, index, depth, 0, w);
      if m.end.Some? && !(m.end.value == index && !p.Element?) {
        OnceSound(p, e, index, depth, w);
        assert Repeats(p, reps + 1, e, origin, m.end.value, w);
        LoopSound(p, e, origin, m.end.value, reps + 1, depth, w);
      }
    }
  }

  lemma {:induction false} OnceSound(p: Particle, e: Xml, start: nat, depth: nat, w: World)
    requires w.maxErrors >= 1 && start <= |e.children|
    requires var r := MatchOnce(p, e, start, depth, 0, w); r.issues == 0 && r.end.Some?
    ensures Once(p, e, start, MatchOnce(p, e, start, depth, 0, w).end.value, w)
    decreases e, 0, p, 1
  {
    match p {
      case Element(_, _, d) => ElementSound(e.children[start], d, depth + 1, w);
      case Wildcard(_, _) =>
      case Group(Sequence, _, _, _) => SequenceSound(p, 0, e, start, start, depth, w);
      case Group(Choice, _, _, _) => ChoiceSound(p, 0, e, start, depth, w);
      case Group(Every, _, _, _) => EverySound(p, [], {}, e, start, start, depth, w);
    }
  }

  lemma {:induction false} SequenceSound(p: Particle, k: nat, e: Xml, origin: nat, index: nat, depth: nat, w: World)
    requires w.maxErrors >= 1 && p.Group? && k <= |p.items| && origin <= index <= |e.children|
    requires InOrder(p, k, e, origin, index, w)
    requires var r := MatchSequence(p, k, e, index, depth, 0, w); r.issues == 0 && r.end.Some?
    ensures InOrder(p, |p.items|, e, origin, MatchSequence(p, k, e, index, depth, 0, w).end.value, w)
    decreases e, 0, p, 0, |p.items| - k
  {
    if k < |p.items| {
      var m := MatchParticle(p.items[k], e, index, depth, 0, w);
      ParticleSound(p.items[k], e, index, depth, w);
      assert InOrder(p, k + 1, e, origin, m.end.value, w);
      SequenceSound(p, k + 1, e, origin, m.end.value, depth, w);
    }
  }

  lemma {:induction false} ChoiceSound(p: Particle, k: nat, e: Xml, start: nat, depth: nat, w: World)
    requires w.maxErrors >= 1 && p.Group? && k <= |p.items| && start <= |e.children|
    requires var r := MatchChoice(p, k, e, start, depth, 0, w); r.issues == 0 && r.end.Some?
    ensures exists i ::
              0 <= i < |p.items| && Matches(p.items[i], e, start, MatchChoice(p, k, e, start, depth, 0, w).end.value, w)
    decreases e, 0, p, 0, |p.items| - k
  {
    if k == |p.items| {
      var i :| 0 <= i < |p.items| && p.items[i].min == 0;
      NoRepetition(p.items[i], e, start, w);
    } else if !CanStart(p.items[k], e, start) {
      ChoiceSound(p, k + 1, e, start, depth, w);
    } else {
      var m := MatchParticle(p.items[k], e, start, depth, 0, w);
      if m.end.Some? {
        ParticleSound(p.items[k], e, start, depth, w);
      } else {
        ChoiceSound(p, k + 1, e, start, depth, w);
      }
    }
  }

  ghost predicate Lists(order: seq<nat>, seen: set<nat>, items: seq<Particle>) {
    && (forall i :: 0 <= i < |order| ==> order[i] < |items|)
    && (forall i, j :: 0 <= i < j < |order| ==> order[i] != order[j])
    && (forall i :: i in order <==> i in seen)
  }

  lemma {:induction false} EverySound(p: Particle, order: seq<nat>, seen: set<nat>, e: Xml, origin: nat, index: nat,
                                      depth: nat, w: World)
    requires w.maxErrors >= 1 && p.Group? && origin <= index <= |e.children| && Lists(order, seen, p.items)
    requires InSome(p, order, e, origin, index, w)
    requires var r := MatchEvery(p, seen, e, index, depth, 0, w); r.issues == 0 && r.end.Some?
    ensures var end := MatchEvery(p, seen, e, index, depth, 0, w).end.value;
            exists o: seq<nat> :: IsOrder(o, p.items, e, end, w) && InSome(p, o, e, origin, end, w)
    decreases e, 0, p, 0, |e.children| - index
  {
    if index >= |e.children| {
      MissingSound(p, order, seen, e, origin, index, w);
    } else {
      var item := Chosen(p.items, e.children[index].qname);
      if item.None? || item.value >= |p.items| || item.value in seen {
        MissingSound(p, order, seen, e, origin, index, w);
      } else {
        var it := p.items[item.value];
        var m := MatchParticle(it, e, index, depth, 0, w);
        FailureReported(it, e, index, depth, 0, w);
        assert m.issues == 0;
        ParticleSound(it, e, index, depth, w);
        var longer := order + [item.value];
        assert longer[..|longer| - 1] == order && longer[|longer| - 1] == item.value;
        assert Matches(p.items[item.value], e, index, m.end.value, w);
        assert InSome(p, longer, e, origin, m.end.value, w);
        if m.end.value == index {
          MissingSound(p, longer, seen + {item.value}, e, origin, index, w);
        } else {
          EverySound(p, longer, seen + {item.value}, e, origin, m.end.value, depth, w);
        }
      }
    }
  }

  lemma MissingSound(p: Particle, order: seq<nat>, seen: set<nat>, e: Xml, origin: nat, index: nat, w: World)
    requires p.Group? && origin <= index <= |e.children| && Lists(order, seen, p.items)
    requires InSome(p, order, e, origin, index, w) && Missing(p, seen, index, 0, w).end.Some?
    ensures exists o: seq<nat> :: IsOrder(o, p.items, e, index, w) && InSome(p, o, e, origin, index, w)
  {
    forall i | 0 <= i < |p.items| && i !in order ensures Matches(p.items[i], e, index, index, w) {
      NoRepetition(p.items[i], e, index, w);
    }
    assert IsOrder(order, p.items, e, index, w);
  }

  /** A document the validator accepts conforms, at every element it checks. */
  lemma AcceptedConforms(root: Xml, d: Decl, w: World)
    requires w.maxErrors >= 1 && Accepts(root, d, w)
    ensures Conforms(root, d, w)
  {
    ElementSound(root, d, 0, w);
  }
}

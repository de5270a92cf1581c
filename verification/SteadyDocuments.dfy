/**
 A condition on the document alone under which compiling keeps the meaning for every value: nothing
 the schema leads to, level by level, is an untyped nullable schema or a `false` at the last level.
 */
module SteadyDocuments {
  import opened Text
  import opened Json
  import opened SchemaNodes
  import opened SchemaValidity
  import opened SchemaSource
  import opened SchemaImage
  import opened CompilerState
  import opened CompilerSafety
  import opened BundleMeaning

  function Remaining(depth: nat, max: nat): nat { if depth > max then 0 else max + 1 - depth }

  predicate Steady(s: Source, depth: nat, doc: Document, max: nat)
    decreases Remaining(depth, max), 0
  {
    depth <= max ==>
      if !s.Shape? then Accepting(s) || depth < max
      else
        && !LooseNull(s, doc)
        && (s.ref.Some? && s.ref.value in doc.components ==> Steady(doc.components[s.ref.value], depth + 1, doc, max))
        && SteadyInside(s.inside, depth + 1, doc, max) && SteadyLogic(s.logic, depth + 1, doc, max)
  }

  predicate SteadyMaybe(o: Option<Source>, depth: nat, doc: Document, max: nat)
    decreases Remaining(depth, max), 1
  {
    o.Some? ==> Steady(o.value, depth, doc, max)
  }

  predicate SteadyAll(ss: seq<Source>, depth: nat, doc: Document, max: nat)
    decreases Remaining(depth, max), 1
  {
    forall k :: 0 <= k < |ss| ==> Steady(ss[k], depth, doc, max)
  }

  predicate SteadyMany(m: Many, depth: nat, doc: Document, max: nat)
    decreases Remaining(depth, max), 2
  {
    m.Given? ==> SteadyAll(m.list, depth, doc, max)
  }

  predicate SteadyChildren(cs: seq<Child>, depth: nat, doc: Document, max: nat)
    decreases Remaining(depth, max), 1
  {
    forall k :: 0 <= k < |cs| ==> Steady(cs[k].schema, depth, doc, max)
  }

  predicate SteadyInside(i: Inside, depth: nat, doc: Document, max: nat)
    decreases Remaining(depth, max), 3
  {
    && SteadyMany(Leading(i), depth, doc, max) && (i.items.Each? ==> Steady(i.items.item, depth, doc, max))
    && SteadyMaybe(i.contains, depth, doc, max)
    && SteadyChildren(i.properties, depth, doc, max) && SteadyChildren(i.patterns, depth, doc, max)
    && SteadyMaybe(i.additional, depth, doc, max) && SteadyMaybe(i.names, depth, doc, max)
  }

  predicate SteadyLogic(l: Logic, depth: nat, doc: Document, max: nat)
    decreases Remaining(depth, max), 3
  {
    && SteadyAll(l.allOf, depth, doc, max) && SteadyMany(l.anyOf, depth, doc, max)
    && SteadyMany(l.oneOf, depth, doc, max)
    && SteadyMaybe(l.negated, depth, doc, max) && SteadyMaybe(l.test, depth, doc, max)
    && SteadyMaybe(l.consequent, depth, doc, max) && SteadyMaybe(l.otherwise, depth, doc, max)
  }

  // ----- every value is calm

  /** At one level, what is steady is calm on every value. */
  ghost predicate CalmFor(depth: nat, doc: Document, w: World) {
    forall v: Json, s: Source {:trigger Calm(v, s, depth, doc, w)} ::
      Steady(s, depth, doc, w.maxDepth) ==> Calm(v, s, depth, doc, w)
  }

  lemma {:induction false} SteadyIsCalm(v: Json, s: Source, depth: nat, doc: Document, w: World)
    requires Steady(s, depth, doc, w.maxDepth)
    ensures Calm(v, s, depth, doc, w)
    decreases Left(depth, w), 0
  {
    hide CalmParts, CalmLogic, SteadyInside, SteadyLogic, LooseNull;
    if depth <= w.maxDepth && s.Shape? {
      CalmNext(depth, doc, w);
      PartsCalm(v, s.inside, depth, doc, w);
      LogicCalm(v, s.logic, depth, doc, w);
      assert CalmBelow(v, s, depth, doc, w);
    }
  }

  lemma {:induction false} CalmNext(depth: nat, doc: Document, w: World)
    requires depth <= w.maxDepth
    ensures CalmFor(depth + 1, doc, w)
    decreases Left(depth + 1, w), 1
  {
    hide Calm, Steady;
    forall v: Json, s: Source {:trigger Calm(v, s, depth + 1, doc, w)} | Steady(s, depth + 1, doc, w.maxDepth)
      ensures Calm(v, s, depth + 1, doc, w)
    {
      SteadyIsCalm(v, s, depth + 1, doc, w);
    }
  }

  lemma PartsCalm(v: Json, i: Inside, depth: nat, doc: Document, w: World)
    requires depth <= w.maxDepth && SteadyInside(i, depth + 1, doc, w.maxDepth) && CalmFor(depth + 1, doc, w)
    ensures CalmParts(v, i, depth, doc, w)
  {
    hide Calm, Steady, Leading, CalmItems, CalmMember, SteadyInside;
    match v {
      case Arr(items) => ItemsCalm(items, i, depth, doc, w);
      case Obj(members) =>
        forall k | 0 <= k < |members| ensures CalmMember(members[k], i, depth, doc, w) {
          MemberCalm(members[k], i, depth, doc, w);
        }
      case _ =>
    }
  }

  lemma ItemsCalm(items: seq<Json>, i: Inside, depth: nat, doc: Document, w: World)
    requires depth <= w.maxDepth && SteadyInside(i, depth + 1, doc, w.maxDepth) && CalmFor(depth + 1, doc, w)
    ensures CalmItems(items, i, depth, doc, w)
  {
    hide Calm, Steady, Leading, SteadyChildren;
    var max := w.maxDepth;
    assert SteadyMany(Leading(i), depth + 1, doc, max) && SteadyMaybe(i.contains, depth + 1, doc, max);
    assert Leading(i).Given? ==> SteadyAll(Leading(i).list, depth + 1, doc, max);
  }

  lemma MemberCalm(m: Member, i: Inside, depth: nat, doc: Document, w: World)
    requires depth <= w.maxDepth && SteadyInside(i, depth + 1, doc, w.maxDepth) && CalmFor(depth + 1, doc, w)
    ensures CalmMember(m, i, depth, doc, w)
  {
    hide Calm, Steady, Leading, SteadyMany, FindChild, Declared;
    var max := w.maxDepth;
    assert SteadyChildren(i.properties, depth + 1, doc, max) && SteadyChildren(i.patterns, depth + 1, doc, max);
    assert SteadyMaybe(i.additional, depth + 1, doc, max) && SteadyMaybe(i.names, depth + 1, doc, max);
    assert CalmMaybe(Str(m.key), i.names, depth + 1, doc, w) && CalmMaybe(m.value, i.additional, depth + 1, doc, w);
  }

  lemma LogicCalm(v: Json, l: Logic, depth: nat, doc: Document, w: World)
    requires depth <= w.maxDepth && SteadyLogic(l, depth + 1, doc, w.maxDepth) && CalmFor(depth + 1, doc, w)
    ensures CalmLogic(v, l, depth, doc, w)
  {
    hide Calm, Steady, SteadyAll, SteadyMany, SteadyMaybe, CalmAll, CalmMany, CalmMaybe;
    AllCalm(v, l.allOf, depth + 1, doc, w);
    ManyCalm(v, l.anyOf, depth + 1, doc, w);
    ManyCalm(v, l.oneOf, depth + 1, doc, w);
    MaybeCalm(v, l.negated, depth + 1, doc, w);
    MaybeCalm(v, l.test, depth + 1, doc, w);
    MaybeCalm(v, l.consequent, depth + 1, doc, w);
    MaybeCalm(v, l.otherwise, depth + 1, doc, w);
  }

  lemma AllCalm(v: Json, ss: seq<Source>, depth: nat, doc: Document, w: World)
    requires CalmFor(depth, doc, w)
    ensures SteadyAll(ss, depth, doc, w.maxDepth) ==> CalmAll(v, ss, depth, doc, w)
  {
    hide Calm, Steady;
  }

  lemma ManyCalm(v: Json, m: Many, depth: nat, doc: Document, w: World)
    requires CalmFor(depth, doc, w)
    ensures SteadyMany(m, depth, doc, w.maxDepth) ==> CalmMany(v, m, depth, doc, w)
  {
    hide CalmAll, SteadyAll, CalmFor;
    if m.Given? { AllCalm(v, m.list, depth, doc, w); }
  }

  lemma MaybeCalm(v: Json, o: Option<Source>, depth: nat, doc: Document, w: World)
    requires CalmFor(depth, doc, w)
    ensures SteadyMaybe(o, depth, doc, w.maxDepth) ==> CalmMaybe(v, o, depth, doc, w)
  {
    hide Calm, Steady;
  }

  // ----- the results

  /** A steady schema means for every value what its compiled form does. */
  lemma SteadyMeans(s: Source, depth: nat, keys: set<Text>, doc: Document, w: World)
    requires Complete(keys, doc, w) && Refs(s) <= keys && Steady(s, depth, doc, w.maxDepth)
    ensures forall v: Json :: Valid(v, Image(s, doc), depth, w) <==> Satisfies(v, s, depth, doc, w)
  {
    hide Image, Valid, Satisfies, Calm, Refs, Steady;
    forall v: Json ensures Valid(v, Image(s, doc), depth, w) <==> Satisfies(v, s, depth, doc, w) {
      SteadyIsCalm(v, s, depth, doc, w);
      MeaningPreserved(v, s, depth, keys, doc, w);
    }
  }

  /** So does the definition of a hoisted one, after any hoists, if all its references are remembered. */
  lemma SteadyDefinitionMeans(defs: Defs, memo: Memo, hoisted: seq<Source>, doc: Document, k: nat, w: World)
    requires Honest(defs, memo, {}, hoisted, doc) && k < |hoisted| && Rests(hoisted[k], memo, doc)
    requires w.defs == defs && Steady(hoisted[k], 0, doc, w.maxDepth)
    ensures InlineName(k) in defs
    ensures forall v: Json :: Valid(v, defs[InlineName(k)], 0, w) <==> Satisfies(v, hoisted[k], 0, doc, w)
  {
    hide Image, NameOf, InlineName, Refs, Valid, Satisfies, Calm, Steady;
    var keys: set<Text> :| RestsOn(hoisted[k], keys, memo, doc);
    assert Complete(keys, doc, w);
    SteadyMeans(hoisted[k], 0, keys, doc, w);
  }

  // ----- a schema that reaches the last level

  /** `false` inside n layers of `allOf`. */
  function Wrapped(n: nat): Source {
    if n == 0 then Truth(false) else Layer(Wrapped(n - 1))
  }

  function Layer(s: Source): Source { Shape(None, false, NO_OWN, NO_INSIDE, NO_LOGIC.(allOf := [s])) }

  /**
   Nothing satisfies it; compiled, it accepts everything if its `false` comes to lie at the last level,
   and nothing otherwise. From level 0 that takes as many layers as the bound, and such a schema
   compiles. It is steady in all other cases.
   */
  lemma {:induction false} WrappedFalse(v: Json, n: nat, depth: nat, doc: Document, w: World)
    ensures Valid(v, Image(Wrapped(n), doc), depth, w) <==> depth + n == w.maxDepth
    ensures !Satisfies(v, Wrapped(n), depth, doc, w)
    ensures Fine(Wrapped(n), depth, w.maxDepth, doc) <==> depth + n <= w.maxDepth
    ensures Steady(Wrapped(n), depth, doc, w.maxDepth) <==> depth + n != w.maxDepth
    decreases n
  {
    if n == 0 {
      FalseAtTheBound(v, depth, doc, w);
    } else {
      hide Wrapped, Valid, Satisfies, Fine, Steady;
      WrappedFalse(v, n - 1, depth + 1, doc, w);
      WrappedLayer(n);
      LayerAccepts(v, Wrapped(n - 1), depth, doc, w);
      LayerSteady(Wrapped(n - 1), depth, doc, w.maxDepth);
    }
  }

  lemma WrappedLayer(n: nat)
    requires n > 0
    ensures Wrapped(n) == Layer(Wrapped(n - 1))
  {
  }

  lemma LayerAccepts(v: Json, s: Source, depth: nat, doc: Document, w: World)
    ensures Valid(v, Image(Layer(s), doc), depth, w) <==>
            depth <= w.maxDepth && Valid(v, Image(s, doc), depth + 1, w)
    ensures Satisfies(v, Layer(s), depth, doc, w) ==> Satisfies(v, s, depth + 1, doc, w)
  {
    var n := Image(Layer(s), doc);
    assert Images([s], doc) == [Image(s, doc)];
    assert n == EMPTY.(allOf := [Image(s, doc)]) by { LayerImage(s, doc); }
    hide Image;
    if depth <= w.maxDepth { AllOfAlone(v, n, Image(s, doc), depth, w); }
    if Satisfies(v, Layer(s), depth, doc, w) {
      assert Heeds(v, Layer(s), depth, doc, w);
      assert LogicHeeded(v, Layer(s).logic, depth, doc, w);
      assert MeetsAll(v, [s], depth, doc, w);
      assert [s][0] == s;
    }
  }

  lemma LayerImage(s: Source, doc: Document)
    ensures Image(Layer(s), doc) == EMPTY.(allOf := Images([s], doc))
  {
    assert Layer(s).own == NO_OWN;
    assert NamedTypes(NO_OWN) == [];
    assert ScalarImage(NO_OWN, doc.legacy) == NO_SCALAR;
    assert ChildImages([], doc) == [];
  }

  lemma AllOfAlone(v: Json, n: Node, x: Node, depth: nat, w: World)
    requires depth <= w.maxDepth && n == EMPTY.(allOf := [x])
    ensures Valid(v, n, depth, w) <==> Valid(v, x, depth + 1, w)
  {
    AllOfByType(v, n, depth, w);
    OneOnly(v, x, depth, w);
    hide ByType, EveryOne;
    assert Beside(v, n, depth, w) <==> Applicators(v, n, depth, w);
    assert Applicators(v, n, depth, w) <==> EveryOne(v, n.allOf, depth, w);
  }

  lemma OneOnly(v: Json, x: Node, depth: nat, w: World)
    requires depth <= w.maxDepth
    ensures EveryOne(v, [x], depth, w) <==> Valid(v, x, depth + 1, w)
  {
    hide Valid;
    assert [x][0] == x;
  }

  lemma AllOfByType(v: Json, n: Node, depth: nat, w: World)
    requires depth <= w.maxDepth && n == EMPTY.(allOf := n.allOf)
    ensures ByType(v, n, depth, w)
  {
    hide Valid;
    match v {
      case Str(text) => assert StringValid(text, NO_SCALAR, w);
      case Num(lexeme) => assert NumberValid(lexeme, NO_SCALAR, w);
      case Arr(items) => assert ArrayValid(items, n, depth, w);
      case Obj(members) =>
        forall i | 0 <= i < |members| ensures MemberValid(members[i], n, depth, w) {}
        assert ObjectValid(members, n, depth, w);
      case _ =>
    }
  }

  lemma LayerSteady(s: Source, depth: nat, doc: Document, max: nat)
    ensures Fine(Layer(s), depth, max, doc) <==> depth <= max && Fine(s, depth + 1, max, doc)
    ensures Steady(Layer(s), depth, doc, max) <==> (depth <= max ==> Steady(s, depth + 1, doc, max))
  {
    assert !LooseNull(Layer(s), doc) by { assert !Layer(s).nullable; }
    var l := Layer(s).logic;
    assert l.allOf == [s] && [s][0] == s;
    assert FineAll([s], depth + 1, max, doc) <==> Fine(s, depth + 1, max, doc);
    assert FineLogic(l, depth + 1, max, doc) <==> FineAll([s], depth + 1, max, doc);
    NothingInside(depth + 1, doc, max);
    assert SteadyAll([s], depth + 1, doc, max) <==> Steady(s, depth + 1, doc, max);
    assert SteadyLogic(l, depth + 1, doc, max) <==> SteadyAll([s], depth + 1, doc, max);
  }

  lemma NothingInside(depth: nat, doc: Document, max: nat)
    ensures FineInside(NO_INSIDE, depth, max, doc) && SteadyInside(NO_INSIDE, depth, doc, max)
  {
    assert FineMany(Absent, depth, max, doc) && FineItems(NoItems, depth, max, doc) && FineMaybe(None, depth, max, doc);
    assert FineChildren([], false, depth, max, doc) && FineChildren([], true, depth, max, doc);
    assert SteadyMany(Absent, depth, doc, max) && SteadyMaybe(None, depth, doc, max);
    assert SteadyChildren([], depth, doc, max) && Leading(NO_INSIDE) == Absent;
  }
}

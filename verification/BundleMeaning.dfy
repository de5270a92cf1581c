/**
 What a compiled bundle is worth: every definition is the compiled form of a schema of the
 document, every reference in it finds a definition, and a definition accepts what its source does;
 and the inputs at which one of these fails.
 */
module BundleMeaning {
  import opened Text
  import opened Json
  import opened Canonical
  import opened SchemaNodes
  import opened SchemaValidity
  import opened SchemaSource
  import opened SchemaImage
  import opened CompilerState
  import opened CompilerSafety

  /** The schema is a component or one that was hoisted. */
  predicate Belongs(s: Source, hoisted: seq<Source>, doc: Document) { s in doc.components.Values || s in hoisted }

  /** No definition is a placeholder, even after compilations that threw. */
  lemma EveryDefinitionCompiled(defs: Defs, memo: Memo, hoisted: seq<Source>, doc: Document, name: Text)
    requires Honest(defs, memo, {}, hoisted, doc) && name in defs
    ensures exists s :: Belongs(s, hoisted, doc) && defs[name] == Image(s, doc)
  {
    hide Image, NameOf, InlineName;
    if IsComponent(name, memo.Keys) {
      var p :| p in memo.Keys && NameOf(p) == name;
      assert Belongs(doc.components[p], hoisted, doc);
    } else {
      assert IsInline(name, |hoisted|);
      var k: nat :| k < |hoisted| && InlineName(k) == name;
      assert Belongs(hoisted[k], hoisted, doc);
    }
  }

  /** Everything the schema leads to is remembered. */
  ghost predicate Rests(s: Source, memo: Memo, doc: Document) {
    exists keys: set<Text> :: RestsOn(s, keys, memo, doc)
  }

  ghost predicate RestsOn(s: Source, keys: set<Text>, memo: Memo, doc: Document) {
    Refs(s) <= keys <= memo.Keys && forall p :: p in keys ==> p in doc.components && Refs(doc.components[p]) <= keys
  }

  /**
   After any hoists, throwing ones included: a definition all of whose references are remembered
   accepts exactly what its source does.
   */
  lemma DefinitionMeans(defs: Defs, memo: Memo, hoisted: seq<Source>, doc: Document, k: nat, v: Json, depth: nat,
                        w: World)
    requires Honest(defs, memo, {}, hoisted, doc) && k < |hoisted| && Rests(hoisted[k], memo, doc)
    requires w.defs == defs && Calm(v, hoisted[k], depth, doc, w)
    ensures InlineName(k) in defs
    ensures Valid(v, defs[InlineName(k)], depth, w) <==> Satisfies(v, hoisted[k], depth, doc, w)
  {
    hide Image, NameOf, InlineName, Refs, Valid, Satisfies, Calm;
    var keys: set<Text> :| RestsOn(hoisted[k], keys, memo, doc);
    assert Complete(keys, doc, w);
    MeaningPreserved(v, hoisted[k], depth, keys, doc, w);
  }

  /** While the bundle is closed, that is every definition. */
  lemma ClosedRests(memo: Memo, hoisted: seq<Source>, doc: Document, k: nat)
    requires Closed(memo, {}, doc) && Reached(memo, hoisted) && k < |hoisted|
    ensures Rests(hoisted[k], memo, doc)
  {
    hide Refs;
    assert RestsOn(hoisted[k], memo.Keys, memo, doc);
  }

  /**
   Closedness is exactly what the hoists to come depend on: whatever succeeds from here has all its
   references remembered if and only if the bundle is closed now.
   */
  lemma ClosedExactly(b: Bundle, hoisted: seq<Source>, max: nat, doc: Document)
    requires NamesDistinct(doc) && Honest(b.defs, b.memo, {}, hoisted, doc)
    ensures Closed(b.memo, {}, doc) <==>
            forall s :: Visit(s, 0, b, max, doc).ok ==> Rests(s, Visit(s, 0, b, max, doc).bundle.memo, doc)
  {
    hide Honest, NamesDistinct, Visit, Refs, Rests;
    if Closed(b.memo, {}, doc) {
      forall s | Visit(s, 0, b, max, doc).ok ensures Rests(s, Visit(s, 0, b, max, doc).bundle.memo, doc) {
        HoistKeeps(s, b, hoisted, max, doc);
        var after := Visit(s, 0, b, max, doc).bundle.memo;
        KeysRest(s, after, doc);
      }
    } else {
      MemoKnown(b, hoisted, doc);
      var p :| p in b.memo && !(Refs(doc.components[p]) <= b.memo.Keys);
      var s := RefTo(p);
      RefVisited(p, 0, b, max, doc);
      KnownVisited(p, b, s, max, doc);
      DoesNotRest(p, b.memo, doc);
    }
  }

  lemma KeysRest(s: Source, memo: Memo, doc: Document)
    requires Closed(memo, {}, doc) && Refs(s) <= memo.Keys
    ensures Rests(s, memo, doc)
  {
    hide Refs;
    assert RestsOn(s, memo.Keys, memo, doc);
  }

  lemma MemoKnown(b: Bundle, hoisted: seq<Source>, doc: Document)
    requires NamesDistinct(doc) && Honest(b.defs, b.memo, {}, hoisted, doc)
    ensures forall p :: p in b.memo ==> p in doc.components && Local(p)
  {
    hide Image, NameOf, InlineName;
  }

  lemma DoesNotRest(p: Text, memo: Memo, doc: Document)
    requires p in doc.components && !(Refs(doc.components[p]) <= memo.Keys) && Refs(RefTo(p)) == {p}
    ensures !Rests(RefTo(p), memo, doc)
  {
    hide Refs;
    assert p in Refs(RefTo(p));
  }

  // ----- references resolve

  /** Every reference among the first `levels` levels of subschemas names a definition. */
  predicate Resolves(n: Node, levels: nat, names: set<Text>)
    decreases levels, 0
  {
    levels > 0 ==>
      && (n.ref.Some? ==> n.ref.value in names)
      && ResolvesMany(n.prefix, levels - 1, names) && ResolvesMaybe(n.items, levels - 1, names)
      && ResolvesMaybe(n.contains, levels - 1, names)
      && ResolvesEntries(n.properties, levels - 1, names) && ResolvesEntries(n.patterns, levels - 1, names)
      && ResolvesMaybe(n.additional, levels - 1, names) && ResolvesMaybe(n.names, levels - 1, names)
      && ResolvesAll(n.allOf, levels - 1, names) && ResolvesMany(n.anyOf, levels - 1, names)
      && ResolvesMany(n.oneOf, levels - 1, names) && ResolvesMaybe(n.negated, levels - 1, names)
      && ResolvesMaybe(n.test, levels - 1, names) && ResolvesMaybe(n.consequent, levels - 1, names)
      && ResolvesMaybe(n.otherwise, levels - 1, names)
  }

  predicate ResolvesMaybe(o: Option<Node>, levels: nat, names: set<Text>)
    decreases levels, 1
  {
    o.Some? ==> Resolves(o.value, levels, names)
  }

  predicate ResolvesAll(ns: seq<Node>, levels: nat, names: set<Text>)
    decreases levels, 1
  {
    forall k :: 0 <= k < |ns| ==> Resolves(ns[k], levels, names)
  }

  predicate ResolvesMany(m: Option<seq<Node>>, levels: nat, names: set<Text>)
    decreases levels, 2
  {
    m.Some? ==> ResolvesAll(m.value, levels, names)
  }

  predicate ResolvesEntries(es: seq<Entry>, levels: nat, names: set<Text>)
    decreases levels, 1
  {
    forall k :: 0 <= k < |es| ==> Resolves(es[k].node, levels, names)
  }

  /** The names of these components are all among the names. */
  ghost predicate Named(keys: set<Text>, names: set<Text>) { forall p :: p in keys ==> NameOf(p) in names }

  lemma {:induction false} ImageResolves(s: Source, levels: nat, names: set<Text>, doc: Document)
    requires Named(Refs(s), names)
    ensures Resolves(Image(s, doc), levels, names)
    decreases levels, 4
  {
    if levels == 0 || !s.Shape? || (s.ref.Some? && NoSiblings(s)) {
      SmallResolves(s, levels, names, doc);
    } else {
      RefsOfShape(s, names, doc);
      InsideResolves(s, levels - 1, names, doc);
      LogicResolves(s.logic, levels - 1, names, doc);
      ImageFields(s, doc);
      hide Image, TypesImage, ScalarImage, LeadingImage, ItemsImage, MaybeImage, ManyImage, Images, ChildImages,
           NamedTypes, NameOf, Refs, ResolvesMaybe, ResolvesAll, ResolvesMany, ResolvesEntries, InsideRefs, LogicRefs;
    }
  }

  lemma RefsOfShape(s: Source, names: set<Text>, doc: Document)
    requires s.Shape? && Named(Refs(s), names)
    ensures Named(InsideRefs(s.inside), names) && Named(LogicRefs(s.logic), names)
    ensures var n := Image(s, doc); n.ref.Some? ==> n.ref.value in names
  {
    hide NameOf, InsideRefs, LogicRefs;
    assert s.ref.Some? ==> s.ref.value in Refs(s);
  }

  lemma SmallResolves(s: Source, levels: nat, names: set<Text>, doc: Document)
    requires Named(Refs(s), names) && (levels == 0 || !s.Shape? || (s.ref.Some? && NoSiblings(s)))
    ensures Resolves(Image(s, doc), levels, names)
  {
    hide NameOf;
    if levels > 0 {
      assert Resolves(EMPTY, levels - 1, names);
      if s.Shape? { assert s.ref.value in Refs(s); }
    }
  }

  lemma {:induction false} AllResolve(ss: seq<Source>, levels: nat, names: set<Text>, doc: Document)
    requires Named(RefsAll(ss), names)
    ensures ResolvesAll(Images(ss, doc), levels, names)
    decreases levels, 5
  {
    hide Image, Refs, RefsAll, Resolves, NameOf;
    forall k | 0 <= k < |ss| ensures Resolves(Images(ss, doc)[k], levels, names) {
      RefsAt(ss, k);
      ImageResolves(ss[k], levels, names, doc);
    }
  }

  lemma {:induction false} ChildrenResolve(cs: seq<Child>, levels: nat, names: set<Text>, doc: Document)
    requires Named(RefsChildren(cs), names)
    ensures ResolvesEntries(ChildImages(cs, doc), levels, names)
    decreases levels, 5
  {
    hide Image, Refs, RefsChildren, Resolves, NameOf;
    forall k | 0 <= k < |cs| ensures Resolves(ChildImages(cs, doc)[k].node, levels, names) {
      RefsChildAt(cs, k);
      ImageResolves(cs[k].schema, levels, names, doc);
    }
  }

  lemma {:induction false} MaybeResolves(o: Option<Source>, levels: nat, names: set<Text>, doc: Document)
    requires Named(RefsMaybe(o), names)
    ensures ResolvesMaybe(MaybeImage(o, doc), levels, names)
    decreases levels, 5
  {
    if o.Some? { ImageResolves(o.value, levels, names, doc); }
  }

  lemma {:induction false} ManyResolves(m: Many, levels: nat, names: set<Text>, doc: Document)
    requires Named(RefsMany(m), names)
    ensures ResolvesMany(ManyImage(m, doc), levels, names)
    decreases levels, 6
  {
    if m.Given? { AllResolve(m.list, levels, names, doc); }
  }

  lemma {:induction false} InsideResolves(s: Source, levels: nat, names: set<Text>, doc: Document)
    requires s.Shape? && Named(InsideRefs(s.inside), names)
    ensures ResolvesMany(LeadingImage(s.inside, doc), levels, names)
            && ResolvesMaybe(ItemsImage(s.inside.items, doc), levels, names)
    ensures ResolvesMaybe(MaybeImage(s.inside.contains, doc), levels, names)
    ensures ResolvesEntries(ChildImages(s.inside.properties, doc), levels, names)
    ensures ResolvesEntries(ChildImages(s.inside.patterns, doc), levels, names)
    ensures ResolvesMaybe(MaybeImage(s.inside.additional, doc), levels, names)
    ensures ResolvesMaybe(MaybeImage(s.inside.names, doc), levels, names)
    decreases levels, 7
  {
    var i := s.inside;
    LeadingRefs(i);
    assert LeadingImage(i, doc) == ManyImage(Leading(i), doc);
    hide Image, Images, ChildImages, LeadingImage, Resolves, ResolvesAll, ResolvesEntries, NameOf, RefsAll,
         RefsChildren, Refs, Leading;
    ManyResolves(Leading(i), levels, names, doc);
    if i.items.Each? { MaybeResolves(Some(i.items.item), levels, names, doc); }
    MaybeResolves(i.contains, levels, names, doc);
    ChildrenResolve(i.properties, levels, names, doc);
    ChildrenResolve(i.patterns, levels, names, doc);
    MaybeResolves(i.additional, levels, names, doc);
    MaybeResolves(i.names, levels, names, doc);
  }

  lemma {:induction false} LogicResolves(l: Logic, levels: nat, names: set<Text>, doc: Document)
    requires Named(LogicRefs(l), names)
    ensures ResolvesAll(Images(l.allOf, doc), levels, names)
    ensures ResolvesMany(ManyImage(l.anyOf, doc), levels, names) && ResolvesMany(ManyImage(l.oneOf, doc), levels, names)
    ensures ResolvesMaybe(MaybeImage(l.negated, doc), levels, names)
            && ResolvesMaybe(MaybeImage(l.test, doc), levels, names)
    ensures ResolvesMaybe(MaybeImage(l.consequent, doc), levels, names)
            && ResolvesMaybe(MaybeImage(l.otherwise, doc), levels, names)
    decreases levels, 7
  {
    hide Image, Images, Resolves, ResolvesAll, NameOf, RefsAll, Refs;
    AllResolve(l.allOf, levels, names, doc);
    ManyResolves(l.anyOf, levels, names, doc);
    ManyResolves(l.oneOf, levels, names, doc);
    MaybeResolves(l.negated, levels, names, doc);
    MaybeResolves(l.test, levels, names, doc);
    MaybeResolves(l.consequent, levels, names, doc);
    MaybeResolves(l.otherwise, levels, names, doc);
  }

  /** The bundle is closed: no reference, however deep, misses its definition. */
  lemma BundleClosed(defs: Defs, memo: Memo, hoisted: seq<Source>, doc: Document, name: Text, levels: nat)
    requires Honest(defs, memo, {}, hoisted, doc) && Closed(memo, {}, doc) && Reached(memo, hoisted) && name in defs
    ensures Resolves(defs[name], levels, defs.Keys)
  {
    hide Image, NameOf, InlineName, Refs, Resolves;
    if IsComponent(name, memo.Keys) {
      var p :| p in memo.Keys && NameOf(p) == name;
      ImageResolves(doc.components[p], levels, defs.Keys, doc);
    } else {
      assert IsInline(name, |hoisted|);
      var k: nat :| k < |hoisted| && InlineName(k) == name;
      ImageResolves(hoisted[k], levels, defs.Keys, doc);
    }
  }

  // ----- a hoist that throws

  const P: Text := [35, 47, 112]
  const Q: Text := [35, 47, 113]

  /** A component that refers to another and then has something no schema can be. */
  const THROWING := Shape(None, false, NO_OWN, NO_INSIDE.(properties := [Child([97], RefTo(Q))]),
                          NO_LOGIC.(negated := Some(Broken)))

  const TWO_COMPONENTS := map[P := THROWING, Q := RefTo(P)]

  /** Hoisting the first throws, and leaves the second remembered with a reference to it. */
  lemma ThrowLeavesDangling(legacy: bool, refuses: Text -> bool)
    ensures var doc := Document(TWO_COMPONENTS, legacy, refuses);
            var r := Visit(RefTo(P), 0, Bundle(map[], map[]), 64, doc);
            !r.ok && Dangling(P, Q, r.bundle, doc)
  {
    var doc := Document(TWO_COMPONENTS, legacy, refuses);
    NamesOfTwo();
    assert doc.components[P] == THROWING && doc.components[Q] == RefTo(P);
    ThrowingParts(doc);
    ThrowDangles(P, Q, Part(Broken, false), Bundle(map[], map[]), doc);
  }

  /** One component refers to another that is gone, and is still there to be hoisted. */
  ghost predicate Dangling(p: Text, q: Text, b: Bundle, doc: Document) {
    && q in b.memo && p !in b.memo && !Closed(b.memo, {}, doc)
    && Visit(RefTo(q), 0, b, 64, doc).ok
    && NameOf(p) !in b.defs && NameOf(q) in b.defs && b.defs[NameOf(q)].ref == Some(NameOf(p))
  }

  /** That is what becomes of any component with a reference back to one that throws after it. */
  lemma ThrowDangles(p: Text, q: Text, last: Part, b: Bundle, doc: Document)
    requires p != q && Local(p) && Local(q) && NameOf(p) != NameOf(q) && p in doc.components && q in doc.components
    requires b == Bundle(map[], map[]) && doc.components[q] == RefTo(p)
    requires var s := doc.components[p];
             && s.Shape? && s.ref.None? && OwnFine(s.own, doc) && PartsOf(s, doc) == [Part(RefTo(q), false)] + [last]
             && last.schema.Broken? && !last.refused
    ensures var r := Visit(RefTo(p), 0, b, 64, doc);
            !r.ok && Dangling(p, q, r.bundle, doc)
  {
    hide NameOf, Visit, VisitReference, VisitAll, Image, PartsOf;
    var s, first := doc.components[p], Part(RefTo(q), false);
    var b1 := Begun(b, p);
    var b3 := Ended(Visited(true, Begun(b1, q)), q, doc);
    SecondDone(p, q, b1, doc);
    TwoPartsFail(s, first, last, b1, b3, doc);
    RefVisited(p, 0, b, 64, doc);
    ComponentVisited(p, b, RefTo(p), 64, doc);
    var b4 := Ended(Visited(false, b3), p, doc);
    AfterThrow(p, q, doc);
    hide Begun, Ended;
    LeftBehind(p, q, b4, doc);
  }

  lemma AfterThrow(p: Text, q: Text, doc: Document)
    requires p != q && NameOf(p) != NameOf(q) && p in doc.components && q in doc.components
             && doc.components[q] == RefTo(p)
    ensures Ended(Visited(false, Ended(Visited(true, Begun(Begun(Bundle(map[], map[]), p), q)), q, doc)), p, doc)
         == Bundle(map[NameOf(q) := Image(RefTo(p), doc)], map[q := NameOf(q)])
  {
    hide NameOf, Image;
  }

  lemma LeftBehind(p: Text, q: Text, b: Bundle, doc: Document)
    requires p != q && Local(p) && Local(q) && NameOf(p) != NameOf(q) && q in doc.components
             && doc.components[q] == RefTo(p)
    requires b == Bundle(map[NameOf(q) := Image(RefTo(p), doc)], map[q := NameOf(q)])
    ensures Dangling(p, q, b, doc)
  {
    hide NameOf, Visit, VisitReference, Image, Refs;
    RefVisited(q, 0, b, 64, doc);
    KnownVisited(q, b, RefTo(q), 64, doc);
    RefVisited(p, 0, b, 64, doc);
    ImageOfRef(p, doc);
    assert p in Refs(doc.components[q]) && p !in b.memo.Keys;
  }

  lemma ImageOfRef(p: Text, doc: Document)
    ensures Image(RefTo(p), doc) == EMPTY.(ref := Some(NameOf(p)))
  {
    hide NameOf;
  }

  /** The second component, under way inside the first. */
  lemma SecondDone(p: Text, q: Text, b: Bundle, doc: Document)
    requires Local(p) && Local(q) && p != q && q in doc.components && doc.components[q] == RefTo(p) && p in b.memo
             && q !in b.memo
    ensures Visit(RefTo(q), 1, b, 64, doc) == Visited(true, Ended(Visited(true, Begun(b, q)), q, doc))
  {
    hide NameOf, Visit, VisitReference, VisitAll;
    RefVisited(q, 1, b, 64, doc);
    ComponentVisited(q, b, RefTo(q), 64, doc);
    RefVisited(p, 0, Begun(b, q), 64, doc);
    KnownVisited(p, Begun(b, q), RefTo(p), 64, doc);
  }

  lemma TwoPartsFail(s: Source, first: Part, last: Part, b: Bundle, c: Bundle, doc: Document)
    requires s.Shape? && s.ref.None? && OwnFine(s.own, doc) && PartsOf(s, doc) == [first] + [last]
    requires !first.refused && Visit(first.schema, 1, b, 64, doc) == Visited(true, c) && last.schema.Broken?
             && !last.refused
    ensures Visit(s, 0, b, 64, doc) == Visited(false, c)
  {
    assert Below(PartsOf(s, doc), s);
    assert ([first] + [last])[0] == first && ([first] + [last])[1] == last;
    hide VisitAll, VisitReference, PartsOf;
    VisitConcat([first], [last], 1, b, s, 64, doc);
    OnePart(first, 1, b, s, 64, doc);
    OnePart(last, 1, c, s, 64, doc);
    TruthVisited(true, 1, c, 64, doc);
  }

  lemma NamesOfTwo()
    ensures NameOf(P) != NameOf(Q) && Local(P) && Local(Q) && P != Q
  {
    assert Sanitized([112], true) == [112] && Sanitized([113], true) == [113];
    assert P[1..] == [47, 112] && Q[1..] == [47, 113];
    assert [47, 112][1..] == [112] && [47, 113][1..] == [113];
    assert NameOf(P) == [95, 112] && NameOf(Q) == [95, 113];
  }

  lemma ThrowingParts(doc: Document)
    ensures PartsOf(THROWING, doc) == [Part(RefTo(Q), false)] + [Part(Broken, false)]
  {
    assert ArrayParts(THROWING) == [] && BranchParts(THROWING) == [];
    assert ChildParts(THROWING.inside.properties, false, doc) == [Part(RefTo(Q), false)];
    assert ObjectParts(THROWING, doc) == [Part(RefTo(Q), false)];
    assert ChoiceParts(THROWING) == [Part(Broken, false)];
    hide ArrayParts, ObjectParts, ChoiceParts, BranchParts;
  }

  /** What is hoisted on the dangling component accepts nothing at all. */
  lemma DanglingAcceptsNothing(v: Json, n: Node, depth: nat, w: World)
    requires n.ref.Some? && n.ref.value !in w.defs
    ensures !Valid(v, n, depth, w)
  {
  }

  // ----- names that collide

  const DASHED: Text := [35, 47, 97, 45, 98]
  const SCORED: Text := [35, 47, 97, 95, 98]

  /** Two pointers of one document can get the same name. */
  lemma NamesCanCollide()
    ensures NameOf(DASHED) == NameOf(SCORED) == [95, 97, 95, 98] && DASHED != SCORED
  {
    assert Sanitized([98], true) == Sanitized([98], false) == [98];
    assert Sanitized([45, 98], false) == [95, 98] && Sanitized([95, 98], false) == [95, 98];
    assert Sanitized([97, 45, 98], true) == [97, 95, 98] && Sanitized([97, 95, 98], true) == [97, 95, 98];
    assert Sanitized([47, 97, 45, 98], true) == [97, 95, 98] && Sanitized([47, 97, 95, 98], true) == [97, 95, 98];
    assert DASHED[3] != SCORED[3];
  }

  /** Then the second takes the place of the first, and a definition of the first accepts nothing. */
  lemma CollisionChangesMeaning(v: Json, legacy: bool, refuses: Text -> bool, w: World)
    requires w.maxDepth >= 3
    ensures var doc := Document(map[DASHED := Truth(true), SCORED := Truth(false)], legacy, refuses);
            var first := Visit(RefTo(DASHED), 0, Bundle(map[], map[]), 64, doc);
            var second := Visit(RefTo(SCORED), 0, first.bundle, 64, doc);
            && first.ok && second.ok
            && (w.defs == second.bundle.defs ==> !Valid(v, Image(RefTo(DASHED), doc), 0, w))
            && Satisfies(v, RefTo(DASHED), 0, doc, w)
  {
    var doc := Document(map[DASHED := Truth(true), SCORED := Truth(false)], legacy, refuses);
    NamesCanCollide();
    Collide(DASHED, SCORED, v, doc, w);
  }

  lemma Collide(p: Text, q: Text, v: Json, doc: Document, w: World)
    requires p != q && Local(p) && Local(q) && NameOf(p) == NameOf(q) && w.maxDepth >= 3
    requires doc.components == map[p := Truth(true), q := Truth(false)]
    ensures var first := Visit(RefTo(p), 0, Bundle(map[], map[]), 64, doc);
            var second := Visit(RefTo(q), 0, first.bundle, 64, doc);
            && first.ok && second.ok
            && (w.defs == second.bundle.defs ==> !Valid(v, Image(RefTo(p), doc), 0, w))
            && Satisfies(v, RefTo(p), 0, doc, w)
  {
    hide NameOf, Image, Valid, Satisfies, Visit;
    OneThenOther(p, q, doc);
    ImageOfRef(p, doc);
    hide Image;
    var second := Visit(RefTo(q), 0, Visit(RefTo(p), 0, Bundle(map[], map[]), 64, doc).bundle, 64, doc);
    if w.defs == second.bundle.defs { RefToNothing(v, p, doc, w); }
    RefToAnything(v, p, doc, w);
  }

  lemma OneThenOther(p: Text, q: Text, doc: Document)
    requires p != q && Local(p) && Local(q) && NameOf(p) == NameOf(q)
    requires doc.components == map[p := Truth(true), q := Truth(false)]
    ensures var first := Visit(RefTo(p), 0, Bundle(map[], map[]), 64, doc);
            var second := Visit(RefTo(q), 0, first.bundle, 64, doc);
            && first.ok && second.ok
            && NameOf(p) in second.bundle.defs && second.bundle.defs[NameOf(p)] == Image(Truth(false), doc)
  {
    hide NameOf, Visit, VisitReference, Image;
    var empty := Bundle(map[], map[]);
    RefVisited(p, 0, empty, 64, doc);
    ComponentVisited(p, empty, RefTo(p), 64, doc);
    TruthVisited(true, 0, Begun(empty, p), 64, doc);
    var b1 := Ended(Visited(true, Begun(empty, p)), p, doc);
    assert q !in b1.memo;
    RefVisited(q, 0, b1, 64, doc);
    ComponentVisited(q, b1, RefTo(q), 64, doc);
    TruthVisited(false, 0, Begun(b1, q), 64, doc);
  }

  lemma RefToNothing(v: Json, p: Text, doc: Document, w: World)
    requires w.maxDepth >= 3 && NameOf(p) in w.defs && w.defs[NameOf(p)] == Image(Truth(false), doc)
    ensures !Valid(v, EMPTY.(ref := Some(NameOf(p))), 0, w)
  {
    hide NameOf, Image;
    TruthMeans(v, Truth(false), 1, doc, w);
  }

  lemma RefToAnything(v: Json, p: Text, doc: Document, w: World)
    requires w.maxDepth >= 3 && p in doc.components && doc.components[p] == Truth(true)
    ensures Satisfies(v, RefTo(p), 0, doc, w)
  {
    NothingHeeded(v, RefTo(p), 0, doc, w);
    assert Satisfies(v, Truth(true), 1, doc, w);
    assert TargetSatisfied(v, RefTo(p), 0, doc, w);
  }

  // ----- where the compiled form and the plain reading part

  /** The compiled form of `false` accepts exactly at the last level the bound allows. */
  lemma FalseAtTheBound(v: Json, depth: nat, doc: Document, w: World)
    ensures Valid(v, Image(Truth(false), doc), depth, w) <==> depth == w.maxDepth
    ensures !Satisfies(v, Truth(false), depth, doc, w)
  {
    if depth <= w.maxDepth { TruthMeans(v, Truth(false), depth, doc, w); }
  }

  /**
   At any schema whose subschemas and target agree, the compiled form differs on a value exactly if
   the schema is nullable without a type, the value is null, and only the keywords beside a reference
   rule it out.
   */
  lemma NullableExact(v: Json, s: Source, depth: nat, keys: set<Text>, doc: Document, w: World)
    requires depth <= w.maxDepth && s.Shape? && Refs(s) <= keys && Complete(keys, doc, w)
             && CalmBelow(v, s, depth, doc, w)
    ensures (Valid(v, Image(s, doc), depth, w) <==> Satisfies(v, s, depth, doc, w)) <==>
            !(LooseNull(s, doc) && v.Null? && TargetSatisfied(v, s, depth, doc, w) && !Heeds(v, s, depth, doc, w))
  {
    hide Refs, Complete, Image, Valid, Heeds, CalmBelow, TargetSatisfied;
    BelowAgreed(depth, keys, doc, w);
    ShapeMeans(v, s, depth, keys, doc, w);
    LooseMatters(v, s, depth, doc, w);
  }

  /** So an untyped nullable schema without a reference agrees on every value if and only if null satisfies it. */
  lemma NullableAgrees(s: Source, depth: nat, keys: set<Text>, doc: Document, w: World)
    requires depth <= w.maxDepth && LooseNull(s, doc) && s.ref.None? && Refs(s) <= keys && Complete(keys, doc, w)
    requires forall v: Json :: CalmBelow(v, s, depth, doc, w)
    ensures (forall v: Json :: Valid(v, Image(s, doc), depth, w) <==> Satisfies(v, s, depth, doc, w)) <==>
            Satisfies(Null, s, depth, doc, w)
  {
    assert s.Shape?;
    hide Refs, Complete, Image, Valid, Heeds, CalmBelow, LooseNull;
    forall v: Json
      ensures (Valid(v, Image(s, doc), depth, w) <==> Satisfies(v, s, depth, doc, w)) <==>
              !(v.Null? && !Satisfies(Null, s, depth, doc, w))
    {
      NullableExact(v, s, depth, keys, doc, w);
      LooseMatters(v, s, depth, doc, w);
    }
    assert (Valid(Null, Image(s, doc), depth, w) <==> Satisfies(Null, s, depth, doc, w)) <==>
           Satisfies(Null, s, depth, doc, w);
  }

  const NULL_BESIDE_ENUM := Shape(None, true, NO_OWN.(enum := Some([Bool(true)])), NO_INSIDE, NO_LOGIC)

  /** One that does not: nullable, no type, and an enum without null. */
  lemma NullPastEnum(depth: nat, refuses: Text -> bool, w: World)
    requires depth <= w.maxDepth
    ensures var doc := Document(map[], true, refuses);
            Valid(Null, Image(NULL_BESIDE_ENUM, doc), depth, w) && !Satisfies(Null, NULL_BESIDE_ENUM, depth, doc, w)
  {
    var doc := Document(map[], true, refuses);
    var e := NULL_BESIDE_ENUM.own.enum;
    assert !EnumOk(Null, e) by { assert !SameValue(e.value[0], Null); }
    UntypedNullableTakesNull(NULL_BESIDE_ENUM, depth, doc, w);
  }

  /** The Schema Object of OpenAPI 3.0.3 lets `nullable` act only beside a type; compiled, it takes null without one. */
  lemma UntypedNullableTakesNull(s: Source, depth: nat, doc: Document, w: World)
    requires LooseNull(s, doc) && s.ref.None?
    ensures Valid(Null, Image(s, doc), depth, w) <==> depth <= w.maxDepth
  {
    hide TypesImage, ScalarImage, LeadingImage, ItemsImage, MaybeImage, ManyImage, Images, ChildImages, NamedTypes;
    ImageFields(s, doc);
  }
}

/**
 What compiling keeps, whether or not it throws: remembered components have their compiled form and
 nothing else is in the bundle; and when it is certain to succeed, and only then.
 */
module CompilerSafety {
  import opened Text
  import opened Json
  import opened SchemaNodes
  import opened SchemaSource
  import opened SchemaImage
  import opened CompilerState

  // ----- a schema's parts, taken together

  ghost function RefsList(ps: seq<Part>): set<Text> { if ps == [] then {} else Refs(ps[0].schema) + RefsList(ps[1..]) }

  ghost predicate FineList(ps: seq<Part>, depth: nat, max: nat, doc: Document) {
    forall k :: 0 <= k < |ps| ==> !ps[k].refused && Fine(ps[k].schema, depth, max, doc)
  }

  lemma {:induction false} RefsListConcat(p: seq<Part>, q: seq<Part>)
    ensures RefsList(p + q) == RefsList(p) + RefsList(q)
  {
    hide Refs;
    if p == [] {
      assert p + q == q;
    } else {
      assert (p + q)[1..] == p[1..] + q;
      RefsListConcat(p[1..], q);
    }
  }

  lemma FineConcat(p: seq<Part>, q: seq<Part>, depth: nat, max: nat, doc: Document)
    ensures FineList(p + q, depth, max, doc) <==> FineList(p, depth, max, doc) && FineList(q, depth, max, doc)
  {
    hide Fine;
    if FineList(p + q, depth, max, doc) {
      assert forall k :: 0 <= k < |p| ==> p[k] == (p + q)[k];
      assert forall k :: 0 <= k < |q| ==> q[k] == (p + q)[|p| + k];
    }
  }

  /** Both facts about two lists are facts about the list of both. */
  lemma Joined(p: seq<Part>, q: seq<Part>, depth: nat, max: nat, doc: Document)
    ensures RefsList(p + q) == RefsList(p) + RefsList(q)
    ensures FineList(p + q, depth, max, doc) <==> FineList(p, depth, max, doc) && FineList(q, depth, max, doc)
  {
    RefsListConcat(p, q);
    FineConcat(p, q, depth, max, doc);
  }

  lemma OneListed(p: Part)
    ensures RefsList([p]) == Refs(p.schema)
  {
    assert [p][1..] == [];
  }

  lemma {:induction false} ListRefs(ss: seq<Source>)
    ensures RefsList(ListParts(ss)) == RefsAll(ss)
  {
    hide Refs;
    if ss != [] {
      var n := |ss| - 1;
      ListRefs(ss[..n]);
      assert ListParts(ss) == ListParts(ss[..n]) + [Part(ss[n], false)];
      RefsListConcat(ListParts(ss[..n]), [Part(ss[n], false)]);
      OneListed(Part(ss[n], false));
    }
  }

  lemma {:induction false} ChildRefs(cs: seq<Child>, linted: bool, doc: Document)
    ensures RefsList(ChildParts(cs, linted, doc)) == RefsChildren(cs)
  {
    hide Refs;
    if cs != [] {
      var n := |cs| - 1;
      var last := Part(cs[n].schema, linted && doc.refuses(cs[n].name));
      ChildRefs(cs[..n], linted, doc);
      assert ChildParts(cs, linted, doc) == ChildParts(cs[..n], linted, doc) + [last];
      RefsListConcat(ChildParts(cs[..n], linted, doc), [last]);
      OneListed(last);
    }
  }

  lemma MaybeJoined(o: Option<Source>, depth: nat, max: nat, doc: Document)
    ensures RefsList(MaybeParts(o)) == RefsMaybe(o)
    ensures FineList(MaybeParts(o), depth, max, doc) <==> FineMaybe(o, depth, max, doc)
  {
    hide Refs, Fine;
    if o.Some? { OneListed(Part(o.value, false)); }
  }

  lemma ManyJoined(m: Many, depth: nat, max: nat, doc: Document)
    ensures RefsList(ManyParts(m)) == RefsMany(m)
    ensures FineList(ManyParts(m), depth, max, doc) <==> FineMany(m, depth, max, doc)
  {
    hide Refs, Fine, RefsList, RefsAll;
    NoRefs();
    if m.Given? { ListJoined(m.list, depth, max, doc); }
  }

  lemma NoRefs()
    ensures RefsAll([]) == {} && RefsList([]) == {}
  {
  }

  lemma ListJoined(ss: seq<Source>, depth: nat, max: nat, doc: Document)
    ensures RefsList(ListParts(ss)) == RefsAll(ss)
    ensures FineList(ListParts(ss), depth, max, doc) <==> FineAll(ss, depth, max, doc)
  {
    hide Refs, Fine;
    ListRefs(ss);
    if FineList(ListParts(ss), depth, max, doc) {
      assert forall k :: 0 <= k < |ss| ==> ss[k] == ListParts(ss)[k].schema;
    }
  }

  lemma ChildJoined(cs: seq<Child>, linted: bool, depth: nat, max: nat, doc: Document)
    ensures RefsList(ChildParts(cs, linted, doc)) == RefsChildren(cs)
    ensures FineList(ChildParts(cs, linted, doc), depth, max, doc) <==> FineChildren(cs, linted, depth, max, doc)
  {
    hide Refs, Fine;
    ChildRefs(cs, linted, doc);
    if FineList(ChildParts(cs, linted, doc), depth, max, doc) {
      assert forall k :: 0 <= k < |cs| ==>
          ChildParts(cs, linted, doc)[k] == Part(cs[k].schema, linted && doc.refuses(cs[k].name));
    }
  }

  lemma ItemsJoined(i: Items, depth: nat, max: nat, doc: Document)
    ensures RefsList(ItemsParts(i)) == RefsItems(i)
    ensures FineList(ItemsParts(i), depth, max, doc) <==> FineItems(i, depth, max, doc)
  {
    hide Refs, Fine, RefsList, RefsAll, FineAll, ListParts;
    match i
    case NoItems => NoRefs();
    case Each(item) =>
      OneListed(Part(item, false));
      OneFine(Part(item, false), depth, max, doc);
    case Tuple(list) => ListJoined(list, depth, max, doc);
  }

  lemma ArrayJoined(s: Source, depth: nat, max: nat, doc: Document)
    requires s.Shape?
    ensures RefsList(ArrayParts(s)) == RefsMany(s.inside.prefixItems) + RefsItems(s.inside.items)
            + RefsMaybe(s.inside.contains)
    ensures FineList(ArrayParts(s), depth, max, doc) <==>
            && FineMany(s.inside.prefixItems, depth, max, doc) && FineItems(s.inside.items, depth, max, doc)
            && FineMaybe(s.inside.contains, depth, max, doc)
  {
    hide RefsList, FineList, ManyParts, ItemsParts, MaybeParts, RefsMany, RefsItems, RefsMaybe, FineMany, FineItems,
         FineMaybe;
    var i := s.inside;
    ManyJoined(i.prefixItems, depth, max, doc);
    ItemsJoined(i.items, depth, max, doc);
    MaybeJoined(i.contains, depth, max, doc);
    Joined(ItemsParts(i.items), MaybeParts(i.contains), depth, max, doc);
    Joined(ManyParts(i.prefixItems), ItemsParts(i.items) + MaybeParts(i.contains), depth, max, doc);
  }

  lemma ObjectJoined(s: Source, depth: nat, max: nat, doc: Document)
    requires s.Shape?
    ensures RefsList(ObjectParts(s, doc)) ==
            RefsChildren(s.inside.properties) + RefsChildren(s.inside.patterns) + RefsMaybe(s.inside.additional)
                + RefsMaybe(s.inside.names)
    ensures FineList(ObjectParts(s, doc), depth, max, doc) <==>
            && FineChildren(s.inside.properties, false, depth, max, doc)
            && FineChildren(s.inside.patterns, true, depth, max, doc)
            && FineMaybe(s.inside.additional, depth, max, doc) && FineMaybe(s.inside.names, depth, max, doc)
  {
    hide RefsList, FineList, ChildParts, MaybeParts, RefsChildren, RefsMaybe, FineChildren, FineMaybe;
    var i := s.inside;
    var last := MaybeParts(i.additional) + MaybeParts(i.names);
    ChildJoined(i.properties, false, depth, max, doc);
    ChildJoined(i.patterns, true, depth, max, doc);
    MaybeJoined(i.additional, depth, max, doc);
    MaybeJoined(i.names, depth, max, doc);
    Joined(MaybeParts(i.additional), MaybeParts(i.names), depth, max, doc);
    Joined(ChildParts(i.patterns, true, doc), last, depth, max, doc);
    Joined(ChildParts(i.properties, false, doc), ChildParts(i.patterns, true, doc) + last, depth, max, doc);
  }

  lemma ChoiceJoined(s: Source, depth: nat, max: nat, doc: Document)
    requires s.Shape?
    ensures RefsList(ChoiceParts(s)) ==
            RefsAll(s.logic.allOf) + RefsMany(s.logic.anyOf) + RefsMany(s.logic.oneOf) + RefsMaybe(s.logic.negated)
    ensures FineList(ChoiceParts(s), depth, max, doc) <==>
            && FineAll(s.logic.allOf, depth, max, doc) && FineMany(s.logic.anyOf, depth, max, doc)
            && FineMany(s.logic.oneOf, depth, max, doc) && FineMaybe(s.logic.negated, depth, max, doc)
  {
    hide RefsList, FineList, ListParts, ManyParts, MaybeParts, RefsAll, RefsMany, RefsMaybe, FineAll, FineMany,
         FineMaybe;
    var l := s.logic;
    var last := ManyParts(l.oneOf) + MaybeParts(l.negated);
    ListJoined(l.allOf, depth, max, doc);
    ManyJoined(l.anyOf, depth, max, doc);
    ManyJoined(l.oneOf, depth, max, doc);
    MaybeJoined(l.negated, depth, max, doc);
    Joined(ManyParts(l.oneOf), MaybeParts(l.negated), depth, max, doc);
    Joined(ManyParts(l.anyOf), last, depth, max, doc);
    Joined(ListParts(l.allOf), ManyParts(l.anyOf) + last, depth, max, doc);
  }

  lemma BranchJoined(s: Source, depth: nat, max: nat, doc: Document)
    requires s.Shape?
    ensures RefsList(BranchParts(s)) == RefsMaybe(s.logic.test) + RefsMaybe(s.logic.consequent)
            + RefsMaybe(s.logic.otherwise)
    ensures FineList(BranchParts(s), depth, max, doc) <==>
            && FineMaybe(s.logic.test, depth, max, doc) && FineMaybe(s.logic.consequent, depth, max, doc)
            && FineMaybe(s.logic.otherwise, depth, max, doc)
  {
    hide RefsList, FineList, MaybeParts, RefsMaybe, FineMaybe;
    var l := s.logic;
    MaybeJoined(l.test, depth, max, doc);
    MaybeJoined(l.consequent, depth, max, doc);
    MaybeJoined(l.otherwise, depth, max, doc);
    Joined(MaybeParts(l.consequent), MaybeParts(l.otherwise), depth, max, doc);
    Joined(MaybeParts(l.test), MaybeParts(l.consequent) + MaybeParts(l.otherwise), depth, max, doc);
  }

  /** The parts of a schema hold all its references but its own, and all that can be unsupported in it. */
  lemma PartsJoined(s: Source, depth: nat, max: nat, doc: Document)
    requires s.Shape?
    ensures RefsList(PartsOf(s, doc)) == InsideRefs(s.inside) + LogicRefs(s.logic)
    ensures FineList(PartsOf(s, doc), depth, max, doc) <==>
            FineInside(s.inside, depth, max, doc) && FineLogic(s.logic, depth, max, doc)
  {
    hide RefsList, FineList, ArrayParts, ObjectParts, ChoiceParts, BranchParts, Refs, RefsAll, RefsMany, RefsMaybe,
         RefsItems,
         RefsChildren, FineAll, FineMany, FineMaybe, FineItems, FineChildren;
    ArrayJoined(s, depth, max, doc);
    ObjectJoined(s, depth, max, doc);
    ChoiceJoined(s, depth, max, doc);
    BranchJoined(s, depth, max, doc);
    Joined(ChoiceParts(s), BranchParts(s), depth, max, doc);
    Joined(ObjectParts(s, doc), ChoiceParts(s) + BranchParts(s), depth, max, doc);
    Joined(ArrayParts(s), ObjectParts(s, doc) + (ChoiceParts(s) + BranchParts(s)), depth, max, doc);
  }

  // ----- what a visit keeps

  /** The bundle stays honest; and closed, if nothing threw or no component can throw. */
  ghost predicate Kept(b: Bundle, r: Visited, open: set<Text>, hoisted: seq<Source>, max: nat, doc: Document) {
    && Honest(r.bundle.defs, r.bundle.memo, open, hoisted, doc)
    && (r.ok || DocumentFine(doc, max) ==> Closed(b.memo, open, doc) ==> Closed(r.bundle.memo, open, doc))
  }

  lemma {:induction false} VisitKeeps(s: Source, depth: nat, b: Bundle, open: set<Text>, hoisted: seq<Source>, max: nat,
                                      doc: Document)
    requires NamesDistinct(doc) && Honest(b.defs, b.memo, open, hoisted, doc)
    ensures VisitOk(s, depth, b, Visit(s, depth, b, max, doc), open, hoisted, max, doc)
    decreases Unseen(b.memo, doc), s, 2
  {
    hide Honest, Closed, DocumentFine, FineInside, FineLogic, InsideRefs, LogicRefs, OwnFine, Unseen, NamesDistinct,
         NameOf;
    if depth <= max && s.Shape? {
      var r := if s.ref.Some? then VisitReference(s.ref.value, b, s, max, doc) else Visited(true, b);
      if s.ref.Some? { ReferenceKeeps(s.ref.value, b, s, open, hoisted, max, doc); }
      if r.ok && !(s.ref.Some? && NoSiblings(s)) && OwnFine(s.own, doc) {
        AllKeeps(PartsOf(s, doc), depth + 1, r.bundle, s, open, hoisted, max, doc);
      }
      hide Visit, VisitReference, VisitAll;
      ShapeOk(s, depth, b, r, open, hoisted, max, doc);
    }
  }

  /** What is claimed of visiting a schema. */
  ghost predicate VisitOk(s: Source, depth: nat, b: Bundle, r: Visited, open: set<Text>, hoisted: seq<Source>, max: nat,
                          doc: Document) {
    && Kept(b, r, open, hoisted, max, doc)
    && (r.ok ==> Refs(s) <= r.bundle.memo.Keys && Fine(s, depth, max, doc))
    && (DocumentFine(doc, max) && Fine(s, depth, max, doc) && Refs(s) <= doc.components.Keys ==> r.ok)
  }

  ghost predicate ReferenceOk(pointer: Text, b: Bundle, r: Visited, open: set<Text>, hoisted: seq<Source>, max: nat,
                              doc: Document) {
    && Kept(b, r, open, hoisted, max, doc)
    && (r.ok ==> pointer in r.bundle.memo && Local(pointer))
    && (DocumentFine(doc, max) && pointer in doc.components ==> r.ok)
  }

  ghost predicate AllOk(ps: seq<Part>, depth: nat, b: Bundle, r: Visited, open: set<Text>, hoisted: seq<Source>,
                        max: nat, doc: Document) {
    && Kept(b, r, open, hoisted, max, doc)
    && (r.ok ==> RefsList(ps) <= r.bundle.memo.Keys && FineList(ps, depth, max, doc))
    && (DocumentFine(doc, max) && FineList(ps, depth, max, doc) && RefsList(ps) <= doc.components.Keys ==> r.ok)
  }

  /** A shape is its reference and then its parts. */
  lemma ShapeOk(s: Source, depth: nat, b: Bundle, r: Visited, open: set<Text>, hoisted: seq<Source>, max: nat,
                doc: Document)
    requires depth <= max && s.Shape?
    requires r == if s.ref.Some? then VisitReference(s.ref.value, b, s, max, doc) else Visited(true, b)
    requires s.ref.Some? ==> ReferenceOk(s.ref.value, b, r, open, hoisted, max, doc)
    requires s.ref.None? ==> Honest(b.defs, b.memo, open, hoisted, doc)
    requires r.ok && !(s.ref.Some? && NoSiblings(s)) && OwnFine(s.own, doc) ==>
               AllOk(PartsOf(s, doc), depth + 1, r.bundle, VisitAll(PartsOf(s, doc), depth + 1, r.bundle, s, max, doc),
                     open, hoisted, max, doc)
    ensures VisitOk(s, depth, b, Visit(s, depth, b, max, doc), open, hoisted, max, doc)
  {
    hide Honest, Closed, DocumentFine, FineInside, FineLogic, InsideRefs, LogicRefs, OwnFine, Unseen, NameOf, VisitAll,
         VisitReference,
         RefsList, FineList, PartsOf;
    NothingBesideRef(depth + 1, max, doc);
    PartsJoined(s, depth + 1, max, doc);
  }

  lemma {:induction false} ReferenceKeeps(pointer: Text, b: Bundle, under: Source, open: set<Text>,
                                          hoisted: seq<Source>, max: nat, doc: Document)
    requires NamesDistinct(doc) && Honest(b.defs, b.memo, open, hoisted, doc)
    ensures ReferenceOk(pointer, b, VisitReference(pointer, b, under, max, doc), open, hoisted, max, doc)
    decreases Unseen(b.memo, doc), under, 1
  {
    assert pointer in doc.components ==> Local(pointer);
    if Local(pointer) && pointer !in b.memo && pointer in doc.components {
      var began := Begun(b, pointer);
      hide Honest, Closed, Fine, Refs, NameOf, Image, DocumentFine, NamesDistinct;
      UnseenFalls(b.memo, pointer, doc);
      Registered(b.defs, b.memo, open, hoisted, doc, pointer);
      VisitKeeps(doc.components[pointer], 0, began, open + {pointer}, hoisted, max, doc);
      var r := Visit(doc.components[pointer], 0, began, max, doc);
      hide Visit, Unseen;
      EndedKeeps(pointer, b, r, open, hoisted, max, doc);
    }
  }

  /** Finishing a component, or withdrawing it. */
  lemma EndedKeeps(pointer: Text, b: Bundle, r: Visited, open: set<Text>, hoisted: seq<Source>, max: nat, doc: Document)
    requires NamesDistinct(doc) && Honest(b.defs, b.memo, open, hoisted, doc) && pointer in doc.components
             && pointer !in b.memo
    requires Begun(b, pointer).memo.Keys <= r.bundle.memo.Keys
    requires VisitOk(doc.components[pointer], 0, Begun(b, pointer), r, open + {pointer}, hoisted, max, doc)
    ensures ReferenceOk(pointer, b, Visited(r.ok, Ended(r, pointer, doc)), open, hoisted, max, doc)
  {
    assert Local(pointer);
    assert DocumentFine(doc, max) ==>
        Fine(doc.components[pointer], 0, max, doc) && Refs(doc.components[pointer]) <= doc.components.Keys;
    hide Honest, Closed, Fine, Refs, NameOf, Image, DocumentFine;
    Recalled(b.defs, b.memo, open, hoisted, doc, pointer);
    Registered(b.defs, b.memo, open, hoisted, doc, pointer);
    if r.ok {
      Finished(r.bundle.defs, r.bundle.memo, open, hoisted, doc, pointer);
    } else {
      Withdrawn(r.bundle.defs, r.bundle.memo, open, hoisted, doc, pointer);
    }
  }

  lemma {:induction false} AllKeeps(ps: seq<Part>, depth: nat, b: Bundle, parent: Source, open: set<Text>,
                                    hoisted: seq<Source>, max: nat, doc: Document)
    requires NamesDistinct(doc) && Honest(b.defs, b.memo, open, hoisted, doc) && Below(ps, parent)
    ensures AllOk(ps, depth, b, VisitAll(ps, depth, b, parent, max, doc), open, hoisted, max, doc)
    decreases Unseen(b.memo, doc), parent, 0, |ps|
  {
    hide Honest, Closed, DocumentFine, Fine, Refs, Visit, NamesDistinct, Unseen;
    if ps != [] && !ps[0].refused {
      VisitKeeps(ps[0].schema, depth, b, open, hoisted, max, doc);
      var r := Visit(ps[0].schema, depth, b, max, doc);
      FineConcat([ps[0]], ps[1..], depth, max, doc);
      assert [ps[0]] + ps[1..] == ps;
      assert FineList([ps[0]], depth, max, doc) <==> Fine(ps[0].schema, depth, max, doc) by {
        OneFine(ps[0], depth, max, doc);
      }
      if r.ok { AllKeeps(ps[1..], depth, r.bundle, parent, open, hoisted, max, doc); }
    }
  }

  lemma OneFine(p: Part, depth: nat, max: nat, doc: Document)
    requires !p.refused
    ensures FineList([p], depth, max, doc) <==> Fine(p.schema, depth, max, doc)
  {
    assert [p][0] == p;
  }

  /** A hoist keeps the bundle honest, and closed unless something threw that could. */
  lemma HoistKeeps(s: Source, b: Bundle, hoisted: seq<Source>, max: nat, doc: Document)
    requires NamesDistinct(doc) && Honest(b.defs, b.memo, {}, hoisted, doc)
    ensures var v := Visit(s, 0, b, max, doc);
            var after := HoistedBundle(v, s, |hoisted|, doc);
            && Honest(after.defs, after.memo, {}, hoisted + (if v.ok then [s] else []), doc)
            && (v.ok || DocumentFine(doc, max) ==> Closed(b.memo, {}, doc) ==> Closed(after.memo, {}, doc))
            && (Reached(b.memo, hoisted) ==> Reached(after.memo, hoisted + (if v.ok then [s] else [])))
            && (v.ok ==> Refs(s) <= after.memo.Keys && Fine(s, 0, max, doc))
            && (DocumentFine(doc, max) && Fine(s, 0, max, doc) && Refs(s) <= doc.components.Keys ==> v.ok)
  {
    hide Honest, Closed, Fine, Refs, Visit, Image, InlineName, DocumentFine, NamesDistinct;
    VisitKeeps(s, 0, b, {}, hoisted, max, doc);
    var v := Visit(s, 0, b, max, doc);
    if v.ok { HoistedNext(v.bundle.defs, v.bundle.memo, hoisted, doc, s); }
    if Reached(b.memo, hoisted) { ReachedNext(b.memo, v.bundle.memo, hoisted, s); }
    hide Reached;
    assert hoisted + [] == hoisted;
  }
}

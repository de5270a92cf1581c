/**
 The compiled form of a source schema, and the proof that it means the same: in a bundle that has
 the compiled form of every component a schema reaches, a value passes the one exactly when it
 satisfies the other.
 */
module SchemaImage {
  import opened Text
  import opened Json
  import opened Canonical
  import opened SchemaNodes
  import opened SchemaValidity
  import opened SchemaSource

  // ----- names

  predicate Alphanumeric(u: Unit) { 48 <= u <= 57 || 65 <= u <= 90 || 97 <= u <= 122 }

  /** Every run of other characters becomes one underscore. */
  function Sanitized(pointer: Text, inRun: bool): Text {
    if pointer == [] then []
    else if Alphanumeric(pointer[0]) then [pointer[0]] + Sanitized(pointer[1..], false)
    else (if inRun then [] else [95]) + Sanitized(pointer[1..], true)
  }

  function NameOf(pointer: Text): Text { Sanitized(pointer, false) }

  // ----- the compiled form

  function TypesImage(s: Source, legacy: bool): Option<seq<TypeName>>
    requires s.Shape?
  {
    var names := NamedTypes(s.own);
    if names == [] then None
    else if legacy && s.nullable && NullName !in names then Some(names + [NullName])
    else Some(names)
  }

  function NumericBound(b: Option<Bound>): Option<real> { if b.Some? && b.value.Amount? then Some(b.value.x) else None }

  /** A flag moves the inclusive bound over to the exclusive one. */
  function ScalarImage(own: Own, legacy: bool): Scalar {
    var low := legacy && own.minExclusive == Some(Flag(true));
    var high := legacy && own.maxExclusive == Some(Flag(true));
    Scalar(own.minLength, own.maxLength, own.pattern, own.format,
           if low then None else own.minimum, if high then None else own.maximum,
           if low then own.minimum else NumericBound(own.minExclusive),
           if high then own.maximum else NumericBound(own.maxExclusive), own.multipleOf)
  }

  const NOTHING := EMPTY.(negated := Some(EMPTY))

  function Image(s: Source, doc: Document): Node
    decreases s, 1
  {
    match s
    case Truth(accepts) => if accepts then EMPTY else NOTHING
    case Broken => NOTHING
    case Shape(ref, nullable, own, inside, logic) =>
      if ref.Some? && NoSiblings(s) then EMPTY.(ref := Some(NameOf(ref.value)))
      else
        Node(if ref.Some? then Some(NameOf(ref.value)) else None,
             doc.legacy && nullable && NamedTypes(own) == [],
             TypesImage(s, doc.legacy), own.enum, own.constant, ScalarImage(own, doc.legacy),
             own.length, own.unique, LeadingImage(inside, doc), ItemsImage(inside.items, doc),
             MaybeImage(inside.contains, doc), own.matching,
             own.size, own.required, ChildImages(inside.properties, doc), ChildImages(inside.patterns, doc),
             MaybeImage(inside.additional, doc), MaybeImage(inside.names, doc),
             Images(logic.allOf, doc), ManyImage(logic.anyOf, doc), ManyImage(logic.oneOf, doc),
                 MaybeImage(logic.negated, doc),
             MaybeImage(logic.test, doc), MaybeImage(logic.consequent, doc), MaybeImage(logic.otherwise, doc))
  }

  function MaybeImage(o: Option<Source>, doc: Document): Option<Node>
  {
    if o.Some? then Some(Image(o.value, doc)) else None
  }

  function Images(ss: seq<Source>, doc: Document): (r: seq<Node>)
    ensures |r| == |ss|
  {
    seq(|ss|, i requires 0 <= i < |ss| => Image(ss[i], doc))
  }

  function ManyImage(m: Many, doc: Document): Option<seq<Node>> { if m.Given? then Some(Images(m.list, doc)) else None }

  function ItemsImage(i: Items, doc: Document): Option<Node> { if i.Each? then Some(Image(i.item, doc)) else None }

  function LeadingImage(i: Inside, doc: Document): Option<seq<Node>> {
    if i.items.Tuple? && (i.prefixItems.Absent? || i.tupleLast) then Some(Images(i.items.list, doc))
    else ManyImage(i.prefixItems, doc)
  }

  function ChildImages(cs: seq<Child>, doc: Document): (r: seq<Entry>)
    ensures |r| == |cs|
  {
    seq(|cs|, i requires 0 <= i < |cs| => Entry(cs[i].name, Image(cs[i].schema, doc)))
  }

  // ----- meaning is preserved

  /** The bundle holds the compiled form of these components, and they refer to no others. */
  ghost predicate Complete(keys: set<Text>, doc: Document, w: World) {
    forall p :: p in keys ==>
      && p in doc.components && Refs(doc.components[p]) <= keys
      && NameOf(p) in w.defs && w.defs[NameOf(p)] == Image(doc.components[p], doc)
  }

  /** Compiled and source form agree at one level. */
  ghost predicate Agreed(depth: nat, keys: set<Text>, doc: Document, w: World) {
    forall v: Json, s: Source {:trigger Satisfies(v, s, depth, doc, w)} ::
      Refs(s) <= keys && Calm(v, s, depth, doc, w) ==>
        (Valid(v, Image(s, doc), depth, w) <==> Satisfies(v, s, depth, doc, w))
  }

  /** A value passes the compiled form of a schema exactly when it satisfies the schema. */
  lemma {:induction false} MeaningPreserved(v: Json, s: Source, depth: nat, keys: set<Text>, doc: Document, w: World)
    requires Complete(keys, doc, w) && Refs(s) <= keys && Calm(v, s, depth, doc, w)
    ensures Valid(v, Image(s, doc), depth, w) <==> Satisfies(v, s, depth, doc, w)
    decreases Left(depth, w), 0
  {
    hide Image, Beside, Heeds, Refs, Calm;
    if depth <= w.maxDepth {
      BelowAgreed(depth, keys, doc, w);
      if s.Shape? {
        CalmShape(v, s, depth, doc, w);
        ShapeMeans(v, s, depth, keys, doc, w);
        LooseMatters(v, s, depth, doc, w);
      } else {
        TruthMeans(v, s, depth, doc, w);
      }
    }
  }

  lemma {:induction false} BelowAgreed(depth: nat, keys: set<Text>, doc: Document, w: World)
    requires depth <= w.maxDepth && Complete(keys, doc, w)
    ensures Agreed(depth + 1, keys, doc, w)
    decreases Left(depth + 1, w), 1
  {
    forall v: Json, s: Source {:trigger Satisfies(v, s, depth + 1, doc, w)} |
      Refs(s) <= keys && Calm(v, s, depth + 1, doc, w)
      ensures Valid(v, Image(s, doc), depth + 1, w) <==> Satisfies(v, s, depth + 1, doc, w)
    {
      MeaningPreserved(v, s, depth + 1, keys, doc, w);
    }
  }

  lemma CalmShape(v: Json, s: Source, depth: nat, doc: Document, w: World)
    requires depth <= w.maxDepth && s.Shape? && Calm(v, s, depth, doc, w)
    ensures CalmBelow(v, s, depth, doc, w) && !(LooseNull(s, doc) && v.Null?)
  {
  }

  lemma TruthMeans(v: Json, s: Source, depth: nat, doc: Document, w: World)
    requires depth <= w.maxDepth && !s.Shape?
    ensures Valid(v, Image(s, doc), depth, w) <==> Accepting(s) || depth == w.maxDepth
    ensures Calm(v, s, depth, doc, w) <==> Accepting(s) || depth < w.maxDepth
  {
    hide Beside;
    NothingBeside(v, EMPTY, depth, w);
    if depth < w.maxDepth { NothingBeside(v, EMPTY, depth + 1, w); }
    NothingMeans(v, depth, w);
  }

  lemma NothingMeans(v: Json, depth: nat, w: World)
    requires depth <= w.maxDepth
    ensures Beside(v, NOTHING, depth, w) <==> !Valid(v, EMPTY, depth + 1, w)
  {
    hide Valid, ByType;
    NothingBeside(v, EMPTY, depth, w);
    ByTypeEmpty(v, depth, w);
  }

  lemma ByTypeEmpty(v: Json, depth: nat, w: World)
    requires depth <= w.maxDepth
    ensures ByType(v, NOTHING, depth, w)
  {
    hide Valid;
    match v {
      case Str(text) => assert StringValid(text, NO_SCALAR, w);
      case Num(lexeme) => assert NumberValid(lexeme, NO_SCALAR, w);
      case Arr(items) => assert ArrayValid(items, NOTHING, depth, w);
      case Obj(members) =>
        forall i | 0 <= i < |members| ensures MemberValid(members[i], NOTHING, depth, w) {}
        assert ObjectValid(members, NOTHING, depth, w);
      case _ =>
    }
  }

  /** A shape's compiled form: what it says, but for the null an untyped nullable one takes. */
  lemma ShapeMeans(v: Json, s: Source, depth: nat, keys: set<Text>, doc: Document, w: World)
    requires depth <= w.maxDepth && s.Shape? && Refs(s) <= keys && Complete(keys, doc, w)
    requires CalmBelow(v, s, depth, doc, w) && Agreed(depth + 1, keys, doc, w)
    ensures Valid(v, Image(s, doc), depth, w) <==>
            TargetSatisfied(v, s, depth, doc, w) && (Heeds(v, s, depth, doc, w) || (LooseNull(s, doc) && v.Null?))
  {
    hide Beside, Heeds, InsideRefs, LogicRefs, CalmParts, CalmLogic;
    var n := Image(s, doc);
    assert n.ref.Some? == s.ref.Some?;
    if s.ref.Some? {
      var p := s.ref.value;
      assert p in Refs(s);
      assert Satisfies(v, doc.components[p], depth + 1, doc, w) <==> Valid(v, w.defs[NameOf(p)], depth + 1, w);
    }
    if s.ref.Some? && NoSiblings(s) {
      NothingBeside(v, n, depth, w);
      NothingHeeded(v, s, depth, doc, w);
    } else {
      BesideMeans(v, s, n, depth, keys, doc, w);
    }
  }

  lemma LooseMatters(v: Json, s: Source, depth: nat, doc: Document, w: World)
    requires depth <= w.maxDepth && s.Shape?
    ensures Satisfies(v, s, depth, doc, w) <==> TargetSatisfied(v, s, depth, doc, w) && Heeds(v, s, depth, doc, w)
  {
  }

  lemma NothingHeeded(v: Json, s: Source, depth: nat, doc: Document, w: World)
    requires depth <= w.maxDepth && s.Shape? && NoSiblings(s)
    ensures Heeds(v, s, depth, doc, w)
  {
    hide Satisfies;
    assert LogicHeeded(v, NO_LOGIC, depth, doc, w);
    match v {
      case Str(text) => assert StringHeeded(text, NO_OWN, w);
      case Num(lexeme) => assert NumberHeeded(lexeme, NO_OWN, doc.legacy, w);
      case Arr(items) => assert ItemsHeeded(items, NO_OWN, NO_INSIDE, depth, doc, w);
      case Obj(members) =>
        forall k | 0 <= k < |members| ensures MemberHeeded(members[k], NO_INSIDE, depth, doc, w) {}
        assert MembersHeeded(members, NO_OWN, NO_INSIDE, depth, doc, w);
      case _ =>
    }
  }

  /** The compiled keywords, field by field. */
  predicate Compiled(n: Node, s: Source, doc: Document)
    requires s.Shape?
  {
    && n.nullableAny == (doc.legacy && s.nullable && NamedTypes(s.own) == [])
    && n.types == TypesImage(s, doc.legacy) && n.enum == s.own.enum && n.constant == s.own.constant
    && n.scalar == ScalarImage(s.own, doc.legacy)
    && CompiledItems(n, s, doc) && CompiledMembers(n, s, doc) && CompiledLogic(n, s.logic, doc)
  }

  predicate CompiledItems(n: Node, s: Source, doc: Document)
    requires s.Shape?
  {
    && n.length == s.own.length && n.unique == s.own.unique && n.matching == s.own.matching
    && n.prefix == LeadingImage(s.inside, doc) && n.items == ItemsImage(s.inside.items, doc)
    && n.contains == MaybeImage(s.inside.contains, doc)
  }

  predicate CompiledMembers(n: Node, s: Source, doc: Document)
    requires s.Shape?
  {
    && n.size == s.own.size && n.required == s.own.required
    && n.properties == ChildImages(s.inside.properties, doc) && n.patterns == ChildImages(s.inside.patterns, doc)
    && n.additional == MaybeImage(s.inside.additional, doc) && n.names == MaybeImage(s.inside.names, doc)
  }

  predicate CompiledLogic(n: Node, l: Logic, doc: Document) {
    && n.allOf == Images(l.allOf, doc) && n.anyOf == ManyImage(l.anyOf, doc) && n.oneOf == ManyImage(l.oneOf, doc)
    && n.negated == MaybeImage(l.negated, doc) && n.test == MaybeImage(l.test, doc)
    && n.consequent == MaybeImage(l.consequent, doc) && n.otherwise == MaybeImage(l.otherwise, doc)
  }

  lemma ImageFields(s: Source, doc: Document)
    requires s.Shape? && !(s.ref.Some? && NoSiblings(s))
    ensures Compiled(Image(s, doc), s, doc)
  {
    hide TypesImage, ScalarImage, LeadingImage, ItemsImage, MaybeImage, ManyImage, Images, ChildImages, NamedTypes;
  }

  lemma BesideMeans(v: Json, s: Source, n: Node, depth: nat, keys: set<Text>, doc: Document, w: World)
    requires depth <= w.maxDepth && s.Shape? && !(s.ref.Some? && NoSiblings(s)) && n == Image(s, doc) && Refs(s) <= keys
    requires CalmBelow(v, s, depth, doc, w) && Agreed(depth + 1, keys, doc, w)
    ensures Beside(v, n, depth, w) <==> Heeds(v, s, depth, doc, w) || (LooseNull(s, doc) && v.Null?)
  {
    ImageFields(s, doc);
    TypesMean(v, s, doc, w.lib);
    PartsMean(v, s, n, depth, keys, doc, w);
    LogicMeans(v, s.logic, n, depth, keys, doc, w);
    hide Image, ByType, Applicators, PartsHeeded, LogicHeeded, EnumOk, ConstOk, TypeOk, TypeHeeded;
  }

  lemma TypesMean(v: Json, s: Source, doc: Document, lib: Library)
    requires s.Shape?
    ensures TypeOk(v, TypesImage(s, doc.legacy), lib) <==> TypeHeeded(v, s, doc, lib)
  {
    var names := NamedTypes(s.own);
    hide NamedTypes;
    if names != [] && doc.legacy && s.nullable {
      if NullName in names {
        var k :| 0 <= k < |names| && names[k] == NullName;
        assert MatchesType(v, names[k], lib) <==> v.Null?;
      } else {
        var more := names + [NullName];
        assert more[|names|] == NullName;
        assert forall k :: 0 <= k < |names| ==> more[k] == names[k];
      }
    }
  }

  lemma NumberMeans(lexeme: Text, own: Own, legacy: bool, w: World)
    ensures NumberValid(lexeme, ScalarImage(own, legacy), w) <==> NumberHeeded(lexeme, own, legacy, w)
  {
  }

  lemma PartsMean(v: Json, s: Source, n: Node, depth: nat, keys: set<Text>, doc: Document, w: World)
    requires depth <= w.maxDepth && s.Shape? && InsideRefs(s.inside) <= keys && Compiled(n, s, doc)
    requires CalmParts(v, s.inside, depth, doc, w) && Agreed(depth + 1, keys, doc, w)
    ensures ByType(v, n, depth, w) <==> PartsHeeded(v, s, depth, doc, w)
  {
    hide Calm, Image, Valid, Satisfies, InsideRefs, CompiledLogic, CompiledItems, CompiledMembers, ArrayValid,
         ObjectValid, ItemsHeeded, MembersHeeded;
    match v {
      case Num(lexeme) => NumberMeans(lexeme, s.own, doc.legacy, w);
      case Arr(items) => ItemsMean(items, s, n, depth, keys, doc, w);
      case Obj(members) => MembersMean(members, s, n, depth, keys, doc, w);
      case _ =>
    }
  }

  lemma {:induction false} RefsAt(ss: seq<Source>, k: nat)
    requires k < |ss|
    ensures Refs(ss[k]) <= RefsAll(ss)
  {
    hide Refs;
    if k < |ss| - 1 { RefsAt(ss[..|ss| - 1], k); }
  }

  lemma {:induction false} RefsChildAt(cs: seq<Child>, k: nat)
    requires k < |cs|
    ensures Refs(cs[k].schema) <= RefsChildren(cs)
  {
    hide Refs;
    if k < |cs| - 1 { RefsChildAt(cs[..|cs| - 1], k); }
  }

  /** One level down, subschema by subschema. */
  lemma MeansAt(v: Json, s: Source, depth: nat, keys: set<Text>, doc: Document, w: World)
    requires Agreed(depth, keys, doc, w) && Refs(s) <= keys && Calm(v, s, depth, doc, w)
    ensures Valid(v, Image(s, doc), depth, w) <==> Satisfies(v, s, depth, doc, w)
  {
    hide Calm, Valid, Satisfies, Image, Refs;
  }

  lemma ListMeans(v: Json, ss: seq<Source>, k: nat, depth: nat, keys: set<Text>, doc: Document, w: World)
    requires Agreed(depth, keys, doc, w) && RefsAll(ss) <= keys && k < |ss| && Calm(v, ss[k], depth, doc, w)
    ensures Valid(v, Images(ss, doc)[k], depth, w) <==> Satisfies(v, ss[k], depth, doc, w)
  {
    hide Calm, Valid, Satisfies, Image, Refs, RefsAll;
    RefsAt(ss, k);
    MeansAt(v, ss[k], depth, keys, doc, w);
  }

  lemma LeadingRefs(i: Inside)
    ensures RefsMany(Leading(i)) <= InsideRefs(i)
  {
    hide Refs, RefsAll, RefsChildren;
  }

  lemma ItemsMean(items: seq<Json>, s: Source, n: Node, depth: nat, keys: set<Text>, doc: Document, w: World)
    requires depth <= w.maxDepth && s.Shape? && InsideRefs(s.inside) <= keys && CompiledItems(n, s, doc)
    requires CalmItems(items, s.inside, depth, doc, w) && Agreed(depth + 1, keys, doc, w)
    ensures ArrayValid(items, n, depth, w) <==> ItemsHeeded(items, s.own, s.inside, depth, doc, w)
  {
    var i := s.inside;
    assert RefsItems(i.items) <= keys && RefsMaybe(i.contains) <= keys;
    LeadingRefs(i);
    assert n.prefix == ManyImage(Leading(i), doc);
    hide Calm, Image, Valid, Satisfies, Refs, InsideRefs, RefsAll, CanonicalJson, Leading, LeadingImage;
    assert PrefixLength(n) == LeadingCount(i);
    forall k | 0 <= k < |items| && k < LeadingCount(i)
      ensures Valid(items[k], n.prefix.value[k], depth + 1, w) <==>
              Satisfies(items[k], Leading(i).list[k], depth + 1, doc, w)
    {
      ListMeans(items[k], Leading(i).list, k, depth + 1, keys, doc, w);
    }
    if i.items.Each? {
      forall k | LeadingCount(i) <= k < |items|
        ensures Valid(items[k], n.items.value, depth + 1, w) <==> Satisfies(items[k], i.items.item, depth + 1, doc, w)
      {
        MeansAt(items[k], i.items.item, depth + 1, keys, doc, w);
      }
    }
    if i.contains.Some? { ContainsMeans(items, i.contains.value, depth, keys, doc, w); }
  }

  lemma ContainsMeans(items: seq<Json>, c: Source, depth: nat, keys: set<Text>, doc: Document, w: World)
    requires depth <= w.maxDepth && Refs(c) <= keys && Agreed(depth + 1, keys, doc, w)
    requires forall k :: 0 <= k < |items| ==> Calm(items[k], c, depth + 1, doc, w)
    ensures MatchedBy(items, Image(c, doc), depth, w) == Contained(items, c, depth, doc, w)
  {
    hide Calm, Image, Valid, Satisfies, Refs;
    forall k | 0 <= k < |items|
      ensures Valid(items[k], Image(c, doc), depth + 1, w) <==> Satisfies(items[k], c, depth + 1, doc, w)
    {
      MeansAt(items[k], c, depth + 1, keys, doc, w);
    }
  }

  lemma {:induction false} FoundAlike(cs: seq<Child>, name: Text, doc: Document)
    ensures Find(ChildImages(cs, doc), name) == FindChild(cs, name)
  {
    hide Image;
    if cs != [] && cs[0].name != name {
      assert ChildImages(cs, doc)[1..] == ChildImages(cs[1..], doc);
      FoundAlike(cs[1..], name, doc);
    }
  }

  lemma MembersMean(members: seq<Member>, s: Source, n: Node, depth: nat, keys: set<Text>, doc: Document, w: World)
    requires depth <= w.maxDepth && s.Shape? && InsideRefs(s.inside) <= keys && CompiledMembers(n, s, doc)
    requires forall k :: 0 <= k < |members| ==> CalmMember(members[k], s.inside, depth, doc, w)
    requires Agreed(depth + 1, keys, doc, w)
    ensures ObjectValid(members, n, depth, w) <==> MembersHeeded(members, s.own, s.inside, depth, doc, w)
  {
    hide InsideRefs, MemberValid, MemberHeeded, HasKey, ChildImages, MaybeImage;
    forall k | 0 <= k < |members|
      ensures MemberValid(members[k], n, depth, w) <==> MemberHeeded(members[k], s.inside, depth, doc, w)
    {
      MemberMeans(members[k], s, n, depth, keys, doc, w);
    }
  }

  lemma MemberMeans(m: Member, s: Source, n: Node, depth: nat, keys: set<Text>, doc: Document, w: World)
    requires depth <= w.maxDepth && s.Shape? && InsideRefs(s.inside) <= keys && CompiledMembers(n, s, doc)
    requires CalmMember(m, s.inside, depth, doc, w) && Agreed(depth + 1, keys, doc, w)
    ensures MemberValid(m, n, depth, w) <==> MemberHeeded(m, s.inside, depth, doc, w)
  {
    var i := s.inside;
    assert RefsChildren(i.properties) <= keys && RefsChildren(i.patterns) <= keys;
    assert RefsMaybe(i.additional) <= keys && RefsMaybe(i.names) <= keys;
    hide Calm, Image, Valid, Satisfies, Refs, InsideRefs, RefsChildren, Find, FindChild;
    FoundAlike(i.properties, m.key, doc);
    var at := FindChild(i.properties, m.key);
    if at < |i.properties| { ChildMeans(m.value, i.properties, at, depth + 1, keys, doc, w); }
    forall k | 0 <= k < |i.patterns| ensures n.patterns[k].name == i.patterns[k].name {}
    forall k | 0 <= k < |i.patterns| && w.lib.matches(i.patterns[k].name, m.key)
      ensures Valid(m.value, n.patterns[k].node, depth + 1, w) <==>
              Satisfies(m.value, i.patterns[k].schema, depth + 1, doc, w)
    {
      ChildMeans(m.value, i.patterns, k, depth + 1, keys, doc, w);
    }
    ClaimedMeans(m.key, s, n, doc, w.lib);
    if i.names.Some? { MeansAt(Str(m.key), i.names.value, depth + 1, keys, doc, w); }
    if i.additional.Some? && !Declared(i, m.key, w.lib) {
      MeansAt(m.value, i.additional.value, depth + 1, keys, doc, w);
    }
    hide Claimed, Declared, ChildImages;
  }

  lemma ChildMeans(v: Json, cs: seq<Child>, k: nat, depth: nat, keys: set<Text>, doc: Document, w: World)
    requires Agreed(depth, keys, doc, w) && RefsChildren(cs) <= keys && k < |cs| && Calm(v, cs[k].schema, depth, doc, w)
    ensures ChildImages(cs, doc)[k].name == cs[k].name
    ensures Valid(v, ChildImages(cs, doc)[k].node, depth, w) <==> Satisfies(v, cs[k].schema, depth, doc, w)
  {
    hide Calm, Valid, Satisfies, Image, Refs, RefsChildren;
    RefsChildAt(cs, k);
    MeansAt(v, cs[k].schema, depth, keys, doc, w);
  }

  lemma ClaimedMeans(key: Text, s: Source, n: Node, doc: Document, lib: Library)
    requires s.Shape? && CompiledMembers(n, s, doc)
    ensures Claimed(n, key, lib) <==> Declared(s.inside, key, lib)
  {
    hide Image, Find, FindChild;
    FoundAlike(s.inside.properties, key, doc);
    var cs := s.inside.patterns;
    assert forall k :: 0 <= k < |cs| ==> n.patterns[k].name == cs[k].name;
  }

  lemma LogicMeans(v: Json, l: Logic, n: Node, depth: nat, keys: set<Text>, doc: Document, w: World)
    requires depth <= w.maxDepth && LogicRefs(l) <= keys && CompiledLogic(n, l, doc)
    requires CalmLogic(v, l, depth, doc, w) && Agreed(depth + 1, keys, doc, w)
    ensures Applicators(v, n, depth, w) <==> LogicHeeded(v, l, depth, doc, w)
  {
    assert RefsAll(l.allOf) <= keys && RefsMany(l.anyOf) <= keys && RefsMany(l.oneOf) <= keys
           && RefsMaybe(l.negated) <= keys;
    assert RefsMaybe(l.test) <= keys && RefsMaybe(l.consequent) <= keys && RefsMaybe(l.otherwise) <= keys;
    hide Calm, Image, Images, Valid, Satisfies, Refs, LogicRefs, RefsAll, Conditional, BranchHeeded, ExactlyOne,
         MeetsOne, EveryOne, MeetsAll, SomeOne, MeetsAny;
    EveryMeans(v, l.allOf, depth, keys, doc, w);
    if l.anyOf.Given? { AnyMeans(v, l.anyOf.list, depth, keys, doc, w); }
    if l.oneOf.Given? { OneMeans(v, l.oneOf.list, depth, keys, doc, w); }
    if l.negated.Some? { MeansAt(v, l.negated.value, depth + 1, keys, doc, w); }
    if l.test.Some? { BranchMeans(v, l, n, depth, keys, doc, w); }
  }

  lemma EveryMeans(v: Json, ss: seq<Source>, depth: nat, keys: set<Text>, doc: Document, w: World)
    requires depth <= w.maxDepth && RefsAll(ss) <= keys && CalmAll(v, ss, depth + 1, doc, w)
             && Agreed(depth + 1, keys, doc, w)
    ensures EveryOne(v, Images(ss, doc), depth, w) <==> MeetsAll(v, ss, depth, doc, w)
  {
    hide Calm, Images, Valid, Satisfies, RefsAll;
    forall k | 0 <= k < |ss|
      ensures Valid(v, Images(ss, doc)[k], depth + 1, w) <==> Satisfies(v, ss[k], depth + 1, doc, w)
    {
      ListMeans(v, ss, k, depth + 1, keys, doc, w);
    }
  }

  lemma AnyMeans(v: Json, ss: seq<Source>, depth: nat, keys: set<Text>, doc: Document, w: World)
    requires depth <= w.maxDepth && RefsAll(ss) <= keys && CalmAll(v, ss, depth + 1, doc, w)
             && Agreed(depth + 1, keys, doc, w)
    ensures SomeOne(v, Images(ss, doc), depth, w) <==> MeetsAny(v, ss, depth, doc, w)
  {
    hide Calm, Images, Valid, Satisfies, RefsAll;
    forall k | 0 <= k < |ss|
      ensures Valid(v, Images(ss, doc)[k], depth + 1, w) <==> Satisfies(v, ss[k], depth + 1, doc, w)
    {
      ListMeans(v, ss, k, depth + 1, keys, doc, w);
    }
  }

  lemma OneMeans(v: Json, ss: seq<Source>, depth: nat, keys: set<Text>, doc: Document, w: World)
    requires depth <= w.maxDepth && RefsAll(ss) <= keys && CalmAll(v, ss, depth + 1, doc, w)
             && Agreed(depth + 1, keys, doc, w)
    ensures ExactlyOne(v, Images(ss, doc), depth, w) <==> MeetsOne(v, ss, depth, doc, w)
  {
    hide Calm, Images, Valid, Satisfies, RefsAll;
    forall k | 0 <= k < |ss|
      ensures Valid(v, Images(ss, doc)[k], depth + 1, w) <==> Satisfies(v, ss[k], depth + 1, doc, w)
    {
      ListMeans(v, ss, k, depth + 1, keys, doc, w);
    }
    forall k: nat | k < |ss|
      ensures OnlyThis(v, Images(ss, doc), k, depth, w) <==> SoleMatch(v, ss, k, depth, doc, w)
    {
    }
  }

  lemma BranchMeans(v: Json, l: Logic, n: Node, depth: nat, keys: set<Text>, doc: Document, w: World)
    requires depth <= w.maxDepth && l.test.Some? && n.test == MaybeImage(l.test, doc)
    requires n.consequent == MaybeImage(l.consequent, doc) && n.otherwise == MaybeImage(l.otherwise, doc)
    requires RefsMaybe(l.test) <= keys && RefsMaybe(l.consequent) <= keys && RefsMaybe(l.otherwise) <= keys
    requires CalmMaybe(v, l.test, depth + 1, doc, w) && CalmMaybe(v, l.consequent, depth + 1, doc, w)
    requires CalmMaybe(v, l.otherwise, depth + 1, doc, w) && Agreed(depth + 1, keys, doc, w)
    ensures Conditional(v, n, depth, w) <==> BranchHeeded(v, l, depth, doc, w)
  {
    hide Calm, Image, Valid, Satisfies, Refs;
    MeansAt(v, l.test.value, depth + 1, keys, doc, w);
    if l.consequent.Some? { MeansAt(v, l.consequent.value, depth + 1, keys, doc, w); }
    if l.otherwise.Some? { MeansAt(v, l.otherwise.value, depth + 1, keys, doc, w); }
  }
}

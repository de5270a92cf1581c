/**
 The schema compiler: one instance serves every operation of a document, so it remembers the
 components it has compiled and leaves a placeholder while one is under way, for a schema that
 refers to itself. Every method is proved to leave the bundle that `Visit` defines.
 */
module SchemaCompiler {
  import opened Text
  import opened Json
  import opened SchemaNodes
  import opened SchemaSource
  import opened SchemaImage
  import opened CompilerState
  import opened CompilerSafety

  /** The compiled subschemas of an array's or object's parts. */
  datatype Parts = Parts(
    prefix: Option<seq<Node>>, items: Option<Node>, contains: Option<Node>,
    properties: seq<Entry>, patterns: seq<Entry>, additional: Option<Node>, names: Option<Node>)

  /** The compiled subschemas for the value itself. */
  datatype Choices = Choices(
    allOf: seq<Node>, anyOf: Option<seq<Node>>, oneOf: Option<seq<Node>>, negated: Option<Node>,
    test: Option<Node>, consequent: Option<Node>, otherwise: Option<Node>)

  ghost function PartsImage(i: Inside, doc: Document): Parts {
    Parts(LeadingImage(i, doc), ItemsImage(i.items, doc), MaybeImage(i.contains, doc),
          ChildImages(i.properties, doc), ChildImages(i.patterns, doc), MaybeImage(i.additional, doc),
              MaybeImage(i.names, doc))
  }

  ghost function ChoicesImage(l: Logic, doc: Document): Choices {
    Choices(Images(l.allOf, doc), ManyImage(l.anyOf, doc), ManyImage(l.oneOf, doc), MaybeImage(l.negated, doc),
            MaybeImage(l.test, doc), MaybeImage(l.consequent, doc), MaybeImage(l.otherwise, doc))
  }

  /** The node with all its keywords, dialect differences removed. */
  function Assembled(name: Option<Text>, s: Source, p: Parts, c: Choices, legacy: bool): Node
    requires s.Shape?
  {
    Node(name, legacy && s.nullable && NamedTypes(s.own) == [],
         TypesImage(s, legacy), s.own.enum, s.own.constant, ScalarImage(s.own, legacy),
         s.own.length, s.own.unique, p.prefix, p.items, p.contains, s.own.matching,
         s.own.size, s.own.required, p.properties, p.patterns, p.additional, p.names,
         c.allOf, c.anyOf, c.oneOf, c.negated, c.test, c.consequent, c.otherwise)
  }

  lemma AssembledImage(s: Source, doc: Document)
    requires s.Shape? && !(s.ref.Some? && NoSiblings(s))
    ensures Assembled(if s.ref.Some? then Some(NameOf(s.ref.value)) else None, s, PartsImage(s.inside, doc),
                      ChoicesImage(s.logic, doc), doc.legacy)
            == Image(s, doc)
  {
    hide TypesImage, ScalarImage, LeadingImage, ItemsImage, MaybeImage, ManyImage, Images, ChildImages, NamedTypes;
  }

  ghost function VisitInside(s: Source, depth: nat, b: Bundle, max: nat, doc: Document): Visited
    requires s.Shape?
  {
    var r := VisitAll(ArrayParts(s), depth, b, s, max, doc);
    if r.ok then VisitAll(ObjectParts(s, doc), depth, r.bundle, s, max, doc) else r
  }

  ghost function VisitLogic(s: Source, depth: nat, b: Bundle, max: nat, doc: Document): Visited
    requires s.Shape?
  {
    var r := VisitAll(ChoiceParts(s), depth, b, s, max, doc);
    if r.ok then VisitAll(BranchParts(s), depth, r.bundle, s, max, doc) else r
  }

  lemma PartsChain(s: Source, depth: nat, b: Bundle, max: nat, doc: Document)
    requires s.Shape?
    ensures var r := VisitInside(s, depth, b, max, doc);
            VisitAll(PartsOf(s, doc), depth, b, s, max, doc) == if r.ok then VisitLogic(s, depth, r.bundle, max, doc)
                else r
  {
    hide VisitAll, ArrayParts, ObjectParts, ChoiceParts, BranchParts;
    var a, o, c, w := ArrayParts(s), ObjectParts(s, doc), ChoiceParts(s), BranchParts(s);
    VisitConcat(a, o + (c + w), depth, b, s, max, doc);
    var r := VisitAll(a, depth, b, s, max, doc);
    VisitConcat(o, c + w, depth, r.bundle, s, max, doc);
    var q := VisitAll(o, depth, r.bundle, s, max, doc);
    VisitConcat(c, w, depth, q.bundle, s, max, doc);
  }

  lemma PartsBelow(s: Source, doc: Document)
    requires s.Shape?
    ensures Below(ChildParts(s.inside.properties, false, doc), s) && Below(ChildParts(s.inside.patterns, true, doc), s)
    ensures Below(MaybeParts(s.inside.additional), s) && Below(MaybeParts(s.inside.names), s)
    ensures Below(ListParts(s.logic.allOf), s) && Below(ManyParts(s.logic.anyOf), s)
            && Below(ManyParts(s.logic.oneOf), s)
    ensures Below(MaybeParts(s.logic.negated), s) && Below(MaybeParts(s.logic.test), s)
    ensures Below(MaybeParts(s.logic.consequent), s) && Below(MaybeParts(s.logic.otherwise), s)
    ensures Below(ManyParts(s.inside.prefixItems), s) && Below(ItemsParts(s.inside.items), s)
    ensures Below(MaybeParts(s.inside.contains), s)
            && Below(ItemsParts(s.inside.items) + MaybeParts(s.inside.contains), s)
  {
    assert forall k :: 0 <= k < |s.inside.properties| ==> s.inside.properties[k].schema < s;
    assert forall k :: 0 <= k < |s.inside.patterns| ==> s.inside.patterns[k].schema < s;
  }

  lemma ListStart(ss: seq<Source>, doc: Document)
    ensures Images(ss[..0], doc) == [] && ss[..|ss|] == ss
    ensures var all := ListParts(ss);
            |all| == |ss| && all[0..] == all && all[|ss|..] == []
  {
  }

  /** One turn of the loop over listed schemas. */
  lemma ListNext(ss: seq<Source>, k: nat, depth: nat, b: Bundle, parent: Source, max: nat, doc: Document)
    requires k < |ss| && Below(ListParts(ss)[k..], parent)
    ensures ss[k] < parent && Below(ListParts(ss)[k + 1..], parent)
    ensures Images(ss[..k + 1], doc) == Images(ss[..k], doc) + [Image(ss[k], doc)]
    ensures var r := Visit(ss[k], depth, b, max, doc);
            VisitAll(ListParts(ss)[k..], depth, b, parent, max, doc) ==
            if r.ok then VisitAll(ListParts(ss)[k + 1..], depth, r.bundle, parent, max, doc) else r
  {
    hide Image, Visit;
    var rest := ListParts(ss)[k..];
    assert rest[0] == Part(ss[k], false) && rest[1..] == ListParts(ss)[k + 1..];
    assert forall j :: 0 <= j < |rest[1..]| ==> rest[1..][j] == rest[j + 1];
  }

  lemma ChildStart(cs: seq<Child>, linted: bool, doc: Document)
    ensures ChildImages(cs[..0], doc) == [] && cs[..|cs|] == cs
    ensures var all := ChildParts(cs, linted, doc);
            |all| == |cs| && all[0..] == all && all[|cs|..] == []
  {
  }

  lemma ChildNext(cs: seq<Child>, k: nat, linted: bool, depth: nat, b: Bundle, parent: Source, max: nat, doc: Document)
    requires k < |cs| && Below(ChildParts(cs, linted, doc)[k..], parent)
    ensures cs[k].schema < parent && Below(ChildParts(cs, linted, doc)[k + 1..], parent)
    ensures ChildImages(cs[..k + 1], doc) == ChildImages(cs[..k], doc) + [Entry(cs[k].name, Image(cs[k].schema, doc))]
    ensures var r := Visit(cs[k].schema, depth, b, max, doc);
            VisitAll(ChildParts(cs, linted, doc)[k..], depth, b, parent, max, doc) ==
            if linted && doc.refuses(cs[k].name) then Visited(false, b)
            else if r.ok then VisitAll(ChildParts(cs, linted, doc)[k + 1..], depth, r.bundle, parent, max, doc) else r
  {
    hide Image, Visit;
    var rest := ChildParts(cs, linted, doc)[k..];
    assert rest[0] == Part(cs[k].schema, linted && doc.refuses(cs[k].name))
           && rest[1..] == ChildParts(cs, linted, doc)[k + 1..];
    assert forall j :: 0 <= j < |rest[1..]| ==> rest[1..][j] == rest[j + 1];
  }

  ghost predicate SettledWith(b: Bundle, counter: nat, hoisted: seq<Source>, doc: Document) {
    counter == |hoisted| && Honest(b.defs, b.memo, {}, hoisted, doc) && Reached(b.memo, hoisted)
  }

  lemma StaysSettled(s: Source, b: Bundle, hoisted: seq<Source>, max: nat, doc: Document)
    requires NamesDistinct(doc) && SettledWith(b, |hoisted|, hoisted, doc)
    ensures var v := Visit(s, 0, b, max, doc);
            SettledWith(HoistedBundle(v, s, |hoisted|, doc), |hoisted| + (if v.ok then 1 else 0),
                        hoisted + (if v.ok then [s] else []), doc)
  {
    hide Honest, Reached, Visit, HoistedBundle, NamesDistinct;
    HoistKeeps(s, b, hoisted, max, doc);
  }

  class SchemaCompiler {
    const doc: Document
    const maxDepth: nat
    var defs: Defs
    var byComponent: Memo
    var counter: nat
    ghost var hoisted: seq<Source>

    constructor (doc: Document, maxDepth: nat)
      ensures this.doc == doc && this.maxDepth == maxDepth
      ensures Valid() && Settled() && Now() == Bundle(map[], map[]) && hoisted == []
    {
      this.doc, this.maxDepth := doc, maxDepth;
      defs, byComponent, counter, hoisted := map[], map[], 0, [];
    }

    ghost function Now(): Bundle
      reads this
    {
      Bundle(defs, byComponent)
    }

    predicate Valid()
      reads this
    {
      WellNamed(byComponent)
    }

    /** Between calls: every definition is the compiled form of a component or a hoisted schema. */
    ghost predicate Settled()
      reads this
    {
      SettledWith(Now(), counter, hoisted, doc)
    }

    /** Compiles a schema into the bundle under a new name; none means it threw. */
    method Hoist(schema: Source) returns (name: Option<Text>)
      requires Valid()
      modifies this
      ensures Valid()
      ensures var v := Visit(schema, 0, old(Now()), maxDepth, doc);
              && name == (if v.ok then Some(InlineName(old(counter))) else None)
              && Now() == HoistedBundle(v, schema, old(counter), doc)
              && hoisted == old(hoisted) + (if v.ok then [schema] else [])
              && counter == old(counter) + (if v.ok then 1 else 0)
      ensures old(Settled()) && NamesDistinct(doc) ==> Settled()
    {
      hide Honest, Image, InlineName, Visit, NamesDistinct, WellNamed, Reached, HoistedBundle;
      ghost var settled, before, earlier := Settled(), Now(), hoisted;
      name := HoistInto(schema);
      if settled && NamesDistinct(doc) { StaysSettled(schema, before, earlier, maxDepth, doc); }
    }

    method HoistInto(schema: Source) returns (name: Option<Text>)
      requires Valid()
      modifies this
      ensures Valid()
      ensures var v := Visit(schema, 0, old(Now()), maxDepth, doc);
              && name == (if v.ok then Some(InlineName(old(counter))) else None)
              && Now() == HoistedBundle(v, schema, old(counter), doc)
              && hoisted == old(hoisted) + (if v.ok then [schema] else [])
              && counter == old(counter) + (if v.ok then 1 else 0)
    {
      hide Image, InlineName, Visit, WellNamed;
      var node := Compile(schema, 0);
      if node.None? { return None; }
      var key := InlineName(counter);
      counter := counter + 1;
      defs := defs[key := node.value];
      hoisted := hoisted + [schema];
      return Some(key);
    }

    method ComponentDef(pointer: Text, ghost under: Source) returns (name: Option<Text>)
      requires Valid() && Local(pointer)
      modifies this`defs, this`byComponent
      ensures Valid()
      ensures var v := VisitReference(pointer, old(Now()), under, maxDepth, doc);
              Now() == v.bundle && name == if v.ok then Some(NameOf(pointer)) else None
      decreases Unseen(byComponent, doc), under, 1
    {
      hide Image, NameOf, Visit, Unseen;
      if pointer in byComponent { return Some(byComponent[pointer]); }
      if pointer !in doc.components { return None; }
      var key := NameOf(pointer);
      UnseenFalls(byComponent, pointer, doc);
      byComponent := byComponent[pointer := key];
      defs := defs[key := EMPTY];
      var node := Compile(doc.components[pointer], 0);
      if node.None? {
        byComponent := byComponent - {pointer};
        defs := defs - {key};
        return None;
      }
      defs := defs[key := node.value];
      return Some(key);
    }

    method Compile(s: Source, depth: nat) returns (node: Option<Node>)
      requires Valid()
      modifies this`defs, this`byComponent
      ensures Valid()
      ensures var v := Visit(s, depth, old(Now()), maxDepth, doc);
              Now() == v.bundle && node == if v.ok then Some(Image(s, doc)) else None
      decreases Unseen(byComponent, doc), s, 5
    {
      hide VisitReference, VisitAll, WellNamed, Unseen, PartsOf, OwnFine;
      if depth > maxDepth || s.Broken? { return None; }
      if s.Truth? { return Some(if s.accepts then EMPTY else NOTHING); }
      var name: Option<Text> := None;
      if s.ref.Some? {
        NotLocal(s.ref.value, Now(), s, maxDepth, doc);
        if !Local(s.ref.value) { return None; }
        name := ComponentDef(s.ref.value, s);
        if name.None? { return None; }
        if NoSiblings(s) { return Some(EMPTY.(ref := name)); }
      }
      if !OwnFine(s.own, doc) { return None; }
      node := CompileParts(s, name, depth + 1);
    }

    method CompileParts(s: Source, name: Option<Text>, depth: nat) returns (node: Option<Node>)
      requires Valid() && s.Shape? && !(s.ref.Some? && NoSiblings(s))
      requires name == (if s.ref.Some? then Some(NameOf(s.ref.value)) else None)
      modifies this`defs, this`byComponent
      ensures Valid()
      ensures var v := VisitAll(PartsOf(s, doc), depth, old(Now()), s, maxDepth, doc);
              Now() == v.bundle && node == if v.ok then Some(Image(s, doc)) else None
      decreases Unseen(byComponent, doc), s, 4
    {
      hide VisitAll, WellNamed, Unseen, ArrayParts, ObjectParts, ChoiceParts, BranchParts, Image, Assembled, NameOf,
           PartsImage, ChoicesImage;
      AssembledImage(s, doc);
      PartsChain(s, depth, Now(), maxDepth, doc);
      var inside := CompileInside(s, depth);
      if inside.None? { return None; }
      var choices := CompileLogic(s, depth);
      if choices.None? { return None; }
      return Some(Assembled(name, s, inside.value, choices.value, doc.legacy));
    }

    method CompileInside(s: Source, depth: nat) returns (parts: Option<Parts>)
      requires Valid() && s.Shape?
      modifies this`defs, this`byComponent
      ensures Valid()
      ensures var v := VisitInside(s, depth, old(Now()), maxDepth, doc);
              Now() == v.bundle && parts == if v.ok then Some(PartsImage(s.inside, doc)) else None
      decreases Unseen(byComponent, doc), s, 3
    {
      hide VisitAll, WellNamed, Unseen, ArrayParts, ObjectParts, Image, Images, ChildImages, MaybeImage, ItemsImage,
           LeadingImage;
      var first := CompileArrayPart(s, depth);
      if first.None? { return None; }
      var second := CompileObjectPart(s, depth);
      if second.None? { return None; }
      var (leading, items, contains) := first.value;
      var (properties, patterns, additional, names) := second.value;
      return Some(Parts(leading, items, contains, properties, patterns, additional, names));
    }

    method CompileArrayPart(s: Source, depth: nat) returns (r: Option<(Option<seq<Node>>, Option<Node>, Option<Node>)>)
      requires Valid() && s.Shape?
      modifies this`defs, this`byComponent
      ensures Valid()
      ensures var v := VisitAll(ArrayParts(s), depth, old(Now()), s, maxDepth, doc);
              && Now() == v.bundle && r.Some? == v.ok
              && (v.ok ==>
                    r.value == (LeadingImage(s.inside, doc), ItemsImage(s.inside.items, doc),
                                MaybeImage(s.inside.contains, doc)))
      decreases Unseen(byComponent, doc), s, 2
    {
      hide VisitAll, WellNamed, Unseen, Image, Images, ManyParts, ItemsParts, MaybeParts, MaybeImage, ItemsImage;
      var i := s.inside;
      PartsBelow(s, doc);
      VisitConcat(ManyParts(i.prefixItems), ItemsParts(i.items) + MaybeParts(i.contains), depth, Now(), s, maxDepth,
                  doc);
      var prefix := CompileMany(i.prefixItems, depth, s);
      if prefix.None? { return None; }
      VisitConcat(ItemsParts(i.items), MaybeParts(i.contains), depth, Now(), s, maxDepth, doc);
      var items := CompileItems(i.items, depth, s);
      if items.None? { return None; }
      var contains := CompileMaybe(i.contains, depth, s);
      if contains.None? { return None; }
      var tuple := items.value.1;
      var leading := if tuple.Some? && (i.prefixItems.Absent? || i.tupleLast) then tuple else prefix.value;
      return Some((leading, items.value.0, contains.value));
    }

    method CompileObjectPart(s: Source, depth: nat)
      returns (r: Option<(seq<Entry>, seq<Entry>, Option<Node>, Option<Node>)>)
      requires Valid() && s.Shape?
      modifies this`defs, this`byComponent
      ensures Valid()
      ensures var v := VisitAll(ObjectParts(s, doc), depth, old(Now()), s, maxDepth, doc);
              && Now() == v.bundle && r.Some? == v.ok
              && (v.ok ==> r.value == (ChildImages(s.inside.properties, doc), ChildImages(s.inside.patterns, doc),
                                       MaybeImage(s.inside.additional, doc), MaybeImage(s.inside.names, doc)))
      decreases Unseen(byComponent, doc), s, 2
    {
      hide VisitAll, WellNamed, Unseen, ChildImages, ChildParts, MaybeParts, MaybeImage;
      var i := s.inside;
      ghost var last := MaybeParts(i.additional) + MaybeParts(i.names);
      ghost var later := ChildParts(i.patterns, true, doc) + last;
      PartsBelow(s, doc);
      VisitConcat(ChildParts(i.properties, false, doc), later, depth, Now(), s, maxDepth, doc);
      var properties := CompileChildren(i.properties, false, depth, s);
      if properties.None? { return None; }
      VisitConcat(ChildParts(i.patterns, true, doc), last, depth, Now(), s, maxDepth, doc);
      var patterns := CompileChildren(i.patterns, true, depth, s);
      if patterns.None? { return None; }
      VisitConcat(MaybeParts(i.additional), MaybeParts(i.names), depth, Now(), s, maxDepth, doc);
      var additional := CompileMaybe(i.additional, depth, s);
      if additional.None? { return None; }
      var names := CompileMaybe(i.names, depth, s);
      if names.None? { return None; }
      return Some((properties.value, patterns.value, additional.value, names.value));
    }

    method CompileLogic(s: Source, depth: nat) returns (choices: Option<Choices>)
      requires Valid() && s.Shape?
      modifies this`defs, this`byComponent
      ensures Valid()
      ensures var v := VisitLogic(s, depth, old(Now()), maxDepth, doc);
              Now() == v.bundle && choices == if v.ok then Some(ChoicesImage(s.logic, doc)) else None
      decreases Unseen(byComponent, doc), s, 3
    {
      hide VisitAll, WellNamed, Unseen, ChoiceParts, BranchParts, Image, Images, ManyImage, MaybeImage;
      var first := CompileChoices(s, depth);
      if first.None? { return None; }
      var second := CompileBranches(s, depth);
      if second.None? { return None; }
      var (allOf, anyOf, oneOf, negated) := first.value;
      var (test, consequent, otherwise) := second.value;
      return Some(Choices(allOf, anyOf, oneOf, negated, test, consequent, otherwise));
    }

    method CompileChoices(s: Source, depth: nat)
      returns (r: Option<(seq<Node>, Option<seq<Node>>, Option<seq<Node>>, Option<Node>)>)
      requires Valid() && s.Shape?
      modifies this`defs, this`byComponent
      ensures Valid()
      ensures var v := VisitAll(ChoiceParts(s), depth, old(Now()), s, maxDepth, doc);
              && Now() == v.bundle && r.Some? == v.ok
              && (v.ok ==> r.value == (Images(s.logic.allOf, doc), ManyImage(s.logic.anyOf, doc),
                                       ManyImage(s.logic.oneOf, doc), MaybeImage(s.logic.negated, doc)))
      decreases Unseen(byComponent, doc), s, 2
    {
      hide VisitAll, WellNamed, Unseen, Images, ManyImage, MaybeImage, ListParts, ManyParts, MaybeParts;
      var l := s.logic;
      ghost var last := ManyParts(l.oneOf) + MaybeParts(l.negated);
      PartsBelow(s, doc);
      VisitConcat(ListParts(l.allOf), ManyParts(l.anyOf) + last, depth, Now(), s, maxDepth, doc);
      var allOf := CompileAll(l.allOf, depth, s);
      if allOf.None? { return None; }
      VisitConcat(ManyParts(l.anyOf), last, depth, Now(), s, maxDepth, doc);
      var anyOf := CompileMany(l.anyOf, depth, s);
      if anyOf.None? { return None; }
      VisitConcat(ManyParts(l.oneOf), MaybeParts(l.negated), depth, Now(), s, maxDepth, doc);
      var oneOf := CompileMany(l.oneOf, depth, s);
      if oneOf.None? { return None; }
      var negated := CompileMaybe(l.negated, depth, s);
      if negated.None? { return None; }
      return Some((allOf.value, anyOf.value, oneOf.value, negated.value));
    }

    method CompileBranches(s: Source, depth: nat) returns (r: Option<(Option<Node>, Option<Node>, Option<Node>)>)
      requires Valid() && s.Shape?
      modifies this`defs, this`byComponent
      ensures Valid()
      ensures var v := VisitAll(BranchParts(s), depth, old(Now()), s, maxDepth, doc);
              && Now() == v.bundle && r.Some? == v.ok
              && (v.ok ==>
                    r.value == (MaybeImage(s.logic.test, doc), MaybeImage(s.logic.consequent, doc),
                                MaybeImage(s.logic.otherwise, doc)))
      decreases Unseen(byComponent, doc), s, 2
    {
      hide VisitAll, WellNamed, Unseen, MaybeImage, MaybeParts;
      var l := s.logic;
      PartsBelow(s, doc);
      VisitConcat(MaybeParts(l.test), MaybeParts(l.consequent) + MaybeParts(l.otherwise), depth, Now(), s, maxDepth,
                  doc);
      var test := CompileMaybe(l.test, depth, s);
      if test.None? { return None; }
      VisitConcat(MaybeParts(l.consequent), MaybeParts(l.otherwise), depth, Now(), s, maxDepth, doc);
      var consequent := CompileMaybe(l.consequent, depth, s);
      if consequent.None? { return None; }
      var otherwise := CompileMaybe(l.otherwise, depth, s);
      if otherwise.None? { return None; }
      return Some((test.value, consequent.value, otherwise.value));
    }

    method CompileMaybe(o: Option<Source>, depth: nat, ghost parent: Source) returns (r: Option<Option<Node>>)
      requires Valid() && Below(MaybeParts(o), parent)
      modifies this`defs, this`byComponent
      ensures Valid()
      ensures var v := VisitAll(MaybeParts(o), depth, old(Now()), parent, maxDepth, doc);
              Now() == v.bundle && r == if v.ok then Some(MaybeImage(o, doc)) else None
      decreases Unseen(byComponent, doc), parent, 0
    {
      hide Image, Visit, WellNamed, Unseen;
      if o.None? { return Some(None); }
      OnePart(Part(o.value, false), depth, Now(), parent, maxDepth, doc);
      var node := Compile(o.value, depth);
      return if node.Some? then Some(node) else None;
    }

    method CompileMany(m: Many, depth: nat, ghost parent: Source) returns (r: Option<Option<seq<Node>>>)
      requires Valid() && Below(ManyParts(m), parent)
      modifies this`defs, this`byComponent
      ensures Valid()
      ensures var v := VisitAll(ManyParts(m), depth, old(Now()), parent, maxDepth, doc);
              Now() == v.bundle && r == if v.ok then Some(ManyImage(m, doc)) else None
      decreases Unseen(byComponent, doc), parent, 1
    {
      hide Images, WellNamed, Unseen, ListParts;
      if m.Absent? { return Some(None); }
      var nodes := CompileAll(m.list, depth, parent);
      return if nodes.Some? then Some(nodes) else None;
    }

    /** The single form is `items`; a list is read as leading items. */
    method CompileItems(i: Items, depth: nat, ghost parent: Source)
      returns (r: Option<(Option<Node>, Option<seq<Node>>)>)
      requires Valid() && Below(ItemsParts(i), parent)
      modifies this`defs, this`byComponent
      ensures Valid()
      ensures var v := VisitAll(ItemsParts(i), depth, old(Now()), parent, maxDepth, doc);
              && Now() == v.bundle && r.Some? == v.ok
              && (v.ok ==> r.value == (ItemsImage(i, doc), if i.Tuple? then Some(Images(i.list, doc)) else None))
      decreases Unseen(byComponent, doc), parent, 1
    {
      hide Image, Images, Visit, WellNamed, Unseen, ListParts;
      if i.NoItems? { return Some((None, None)); }
      if i.Tuple? {
        var nodes := CompileAll(i.list, depth, parent);
        return if nodes.Some? then Some((None, nodes)) else None;
      }
      OnePart(Part(i.item, false), depth, Now(), parent, maxDepth, doc);
      var node := Compile(i.item, depth);
      return if node.Some? then Some((node, None)) else None;
    }

    method CompileAll(ss: seq<Source>, depth: nat, ghost parent: Source) returns (r: Option<seq<Node>>)
      requires Valid() && Below(ListParts(ss), parent)
      modifies this`defs, this`byComponent
      ensures Valid()
      ensures var v := VisitAll(ListParts(ss), depth, old(Now()), parent, maxDepth, doc);
              Now() == v.bundle && r == if v.ok then Some(Images(ss, doc)) else None
      decreases Unseen(byComponent, doc), parent, 0
    {
      hide Image, Images, Visit, WellNamed, Unseen, ListParts, VisitAll;
      ghost var start, all := Now(), ListParts(ss);
      var nodes: seq<Node> := [];
      ListStart(ss, doc);
      for k := 0 to |ss|
        invariant Valid() && Unseen(byComponent, doc) <= Unseen(start.memo, doc)
        invariant nodes == Images(ss[..k], doc) && Below(all[k..], parent)
        invariant VisitAll(all, depth, start, parent, maxDepth,
                           doc) == VisitAll(all[k..], depth, Now(), parent, maxDepth, doc)
      {
        ListNext(ss, k, depth, Now(), parent, maxDepth, doc);
        var node := Compile(ss[k], depth);
        if node.None? { return None; }
        nodes := nodes + [node.value];
      }
      NoParts(depth, Now(), parent, maxDepth, doc);
      return Some(nodes);
    }

    method CompileChildren(cs: seq<Child>, linted: bool, depth: nat, ghost parent: Source)
      returns (r: Option<seq<Entry>>)
      requires Valid() && Below(ChildParts(cs, linted, doc), parent)
      modifies this`defs, this`byComponent
      ensures Valid()
      ensures var v := VisitAll(ChildParts(cs, linted, doc), depth, old(Now()), parent, maxDepth, doc);
              Now() == v.bundle && r == if v.ok then Some(ChildImages(cs, doc)) else None
      decreases Unseen(byComponent, doc), parent, 0
    {
      hide Image, ChildImages, Visit, WellNamed, Unseen, ChildParts, VisitAll;
      ghost var start, all := Now(), ChildParts(cs, linted, doc);
      var entries: seq<Entry> := [];
      ChildStart(cs, linted, doc);
      for k := 0 to |cs|
        invariant Valid() && Unseen(byComponent, doc) <= Unseen(start.memo, doc)
        invariant entries == ChildImages(cs[..k], doc) && Below(all[k..], parent)
        invariant VisitAll(all, depth, start, parent, maxDepth,
                           doc) == VisitAll(all[k..], depth, Now(), parent, maxDepth, doc)
      {
        ChildNext(cs, k, linted, depth, Now(), parent, maxDepth, doc);
        if linted && doc.refuses(cs[k].name) { return None; }
        var node := Compile(cs[k].schema, depth);
        if node.None? { return None; }
        entries := entries + [Entry(cs[k].name, node.value)];
      }
      NoParts(depth, Now(), parent, maxDepth, doc);
      return Some(entries);
    }
  }
}

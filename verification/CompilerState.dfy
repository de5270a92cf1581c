/**
 What the schema compiler keeps between calls: the bundle of definitions, the components it
 remembers, and the placeholder of each component still under way.
 */
module CompilerState {
  import opened Text
  import opened Json
  import opened SchemaNodes
  import opened SchemaSource
  import opened SchemaImage

  // ----- names

  function Decimal(n: nat): Text { if n < 10 then [48 + n] else Decimal(n / 10) + [48 + n % 10] }

  /** The name of the n-th hoisted schema; the counter is raised before it is used. */
  function InlineName(n: nat): Text { [115] + Decimal(n + 1) }

  lemma {:induction false} DecimalInjective(m: nat, n: nat)
    requires Decimal(m) == Decimal(n)
    ensures m == n
  {
    DecimalLonger(m);
    DecimalLonger(n);
    if m >= 10 && n >= 10 {
      var a, b := Decimal(m / 10), Decimal(n / 10);
      assert a == (a + [48 + m % 10])[..|a|] && b == (b + [48 + n % 10])[..|b|];
      assert (a + [48 + m % 10])[|a|] == (b + [48 + n % 10])[|b|];
      DecimalInjective(m / 10, n / 10);
    }
  }

  lemma DecimalLonger(n: nat)
    ensures |Decimal(n)| >= 1 && (n >= 10 ==> |Decimal(n)| >= 2)
  {
    if n >= 10 { DecimalLonger(n / 10); }
  }

  /** A component's name starts with an underscore, so it is never that of a hoisted schema. */
  lemma NamesApart(pointer: Text, n: nat)
    requires Local(pointer)
    ensures NameOf(pointer) != InlineName(n)
  {
    assert NameOf(pointer)[0] == 95;
  }

  // ----- what compiles

  predicate OwnFine(own: Own, doc: Document) {
    && !own.unsupported
    && (own.types.Some? ==> Unknown !in own.types.value)
    && (own.pattern.Some? ==> !doc.refuses(own.pattern.value))
  }

  /** Supported all the way down, references aside, and nested no deeper than the bound. */
  predicate Fine(s: Source, depth: nat, max: nat, doc: Document)
    decreases s, 1
  {
    && depth <= max
    && match s
       case Truth(_) => true
       case Broken => false
       case Shape(ref, _, own, inside, logic) =>
         && (ref.Some? ==> Local(ref.value))
         && OwnFine(own, doc) && FineInside(inside, depth + 1, max, doc) && FineLogic(logic, depth + 1, max, doc)
  }

  predicate FineMaybe(o: Option<Source>, depth: nat, max: nat, doc: Document)
  {
    o.Some? ==> Fine(o.value, depth, max, doc)
  }

  predicate FineAll(ss: seq<Source>, depth: nat, max: nat, doc: Document) {
    forall k :: 0 <= k < |ss| ==> Fine(ss[k], depth, max, doc)
  }

  predicate FineMany(m: Many, depth: nat, max: nat, doc: Document) { m.Given? ==> FineAll(m.list, depth, max, doc) }

  predicate FineItems(i: Items, depth: nat, max: nat, doc: Document) {
    match i
    case NoItems => true
    case Each(item) => Fine(item, depth, max, doc)
    case Tuple(list) => FineAll(list, depth, max, doc)
  }

  predicate FineChildren(cs: seq<Child>, linted: bool, depth: nat, max: nat, doc: Document) {
    forall k :: 0 <= k < |cs| ==> (linted ==> !doc.refuses(cs[k].name)) && Fine(cs[k].schema, depth, max, doc)
  }

  predicate FineInside(i: Inside, depth: nat, max: nat, doc: Document) {
    && FineMany(i.prefixItems, depth, max, doc) && FineItems(i.items, depth, max, doc)
    && FineMaybe(i.contains, depth, max, doc)
    && FineChildren(i.properties, false, depth, max, doc) && FineChildren(i.patterns, true, depth, max, doc)
    && FineMaybe(i.additional, depth, max, doc) && FineMaybe(i.names, depth, max, doc)
  }

  predicate FineLogic(l: Logic, depth: nat, max: nat, doc: Document) {
    && FineAll(l.allOf, depth, max, doc) && FineMany(l.anyOf, depth, max, doc) && FineMany(l.oneOf, depth, max, doc)
    && FineMaybe(l.negated, depth, max, doc) && FineMaybe(l.test, depth, max, doc)
    && FineMaybe(l.consequent, depth, max, doc) && FineMaybe(l.otherwise, depth, max, doc)
  }

  /** Every component compiles and refers to components only. */
  predicate DocumentFine(doc: Document, max: nat) {
    forall p :: p in doc.components ==>
          Fine(doc.components[p], 0, max, doc) && Refs(doc.components[p]) <= doc.components.Keys
  }

  /** Pointers into the document, no two with the same name. */
  predicate NamesDistinct(doc: Document) {
    && (forall p :: p in doc.components ==> Local(p))
    && (forall p, q :: p in doc.components && q in doc.components && NameOf(p) == NameOf(q) ==> p == q)
  }

  // ----- the state

  type Defs = map<Text, Node>
  type Memo = map<Text, Text>

  /** Remembered components have their compiled form, but for those under way. */
  ghost predicate Remembers(defs: Defs, memo: Memo, open: set<Text>, doc: Document) {
    && open <= memo.Keys
    && forall p :: p in memo ==>
         && p in doc.components && memo[p] == NameOf(p) && NameOf(p) in defs
         && defs[NameOf(p)] == if p in open then EMPTY else Image(doc.components[p], doc)
  }

  /** The memo names each component by its pointer. */
  predicate WellNamed(memo: Memo) { forall p :: p in memo ==> memo[p] == NameOf(p) }

  ghost predicate Hoisted(defs: Defs, hoisted: seq<Source>, doc: Document) {
    forall k: nat :: k < |hoisted| ==> InlineName(k) in defs && defs[InlineName(k)] == Image(hoisted[k], doc)
  }

  ghost predicate IsComponent(name: Text, keys: set<Text>) { exists p :: p in keys && NameOf(p) == name }

  ghost predicate IsInline(name: Text, count: nat) { exists k: nat :: k < count && InlineName(k) == name }

  /** There is nothing else in the bundle. */
  ghost predicate NothingElse(names: set<Text>, keys: set<Text>, count: nat) {
    forall n :: n in names ==> IsComponent(n, keys) || IsInline(n, count)
  }

  ghost predicate Honest(defs: Defs, memo: Memo, open: set<Text>, hoisted: seq<Source>, doc: Document) {
    Remembers(defs, memo, open, doc) && Hoisted(defs, hoisted, doc) && NothingElse(defs.Keys, memo.Keys, |hoisted|)
  }

  /** What is remembered refers only to what is remembered. */
  ghost predicate Closed(memo: Memo, open: set<Text>, doc: Document) {
    forall p :: p in memo && p !in open ==> p in doc.components && Refs(doc.components[p]) <= memo.Keys
  }

  /** What hoisted schemas refer to is remembered. */
  ghost predicate Reached(memo: Memo, hoisted: seq<Source>) {
    forall k :: 0 <= k < |hoisted| ==> Refs(hoisted[k]) <= memo.Keys
  }

  lemma ReachedNext(memo: Memo, memo': Memo, hoisted: seq<Source>, s: Source)
    requires Reached(memo, hoisted) && memo.Keys <= memo'.Keys
    ensures Reached(memo', hoisted)
    ensures Refs(s) <= memo'.Keys ==> Reached(memo', hoisted + [s])
  {
    hide Refs;
  }

  ghost function Unseen(memo: Memo, doc: Document): nat { |doc.components.Keys - memo.Keys| }

  lemma UnseenBound(memo: Memo, memo': Memo, doc: Document)
    requires memo.Keys <= memo'.Keys
    ensures Unseen(memo', doc) <= Unseen(memo, doc)
  {
    var a, b := doc.components.Keys - memo.Keys, doc.components.Keys - memo'.Keys;
    assert a == b + (a - b);
  }

  /** A reference on its own has nothing beside it to compile. */
  lemma NothingBesideRef(depth: nat, max: nat, doc: Document)
    ensures OwnFine(NO_OWN, doc) && FineInside(NO_INSIDE, depth, max, doc) && FineLogic(NO_LOGIC, depth, max, doc)
    ensures InsideRefs(NO_INSIDE) == {} && LogicRefs(NO_LOGIC) == {}
  {
  }

  lemma UnseenFalls(memo: Memo, pointer: Text, doc: Document)
    requires pointer in doc.components && pointer !in memo
    ensures Unseen(memo[pointer := NameOf(pointer)], doc) < Unseen(memo, doc)
  {
    var before := doc.components.Keys - memo.Keys;
    assert doc.components.Keys - memo[pointer := NameOf(pointer)].Keys == before - {pointer};
  }

  /** Writing under a component's name leaves the hoisted schemas alone. */
  lemma HoistedStay(defs: Defs, defs': Defs, hoisted: seq<Source>, doc: Document, pointer: Text)
    requires Local(pointer) && Hoisted(defs, hoisted, doc)
    requires forall n :: n in defs && n != NameOf(pointer) ==> n in defs' && defs'[n] == defs[n]
    ensures Hoisted(defs', hoisted, doc)
  {
    hide Image, NameOf, InlineName;
    forall k: nat | k < |hoisted| ensures InlineName(k) in defs' && defs'[InlineName(k)] == Image(hoisted[k], doc) {
      NamesApart(pointer, k);
    }
  }

  lemma NamesGrow(names: set<Text>, keys: set<Text>, count: nat, pointer: Text)
    requires NothingElse(names, keys, count)
    ensures NothingElse(names + {NameOf(pointer)}, keys + {pointer}, count)
  {
    hide NameOf, InlineName, IsInline;
    forall n | n in names + {NameOf(pointer)} ensures IsComponent(n, keys + {pointer}) || IsInline(n, count) {
      if n == NameOf(pointer) {
        assert pointer in keys + {pointer};
      } else if IsComponent(n, keys) {
        var p :| p in keys && NameOf(p) == n;
        assert p in keys + {pointer};
      }
    }
  }

  lemma NamesShrink(names: set<Text>, keys: set<Text>, count: nat, pointer: Text)
    requires NothingElse(names, keys, count)
    ensures NothingElse(names - {NameOf(pointer)}, keys - {pointer}, count)
  {
    hide NameOf, InlineName, IsInline;
    forall n | n in names - {NameOf(pointer)} ensures IsComponent(n, keys - {pointer}) || IsInline(n, count) {
      if IsComponent(n, keys) {
        var p :| p in keys && NameOf(p) == n;
        assert p in keys - {pointer};
      }
    }
  }

  lemma Recalled(defs: Defs, memo: Memo, open: set<Text>, hoisted: seq<Source>, doc: Document, pointer: Text)
    requires Honest(defs, memo, open, hoisted, doc)
    ensures pointer in memo ==> memo[pointer] == NameOf(pointer)
    ensures pointer !in memo ==> pointer !in open
  {
    hide Image, NameOf, Hoisted, NothingElse;
  }

  lemma Registered(defs: Defs, memo: Memo, open: set<Text>, hoisted: seq<Source>, doc: Document, pointer: Text)
    requires NamesDistinct(doc) && Honest(defs, memo, open, hoisted, doc) && pointer in doc.components
             && pointer !in memo
    ensures Honest(defs[NameOf(pointer) := EMPTY], memo[pointer := NameOf(pointer)], open + {pointer}, hoisted, doc)
    ensures Closed(memo, open, doc) ==> Closed(memo[pointer := NameOf(pointer)], open + {pointer}, doc)
  {
    hide Image, NameOf, InlineName, Refs, Hoisted, NothingElse;
    var defs', memo' := defs[NameOf(pointer) := EMPTY], memo[pointer := NameOf(pointer)];
    HoistedStay(defs, defs', hoisted, doc, pointer);
    NamesGrow(defs.Keys, memo.Keys, |hoisted|, pointer);
    assert defs'.Keys == defs.Keys + {NameOf(pointer)} && memo'.Keys == memo.Keys + {pointer};
  }

  lemma Finished(defs: Defs, memo: Memo, open: set<Text>, hoisted: seq<Source>, doc: Document, pointer: Text)
    requires NamesDistinct(doc) && Honest(defs, memo, open + {pointer}, hoisted, doc) && pointer !in open
    ensures pointer in doc.components
    ensures Honest(defs[NameOf(pointer) := Image(doc.components[pointer], doc)], memo, open, hoisted, doc)
    ensures Closed(memo, open + {pointer}, doc) && Refs(doc.components[pointer]) <= memo.Keys ==>
              Closed(memo, open, doc)
  {
    hide Image, NameOf, InlineName, Refs, Hoisted, NothingElse;
    assert pointer in open + {pointer};
    var defs' := defs[NameOf(pointer) := Image(doc.components[pointer], doc)];
    HoistedStay(defs, defs', hoisted, doc, pointer);
    assert defs'.Keys == defs.Keys;
  }

  lemma Withdrawn(defs: Defs, memo: Memo, open: set<Text>, hoisted: seq<Source>, doc: Document, pointer: Text)
    requires NamesDistinct(doc) && Honest(defs, memo, open + {pointer}, hoisted, doc) && pointer !in open
    ensures Honest(defs - {NameOf(pointer)}, memo - {pointer}, open, hoisted, doc)
  {
    hide Image, NameOf, InlineName, Refs, Hoisted, NothingElse;
    assert pointer in open + {pointer};
    var defs', memo' := defs - {NameOf(pointer)}, memo - {pointer};
    HoistedStay(defs, defs', hoisted, doc, pointer);
    NamesShrink(defs.Keys, memo.Keys, |hoisted|, pointer);
    assert defs'.Keys == defs.Keys - {NameOf(pointer)} && memo'.Keys == memo.Keys - {pointer};
  }

  lemma HoistedNext(defs: Defs, memo: Memo, hoisted: seq<Source>, doc: Document, s: Source)
    requires NamesDistinct(doc) && Honest(defs, memo, {}, hoisted, doc)
    ensures Honest(defs[InlineName(|hoisted|) := Image(s, doc)], memo, {}, hoisted + [s], doc)
  {
    hide Image, NameOf, InlineName, Hoisted, NothingElse;
    var name := InlineName(|hoisted|);
    HoistedRemembers(defs, memo, |hoisted|, doc, s);
    HoistedGrow(defs, hoisted, doc, s);
    HoistedNames(defs.Keys, memo.Keys, |hoisted|);
    assert defs[name := Image(s, doc)].Keys == defs.Keys + {name};
  }

  lemma HoistedRemembers(defs: Defs, memo: Memo, count: nat, doc: Document, s: Source)
    requires NamesDistinct(doc) && Remembers(defs, memo, {}, doc)
    ensures Remembers(defs[InlineName(count) := Image(s, doc)], memo, {}, doc)
  {
    hide Image, NameOf, InlineName;
    forall p | p in memo ensures NameOf(p) != InlineName(count) { NamesApart(p, count); }
  }

  lemma HoistedGrow(defs: Defs, hoisted: seq<Source>, doc: Document, s: Source)
    requires Hoisted(defs, hoisted, doc)
    ensures Hoisted(defs[InlineName(|hoisted|) := Image(s, doc)], hoisted + [s], doc)
  {
    hide Image, InlineName;
    var name, more := InlineName(|hoisted|), hoisted + [s];
    var defs' := defs[name := Image(s, doc)];
    forall k: nat | k < |more| ensures InlineName(k) in defs' && defs'[InlineName(k)] == Image(more[k], doc) {
      if k != |hoisted| { InlineApart(k, |hoisted|); }
    }
  }

  lemma HoistedNames(names: set<Text>, keys: set<Text>, count: nat)
    requires NothingElse(names, keys, count)
    ensures NothingElse(names + {InlineName(count)}, keys, count + 1)
  {
    hide IsComponent, InlineName;
    forall n | n in names + {InlineName(count)} ensures IsComponent(n, keys) || IsInline(n, count + 1) {
      if n != InlineName(count) && IsInline(n, count) {
        var k: nat :| k < count && InlineName(k) == n;
        assert k < count + 1;
      }
    }
  }

  lemma InlineApart(m: nat, n: nat)
    requires m != n
    ensures InlineName(m) != InlineName(n)
  {
    if InlineName(m) == InlineName(n) {
      assert Decimal(m + 1) == InlineName(m)[1..] && Decimal(n + 1) == InlineName(n)[1..];
      DecimalInjective(m + 1, n + 1);
    }
  }

  // ----- what compiling does to the state

  datatype Bundle = Bundle(defs: Defs, memo: Memo)

  /** One subschema to compile; `refused` says that the linter refuses the pattern it hangs on. */
  datatype Part = Part(schema: Source, refused: bool)

  datatype Visited = Visited(ok: bool, bundle: Bundle)

  ghost predicate Below(ps: seq<Part>, parent: Source) { forall k :: 0 <= k < |ps| ==> ps[k].schema < parent }

  ghost function ListParts(ss: seq<Source>): seq<Part> { seq(|ss|, k requires 0 <= k < |ss| => Part(ss[k], false)) }

  ghost function ManyParts(m: Many): seq<Part> { if m.Given? then ListParts(m.list) else [] }

  ghost function MaybeParts(o: Option<Source>): seq<Part> { if o.Some? then [Part(o.value, false)] else [] }

  ghost function ItemsParts(i: Items): seq<Part> {
    match i
    case NoItems => []
    case Each(item) => [Part(item, false)]
    case Tuple(list) => ListParts(list)
  }

  ghost function ChildParts(cs: seq<Child>, linted: bool, doc: Document): seq<Part> {
    seq(|cs|, k requires 0 <= k < |cs| => Part(cs[k].schema, linted && doc.refuses(cs[k].name)))
  }

  ghost function ArrayParts(s: Source): (ps: seq<Part>)
    requires s.Shape?
    ensures Below(ps, s)
  {
    ManyParts(s.inside.prefixItems) + (ItemsParts(s.inside.items) + MaybeParts(s.inside.contains))
  }

  ghost function ObjectParts(s: Source, doc: Document): (ps: seq<Part>)
    requires s.Shape?
    ensures Below(ps, s)
  {
    assert forall k :: 0 <= k < |s.inside.properties| ==> s.inside.properties[k].schema < s;
    assert forall k :: 0 <= k < |s.inside.patterns| ==> s.inside.patterns[k].schema < s;
    ChildParts(s.inside.properties, false, doc)
    + (ChildParts(s.inside.patterns, true, doc) + (MaybeParts(s.inside.additional) + MaybeParts(s.inside.names)))
  }

  ghost function ChoiceParts(s: Source): (ps: seq<Part>)
    requires s.Shape?
    ensures Below(ps, s)
  {
    ListParts(s.logic.allOf) + (ManyParts(s.logic.anyOf) + (ManyParts(s.logic.oneOf) + MaybeParts(s.logic.negated)))
  }

  ghost function BranchParts(s: Source): (ps: seq<Part>)
    requires s.Shape?
    ensures Below(ps, s)
  {
    MaybeParts(s.logic.test) + (MaybeParts(s.logic.consequent) + MaybeParts(s.logic.otherwise))
  }

  /** The subschemas in the order they are compiled. */
  ghost function PartsOf(s: Source, doc: Document): (ps: seq<Part>)
    requires s.Shape?
    ensures Below(ps, s)
  {
    ArrayParts(s) + (ObjectParts(s, doc) + (ChoiceParts(s) + BranchParts(s)))
  }

  /** Compiling a schema: whether it succeeds, and the bundle it leaves either way. */
  ghost function Visit(s: Source, depth: nat, b: Bundle, max: nat, doc: Document): (r: Visited)
    ensures b.memo.Keys <= r.bundle.memo.Keys && Unseen(r.bundle.memo, doc) <= Unseen(b.memo, doc)
    decreases Unseen(b.memo, doc), s, 2
  {
    if depth > max || s.Broken? then Visited(false, b)
    else if s.Truth? then Visited(true, b)
    else
      var r := if s.ref.Some? then VisitReference(s.ref.value, b, s, max, doc) else Visited(true, b);
      if !r.ok || (s.ref.Some? && NoSiblings(s)) then r
      else if !OwnFine(s.own, doc) then Visited(false, r.bundle)
      else VisitAll(PartsOf(s, doc), depth + 1, r.bundle, s, max, doc)
  }

  ghost function VisitReference(pointer: Text, b: Bundle, under: Source, max: nat, doc: Document): (r: Visited)
    ensures b.memo.Keys <= r.bundle.memo.Keys && Unseen(r.bundle.memo, doc) <= Unseen(b.memo, doc)
    decreases Unseen(b.memo, doc), under, 1
  {
    if !Local(pointer) then Visited(false, b)
    else if pointer in b.memo then Visited(true, b)
    else if pointer !in doc.components then Visited(false, b)
    else
      UnseenFalls(b.memo, pointer, doc);
      var r := Visit(doc.components[pointer], 0, Begun(b, pointer), max, doc);
      UnseenBound(b.memo, r.bundle.memo - {pointer}, doc);
      Visited(r.ok, Ended(r, pointer, doc))
  }

  /** Registered, with a placeholder, before it is compiled. */
  function Begun(b: Bundle, pointer: Text): Bundle {
    Bundle(b.defs[NameOf(pointer) := EMPTY], b.memo[pointer := NameOf(pointer)])
  }

  /** Compiled, or taken out again. */
  function Ended(r: Visited, pointer: Text, doc: Document): Bundle
    requires pointer in doc.components
  {
    if r.ok then Bundle(r.bundle.defs[NameOf(pointer) := Image(doc.components[pointer], doc)], r.bundle.memo)
    else Bundle(r.bundle.defs - {NameOf(pointer)}, r.bundle.memo - {pointer})
  }

  ghost function VisitAll(ps: seq<Part>, depth: nat, b: Bundle, parent: Source, max: nat, doc: Document): (r: Visited)
    requires Below(ps, parent)
    ensures b.memo.Keys <= r.bundle.memo.Keys && Unseen(r.bundle.memo, doc) <= Unseen(b.memo, doc)
    decreases Unseen(b.memo, doc), parent, 0, |ps|
  {
    if ps == [] then Visited(true, b)
    else if ps[0].refused then Visited(false, b)
    else
      var r := Visit(ps[0].schema, depth, b, max, doc);
      if r.ok then VisitAll(ps[1..], depth, r.bundle, parent, max, doc) else r
  }

  /** The bundle after hoisting: a new definition, if nothing threw. */
  function HoistedBundle(v: Visited, s: Source, count: nat, doc: Document): Bundle {
    if v.ok then v.bundle.(defs := v.bundle.defs[InlineName(count) := Image(s, doc)]) else v.bundle
  }

  lemma {:induction false} VisitConcat(p: seq<Part>, q: seq<Part>, depth: nat, b: Bundle, parent: Source, max: nat,
                                       doc: Document)
    requires Below(p, parent) && Below(q, parent)
    ensures Below(p + q, parent)
    ensures var r := VisitAll(p, depth, b, parent, max, doc);
            VisitAll(p + q, depth, b, parent, max, doc) == if r.ok then VisitAll(q, depth, r.bundle, parent, max, doc)
                else r
    decreases |p|
  {
    if p == [] {
      assert p + q == q;
    } else {
      assert (p + q)[1..] == p[1..] + q;
      if !p[0].refused {
        var r := Visit(p[0].schema, depth, b, max, doc);
        if r.ok { VisitConcat(p[1..], q, depth, r.bundle, parent, max, doc); }
      }
    }
  }

  // ----- single steps of a visit

  lemma NoParts(depth: nat, b: Bundle, parent: Source, max: nat, doc: Document)
    ensures VisitAll([], depth, b, parent, max, doc) == Visited(true, b)
  {
  }

  lemma OnePart(p: Part, depth: nat, b: Bundle, parent: Source, max: nat, doc: Document)
    requires Below([p], parent) && !p.refused
    ensures VisitAll([p], depth, b, parent, max, doc) == Visit(p.schema, depth, b, max, doc)
  {
    assert [p][1..] == [];
    assert [p][0] == p;
  }

  lemma NotLocal(pointer: Text, b: Bundle, under: Source, max: nat, doc: Document)
    ensures !Local(pointer) ==> VisitReference(pointer, b, under, max, doc) == Visited(false, b)
  {
  }

  /** The schema that is nothing but a reference. */
  function RefTo(p: Text): Source { Shape(Some(p), false, NO_OWN, NO_INSIDE, NO_LOGIC) }

  lemma RefVisited(p: Text, depth: nat, b: Bundle, max: nat, doc: Document)
    requires depth <= max
    ensures Visit(RefTo(p), depth, b, max, doc) == VisitReference(p, b, RefTo(p), max, doc) && Refs(RefTo(p)) == {p}
  {
    RefsOfRef(p, doc);
    hide VisitReference, VisitAll, PartsOf, OwnFine, Refs, Unseen;
  }

  lemma RefsOfRef(p: Text, doc: Document)
    ensures Refs(RefTo(p)) == {p}
  {
    NothingBesideRef(0, 0, doc);
  }

  lemma KnownVisited(p: Text, b: Bundle, under: Source, max: nat, doc: Document)
    requires p in b.memo && Local(p)
    ensures VisitReference(p, b, under, max, doc) == Visited(true, b)
  {
  }

  lemma ComponentVisited(p: Text, b: Bundle, under: Source, max: nat, doc: Document)
    requires p !in b.memo && Local(p) && p in doc.components
    ensures var r := Visit(doc.components[p], 0, Begun(b, p), max, doc);
            VisitReference(p, b, under, max, doc) == Visited(r.ok, Ended(r, p, doc))
  {
    hide Visit;
  }

  lemma TruthVisited(accepts: bool, depth: nat, b: Bundle, max: nat, doc: Document)
    requires depth <= max
    ensures Visit(Truth(accepts), depth, b, max, doc) == Visited(true, b)
            && Visit(Broken, depth, b, max, doc) == Visited(false, b)
  {
  }

  // ----- names, written out

  function NumberOf(digits: Text): int {
    if digits == [] then 0
    else NumberOf(digits[..|digits| - 1]) * 10 + (digits[|digits| - 1] - '0' as int)
  }

  /** The n-th hoisted schema, counting from nothing, is `s` and the decimal digits of n + 1. */
  lemma InlineNameIs(n: nat)
    ensures var name := InlineName(n);
            && |name| > 1 && name[0] == 's' as int && NumberOf(name[1..]) == n + 1 && name[1] != '0' as int
            && forall k :: 1 <= k < |name| ==> '0' as int <= name[k] <= '9' as int
  {
    DecimalIs(n + 1);
    assert InlineName(n)[1..] == Decimal(n + 1);
  }

  lemma {:induction false} DecimalIs(n: nat)
    ensures var d := Decimal(n);
            && d != [] && NumberOf(d) == n && (n > 0 ==> d[0] != '0' as int)
            && forall k :: 0 <= k < |d| ==> '0' as int <= d[k] <= '9' as int
  {
    if n >= 10 {
      DecimalIs(n / 10);
      assert (Decimal(n / 10) + [48 + n % 10])[..|Decimal(n / 10)|] == Decimal(n / 10);
    } else {
      assert [48 + n][..0] == [];
    }
  }
}

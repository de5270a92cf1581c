/**
 Schemas as a document writes them, in any of the accepted dialects, and what they mean there.
 A document's reference is a pointer into its components; meaning is relative to the same nesting
 bound the evaluator has, beyond which nothing is satisfied.
 */
module SchemaSource {
  import opened Text
  import opened Json
  import opened Canonical
  import opened SchemaNodes

  /** A word of the `type` keyword: a JSON type, Swagger's `file`, or neither. */
  datatype TypeWord = Simple(name: TypeName) | File | Unknown

  /** `exclusiveMinimum` is a number in 2020-12 and a flag on `minimum` in OpenAPI 3.0. */
  datatype Bound = Flag(on: bool) | Amount(x: real)

  /**
   Keywords without subschemas. `unsupported` says that one is refused or has the wrong shape, `unread`
   that one is unknown or an extension: it asserts nothing and still stands beside a reference.
   */
  datatype Own = Own(
    types: Option<seq<TypeWord>>, enum: Option<seq<Json>>, constant: Option<Json>,
    minLength: Option<int>, maxLength: Option<int>, pattern: Option<Text>, format: Option<Text>,
    minimum: Option<real>, maximum: Option<real>, minExclusive: Option<Bound>, maxExclusive: Option<Bound>,
    multipleOf: Option<real>,
    length: Range, unique: bool, matching: Range, size: Range, required: seq<Text>, unsupported: bool,
    unread: bool)

  datatype Many = Absent | Given(list: seq<Source>)

  datatype Items = NoItems | Each(item: Source) | Tuple(list: seq<Source>)

  datatype Child = Child(name: Text, schema: Source)

  /** Subschemas for the parts of an array or object; `tupleLast` is the order of the two tuple forms. */
  datatype Inside = Inside(
    prefixItems: Many, items: Items, tupleLast: bool, contains: Option<Source>,
    properties: seq<Child>, patterns: seq<Child>, additional: Option<Source>, names: Option<Source>)

  /** Subschemas for the value itself. */
  datatype Logic = Logic(
    allOf: seq<Source>, anyOf: Many, oneOf: Many, negated: Option<Source>,
    test: Option<Source>, consequent: Option<Source>, otherwise: Option<Source>)

  datatype Source =
    | Truth(accepts: bool)
    | Broken
    | Shape(ref: Option<Text>, nullable: bool, own: Own, inside: Inside, logic: Logic)

  const NO_OWN := Own(None, None, None, None, None, None, None, None, None, None, None, None,
                      ANY_RANGE, false, ANY_RANGE, ANY_RANGE, [], false, false)
  const NO_INSIDE := Inside(Absent, NoItems, false, None, [], [], None, None)
  const NO_LOGIC := Logic([], Absent, Absent, None, None, None, None)

  /** `legacy` is every dialect but 2020-12; `refuses` is the pattern linter. */
  datatype Document = Document(components: map<Text, Source>, legacy: bool, refuses: Text -> bool)

  predicate NoSiblings(s: Source)
    requires s.Shape?
  {
    s.own == NO_OWN && s.inside == NO_INSIDE && s.logic == NO_LOGIC
  }

  /** The leading items have schemas of their own; the later of the two spellings counts. */
  function Leading(i: Inside): Many {
    if i.items.Tuple? && (i.prefixItems.Absent? || i.tupleLast) then Given(i.items.list) else i.prefixItems
  }

  function LeadingCount(i: Inside): nat { if Leading(i).Given? then |Leading(i).list| else 0 }

  function FindChild(cs: seq<Child>, name: Text): (i: nat)
    ensures i <= |cs|
  {
    if cs == [] || cs[0].name == name then 0 else 1 + FindChild(cs[1..], name)
  }

  // ----- references

  function Refs(s: Source): set<Text> {
    if s.Shape? then (if s.ref.Some? then {s.ref.value} else {}) + InsideRefs(s.inside) + LogicRefs(s.logic) else {}
  }

  function RefsMaybe(o: Option<Source>): set<Text> { if o.Some? then Refs(o.value) else {} }

  function RefsAll(ss: seq<Source>): set<Text> {
    if ss == [] then {} else RefsAll(ss[..|ss| - 1]) + Refs(ss[|ss| - 1])
  }

  function RefsMany(m: Many): set<Text> { if m.Given? then RefsAll(m.list) else {} }

  function RefsChildren(cs: seq<Child>): set<Text> {
    if cs == [] then {} else RefsChildren(cs[..|cs| - 1]) + Refs(cs[|cs| - 1].schema)
  }

  function RefsItems(i: Items): set<Text> {
    match i
    case NoItems => {}
    case Each(item) => Refs(item)
    case Tuple(list) => RefsAll(list)
  }

  function InsideRefs(i: Inside): set<Text> {
    RefsMany(i.prefixItems) + RefsItems(i.items) + RefsMaybe(i.contains)
    + RefsChildren(i.properties) + RefsChildren(i.patterns) + RefsMaybe(i.additional) + RefsMaybe(i.names)
  }

  function LogicRefs(l: Logic): set<Text> {
    RefsAll(l.allOf) + RefsMany(l.anyOf) + RefsMany(l.oneOf) + RefsMaybe(l.negated)
    + RefsMaybe(l.test) + RefsMaybe(l.consequent) + RefsMaybe(l.otherwise)
  }

  // ----- meaning

  /** The JSON types the schema names. */
  function Named(words: seq<TypeWord>): seq<TypeName> {
    if words == [] then []
    else Named(words[..|words| - 1]) + (if words[|words| - 1].Simple? then [words[|words| - 1].name] else [])
  }

  function NamedTypes(own: Own): seq<TypeName> { if own.types.Some? then Named(own.types.value) else [] }

  /** One of the named types, or null beside them where the schema says so; with no type named, anything. */
  predicate TypeHeeded(v: Json, s: Source, doc: Document, lib: Library)
    requires s.Shape?
  {
    || NamedTypes(s.own) == []
    || (exists k :: 0 <= k < |NamedTypes(s.own)| && MatchesType(v, NamedTypes(s.own)[k], lib))
    || (doc.legacy && s.nullable && v.Null?)
  }

  predicate LowerHeeded(x: real, own: Own, legacy: bool) {
    if legacy && own.minExclusive == Some(Flag(true)) then own.minimum.Some? ==> own.minimum.value < x
    else
      && (own.minimum.Some? ==> own.minimum.value <= x)
      && (own.minExclusive.Some? && own.minExclusive.value.Amount? ==> own.minExclusive.value.x < x)
  }

  predicate UpperHeeded(x: real, own: Own, legacy: bool) {
    if legacy && own.maxExclusive == Some(Flag(true)) then own.maximum.Some? ==> x < own.maximum.value
    else
      && (own.maximum.Some? ==> x <= own.maximum.value)
      && (own.maxExclusive.Some? && own.maxExclusive.value.Amount? ==> x < own.maxExclusive.value.x)
  }

  predicate StringHeeded(s: Text, own: Own, w: World) {
    && (own.minLength.Some? ==> own.minLength.value <= CodePoints(s))
    && (own.maxLength.Some? ==> CodePoints(s) <= own.maxLength.value)
    && (own.pattern.Some? ==> Utf8Length(s) <= w.maxPatternBytes && w.lib.matches(own.pattern.value, s))
    && (own.format.Some? ==> w.lib.formatOk(own.format.value, Str(s)))
  }

  predicate NumberHeeded(lexeme: Text, own: Own, legacy: bool, w: World) {
    var x := w.lib.number(lexeme);
    && LowerHeeded(x, own, legacy) && UpperHeeded(x, own, legacy)
    && (own.multipleOf.Some? && own.multipleOf.value > 0.0 ==> w.lib.multiple(x, own.multipleOf.value))
    && (own.format.Some? ==> w.lib.formatOk(own.format.value, Num(lexeme)))
  }

  /** Nothing passes `false`; neither does anything pass what is no schema at all, which never compiles. */
  predicate Accepting(s: Source) { s.Truth? && s.accepts }

  /** What the document says of the value. */
  ghost predicate Satisfies(v: Json, s: Source, depth: nat, doc: Document, w: World)
    decreases Left(depth, w), 9
  {
    && depth <= w.maxDepth
    && if !s.Shape? then Accepting(s)
       else TargetSatisfied(v, s, depth, doc, w) && Heeds(v, s, depth, doc, w)
  }

  ghost predicate TargetSatisfied(v: Json, s: Source, depth: nat, doc: Document, w: World)
    requires depth <= w.maxDepth && s.Shape?
    decreases Left(depth, w), 8
  {
    s.ref.Some? ==> s.ref.value in doc.components && Satisfies(v, doc.components[s.ref.value], depth + 1, doc, w)
  }

  /** The keywords beside a reference. */
  ghost predicate Heeds(v: Json, s: Source, depth: nat, doc: Document, w: World)
    requires depth <= w.maxDepth && s.Shape?
    decreases Left(depth, w), 8
  {
    && TypeHeeded(v, s, doc, w.lib) && EnumOk(v, s.own.enum) && ConstOk(v, s.own.constant)
    && PartsHeeded(v, s, depth, doc, w) && LogicHeeded(v, s.logic, depth, doc, w)
  }

  ghost predicate PartsHeeded(v: Json, s: Source, depth: nat, doc: Document, w: World)
    requires depth <= w.maxDepth && s.Shape?
    decreases Left(depth, w), 7
  {
    match v
    case Str(text) => StringHeeded(text, s.own, w)
    case Num(lexeme) => NumberHeeded(lexeme, s.own, doc.legacy, w)
    case Arr(items) => ItemsHeeded(items, s.own, s.inside, depth, doc, w)
    case Obj(members) => MembersHeeded(members, s.own, s.inside, depth, doc, w)
    case _ => true
  }

  ghost predicate ItemsHeeded(items: seq<Json>, own: Own, i: Inside, depth: nat, doc: Document, w: World)
    requires depth <= w.maxDepth
    decreases Left(depth, w), 6
  {
    && InRange(|items|, own.length)
    && (own.unique ==> forall a, b :: 0 <= a < b < |items| ==> CanonicalJson(items[a]) != CanonicalJson(items[b]))
    && (forall k :: 0 <= k < |items| && k < LeadingCount(i) ==>
          Satisfies(items[k], Leading(i).list[k], depth + 1, doc, w))
    && (i.items.Each? ==> forall k :: LeadingCount(i) <= k < |items| ==>
          Satisfies(items[k], i.items.item, depth + 1, doc, w))
    && (i.contains.Some? ==>
          var matched := |Contained(items, i.contains.value, depth, doc, w)|;
          InRange(matched, own.matching) && (own.matching.least.None? ==> matched >= 1))
  }

  ghost function Contained(items: seq<Json>, c: Source, depth: nat, doc: Document, w: World): set<int>
    requires depth <= w.maxDepth
    decreases Left(depth, w), 0
  {
    set k | 0 <= k < |items| && Satisfies(items[k], c, depth + 1, doc, w)
  }

  ghost predicate MembersHeeded(members: seq<Member>, own: Own, i: Inside, depth: nat, doc: Document, w: World)
    requires depth <= w.maxDepth
    decreases Left(depth, w), 6
  {
    && InRange(|members|, own.size)
    && (forall k :: 0 <= k < |own.required| ==> HasKey(members, own.required[k]))
    && (forall k :: 0 <= k < |members| ==> MemberHeeded(members[k], i, depth, doc, w))
  }

  predicate Declared(i: Inside, key: Text, lib: Library) {
    FindChild(i.properties, key) < |i.properties| || exists k ::
          0 <= k < |i.patterns| && lib.matches(i.patterns[k].name, key)
  }

  ghost predicate MemberHeeded(m: Member, i: Inside, depth: nat, doc: Document, w: World)
    requires depth <= w.maxDepth
    decreases Left(depth, w), 1
  {
    var at := FindChild(i.properties, m.key);
    && (i.names.Some? ==> Satisfies(Str(m.key), i.names.value, depth + 1, doc, w))
    && (at < |i.properties| ==> Satisfies(m.value, i.properties[at].schema, depth + 1, doc, w))
    && (forall k :: 0 <= k < |i.patterns| && w.lib.matches(i.patterns[k].name, m.key) ==>
          Satisfies(m.value, i.patterns[k].schema, depth + 1, doc, w))
    && (i.additional.Some? && !Declared(i, m.key, w.lib) ==> Satisfies(m.value, i.additional.value, depth + 1, doc, w))
  }

  ghost predicate LogicHeeded(v: Json, l: Logic, depth: nat, doc: Document, w: World)
    requires depth <= w.maxDepth
    decreases Left(depth, w), 6
  {
    && MeetsAll(v, l.allOf, depth, doc, w)
    && (l.anyOf.Given? ==> MeetsAny(v, l.anyOf.list, depth, doc, w))
    && (l.oneOf.Given? ==> MeetsOne(v, l.oneOf.list, depth, doc, w))
    && (l.negated.Some? ==> !Satisfies(v, l.negated.value, depth + 1, doc, w))
    && (l.test.Some? ==> BranchHeeded(v, l, depth, doc, w))
  }

  ghost predicate MeetsAll(v: Json, ss: seq<Source>, depth: nat, doc: Document, w: World)
    requires depth <= w.maxDepth
    decreases Left(depth, w), 0
  {
    forall k :: 0 <= k < |ss| ==> Satisfies(v, ss[k], depth + 1, doc, w)
  }

  ghost predicate MeetsAny(v: Json, ss: seq<Source>, depth: nat, doc: Document, w: World)
    requires depth <= w.maxDepth
    decreases Left(depth, w), 0
  {
    exists k :: 0 <= k < |ss| && Satisfies(v, ss[k], depth + 1, doc, w)
  }

  ghost predicate MeetsOne(v: Json, ss: seq<Source>, depth: nat, doc: Document, w: World)
    requires depth <= w.maxDepth
    decreases Left(depth, w), 1
  {
    exists k :: 0 <= k < |ss| && SoleMatch(v, ss, k, depth, doc, w)
  }

  ghost predicate SoleMatch(v: Json, ss: seq<Source>, i: nat, depth: nat, doc: Document, w: World)
    requires depth <= w.maxDepth
    decreases Left(depth, w), 0
  {
    forall k :: 0 <= k < |ss| ==> (Satisfies(v, ss[k], depth + 1, doc, w) <==> k == i)
  }

  ghost predicate BranchHeeded(v: Json, l: Logic, depth: nat, doc: Document, w: World)
    requires depth <= w.maxDepth && l.test.Some?
    decreases Left(depth, w), 0
  {
    if Satisfies(v, l.test.value, depth + 1, doc, w)
    then l.consequent.Some? ==> Satisfies(v, l.consequent.value, depth + 1, doc, w)
    else l.otherwise.Some? ==> Satisfies(v, l.otherwise.value, depth + 1, doc, w)
  }

  // ----- where the compiled form is known to agree

  /** `nullable` without a type, which the compiler reads as taking null whatever else is said. */
  predicate LooseNull(s: Source, doc: Document) { s.Shape? && doc.legacy && s.nullable && NamedTypes(s.own) == [] }

  /**
   Evaluating the value reaches no `false` at the last level the bound allows, and no null at an
   untyped nullable schema. Only the schemas the value itself leads to count.
   */
  ghost predicate Calm(v: Json, s: Source, depth: nat, doc: Document, w: World)
    decreases Left(depth, w), 9
  {
    depth <= w.maxDepth ==>
      if !s.Shape? then Accepting(s) || depth < w.maxDepth
      else !(LooseNull(s, doc) && v.Null?) && CalmBelow(v, s, depth, doc, w)
  }

  ghost predicate CalmBelow(v: Json, s: Source, depth: nat, doc: Document, w: World)
    requires depth <= w.maxDepth && s.Shape?
    decreases Left(depth, w), 8
  {
    && (s.ref.Some? && s.ref.value in doc.components ==> Calm(v, doc.components[s.ref.value], depth + 1, doc, w))
    && CalmParts(v, s.inside, depth, doc, w) && CalmLogic(v, s.logic, depth, doc, w)
  }

  ghost predicate CalmParts(v: Json, i: Inside, depth: nat, doc: Document, w: World)
    requires depth <= w.maxDepth
    decreases Left(depth, w), 7
  {
    match v
    case Arr(items) => CalmItems(items, i, depth, doc, w)
    case Obj(members) => forall k :: 0 <= k < |members| ==> CalmMember(members[k], i, depth, doc, w)
    case _ => true
  }

  ghost predicate CalmItems(items: seq<Json>, i: Inside, depth: nat, doc: Document, w: World)
    requires depth <= w.maxDepth
    decreases Left(depth, w), 6
  {
    && (forall k :: 0 <= k < |items| && k < LeadingCount(i) ==> Calm(items[k], Leading(i).list[k], depth + 1, doc, w))
    && (i.items.Each? ==> forall k :: LeadingCount(i) <= k < |items| ==>
          Calm(items[k], i.items.item, depth + 1, doc, w))
    && (i.contains.Some? ==> forall k :: 0 <= k < |items| ==> Calm(items[k], i.contains.value, depth + 1, doc, w))
  }

  ghost predicate CalmMember(m: Member, i: Inside, depth: nat, doc: Document, w: World)
    requires depth <= w.maxDepth
    decreases Left(depth, w), 6
  {
    var at := FindChild(i.properties, m.key);
    && CalmMaybe(Str(m.key), i.names, depth + 1, doc, w)
    && (at < |i.properties| ==> Calm(m.value, i.properties[at].schema, depth + 1, doc, w))
    && (forall k :: 0 <= k < |i.patterns| && w.lib.matches(i.patterns[k].name, m.key) ==>
          Calm(m.value, i.patterns[k].schema, depth + 1, doc, w))
    && (!Declared(i, m.key, w.lib) ==> CalmMaybe(m.value, i.additional, depth + 1, doc, w))
  }

  ghost predicate CalmMaybe(v: Json, o: Option<Source>, depth: nat, doc: Document, w: World)
    decreases Left(depth, w), 10
  {
    o.Some? ==> Calm(v, o.value, depth, doc, w)
  }

  ghost predicate CalmAll(v: Json, ss: seq<Source>, depth: nat, doc: Document, w: World)
    decreases Left(depth, w), 10
  {
    forall k :: 0 <= k < |ss| ==> Calm(v, ss[k], depth, doc, w)
  }

  ghost predicate CalmMany(v: Json, m: Many, depth: nat, doc: Document, w: World)
    decreases Left(depth, w), 11
  {
    m.Given? ==> CalmAll(v, m.list, depth, doc, w)
  }

  ghost predicate CalmLogic(v: Json, l: Logic, depth: nat, doc: Document, w: World)
    requires depth <= w.maxDepth
    decreases Left(depth, w), 6
  {
    && CalmAll(v, l.allOf, depth + 1, doc, w) && CalmMany(v, l.anyOf, depth + 1, doc, w)
    && CalmMany(v, l.oneOf, depth + 1, doc, w)
    && CalmMaybe(v, l.negated, depth + 1, doc, w) && CalmMaybe(v, l.test, depth + 1, doc, w)
    && CalmMaybe(v, l.consequent, depth + 1, doc, w) && CalmMaybe(v, l.otherwise, depth + 1, doc, w)
  }
}

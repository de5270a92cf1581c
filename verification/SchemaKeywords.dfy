/**
 Keyword by keyword, what a compiled schema accepts, in terms of the value alone: the readings the
 evaluator and the validity it is proved against have in common are pinned here.
 */
module SchemaKeywords {
  import opened Text
  import opened Json
  import opened JsonGrammar
  import opened Canonical
  import opened SchemaNodes
  import opened SchemaValidity
  import Src = SchemaSource

  /** Without keywords everything is accepted. */
  lemma EmptyAccepts(v: Json, s: Node, depth: nat, w: World)
    requires depth <= w.maxDepth && s == EMPTY.(types := s.types, enum := s.enum, constant := s.constant)
    ensures ByType(v, s, depth, w) && Applicators(v, s, depth, w)
  {
    NothingBeside(v, EMPTY, depth, w);
    assert Beside(v, EMPTY, depth, w);
    match v {
      case Arr(items) => assert ArrayValid(items, s, depth, w);
      case Obj(members) =>
        forall i | 0 <= i < |members| ensures MemberValid(members[i], s, depth, w) {}
        assert ObjectValid(members, s, depth, w);
      case _ =>
    }
  }

  lemma Unfolded(v: Json, s: Node, depth: nat, w: World)
    requires depth <= w.maxDepth && s.ref.None? && !s.nullableAny
    requires s.types.None? && s.enum.None? && s.constant.None?
    ensures Valid(v, s, depth, w) <==> ByType(v, s, depth, w) && Applicators(v, s, depth, w)
  {
    hide ByType, Applicators;
  }

  // ----- type

  function OfType(t: TypeName): Node { EMPTY.(types := Some([t])) }

  lemma OneWord(v: Json, t: TypeName, depth: nat, w: World)
    requires depth <= w.maxDepth
    ensures Valid(v, OfType(t), depth, w) <==> MatchesType(v, t, w.lib)
  {
    hide ByType, Applicators;
    EmptyAccepts(v, OfType(t), depth, w);
    assert OfType(t).types.value[0] == t;
  }

  function RealOf(n: int): real { n as real }

  ghost predicate Whole(x: real) { exists n: int :: x == RealOf(n) }

  /** What each of the seven words of `type` accepts. */
  lemma TypeWordsMean(v: Json, depth: nat, w: World)
    requires depth <= w.maxDepth
    ensures Valid(v, OfType(NullName), depth, w) <==> v == Null
    ensures Valid(v, OfType(BooleanName), depth, w) <==> v in {Bool(true), Bool(false)}
    ensures Valid(v, OfType(StringName), depth, w) <==> exists s: Text :: v == Str(s)
    ensures Valid(v, OfType(ObjectName), depth, w) <==> exists ms: seq<Member> :: v == Obj(ms)
    ensures Valid(v, OfType(ArrayName), depth, w) <==> exists vs: seq<Json> :: v == Arr(vs)
    ensures Valid(v, OfType(NumberName), depth, w) <==> exists l: Text :: v == Num(l)
    ensures Valid(v, OfType(IntegerName), depth, w) <==> exists l: Text :: v == Num(l) && Whole(w.lib.number(l))
  {
    hide Valid;
    OneWord(v, NullName, depth, w);
    OneWord(v, BooleanName, depth, w);
    OneWord(v, StringName, depth, w);
    OneWord(v, ObjectName, depth, w);
    OneWord(v, ArrayName, depth, w);
    OneWord(v, NumberName, depth, w);
    OneWord(v, IntegerName, depth, w);
    if v.Num? {
      var x := w.lib.number(v.lexeme);
      if Whole(x) {
        var n: int :| x == RealOf(n);
        assert x.Floor == n;
      } else {
        assert x != RealOf(x.Floor);
      }
    }
  }

  /** A list of words accepts what one of them accepts. */
  lemma TypeListMeans(v: Json, ts: seq<TypeName>, depth: nat, w: World)
    requires depth <= w.maxDepth
    ensures Valid(v, EMPTY.(types := Some(ts)), depth, w) <==>
            exists i :: 0 <= i < |ts| && Valid(v, OfType(ts[i]), depth, w)
  {
    hide ByType, Applicators, MatchesType;
    EmptyAccepts(v, EMPTY.(types := Some(ts)), depth, w);
    forall i | 0 <= i < |ts| ensures Valid(v, OfType(ts[i]), depth, w) <==> MatchesType(v, ts[i], w.lib) {
      OneWord(v, ts[i], depth, w);
    }
  }

  // ----- enum and const

  lemma EnumMeans(v: Json, allowed: seq<Json>, depth: nat, w: World)
    requires depth <= w.maxDepth && WellFormed(v) && forall i :: 0 <= i < |allowed| ==> WellFormed(allowed[i])
    ensures Valid(v, EMPTY.(enum := Some(allowed)), depth, w) <==> exists i :: 0 <= i < |allowed| && Same(allowed[i], v)
  {
    hide ByType, Applicators, EnumOk;
    EmptyAccepts(v, EMPTY.(enum := Some(allowed)), depth, w);
    EnumIsEquality(v, allowed);
  }

  lemma ConstMeans(v: Json, constant: Json, depth: nat, w: World)
    requires depth <= w.maxDepth && WellFormed(v) && WellFormed(constant)
    ensures Valid(v, EMPTY.(constant := Some(constant)), depth, w) <==> Same(constant, v)
  {
    hide ByType, Applicators, ConstOk;
    EmptyAccepts(v, EMPTY.(constant := Some(constant)), depth, w);
    ConstIsEquality(v, constant);
  }

  // ----- lengths of texts

  /** A high surrogate followed by a low one: two units, one code point, four bytes. */
  predicate PairAt(s: Text, i: int) {
    0 <= i && i + 1 < |s| && 0xD800 <= s[i] <= 0xDBFF && 0xDC00 <= s[i + 1] <= 0xDFFF
  }

  function Pairs(s: Text): set<int> { set i | 0 <= i < |s| && PairAt(s, i) }

  function Wide(s: Text): set<int> { set i | 0 <= i < |s| && s[i] >= 0x80 }

  /** Units that take three bytes, and do not belong to a pair. */
  function Three(s: Text): set<int> {
    set i | 0 <= i < |s| && s[i] >= 0x800 && !PairAt(s, i) && !PairAt(s, i - 1)
  }

  function Shift(xs: set<int>, k: int): set<int> { set x | x in xs :: x + k }

  lemma Pick<T>(xs: set<T>) returns (x: T)
    requires xs != {}
    ensures x in xs
  {
    x :| x in xs;
  }

  lemma {:induction false} ShiftSize(xs: set<int>, k: int)
    ensures |Shift(xs, k)| == |xs|
    decreases xs
  {
    if xs == {} {
      assert Shift(xs, k) == {};
    } else {
      var x := Pick(xs);
      ShiftSize(xs - {x}, k);
      forall y ensures y in Shift(xs, k) <==> y in Shift(xs - {x}, k) + {x + k} {
        if y in Shift(xs, k) {
          var z :| z in xs && y == z + k;
          if z != x { assert z in xs - {x}; }
        }
      }
      assert Shift(xs, k) == Shift(xs - {x}, k) + {x + k};
    }
  }

  /** A pair at the front: everything else is that of the rest, two units on. */
  lemma PairFront(s: Text)
    requires PairAt(s, 0)
    ensures Pairs(s) == {0} + Shift(Pairs(s[2..]), 2)
    ensures Wide(s) == {0, 1} + Shift(Wide(s[2..]), 2)
    ensures Three(s) == Shift(Three(s[2..]), 2)
  {
    var t := s[2..];
    assert forall i :: PairAt(t, i) && i >= 0 ==> PairAt(s, i + 2);
    forall i | 2 <= i < |s| ensures (PairAt(s, i) <==> PairAt(t, i - 2)) && s[i] == t[i - 2] {}
    assert !PairAt(s, 1);
    forall i ensures i in Pairs(s) <==> i in {0} + Shift(Pairs(t), 2) {
      if 2 <= i < |s| { assert i - 2 in Pairs(t) <==> i in Pairs(s); }
    }
    forall i ensures i in Wide(s) <==> i in {0, 1} + Shift(Wide(t), 2) {
      if 2 <= i < |s| { assert i - 2 in Wide(t) <==> i in Wide(s); }
    }
    forall i ensures i in Three(s) <==> i in Shift(Three(t), 2) {
      if 2 <= i < |s| {
        assert PairAt(s, i - 1) <==> PairAt(t, i - 3);
        assert i - 2 in Three(t) <==> i in Three(s);
      }
    }
  }

  lemma LoneFront(s: Text)
    requires s != [] && !PairAt(s, 0)
    ensures Pairs(s) == Shift(Pairs(s[1..]), 1)
    ensures Wide(s) == (if s[0] >= 0x80 then {0} else {}) + Shift(Wide(s[1..]), 1)
    ensures Three(s) == (if s[0] >= 0x800 then {0} else {}) + Shift(Three(s[1..]), 1)
  {
    var t := s[1..];
    forall i | 1 <= i < |s| ensures (PairAt(s, i) <==> PairAt(t, i - 1)) && s[i] == t[i - 1] {}
    forall i ensures i in Pairs(s) <==> i in Shift(Pairs(t), 1) {
      if 1 <= i < |s| { assert i - 1 in Pairs(t) <==> i in Pairs(s); }
    }
    forall i ensures i in Wide(s) <==> i in (if s[0] >= 0x80 then {0} else {}) + Shift(Wide(t), 1) {
      if 1 <= i < |s| { assert i - 1 in Wide(t) <==> i in Wide(s); }
    }
    forall i ensures i in Three(s) <==> i in (if s[0] >= 0x800 then {0} else {}) + Shift(Three(t), 1) {
      if 1 <= i < |s| {
        assert PairAt(s, i - 1) <==> PairAt(t, i - 2);
        assert i - 1 in Three(t) <==> i in Three(s);
      }
    }
  }

  /** Code points are units less the pairs; bytes are one a unit, one more from U+0080 and from U+0800 on. */
  lemma {:induction false} TextLengths(s: Text)
    ensures CodePoints(s) == |s| - |Pairs(s)|
    ensures Utf8Length(s) == |s| + |Wide(s)| + |Three(s)|
    decreases |s|
  {
    if s == [] {
      assert Pairs(s) == {} && Wide(s) == {} && Three(s) == {};
    } else if PairAt(s, 0) {
      TextLengths(s[2..]);
      PairFront(s);
      ShiftSize(Pairs(s[2..]), 2);
      ShiftSize(Wide(s[2..]), 2);
      ShiftSize(Three(s[2..]), 2);
      assert 0 !in Shift(Pairs(s[2..]), 2) && 0 !in Shift(Wide(s[2..]), 2) && 1 !in Shift(Wide(s[2..]), 2);
      assert |{0, 1}| == 2;
    } else {
      TextLengths(s[1..]);
      LoneFront(s);
      ShiftSize(Pairs(s[1..]), 1);
      ShiftSize(Wide(s[1..]), 1);
      ShiftSize(Three(s[1..]), 1);
      assert 0 !in Shift(Pairs(s[1..]), 1) && 0 !in Shift(Wide(s[1..]), 1) && 0 !in Shift(Three(s[1..]), 1);
    }
  }

  // ----- strings and numbers

  lemma ScalarOnly(v: Json, c: Scalar, depth: nat, w: World)
    requires depth <= w.maxDepth
    ensures Valid(v, EMPTY.(scalar := c), depth, w) <==>
            && (v.Str? ==> StringValid(v.text, c, w))
            && (v.Num? ==> NumberValid(v.lexeme, c, w))
  {
    hide StringValid, NumberValid, Valid;
    var s := EMPTY.(scalar := c);
    Unfolded(v, s, depth, w);
    EmptyAccepts(v, EMPTY, depth, w);
    assert Applicators(v, s, depth, w);
    match v {
      case Arr(items) => assert ArrayValid(items, s, depth, w);
      case Obj(members) =>
        forall i | 0 <= i < |members| ensures MemberValid(members[i], s, depth, w) {}
        assert ObjectValid(members, s, depth, w);
      case _ =>
    }
  }

  /** The string keywords concern strings only, and each has its own bound. */
  lemma StringKeywordsMean(v: Json, c: Scalar, depth: nat, w: World)
    requires depth <= w.maxDepth && c == NO_SCALAR.(minLength := c.minLength, maxLength := c.maxLength,
                                                    pattern := c.pattern, format := c.format)
    ensures Valid(v, EMPTY.(scalar := c), depth, w) <==>
            && (v.Str? ==>
                  && (c.minLength.Some? ==> c.minLength.value <= |v.text| - |Pairs(v.text)|)
                  && (c.maxLength.Some? ==> |v.text| - |Pairs(v.text)| <= c.maxLength.value)
                  && (c.pattern.Some? ==>
                        && |v.text| + |Wide(v.text)| + |Three(v.text)| <= w.maxPatternBytes
                        && w.lib.matches(c.pattern.value, v.text)))
            && ((v.Str? || v.Num?) && c.format.Some? ==> w.lib.formatOk(c.format.value, v))
  {
    ScalarOnly(v, c, depth, w);
    hide Valid, Pairs, Wide, Three;
    if v.Str? { TextLengths(v.text); }
  }

  /** The number keywords concern numbers only, by their value. */
  lemma NumberKeywordsMean(v: Json, c: Scalar, depth: nat, w: World)
    requires depth <= w.maxDepth && c == NO_SCALAR.(minimum := c.minimum, maximum := c.maximum,
                                                    exclusiveMinimum := c.exclusiveMinimum,
                                                    exclusiveMaximum := c.exclusiveMaximum,
                                                    multipleOf := c.multipleOf)
    ensures Valid(v, EMPTY.(scalar := c), depth, w) <==>
            forall l: Text :: v == Num(l) ==>
              var x := w.lib.number(l);
              && (c.minimum.Some? ==> x >= c.minimum.value) && (c.maximum.Some? ==> x <= c.maximum.value)
              && (c.exclusiveMinimum.Some? ==> x > c.exclusiveMinimum.value)
              && (c.exclusiveMaximum.Some? ==> x < c.exclusiveMaximum.value)
              && (c.multipleOf.Some? && c.multipleOf.value > 0.0 ==> w.lib.multiple(x, c.multipleOf.value))
  {
    ScalarOnly(v, c, depth, w);
    hide Valid;
  }

  // ----- arrays

  lemma ArrayOnly(v: Json, s: Node, depth: nat, w: World)
    requires depth <= w.maxDepth
    requires s == EMPTY.(length := s.length, unique := s.unique, prefix := s.prefix, items := s.items,
                         contains := s.contains, matching := s.matching)
    ensures Valid(v, s, depth, w) <==> (v.Arr? ==> ArrayValid(v.items, s, depth, w))
  {
    hide ArrayValid, Valid;
    Unfolded(v, s, depth, w);
    EmptyAccepts(v, EMPTY, depth, w);
    assert Applicators(v, s, depth, w);
    match v {
      case Obj(members) =>
        forall i | 0 <= i < |members| ensures MemberValid(members[i], s, depth, w) {}
        assert ObjectValid(members, s, depth, w);
      case _ =>
    }
  }

  /** Bounds on the number of items, and `uniqueItems` as inequality up to key order. */
  lemma LengthMeans(v: Json, s: Node, depth: nat, w: World)
    requires depth <= w.maxDepth && WellFormed(v) && s == EMPTY.(length := s.length, unique := s.unique)
    ensures Valid(v, s, depth, w) <==>
            forall vs: seq<Json> :: v == Arr(vs) ==>
              && (s.length.least.Some? ==> |vs| >= s.length.least.value)
              && (s.length.most.Some? ==> |vs| <= s.length.most.value)
              && (s.unique ==> forall i, j :: 0 <= i < j < |vs| ==> !Same(vs[i], vs[j]))
  {
    ArrayOnly(v, s, depth, w);
    hide Valid, WellFormed, CanonicalJson, Same;
    if v.Arr? { UniqueIsEquality(v.items); }
  }

  /** `prefixItems` by position, `items` from where they end. */
  lemma ItemsMean(v: Json, prefix: seq<Node>, rest: Node, depth: nat, w: World)
    requires depth <= w.maxDepth
    ensures Valid(v, EMPTY.(prefix := Some(prefix), items := Some(rest)), depth, w) <==>
            forall vs: seq<Json> :: v == Arr(vs) ==>
              forall i :: 0 <= i < |vs| ==> Valid(vs[i], if i < |prefix| then prefix[i] else rest, depth + 1, w)
    ensures Valid(v, EMPTY.(items := Some(rest)), depth, w) <==>
            forall vs: seq<Json> :: v == Arr(vs) ==> forall i :: 0 <= i < |vs| ==> Valid(vs[i], rest, depth + 1, w)
  {
    ArrayOnly(v, EMPTY.(prefix := Some(prefix), items := Some(rest)), depth, w);
    ArrayOnly(v, EMPTY.(items := Some(rest)), depth, w);
    hide Valid;
    if v.Arr? {
      var s := EMPTY.(prefix := Some(prefix), items := Some(rest));
      if ArrayValid(v.items, s, depth, w) {
        forall i | 0 <= i < |v.items|
          ensures Valid(v.items[i], if i < |prefix| then prefix[i] else rest, depth + 1, w) {}
      }
      if forall i :: 0 <= i < |v.items| ==>
        Valid(v.items[i], if i < |prefix| then prefix[i] else rest, depth + 1, w) {
      }
    }
  }

  ghost function ItemsOk(vs: seq<Json>, c: Node, depth: nat, w: World): set<int> {
    set i | 0 <= i < |vs| && Valid(vs[i], c, depth, w)
  }

  /** `contains` asks for one item, or for as many as `minContains` and `maxContains` say. */
  lemma ContainsMeans(v: Json, c: Node, matching: Range, depth: nat, w: World)
    requires depth <= w.maxDepth
    ensures Valid(v, EMPTY.(contains := Some(c), matching := matching), depth, w) <==>
            forall vs: seq<Json> :: v == Arr(vs) ==>
              var n := |ItemsOk(vs, c, depth + 1, w)|;
              && (if matching.least.Some? then n >= matching.least.value else n >= 1)
              && (matching.most.Some? ==> n <= matching.most.value)
  {
    ArrayOnly(v, EMPTY.(contains := Some(c), matching := matching), depth, w);
    hide Valid;
    if v.Arr? { assert MatchedBy(v.items, c, depth, w) == ItemsOk(v.items, c, depth + 1, w); }
  }

  // ----- objects

  lemma ObjectOnly(v: Json, s: Node, depth: nat, w: World)
    requires depth <= w.maxDepth
    requires s == EMPTY.(size := s.size, required := s.required, properties := s.properties, patterns := s.patterns,
                         additional := s.additional, names := s.names)
    ensures Valid(v, s, depth, w) <==> (v.Obj? ==> ObjectValid(v.members, s, depth, w))
  {
    hide ObjectValid, Valid;
    Unfolded(v, s, depth, w);
    EmptyAccepts(v, EMPTY, depth, w);
    assert Applicators(v, s, depth, w);
    match v {
      case Arr(items) => assert ArrayValid(items, s, depth, w);
      case _ =>
    }
  }

  lemma SizeMeans(v: Json, size: Range, required: seq<Text>, depth: nat, w: World)
    requires depth <= w.maxDepth
    ensures Valid(v, EMPTY.(size := size, required := required), depth, w) <==>
            forall ms: seq<Member> :: v == Obj(ms) ==>
              && (size.least.Some? ==> |ms| >= size.least.value) && (size.most.Some? ==> |ms| <= size.most.value)
              && (forall name :: name in required ==> exists i :: 0 <= i < |ms| && ms[i].key == name)
  {
    var s := EMPTY.(size := size, required := required);
    ObjectOnly(v, s, depth, w);
    hide Valid;
    if v.Obj? {
      forall i | 0 <= i < |v.members| ensures MemberValid(v.members[i], s, depth, w) {}
      forall k | 0 <= k < |required|
        ensures HasKey(v.members, required[k]) <==>
                exists i :: 0 <= i < |v.members| && v.members[i].key == required[k]
        ensures required[k] in required
      {}
      if forall name :: name in required ==> HasKey(v.members, name) {
        assert forall k :: 0 <= k < |required| ==> HasKey(v.members, required[k]);
      }
    }
  }

  /** The key is named by `properties`, or a pattern matches it. */
  ghost predicate Spoken(s: Node, key: Text, w: World) {
    || (exists i :: 0 <= i < |s.properties| && s.properties[i].name == key)
    || (exists k :: 0 <= k < |s.patterns| && w.lib.matches(s.patterns[k].name, key))
  }

  /** The property of that name, properties having distinct names. */
  ghost predicate Fits(m: Member, s: Node, depth: nat, w: World) {
    && (s.names.Some? ==> Valid(Str(m.key), s.names.value, depth + 1, w))
    && (forall i :: 0 <= i < |s.properties| && s.properties[i].name == m.key ==>
          Valid(m.value, s.properties[i].node, depth + 1, w))
    && (forall k :: 0 <= k < |s.patterns| && w.lib.matches(s.patterns[k].name, m.key) ==>
          Valid(m.value, s.patterns[k].node, depth + 1, w))
    && (s.additional.Some? && !Spoken(s, m.key, w) ==> Valid(m.value, s.additional.value, depth + 1, w))
  }

  ghost predicate DistinctNames(es: seq<Entry>) {
    forall i, j :: 0 <= i < j < |es| ==> es[i].name != es[j].name
  }

  lemma FindExact(es: seq<Entry>, name: Text)
    requires DistinctNames(es)
    ensures forall i :: 0 <= i < |es| && es[i].name == name ==> i == Find(es, name)
  {
    var at := Find(es, name);
    if i :| 0 <= i < |es| && es[i].name == name { assert es[at].name == name; }
  }

  lemma SpokenExact(s: Node, key: Text, w: World)
    ensures Claimed(s, key, w.lib) <==> Spoken(s, key, w)
  {
    var at := Find(s.properties, key);
    if at < |s.properties| { assert s.properties[at].name == key; }
    assert AnyPattern(s, key, w.lib) <==>
           exists k :: 0 <= k < |s.patterns| && w.lib.matches(s.patterns[k].name, key);
  }

  /** Members against their property, every pattern that matches, and `additionalProperties` for the rest. */
  lemma MembersMean(v: Json, s: Node, depth: nat, w: World)
    requires depth <= w.maxDepth && DistinctNames(s.properties)
    requires s == EMPTY.(properties := s.properties, patterns := s.patterns, additional := s.additional,
                         names := s.names)
    ensures Valid(v, s, depth, w) <==>
            forall ms: seq<Member> :: v == Obj(ms) ==> forall i :: 0 <= i < |ms| ==> Fits(ms[i], s, depth, w)
  {
    ObjectOnly(v, s, depth, w);
    if v.Obj? {
      forall i | 0 <= i < |v.members|
        ensures MemberValid(v.members[i], s, depth, w) <==> Fits(v.members[i], s, depth, w)
      {
        hide Valid, Find, Claimed, Spoken;
        FindExact(s.properties, v.members[i].key);
        SpokenExact(s, v.members[i].key, w);
      }
    }
    hide Valid, MemberValid, Fits;
  }

  // ----- logic

  lemma LogicOnly(v: Json, s: Node, depth: nat, w: World)
    requires depth <= w.maxDepth
    requires s == EMPTY.(allOf := s.allOf, anyOf := s.anyOf, oneOf := s.oneOf, negated := s.negated, test := s.test,
                         consequent := s.consequent, otherwise := s.otherwise)
    ensures Valid(v, s, depth, w) <==> Applicators(v, s, depth, w)
  {
    hide Applicators, Valid;
    Unfolded(v, s, depth, w);
    EmptyAccepts(v, EMPTY, depth, w);
    match v {
      case Arr(items) => assert ArrayValid(items, s, depth, w);
      case Obj(members) =>
        forall i | 0 <= i < |members| ensures MemberValid(members[i], s, depth, w) {}
        assert ObjectValid(members, s, depth, w);
      case _ =>
    }
  }

  /** The alternatives a value is valid against. */
  ghost function Among(v: Json, ss: seq<Node>, depth: nat, w: World): set<int> {
    set i | 0 <= i < |ss| && Valid(v, ss[i], depth, w)
  }

  /** The combinators count the alternatives a value is valid against. */
  lemma LogicMeans(v: Json, ss: seq<Node>, t: Node, depth: nat, w: World)
    requires depth <= w.maxDepth
    ensures Valid(v, EMPTY.(allOf := ss), depth, w) <==> |Among(v, ss, depth + 1, w)| == |ss|
    ensures Valid(v, EMPTY.(anyOf := Some(ss)), depth, w) <==> |Among(v, ss, depth + 1, w)| >= 1
    ensures Valid(v, EMPTY.(oneOf := Some(ss)), depth, w) <==> |Among(v, ss, depth + 1, w)| == 1
    ensures Valid(v, EMPTY.(negated := Some(t)), depth, w) <==> !Valid(v, t, depth + 1, w)
  {
    LogicOnly(v, EMPTY.(allOf := ss), depth, w);
    LogicOnly(v, EMPTY.(anyOf := Some(ss)), depth, w);
    LogicOnly(v, EMPTY.(oneOf := Some(ss)), depth, w);
    LogicOnly(v, EMPTY.(negated := Some(t)), depth, w);
    hide Valid, Among, SomeOne, ExactlyOne;
    EveryOneCounts(v, ss, depth, w);
    SomeOneCounts(v, ss, depth, w);
    OneCounts(v, ss, depth, w);
    assert EveryOne(v, [], depth, w);
  }

  lemma EveryOneCounts(v: Json, ss: seq<Node>, depth: nat, w: World)
    requires depth <= w.maxDepth
    ensures EveryOne(v, ss, depth, w) <==> |Among(v, ss, depth + 1, w)| == |ss|
  {
    hide Valid;
    var good := Among(v, ss, depth + 1, w);
    CountAll(good, |ss|);
    forall i | 0 <= i < |ss| ensures i in good <==> Valid(v, ss[i], depth + 1, w) {}
  }

  lemma SomeOneCounts(v: Json, ss: seq<Node>, depth: nat, w: World)
    requires depth <= w.maxDepth
    ensures SomeOne(v, ss, depth, w) <==> |Among(v, ss, depth + 1, w)| >= 1
  {
    hide Valid;
    var good := Among(v, ss, depth + 1, w);
    CountSome(good);
    if i :| 0 <= i < |ss| && Valid(v, ss[i], depth + 1, w) { assert i in good; }
  }

  lemma OneCounts(v: Json, ss: seq<Node>, depth: nat, w: World)
    requires depth <= w.maxDepth
    ensures ExactlyOne(v, ss, depth, w) <==> |Among(v, ss, depth + 1, w)| == 1
  {
    hide Valid;
    var good := Among(v, ss, depth + 1, w);
    CountSingle(good);
    forall i | 0 <= i < |ss| ensures OnlyThis(v, ss, i, depth, w) <==> good == {i} {
      if OnlyThis(v, ss, i, depth, w) { assert good == {i}; }
      if good == {i} {
        forall j | 0 <= j < |ss| ensures Valid(v, ss[j], depth + 1, w) <==> j == i { assert j in good <==> j in {i}; }
      }
    }
    if i :| good == {i} { assert i in good; }
  }

  lemma CountAll(good: set<int>, n: nat)
    requires forall i :: i in good ==> 0 <= i < n
    ensures |good| == n <==> forall i :: 0 <= i < n ==> i in good
  {
    var all := Upto(n);
    UptoSize(n);
    assert good <= all;
    if |good| == n {
      assert |all - good| == 0;
      forall i | 0 <= i < n ensures i in good { assert i !in all - good; }
    }
    if forall i :: 0 <= i < n ==> i in good { assert good == all; }
  }

  function Upto(n: nat): (r: set<int>)
    ensures forall i :: i in r <==> 0 <= i < n
  {
    if n == 0 then {} else Upto(n - 1) + {n - 1}
  }

  lemma {:induction false} UptoSize(n: nat)
    ensures |Upto(n)| == n
    decreases n
  {
    if n > 0 { UptoSize(n - 1); }
  }

  lemma CountSome(good: set<int>)
    ensures |good| >= 1 <==> exists i :: i in good
  {
    if |good| >= 1 { var i := Pick(good); }
    if i :| i in good { assert |good - {i}| == |good| - 1; }
  }

  lemma CountSingle(good: set<int>)
    ensures |good| == 1 <==> exists i :: good == {i}
  {
    if |good| == 1 {
      var i := Pick(good);
      assert |good - {i}| == 0;
      assert good == {i};
    }
  }

  /** `then` where the test holds, `else` where it does not; either may be absent. */
  lemma ConditionalMeans(v: Json, test: Node, s: Node, depth: nat, w: World)
    requires depth <= w.maxDepth
    requires s == EMPTY.(test := Some(test), consequent := s.consequent, otherwise := s.otherwise)
    ensures Valid(v, s, depth, w) <==>
            && (Valid(v, test, depth + 1, w) && s.consequent.Some? ==> Valid(v, s.consequent.value, depth + 1, w))
            && (!Valid(v, test, depth + 1, w) && s.otherwise.Some? ==> Valid(v, s.otherwise.value, depth + 1, w))
  {
    LogicOnly(v, s, depth, w);
    hide Valid;
  }

  // ----- references and null

  /** A reference is its definition, one level further down; keywords beside it apply as well. */
  lemma ReferenceMeans(v: Json, s: Node, depth: nat, w: World)
    requires depth <= w.maxDepth && s.ref.Some?
    ensures Valid(v, s, depth, w) <==>
            && s.ref.value in w.defs && Valid(v, w.defs[s.ref.value], depth + 1, w)
            && Valid(v, s.(ref := None), depth, w)
  {
    hide Applicators, ByType;
    var t := s.(ref := None);
    assert Applicators(v, s, depth, w) == Applicators(v, t, depth, w) by { SameApplicators(v, s, depth, w); }
    assert ByType(v, s, depth, w) == ByType(v, t, depth, w) by { SameByType(v, s, depth, w); }
  }

  lemma SameApplicators(v: Json, s: Node, depth: nat, w: World)
    requires depth <= w.maxDepth
    ensures Applicators(v, s, depth, w) == Applicators(v, s.(ref := None), depth, w)
  {
    hide Valid;
  }

  lemma SameByType(v: Json, s: Node, depth: nat, w: World)
    requires depth <= w.maxDepth
    ensures ByType(v, s, depth, w) == ByType(v, s.(ref := None), depth, w)
  {
    hide Valid;
    var t := s.(ref := None);
    if v.Obj? {
      forall i | 0 <= i < |v.members|
        ensures MemberValid(v.members[i], s, depth, w) == MemberValid(v.members[i], t, depth, w)
      {
        assert Claimed(s, v.members[i].key, w.lib) == Claimed(t, v.members[i].key, w.lib) by {
          SpokenExact(s, v.members[i].key, w);
          SpokenExact(t, v.members[i].key, w);
        }
      }
      hide MemberValid;
      assert ObjectValid(v.members, s, depth, w) == ObjectValid(v.members, t, depth, w);
    }
    if v.Arr? { assert ArrayValid(v.items, s, depth, w) == ArrayValid(v.items, t, depth, w); }
  }

  // ----- the words of a document

  /** A schema that says no more than its types. */
  function Worded(words: seq<Src.TypeWord>): Src.Source {
    Src.Shape(None, false, Src.NO_OWN.(types := Some(words)), Src.NO_INSIDE, Src.NO_LOGIC)
  }

  /** Parts and logic that say nothing are met by everything. */
  lemma NothingSaid(v: Json, own: Src.Own, depth: nat, doc: Src.Document, w: World)
    requires depth <= w.maxDepth && own == Src.NO_OWN.(types := own.types)
    ensures var s := Src.Shape(None, false, own, Src.NO_INSIDE, Src.NO_LOGIC);
            Src.PartsHeeded(v, s, depth, doc, w) && Src.LogicHeeded(v, Src.NO_LOGIC, depth, doc, w)
  {
    match v {
      case Arr(items) => assert Src.ItemsHeeded(items, own, Src.NO_INSIDE, depth, doc, w);
      case Obj(members) =>
        forall k | 0 <= k < |members| ensures Src.MemberHeeded(members[k], Src.NO_INSIDE, depth, doc, w) {}
        assert Src.MembersHeeded(members, own, Src.NO_INSIDE, depth, doc, w);
      case _ =>
    }
  }

  lemma WordsSatisfied(v: Json, words: seq<Src.TypeWord>, depth: nat, doc: Src.Document, w: World)
    requires depth <= w.maxDepth
    ensures Src.Satisfies(v, Worded(words), depth, doc, w) <==> Src.TypeHeeded(v, Worded(words), doc, w.lib)
  {
    hide Src.PartsHeeded, Src.LogicHeeded, Src.TypeHeeded;
    NothingSaid(v, Worded(words).own, depth, doc, w);
    assert Src.Heeds(v, Worded(words), depth, doc, w) <==> Src.TypeHeeded(v, Worded(words), doc, w.lib);
  }

  lemma {:induction false} NamedExactly(words: seq<Src.TypeWord>, t: TypeName)
    ensures t in Src.Named(words) <==> Src.Simple(t) in words
    decreases |words|
  {
    if words != [] {
      var n := |words| - 1;
      NamedExactly(words[..n], t);
      assert words == words[..n] + [words[n]];
    }
  }

  /** In a document, too, a list of words accepts what one of them accepts; with no JSON type named, anything. */
  lemma DocumentWordsMean(v: Json, words: seq<Src.TypeWord>, depth: nat, doc: Src.Document, w: World)
    requires depth <= w.maxDepth
    ensures Src.Satisfies(v, Worded(words), depth, doc, w) <==>
            || (forall t: TypeName :: Src.Simple(t) !in words)
            || (exists t: TypeName :: Src.Simple(t) in words && Valid(v, OfType(t), depth, w))
  {
    hide Valid, Src.Satisfies, MatchesType, Src.Named;
    WordsSatisfied(v, words, depth, doc, w);
    forall t ensures (t in Src.Named(words) <==> Src.Simple(t) in words)
                     && (Valid(v, OfType(t), depth, w) <==> MatchesType(v, t, w.lib))
    {
      NamedExactly(words, t);
      OneWord(v, t, depth, w);
    }
    var named := Src.Named(words);
    if named != [] { assert named[0] in named; }
    if k :| 0 <= k < |named| && MatchesType(v, named[k], w.lib) { assert named[k] in named; }
  }
}

/**
 Declarative validity: what each keyword requires of a value, and the theorem that an unbounded
 run reports no issue exactly on the valid values. Validity is relative to the nesting bound:
 beyond it nothing is valid, which is how the evaluator fails.
 */
module SchemaValidity {
  import opened Text
  import opened Json
  import opened Canonical
  import opened SchemaNodes

  ghost predicate Valid(v: Json, s: Node, depth: nat, w: World)
    decreases Left(depth, w), 9
  {
    && depth <= w.maxDepth
    && (s.ref.Some? ==> s.ref.value in w.defs && Valid(v, w.defs[s.ref.value], depth + 1, w))
    && Beside(v, s, depth, w)
  }

  ghost predicate Beside(v: Json, s: Node, depth: nat, w: World)
    requires depth <= w.maxDepth
    decreases Left(depth, w), 8
  {
    || (s.nullableAny && v.Null?)
    || (&& TypeOk(v, s.types, w.lib) && EnumOk(v, s.enum) && ConstOk(v, s.constant)
        && ByType(v, s, depth, w) && Applicators(v, s, depth, w))
  }

  ghost predicate ByType(v: Json, s: Node, depth: nat, w: World)
    requires depth <= w.maxDepth
    decreases Left(depth, w), 7
  {
    match v
    case Str(text) => StringValid(text, s.scalar, w)
    case Num(lexeme) => NumberValid(lexeme, s.scalar, w)
    case Arr(items) => ArrayValid(items, s, depth, w)
    case Obj(members) => ObjectValid(members, s, depth, w)
    case _ => true
  }

  ghost predicate ArrayValid(items: seq<Json>, s: Node, depth: nat, w: World)
    requires depth <= w.maxDepth
    decreases Left(depth, w), 6
  {
    && InRange(|items|, s.length)
    && (s.unique ==> forall i, j :: 0 <= i < j < |items| ==> CanonicalJson(items[i]) != CanonicalJson(items[j]))
    && (forall i :: 0 <= i < |items| && i < PrefixLength(s) ==> Valid(items[i], s.prefix.value[i], depth + 1, w))
    && (s.items.Some? ==> forall i :: PrefixLength(s) <= i < |items| ==> Valid(items[i], s.items.value, depth + 1, w))
    && (s.contains.Some? ==>
          var matched := |MatchedBy(items, s.contains.value, depth, w)|;
          InRange(matched, s.matching) && (s.matching.least.None? ==> matched >= 1))
  }

  /** The positions of the items a `contains` schema accepts. */
  ghost function MatchedBy(items: seq<Json>, c: Node, depth: nat, w: World): set<int>
    requires depth <= w.maxDepth
    decreases Left(depth, w), 0
  {
    set i | 0 <= i < |items| && Valid(items[i], c, depth + 1, w)
  }

  ghost predicate ObjectValid(members: seq<Member>, s: Node, depth: nat, w: World)
    requires depth <= w.maxDepth
    decreases Left(depth, w), 6
  {
    && InRange(|members|, s.size)
    && (forall k :: 0 <= k < |s.required| ==> HasKey(members, s.required[k]))
    && (forall i :: 0 <= i < |members| ==> MemberValid(members[i], s, depth, w))
  }

  ghost predicate MemberValid(m: Member, s: Node, depth: nat, w: World)
    requires depth <= w.maxDepth
    decreases Left(depth, w), 1
  {
    var at := Find(s.properties, m.key);
    && (s.names.Some? ==> Valid(Str(m.key), s.names.value, depth + 1, w))
    && (at < |s.properties| ==> Valid(m.value, s.properties[at].node, depth + 1, w))
    && (forall k :: 0 <= k < |s.patterns| && w.lib.matches(s.patterns[k].name, m.key) ==>
          Valid(m.value, s.patterns[k].node, depth + 1, w))
    && (s.additional.Some? && !Claimed(s, m.key, w.lib) ==> Valid(m.value, s.additional.value, depth + 1, w))
  }

  ghost predicate Applicators(v: Json, s: Node, depth: nat, w: World)
    requires depth <= w.maxDepth
    decreases Left(depth, w), 6
  {
    && EveryOne(v, s.allOf, depth, w)
    && (s.anyOf.Some? ==> SomeOne(v, s.anyOf.value, depth, w))
    && (s.oneOf.Some? ==> ExactlyOne(v, s.oneOf.value, depth, w))
    && (s.negated.Some? ==> !Valid(v, s.negated.value, depth + 1, w))
    && (s.test.Some? ==> Conditional(v, s, depth, w))
  }

  ghost predicate EveryOne(v: Json, ss: seq<Node>, depth: nat, w: World)
    requires depth <= w.maxDepth
    decreases Left(depth, w), 0
  {
    forall i :: 0 <= i < |ss| ==> Valid(v, ss[i], depth + 1, w)
  }

  ghost predicate SomeOne(v: Json, ss: seq<Node>, depth: nat, w: World)
    requires depth <= w.maxDepth
    decreases Left(depth, w), 0
  {
    exists i :: 0 <= i < |ss| && Valid(v, ss[i], depth + 1, w)
  }

  ghost predicate ExactlyOne(v: Json, ss: seq<Node>, depth: nat, w: World)
    requires depth <= w.maxDepth
    decreases Left(depth, w), 1
  {
    exists i :: 0 <= i < |ss| && OnlyThis(v, ss, i, depth, w)
  }

  ghost predicate OnlyThis(v: Json, ss: seq<Node>, i: nat, depth: nat, w: World)
    requires depth <= w.maxDepth
    decreases Left(depth, w), 0
  {
    forall j :: 0 <= j < |ss| ==> (Valid(v, ss[j], depth + 1, w) <==> j == i)
  }

  ghost predicate Conditional(v: Json, s: Node, depth: nat, w: World)
    requires depth <= w.maxDepth && s.test.Some?
    decreases Left(depth, w), 0
  {
    if Valid(v, s.test.value, depth + 1, w)
    then s.consequent.Some? ==> Valid(v, s.consequent.value, depth + 1, w)
    else s.otherwise.Some? ==> Valid(v, s.otherwise.value, depth + 1, w)
  }

  // ----- counting and flattening

  lemma {:induction false} FlatEmpty<T>(r: seq<seq<T>>)
    ensures Flat(r) == [] <==> forall i :: 0 <= i < |r| ==> r[i] == []
    decreases |r|
  {
    if r != [] {
      var n := |r| - 1;
      var init := r[..n];
      FlatEmpty(init);
      assert forall i :: 0 <= i < n ==> init[i] == r[i];
      assert Flat(r) == Flat(init) + r[n];
      assert Flat(r) == [] <==> Flat(init) == [] && r[n] == [];
    }
  }

  lemma {:induction false} CountIsSize(flags: seq<bool>)
    ensures Count(flags) == |set i | 0 <= i < |flags| && flags[i]|
    decreases |flags|
  {
    var all := set i | 0 <= i < |flags| && flags[i];
    if flags == [] {
      assert all == {};
    } else {
      var n := |flags| - 1;
      CountIsSize(flags[..n]);
      var before := set i | 0 <= i < n && flags[..n][i];
      assert all == before + (if flags[n] then {n} else {});
    }
  }

  ghost predicate OnlyFlag(flags: seq<bool>, i: nat) {
    forall j :: 0 <= j < |flags| ==> (flags[j] <==> j == i)
  }

  /** Exactly one true flag. */
  lemma CountOne(flags: seq<bool>)
    ensures Count(flags) == 1 <==> exists i :: 0 <= i < |flags| && OnlyFlag(flags, i)
  {
    CountIsSize(flags);
    var all := set i | 0 <= i < |flags| && flags[i];
    if |all| == 1 {
      var i :| i in all;
      assert all - {i} == {} by { assert |all - {i}| == 0; }
      forall j | 0 <= j < |flags|
        ensures flags[j] <==> j == i
      {
        assert flags[j] <==> j in all;
        assert j !in all - {i};
      }
      assert OnlyFlag(flags, i);
    }
    if i :| 0 <= i < |flags| && OnlyFlag(flags, i) {
      assert all == {i};
    }
  }

  // ----- no issue means valid, and conversely

  /** The induction hypothesis at one level down. */
  ghost predicate Agree(depth: nat, w: World) {
    forall v: Json, s: Node, path: seq<PathStep> {:trigger All(v, s, path, depth, w)} ::
      All(v, s, path, depth, w) == [] <==> Valid(v, s, depth, w)
  }

  lemma {:induction false} NoIssueIffValid(v: Json, s: Node, path: seq<PathStep>, depth: nat, w: World)
    ensures All(v, s, path, depth, w) == [] <==> Valid(v, s, depth, w)
    decreases Left(depth, w)
  {
    if depth <= w.maxDepth {
      forall v': Json, s': Node, path': seq<PathStep> {:trigger All(v', s', path', depth + 1, w)}
        ensures All(v', s', path', depth + 1, w) == [] <==> Valid(v', s', depth + 1, w)
      {
        NoIssueIffValid(v', s', path', depth + 1, w);
      }
      BesideAgrees(v, s, path, depth, w);
      if s.ref.Some? && OnlyRef(s) { NothingBeside(v, s, depth, w); }
    }
  }

  lemma NothingBeside(v: Json, s: Node, depth: nat, w: World)
    requires depth <= w.maxDepth && OnlyRef(s)
    ensures Beside(v, s, depth, w)
  {
    assert s.types.None? && s.enum.None? && s.constant.None? && s.scalar == NO_SCALAR;
    assert s.anyOf.None? && s.oneOf.None? && s.negated.None? && s.test.None? && s.allOf == [];
    assert Applicators(v, s, depth, w);
    match v {
      case Str(text) => assert StringValid(text, NO_SCALAR, w);
      case Num(lexeme) => assert NumberValid(lexeme, NO_SCALAR, w);
      case Arr(items) => assert ArrayValid(items, s, depth, w);
      case Obj(members) =>
        forall i | 0 <= i < |members| ensures MemberValid(members[i], s, depth, w) {}
        assert ObjectValid(members, s, depth, w);
      case _ =>
    }
  }

  lemma BesideAgrees(v: Json, s: Node, path: seq<PathStep>, depth: nat, w: World)
    requires depth <= w.maxDepth && Agree(depth + 1, w)
    ensures AllBeside(v, s, path, depth, w) == [] <==> Beside(v, s, depth, w)
  {
    hide All, Valid, AllByType, AllApplicators, ByType, Applicators, TypeOk, EnumOk, ConstOk;
    ByTypeAgrees(v, s, path, depth, w);
    ApplicatorsAgree(v, s, path, depth, w);
  }

  lemma ByTypeAgrees(v: Json, s: Node, path: seq<PathStep>, depth: nat, w: World)
    requires depth <= w.maxDepth && Agree(depth + 1, w)
    ensures AllByType(v, s, path, depth, w) == [] <==> ByType(v, s, depth, w)
  {
    hide All, Valid, AllArray, AllObject, ArrayValid, ObjectValid;
    match v {
      case Arr(items) => ArrayAgrees(items, s, path, depth, w);
      case Obj(members) => ObjectAgrees(members, s, path, depth, w);
      case _ =>
    }
  }

  lemma ArrayAgrees(items: seq<Json>, s: Node, path: seq<PathStep>, depth: nat, w: World)
    requires depth <= w.maxDepth && Agree(depth + 1, w)
    ensures AllArray(items, s, path, depth, w) == [] <==> ArrayValid(items, s, depth, w)
  {
    hide All, Valid, CanonicalJson, Flat, Count, LengthIssues;
    LengthAgrees(items, s, path);
    var pre := AllPrefix(items, s, path, depth, w, Min(PrefixLength(s), |items|));
    FlatEmpty(pre);
    forall i | 0 <= i < |pre| ensures pre[i] == [] <==> Valid(items[i], s.prefix.value[i], depth + 1, w) {
      assert pre[i] == All(items[i], s.prefix.value[i], path + [AtIndex(i)], depth + 1, w);
    }
    if s.items.Some? && PrefixLength(s) <= |items| { RestAgrees(items, s, path, depth, w); }
    if s.contains.Some? { ContainsAgrees(items, s, path, depth, w); }
  }

  lemma LengthAgrees(items: seq<Json>, s: Node, path: seq<PathStep>)
    ensures LengthIssues(items, s, path) == [] <==>
            && InRange(|items|, s.length)
            && (s.unique ==> forall i, j :: 0 <= i < j < |items| ==> CanonicalJson(items[i]) != CanonicalJson(items[j]))
  {
    hide CanonicalJson;
    var d := FirstDuplicate(items, 0);
    if d < |items| {
      assert RepeatsAt(items, d);
    } else {
      forall i, j | 0 <= i < j < |items| ensures CanonicalJson(items[i]) != CanonicalJson(items[j]) {
        assert !RepeatsAt(items, j);
      }
    }
  }

  lemma RestAgrees(items: seq<Json>, s: Node, path: seq<PathStep>, depth: nat, w: World)
    requires depth <= w.maxDepth && Agree(depth + 1, w) && s.items.Some? && PrefixLength(s) <= |items|
    ensures Flat(AllRest(items, s, path, depth, w, |items| - PrefixLength(s))) == [] <==>
            forall i :: PrefixLength(s) <= i < |items| ==> Valid(items[i], s.items.value, depth + 1, w)
  {
    hide All, Valid;
    var p := PrefixLength(s);
    var rest := AllRest(items, s, path, depth, w, |items| - p);
    FlatEmpty(rest);
    forall i | p <= i < |items| ensures rest[i - p] == [] <==> Valid(items[i], s.items.value, depth + 1, w) {
      assert rest[i - p] == All(items[i], s.items.value, path + [AtIndex(i)], depth + 1, w);
    }
    if Flat(rest) == [] {
      forall i | p <= i < |items| ensures Valid(items[i], s.items.value, depth + 1, w) { assert rest[i - p] == []; }
    } else {
      var i :| 0 <= i < |rest| && rest[i] != [];
      assert !Valid(items[p + i], s.items.value, depth + 1, w);
    }
  }

  lemma ContainsAgrees(items: seq<Json>, s: Node, path: seq<PathStep>, depth: nat, w: World)
    requires depth <= w.maxDepth && Agree(depth + 1, w) && s.contains.Some?
    ensures var matched := |MatchedBy(items, s.contains.value, depth, w)|;
            && matched == Count(ContainedFlags(items, s.contains.value, path, depth, w, |items|))
            && (ContainsIssues(s, matched, path) == [] <==>
                  InRange(matched, s.matching) && (s.matching.least.None? ==> matched >= 1))
  {
    hide All, Valid;
    var c := s.contains.value;
    var flags := ContainedFlags(items, c, path, depth, w, |items|);
    CountIsSize(flags);
    forall i | 0 <= i < |items| ensures flags[i] <==> Valid(items[i], c, depth + 1, w) {
      assert flags[i] == (All(items[i], c, path, depth + 1, w) == []);
    }
    assert (set i | 0 <= i < |flags| && flags[i]) == MatchedBy(items, c, depth, w);
  }

  lemma ObjectAgrees(members: seq<Member>, s: Node, path: seq<PathStep>, depth: nat, w: World)
    requires depth <= w.maxDepth && Agree(depth + 1, w)
    ensures AllObject(members, s, path, depth, w) == [] <==> ObjectValid(members, s, depth, w)
  {
    hide All, Valid, AllMember, MemberValid, HasKey;
    var missing := Missing(members, s, path, |s.required|);
    FlatEmpty(missing);
    assert forall k :: 0 <= k < |s.required| ==> (missing[k] == [] <==> HasKey(members, s.required[k]));
    var each := AllMembers(members, s, path, depth, w, |members|);
    FlatEmpty(each);
    forall i | 0 <= i < |members| ensures each[i] == [] <==> MemberValid(members[i], s, depth, w) {
      MemberAgrees(members[i], s, path, depth, w);
    }
  }

  lemma MemberAgrees(m: Member, s: Node, path: seq<PathStep>, depth: nat, w: World)
    requires depth <= w.maxDepth && Agree(depth + 1, w)
    ensures AllMember(m, s, path, depth, w) == [] <==> MemberValid(m, s, depth, w)
  {
    hide All, Valid, Find, Claimed;
    var child := path + [AtKey(m.key)];
    var ps := AllPatterns(m.value, m.key, s, child, depth, w, |s.patterns|);
    FlatEmpty(ps);
    forall k | 0 <= k < |s.patterns|
      ensures ps[k] == [] <==>
              (w.lib.matches(s.patterns[k].name, m.key) ==> Valid(m.value, s.patterns[k].node, depth + 1, w))
    {
      assert All(m.value, s.patterns[k].node, child, depth + 1, w) == [] <==>
             Valid(m.value, s.patterns[k].node, depth + 1, w);
    }
  }

  lemma EachAgrees(v: Json, ss: seq<Node>, path: seq<PathStep>, depth: nat, w: World)
    requires depth <= w.maxDepth && Agree(depth + 1, w)
    ensures var r := Each(v, ss, path, depth, w, |ss|);
            && |r| == |ss| && |Passing(r)| == |ss|
            && (forall i :: 0 <= i < |ss| ==> (r[i] == [] <==> Valid(v, ss[i], depth + 1, w)))
            && (forall i :: 0 <= i < |ss| ==> (Passing(r)[i] <==> Valid(v, ss[i], depth + 1, w)))
  {
    hide All, Valid;
  }

  lemma OneOfAgrees(v: Json, ss: seq<Node>, path: seq<PathStep>, depth: nat, w: World)
    requires depth <= w.maxDepth && Agree(depth + 1, w)
    ensures OneOfIssues(Each(v, ss, path, depth, w, |ss|), path) == [] <==> ExactlyOne(v, ss, depth, w)
  {
    hide All, Valid, Each, Passing, Flat, Count;
    EachAgrees(v, ss, path, depth, w);
    var flags := Passing(Each(v, ss, path, depth, w, |ss|));
    CountOne(flags);
    FlagsUnique(v, ss, flags, depth, w);
  }

  lemma FlagsUnique(v: Json, ss: seq<Node>, flags: seq<bool>, depth: nat, w: World)
    requires depth <= w.maxDepth && |flags| == |ss|
    requires forall i :: 0 <= i < |ss| ==> (flags[i] <==> Valid(v, ss[i], depth + 1, w))
    ensures (exists i :: 0 <= i < |flags| && OnlyFlag(flags, i)) <==> ExactlyOne(v, ss, depth, w)
  {
    hide Valid;
    forall i | 0 <= i < |ss| ensures OnlyFlag(flags, i) <==> OnlyThis(v, ss, i, depth, w) {}
  }

  lemma ApplicatorsAgree(v: Json, s: Node, path: seq<PathStep>, depth: nat, w: World)
    requires depth <= w.maxDepth && Agree(depth + 1, w)
    ensures AllApplicators(v, s, path, depth, w) == [] <==> Applicators(v, s, depth, w)
  {
    hide All, Valid, Each, Flat, OneOfIssues, AnyOfIssues, AllConditional, EveryOne, SomeOne, ExactlyOne, Conditional;
    AllOfAgrees(v, s.allOf, path, depth, w);
    if s.anyOf.Some? { AnyOfAgrees(v, s.anyOf.value, path, depth, w); }
    if s.oneOf.Some? { OneOfAgrees(v, s.oneOf.value, path, depth, w); }
    if s.negated.Some? {
      assert All(v, s.negated.value, path, depth + 1, w) == [] <==> Valid(v, s.negated.value, depth + 1, w);
    }
    ConditionalAgrees(v, s, path, depth, w);
  }

  lemma AllOfAgrees(v: Json, ss: seq<Node>, path: seq<PathStep>, depth: nat, w: World)
    requires depth <= w.maxDepth && Agree(depth + 1, w)
    ensures Flat(Each(v, ss, path, depth, w, |ss|)) == [] <==> EveryOne(v, ss, depth, w)
  {
    hide All, Valid, Each;
    EachAgrees(v, ss, path, depth, w);
    FlatEmpty(Each(v, ss, path, depth, w, |ss|));
  }

  lemma AnyOfAgrees(v: Json, ss: seq<Node>, path: seq<PathStep>, depth: nat, w: World)
    requires depth <= w.maxDepth && Agree(depth + 1, w)
    ensures AnyOfIssues(Each(v, ss, path, depth, w, |ss|), path) == [] <==> SomeOne(v, ss, depth, w)
  {
    hide All, Valid, Each;
    EachAgrees(v, ss, path, depth, w);
  }

  lemma ConditionalAgrees(v: Json, s: Node, path: seq<PathStep>, depth: nat, w: World)
    requires depth <= w.maxDepth && Agree(depth + 1, w)
    ensures AllConditional(v, s, path, depth, w) == [] <==> (s.test.Some? ==> Conditional(v, s, depth, w))
  {
    hide All, Valid;
    if s.test.Some? {
      assert All(v, s.test.value, path, depth + 1, w) == [] <==> Valid(v, s.test.value, depth + 1, w);
    }
  }

  // ----- enum, const and uniqueItems mean equality

  /** On well-formed values the keywords speak of equality up to key order, not of texts. */
  lemma EnumIsEquality(v: Json, enum: seq<Json>)
    requires WellFormed(v) && forall i :: 0 <= i < |enum| ==> WellFormed(enum[i])
    ensures EnumOk(v, Some(enum)) <==> exists i :: 0 <= i < |enum| && Same(enum[i], v)
  {
    forall i | 0 <= i < |enum| ensures SameValue(enum[i], v) <==> Same(enum[i], v) { SameValueExact(enum[i], v); }
    hide SameValue, Same;
  }

  lemma ConstIsEquality(v: Json, constant: Json)
    requires WellFormed(v) && WellFormed(constant)
    ensures ConstOk(v, Some(constant)) <==> Same(constant, v)
  {
    SameValueExact(constant, v);
  }

  lemma UniqueIsEquality(items: seq<Json>)
    requires WellFormed(Arr(items))
    ensures (forall i, j :: 0 <= i < j < |items| ==> CanonicalJson(items[i]) != CanonicalJson(items[j])) <==>
            DistinctUpTo(items, |items|)
  {
    forall i, j | 0 <= i < j < |items|
      ensures CanonicalJson(items[i]) == CanonicalJson(items[j]) <==> Same(items[i], items[j])
    {
      CanonicalTextExact(items[i], items[j]);
    }
    hide CanonicalJson, Same, WellFormed;
  }

  /** The item at d equals an earlier one, and before it there is no such item; none at the length. */
  ghost predicate FirstEqual(items: seq<Json>, d: nat) {
    && d <= |items| && DistinctUpTo(items, d)
    && (d < |items| ==> RepeatsEarlier(items, d))
  }

  lemma DuplicateIsEqual(items: seq<Json>)
    requires WellFormed(Arr(items))
    ensures FirstEqual(items, FirstDuplicate(items, 0))
  {
    var d := FirstDuplicate(items, 0);
    forall j | 0 <= j < |items| ensures RepeatsAt(items, j) <==> RepeatsEarlier(items, j) { TextRepeats(items, j); }
    hide CanonicalJson, Same, WellFormed, RepeatsAt;
    forall i, j | 0 <= i < j < d ensures !Same(items[i], items[j]) { assert !RepeatsEarlier(items, j); }
  }
}

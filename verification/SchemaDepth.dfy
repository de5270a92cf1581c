/**
 The nesting bound. An evaluation that stays within it, probes included, reports the same issues
 under every larger bound; so the bound matters only to evaluations that run into it.
 */
module SchemaDepth {
  import opened Text
  import opened Json
  import opened SchemaNodes
  import opened SchemaValidity

  function Deeper(w: World, max: nat): World { w.(maxDepth := max) }

  // ----- evaluations that stay within the bound

  predicate Shallow(v: Json, s: Node, depth: nat, w: World)
    decreases Left(depth, w), 9
  {
    && depth <= w.maxDepth
    && (s.ref.Some? && s.ref.value in w.defs ==> Shallow(v, w.defs[s.ref.value], depth + 1, w))
    && (s.ref.None? || (s.ref.value in w.defs && !OnlyRef(s)) ==> ShallowBeside(v, s, depth, w))
  }

  predicate ShallowBeside(v: Json, s: Node, depth: nat, w: World)
    requires depth <= w.maxDepth
    decreases Left(depth, w), 8
  {
    !(s.nullableAny && v.Null?) && TypeOk(v, s.types, w.lib) ==>
          ShallowParts(v, s, depth, w) && ShallowLogic(v, s, depth, w)
  }

  predicate ShallowParts(v: Json, s: Node, depth: nat, w: World)
    requires depth <= w.maxDepth
    decreases Left(depth, w), 7
  {
    match v
    case Arr(items) => ShallowItems(items, s, depth, w)
    case Obj(members) => forall i :: 0 <= i < |members| ==> ShallowMember(members[i], s, depth, w)
    case _ => true
  }

  predicate ShallowItems(items: seq<Json>, s: Node, depth: nat, w: World)
    requires depth <= w.maxDepth
    decreases Left(depth, w), 6
  {
    && (forall i :: 0 <= i < |items| && i < PrefixLength(s) ==> Shallow(items[i], s.prefix.value[i], depth + 1, w))
    && (s.items.Some? ==> forall i :: PrefixLength(s) <= i < |items| ==> Shallow(items[i], s.items.value, depth + 1, w))
    && (s.contains.Some? ==> forall i :: 0 <= i < |items| ==> Shallow(items[i], s.contains.value, depth + 1, w))
  }

  predicate ShallowMember(m: Member, s: Node, depth: nat, w: World)
    requires depth <= w.maxDepth
    decreases Left(depth, w), 1
  {
    var at := Find(s.properties, m.key);
    && ShallowMaybe(Str(m.key), s.names, depth + 1, w)
    && (at < |s.properties| ==> Shallow(m.value, s.properties[at].node, depth + 1, w))
    && (forall k :: 0 <= k < |s.patterns| && w.lib.matches(s.patterns[k].name, m.key) ==>
          Shallow(m.value, s.patterns[k].node, depth + 1, w))
    && (!Claimed(s, m.key, w.lib) ==> ShallowMaybe(m.value, s.additional, depth + 1, w))
  }

  predicate ShallowMaybe(v: Json, o: Option<Node>, depth: nat, w: World)
    decreases Left(depth, w), 10
  {
    o.Some? ==> Shallow(v, o.value, depth, w)
  }

  predicate ShallowAll(v: Json, ss: seq<Node>, depth: nat, w: World)
    decreases Left(depth, w), 10
  {
    forall i :: 0 <= i < |ss| ==> Shallow(v, ss[i], depth, w)
  }

  predicate ShallowLogic(v: Json, s: Node, depth: nat, w: World)
    requires depth <= w.maxDepth
    decreases Left(depth, w), 6
  {
    && ShallowAll(v, s.allOf, depth + 1, w)
    && (s.anyOf.Some? ==> ShallowAll(v, s.anyOf.value, depth + 1, w))
    && (s.oneOf.Some? ==> ShallowAll(v, s.oneOf.value, depth + 1, w))
    && ShallowMaybe(v, s.negated, depth + 1, w) && ShallowMaybe(v, s.test, depth + 1, w)
    && (s.test.Some? ==> ShallowMaybe(v, Branch(v, s, depth, w), depth + 1, w))
  }

  /** The branch a conditional takes. */
  function Branch(v: Json, s: Node, depth: nat, w: World): Option<Node>
    requires depth <= w.maxDepth && s.test.Some?
  {
    if All(v, s.test.value, [], depth + 1, w) == [] then s.consequent else s.otherwise
  }

  // ----- the same issues under every larger bound

  ghost predicate SameAt(depth: nat, w: World, max: nat) {
    forall v: Json, s: Node, path: seq<PathStep> {:trigger All(v, s, path, depth, w)} ::
      Shallow(v, s, depth, w) ==> All(v, s, path, depth, Deeper(w, max)) == All(v, s, path, depth, w)
  }

  /** A larger bound changes nothing for an evaluation that stays within the smaller. */
  lemma {:induction false} BoundIrrelevant(v: Json, s: Node, path: seq<PathStep>, depth: nat, w: World, max: nat)
    requires w.maxDepth <= max && Shallow(v, s, depth, w)
    ensures All(v, s, path, depth, Deeper(w, max)) == All(v, s, path, depth, w)
    decreases Left(depth, w)
  {
    forall v': Json, s': Node,
        path': seq<PathStep> {:trigger All(v', s', path', depth + 1, w)} | Shallow(v', s', depth + 1, w)
      ensures All(v', s', path', depth + 1, Deeper(w, max)) == All(v', s', path', depth + 1, w)
    {
      BoundIrrelevant(v', s', path', depth + 1, w, max);
    }
    if s.ref.None? || (s.ref.value in w.defs && !OnlyRef(s)) { BesideSame(v, s, path, depth, w, max); }
    if s.ref.Some? && s.ref.value in w.defs { OneSame(v, w.defs[s.ref.value], path, depth + 1, w, max); }
    hide AllBeside, OnlyRef, Shallow;
  }

  lemma OneSame(v: Json, s: Node, path: seq<PathStep>, depth: nat, w: World, max: nat)
    requires SameAt(depth, w, max) && Shallow(v, s, depth, w)
    ensures All(v, s, path, depth, Deeper(w, max)) == All(v, s, path, depth, w)
  {
    hide All, Shallow;
  }

  lemma BesideSame(v: Json, s: Node, path: seq<PathStep>, depth: nat, w: World, max: nat)
    requires depth <= w.maxDepth <= max && SameAt(depth + 1, w, max) && ShallowBeside(v, s, depth, w)
    ensures AllBeside(v, s, path, depth, Deeper(w, max)) == AllBeside(v, s, path, depth, w)
  {
    hide All, Shallow, ShallowParts, ShallowLogic, TypeOk, EnumOk, ConstOk, AllByType, AllApplicators;
    if !(s.nullableAny && v.Null?) && TypeOk(v, s.types, w.lib) {
      PartsSame(v, s, path, depth, w, max);
      LogicSame(v, s, path, depth, w, max);
    }
  }

  lemma PartsSame(v: Json, s: Node, path: seq<PathStep>, depth: nat, w: World, max: nat)
    requires depth <= w.maxDepth <= max && SameAt(depth + 1, w, max) && ShallowParts(v, s, depth, w)
    ensures AllByType(v, s, path, depth, Deeper(w, max)) == AllByType(v, s, path, depth, w)
  {
    hide All, Shallow, ShallowItems, ShallowMember, AllArray, AllObject;
    match v {
      case Arr(items) => ItemsSame(items, s, path, depth, w, max);
      case Obj(members) => MembersSame(members, s, path, depth, w, max);
      case Str(text) => assert StringIssues(text, s.scalar, path,
                                            Deeper(w, max)) == StringIssues(text, s.scalar, path, w);
      case Num(lexeme) => assert NumberIssues(lexeme, s.scalar, path,
                                              Deeper(w, max)) == NumberIssues(lexeme, s.scalar, path, w);
      case _ =>
    }
  }

  lemma ItemsSame(items: seq<Json>, s: Node, path: seq<PathStep>, depth: nat, w: World, max: nat)
    requires depth <= w.maxDepth <= max && SameAt(depth + 1, w, max) && ShallowItems(items, s, depth, w)
    ensures AllArray(items, s, path, depth, Deeper(w, max)) == AllArray(items, s, path, depth, w)
  {
    hide All, Shallow, LengthIssues, Flat, Count;
    var u, n := Deeper(w, max), Min(PrefixLength(s), |items|);
    forall i | 0 <= i < n
      ensures All(items[i], s.prefix.value[i], path + [AtIndex(i)], depth + 1,
                  u) == All(items[i], s.prefix.value[i], path + [AtIndex(i)], depth + 1, w)
    {
      OneSame(items[i], s.prefix.value[i], path + [AtIndex(i)], depth + 1, w, max);
    }
    assert AllPrefix(items, s, path, depth, u, n) == AllPrefix(items, s, path, depth, w, n);
    if s.items.Some? && PrefixLength(s) <= |items| { RestSame(items, s, path, depth, w, max); }
    if s.contains.Some? { ContainsSame(items, s.contains.value, path, depth, w, max); }
  }

  lemma RestSame(items: seq<Json>, s: Node, path: seq<PathStep>, depth: nat, w: World, max: nat)
    requires depth <= w.maxDepth <= max && SameAt(depth + 1, w, max) && s.items.Some? && PrefixLength(s) <= |items|
    requires forall i :: PrefixLength(s) <= i < |items| ==> Shallow(items[i], s.items.value, depth + 1, w)
    ensures var n := |items| - PrefixLength(s);
            AllRest(items, s, path, depth, Deeper(w, max), n) == AllRest(items, s, path, depth, w, n)
  {
    hide All, Shallow;
    var u, p, n := Deeper(w, max), PrefixLength(s), |items| - PrefixLength(s);
    forall j | p <= j < |items|
      ensures All(items[j], s.items.value, path + [AtIndex(j)], depth + 1,
                  u) == All(items[j], s.items.value, path + [AtIndex(j)], depth + 1, w)
    {
      OneSame(items[j], s.items.value, path + [AtIndex(j)], depth + 1, w, max);
    }
    var x, y := AllRest(items, s, path, depth, u, n), AllRest(items, s, path, depth, w, n);
    forall i | 0 <= i < n ensures x[i] == y[i] {
      assert x[i] == All(items[p + i], s.items.value, path + [AtIndex(p + i)], depth + 1, u);
    }
  }

  lemma ContainsSame(items: seq<Json>, c: Node, path: seq<PathStep>, depth: nat, w: World, max: nat)
    requires depth <= w.maxDepth <= max && SameAt(depth + 1, w, max)
    requires forall i :: 0 <= i < |items| ==> Shallow(items[i], c, depth + 1, w)
    ensures ContainedFlags(items, c, path, depth, Deeper(w, max),
                           |items|) == ContainedFlags(items, c, path, depth, w, |items|)
  {
    hide All, Shallow;
    forall i | 0 <= i < |items|
      ensures All(items[i], c, path, depth + 1, Deeper(w, max)) == All(items[i], c, path, depth + 1, w) {
      OneSame(items[i], c, path, depth + 1, w, max);
    }
  }

  lemma MembersSame(members: seq<Member>, s: Node, path: seq<PathStep>, depth: nat, w: World, max: nat)
    requires depth <= w.maxDepth <= max && SameAt(depth + 1, w, max)
    requires forall i :: 0 <= i < |members| ==> ShallowMember(members[i], s, depth, w)
    ensures AllObject(members, s, path, depth, Deeper(w, max)) == AllObject(members, s, path, depth, w)
  {
    hide All, Shallow, ShallowMember, AllMember, Flat;
    var u := Deeper(w, max);
    forall i | 0 <= i < |members|
      ensures AllMember(members[i], s, path, depth, u) == AllMember(members[i], s, path, depth, w) {
      MemberSame(members[i], s, path, depth, w, max);
    }
    assert AllMembers(members, s, path, depth, u, |members|) == AllMembers(members, s, path, depth, w, |members|);
  }

  lemma MemberSame(m: Member, s: Node, path: seq<PathStep>, depth: nat, w: World, max: nat)
    requires depth <= w.maxDepth <= max && SameAt(depth + 1, w, max) && ShallowMember(m, s, depth, w)
    ensures AllMember(m, s, path, depth, Deeper(w, max)) == AllMember(m, s, path, depth, w)
  {
    hide All, Shallow, Find, Claimed, Flat;
    var u, child, at := Deeper(w, max), path + [AtKey(m.key)], Find(s.properties, m.key);
    if s.names.Some? { OneSame(Str(m.key), s.names.value, child, depth + 1, w, max); }
    if at < |s.properties| { OneSame(m.value, s.properties[at].node, child, depth + 1, w, max); }
    forall k | 0 <= k < |s.patterns| && w.lib.matches(s.patterns[k].name, m.key)
      ensures All(m.value, s.patterns[k].node, child, depth + 1,
                  u) == All(m.value, s.patterns[k].node, child, depth + 1, w)
    {
      OneSame(m.value, s.patterns[k].node, child, depth + 1, w, max);
    }
    assert AllPatterns(m.value, m.key, s, child, depth, u,
                       |s.patterns|) == AllPatterns(m.value, m.key, s, child, depth, w, |s.patterns|);
    if s.additional.Some? && !Claimed(s, m.key, w.lib) {
      OneSame(m.value, s.additional.value, child, depth + 1, w, max);
    }
  }

  lemma EachSame(v: Json, ss: seq<Node>, path: seq<PathStep>, depth: nat, w: World, max: nat)
    requires depth <= w.maxDepth <= max && SameAt(depth + 1, w, max) && ShallowAll(v, ss, depth + 1, w)
    ensures Each(v, ss, path, depth, Deeper(w, max), |ss|) == Each(v, ss, path, depth, w, |ss|)
  {
    hide All, Shallow;
    forall i | 0 <= i < |ss|
      ensures All(v, ss[i], path, depth + 1, Deeper(w, max)) == All(v, ss[i], path, depth + 1, w) {
      OneSame(v, ss[i], path, depth + 1, w, max);
    }
  }

  lemma LogicSame(v: Json, s: Node, path: seq<PathStep>, depth: nat, w: World, max: nat)
    requires depth <= w.maxDepth <= max && SameAt(depth + 1, w, max) && ShallowLogic(v, s, depth, w)
    ensures AllApplicators(v, s, path, depth, Deeper(w, max)) == AllApplicators(v, s, path, depth, w)
  {
    hide All, Shallow, ShallowAll, Each, Flat, OneOfIssues, AnyOfIssues, AllConditional, Branch;
    EachSame(v, s.allOf, path, depth, w, max);
    if s.anyOf.Some? { EachSame(v, s.anyOf.value, path, depth, w, max); }
    if s.oneOf.Some? { EachSame(v, s.oneOf.value, path, depth, w, max); }
    if s.negated.Some? { OneSame(v, s.negated.value, path, depth + 1, w, max); }
    ConditionalSame(v, s, path, depth, w, max);
  }

  lemma ConditionalSame(v: Json, s: Node, path: seq<PathStep>, depth: nat, w: World, max: nat)
    requires depth <= w.maxDepth <= max && SameAt(depth + 1, w, max)
    requires ShallowMaybe(v, s.test, depth + 1, w)
    requires s.test.Some? ==> ShallowMaybe(v, Branch(v, s, depth, w), depth + 1, w)
    ensures AllConditional(v, s, path, depth, Deeper(w, max)) == AllConditional(v, s, path, depth, w)
  {
    if s.test.Some? {
      NoIssueIffValid(v, s.test.value, [], depth + 1, w);
      NoIssueIffValid(v, s.test.value, path, depth + 1, w);
      hide All, Shallow;
      OneSame(v, s.test.value, path, depth + 1, w, max);
      var branch := Branch(v, s, depth, w);
      if branch.Some? { OneSame(v, branch.value, path, depth + 1, w, max); }
    }
  }

  /** So the verdict is the same too. */
  lemma VerdictIrrelevant(v: Json, s: Node, depth: nat, w: World, max: nat)
    requires w.maxDepth <= max && Shallow(v, s, depth, w)
    ensures Valid(v, s, depth, Deeper(w, max)) <==> Valid(v, s, depth, w)
  {
    BoundIrrelevant(v, s, [], depth, w, max);
    NoIssueIffValid(v, s, [], depth, w);
    NoIssueIffValid(v, s, [], depth, Deeper(w, max));
  }
}

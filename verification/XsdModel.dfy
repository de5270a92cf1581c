/**
 Compiled content models, the declarative language of child sequences they stand for
 (sections 3.8.4 and 3.9.4 of XML Schema Part 1), and the greedy matcher's decisions.
 */
module XsdModel {
  import opened Text

  // ----- compiled schema

  datatype Decl = Decl(qname: Text, typ: TypeRef, nillable: bool, fixed: Option<Text>)

  datatype TypeRef = AnyType | Builtin(name: Text) | Named(name: Text)

  datatype GroupKind = Sequence | Choice | Every

  /** `max` absent means unbounded. */
  datatype Particle =
    | Group(kind: GroupKind, min: nat, max: Option<nat>, items: seq<Particle>)
    | Element(min: nat, max: Option<nat>, decl: Decl)
    | Wildcard(min: nat, max: Option<nat>)

  datatype ComplexType = ComplexType(particle: Option<Particle>, textType: Option<TypeRef>, mixed: bool)
  datatype Type = SimpleType | Complex(content: ComplexType)

  /** An element as parsed; `text` is its trimmed text, `nil` its xsi:nil. */
  datatype Xml = Xml(qname: Text, nil: bool, text: Text, children: seq<Xml>)

  /** How many issues the attribute and simple-value checks report. */
  datatype Library = Library(attributeIssues: (Xml, ComplexType) -> nat, valueIssues: (Xml, TypeRef) -> nat)

  datatype World = World(types: map<Text, Type>, maxErrors: nat, maxDepth: nat, lib: Library)

  // ----- the language: children lo..hi of `e` match the particle

  ghost predicate Conforms(e: Xml, d: Decl, w: World)
    decreases e, 1
  {
    if e.nil then d.nillable && e.children == []
    else
      match d.typ
      case AnyType => true
      case Builtin(_) => e.children == []
      case Named(name) =>
        && name in w.types
        && match w.types[name]
           case SimpleType => e.children == []
           case Complex(c) =>
             if c.textType.Some? || c.particle.None? then e.children == []
             else Matches(c.particle.value, e, 0, |e.children|, w)
  }

  ghost predicate Matches(p: Particle, e: Xml, lo: nat, hi: nat, w: World)
    requires lo <= hi <= |e.children|
    decreases e, 0, p, 3
  {
    exists n: nat :: p.min <= n && (p.max.Some? ==> n <= p.max.value) && Repeats(p, n, e, lo, hi, w)
  }

  /** `n` repetitions, one after another. */
  ghost predicate Repeats(p: Particle, n: nat, e: Xml, lo: nat, hi: nat, w: World)
    requires lo <= hi <= |e.children|
    decreases e, 0, p, 2, n
  {
    if n == 0 then lo == hi
    else exists mid :: lo <= mid <= hi && Repeats(p, n - 1, e, lo, mid, w) && Once(p, e, mid, hi, w)
  }

  ghost predicate Once(p: Particle, e: Xml, lo: nat, hi: nat, w: World)
    requires lo <= hi <= |e.children|
    decreases e, 0, p, 1
  {
    match p
    case Element(_, _, d) => hi == lo + 1 && e.children[lo].qname == d.qname && Conforms(e.children[lo], d, w)
    case Wildcard(_, _) => hi == lo + 1
    case Group(Sequence, _, _, items) => InOrder(p, |items|, e, lo, hi, w)
    case Group(Choice, _, _, items) => exists i :: 0 <= i < |items| && Matches(items[i], e, lo, hi, w)
    case Group(Every, _, _, items) => exists order: seq<nat> ::
          IsOrder(order, items, e, hi, w) && InSome(p, order, e, lo, hi, w)
  }

  /** The first `k` items in turn. */
  ghost predicate InOrder(p: Particle, k: nat, e: Xml, lo: nat, hi: nat, w: World)
    requires p.Group? && k <= |p.items| && lo <= hi <= |e.children|
    decreases e, 0, p, 0, k
  {
    if k == 0 then lo == hi
    else
      var last := p.items[k - 1];
      exists mid :: lo <= mid <= hi && InOrder(p, k - 1, e, lo, mid, w) && Matches(last, e, mid, hi, w)
  }

  /** Distinct members of the group; the ones left out match nothing. */
  ghost predicate IsOrder(order: seq<nat>, items: seq<Particle>, e: Xml, at: nat, w: World)
    requires at <= |e.children|
    decreases e, 0, items, 0
  {
    && (forall i :: 0 <= i < |order| ==> order[i] < |items|)
    && (forall i, j :: 0 <= i < j < |order| ==> order[i] != order[j])
    && (forall i :: 0 <= i < |items| && i !in order ==> Matches(items[i], e, at, at, w))
  }

  ghost predicate InSome(p: Particle, order: seq<nat>, e: Xml, lo: nat, hi: nat, w: World)
    requires p.Group? && lo <= hi <= |e.children|
    requires forall i :: 0 <= i < |order| ==> order[i] < |p.items|
    decreases e, 0, p, 0, |order|
  {
    if order == [] then lo == hi
    else
      var last := order[|order| - 1];
      exists mid ::
            lo <= mid <= hi && InSome(p, order[..|order| - 1], e, lo, mid, w) && Matches(p.items[last], e, mid, hi, w)
  }

  // ----- what a particle can begin with

  datatype First = AnyName | Name(qname: Text)

  function FirstNames(p: Particle, depth: nat): set<First>
    decreases p, 1
  {
    if depth > 32 then {}
    else
      match p
      case Element(_, _, d) => {Name(d.qname)}
      case Wildcard(_, _) => {AnyName}
      case Group(kind, _, _, items) => FirstOf(items, kind == Sequence, depth + 1)
  }

  /** In a sequence a required item ends the scan; otherwise every item counts. */
  function FirstOf(items: seq<Particle>, stopAtRequired: bool, depth: nat): set<First>
    decreases items, 0
  {
    if items == [] then {}
    else if stopAtRequired && items[0].min > 0 then FirstNames(items[0], depth)
    else FirstNames(items[0], depth) + FirstOf(items[1..], stopAtRequired, depth)
  }

  predicate CanStart(p: Particle, e: Xml, i: nat) {
    if i >= |e.children| then p.min == 0
    else AnyName in FirstNames(p, 0) || Name(e.children[i].qname) in FirstNames(p, 0)
  }

  // ----- the matcher: where the match ends, and how many issues have been reported

  datatype Outcome = Outcome(end: Option<nat>, issues: nat)

  /** One more issue, unless the budget is spent. */
  function Report(n: nat, w: World): nat { if n >= w.maxErrors then n else n + 1 }

  function ReportMany(n: nat, k: nat, w: World): nat {
    if n >= w.maxErrors then n else if n + k > w.maxErrors then w.maxErrors else n + k
  }

  predicate Below(reps: nat, max: Option<nat>) { max.None? || reps < max.value }

  function CheckElement(e: Xml, d: Decl, depth: nat, n: nat, w: World): (r: nat)
    ensures r >= n
    decreases e, 2
  {
    if n >= w.maxErrors then n
    else if depth > w.maxDepth then Report(n, w)
    else if e.nil then
      if !d.nillable then Report(n, w)
      else if e.children != [] || e.text != [] then Report(n, w)
      else n
    else
      var m := if d.fixed.Some? && e.text != d.fixed.value then Report(n, w) else n;
      CheckType(e, d.typ, depth, m, w)
  }

  function CheckType(e: Xml, t: TypeRef, depth: nat, n: nat, w: World): (r: nat)
    ensures r >= n
    decreases e, 1
  {
    match t
    case AnyType => n
    case Builtin(_) => CheckSimple(e, t, n, w)
    case Named(name) =>
      if name !in w.types then Report(n, w)
      else
        match w.types[name]
        case SimpleType => CheckSimple(e, t, n, w)
        case Complex(c) => CheckComplex(e, c, depth, n, w)
  }

  function CheckSimple(e: Xml, t: TypeRef, n: nat, w: World): (r: nat)
    ensures r >= n
  {
    if e.children != [] then Report(n, w) else ReportMany(n, w.lib.valueIssues(e, t), w)
  }

  function CheckComplex(e: Xml, c: ComplexType, depth: nat, n: nat, w: World): (r: nat)
    ensures r >= n
    decreases e, 0
  {
    var a := ReportMany(n, w.lib.attributeIssues(e, c), w);
    if a >= w.maxErrors then a
    else if c.textType.Some? then CheckSimple(e, c.textType.value, a, w)
    else if c.particle.None? then
      var b := if e.children != [] then Report(a, w) else a;
      if !c.mixed && e.text != [] then Report(b, w) else b
    else
      var b := if !c.mixed && e.text != [] && e.children != [] then Report(a, w) else a;
      var r := MatchParticle(c.particle.value, e, 0, depth, b, w);
      if r.end.None? then r.issues
      else if r.end.value < |e.children| then Report(r.issues, w)
      else r.issues
  }

  function MatchParticle(p: Particle, e: Xml, start: nat, depth: nat, n: nat, w: World): (r: Outcome)
    requires start <= |e.children|
    ensures r.issues >= n
    ensures r.end.Some? ==> start <= r.end.value <= |e.children|
    decreases e, 0, p, 3
  {
    MatchLoop(p, e, start, 0, depth, n, w)
  }

  /** The repetition loop, from `index` with `reps` repetitions behind it. */
  function MatchLoop(p: Particle, e: Xml, index: nat, reps: nat, depth: nat, n: nat, w: World): (r: Outcome)
    requires index <= |e.children|
    ensures r.issues >= n
    ensures r.end.Some? ==> index <= r.end.value <= |e.children|
    decreases e, 0, p, 2, |e.children| - index
  {
    if !Below(reps, p.max) || (reps >= p.min && !CanStart(p, e, index)) then Finish(p, index, reps, n, w)
    else
      var m := MatchOnce(p, e, index, depth, n, w);
      if m.end.None? || (m.end.value == index && !p.Element?) then Finish(p, index, reps, m.issues, w)
      else MatchLoop(p, e, m.end.value, reps + 1, depth, m.issues, w)
  }

  function Finish(p: Particle, index: nat, reps: nat, n: nat, w: World): Outcome {
    if reps < p.min then Outcome(None, Report(n, w)) else Outcome(Some(index), n)
  }

  function MatchOnce(p: Particle, e: Xml, start: nat, depth: nat, n: nat, w: World): (r: Outcome)
    requires start <= |e.children|
    ensures r.issues >= n
    ensures r.end.Some? ==> start <= r.end.value <= |e.children|
    ensures r.end.Some? && p.Element? ==> r.end.value == start + 1
    decreases e, 0, p, 1
  {
    match p
    case Element(_, _, d) =>
      if start >= |e.children| || e.children[start].qname != d.qname then Outcome(None, n)
      else Outcome(Some(start + 1), CheckElement(e.children[start], d, depth + 1, n, w))
    case Wildcard(_, _) => Outcome(if start < |e.children| then Some(start + 1) else None, n)
    case Group(Sequence, _, _, _) => MatchSequence(p, 0, e, start, depth, n, w)
    case Group(Choice, _, _, _) => MatchChoice(p, 0, e, start, depth, n, w)
    case Group(Every, _, _, _) => MatchEvery(p, {}, e, start, depth, n, w)
  }

  function MatchSequence(p: Particle, k: nat, e: Xml, index: nat, depth: nat, n: nat, w: World): (r: Outcome)
    requires p.Group? && k <= |p.items| && index <= |e.children|
    ensures r.issues >= n
    ensures r.end.Some? ==> index <= r.end.value <= |e.children|
    decreases e, 0, p, 0, |p.items| - k
  {
    if k == |p.items| then Outcome(Some(index), n)
    else
      var m := MatchParticle(p.items[k], e, index, depth, n, w);
      if m.end.None? then m else MatchSequence(p, k + 1, e, m.end.value, depth, m.issues, w)
  }

  function MatchChoice(p: Particle, k: nat, e: Xml, start: nat, depth: nat, n: nat, w: World): (r: Outcome)
    requires p.Group? && k <= |p.items| && start <= |e.children|
    ensures r.issues >= n
    ensures r.end.Some? ==> start <= r.end.value <= |e.children|
    decreases e, 0, p, 0, |p.items| - k
  {
    if k == |p.items| then
      Outcome(if exists i :: 0 <= i < |p.items| && p.items[i].min == 0 then Some(start) else None, n)
    else if !CanStart(p.items[k], e, start) then MatchChoice(p, k + 1, e, start, depth, n, w)
    else
      var m := MatchParticle(p.items[k], e, start, depth, n, w);
      if m.end.Some? then m else MatchChoice(p, k + 1, e, start, depth, m.issues, w)
  }

  /** The member an element name selects in an `all` group: the last one that can begin with it. */
  function Chosen(items: seq<Particle>, qname: Text): Option<nat> {
    if items == [] then None
    else if Name(qname) in FirstNames(items[|items| - 1], 0) then Some(|items| - 1)
    else Chosen(items[..|items| - 1], qname)
  }

  function MatchEvery(p: Particle, seen: set<nat>, e: Xml, index: nat, depth: nat, n: nat, w: World): (r: Outcome)
    requires p.Group? && index <= |e.children|
    ensures r.issues >= n
    ensures r.end.Some? ==> index <= r.end.value <= |e.children|
    decreases e, 0, p, 0, |e.children| - index
  {
    if index >= |e.children| then Missing(p, seen, index, n, w)
    else
      var item := Chosen(p.items, e.children[index].qname);
      if item.None? || item.value >= |p.items| || item.value in seen then Missing(p, seen, index, n, w)
      else
        var m := MatchParticle(p.items[item.value], e, index, depth, n, w);
        if m.end.None? || m.end.value == index then Missing(p, seen + {item.value}, index, m.issues, w)
        else MatchEvery(p, seen + {item.value}, e, m.end.value, depth, m.issues, w)
  }

  /** A required member of an `all` group that never came. */
  function Missing(p: Particle, seen: set<nat>, index: nat, n: nat, w: World): Outcome
    requires p.Group?
  {
    if exists i :: 0 <= i < |p.items| && i !in seen && p.items[i].min > 0
    then Outcome(None, Report(n, w))
    else Outcome(Some(index), n)
  }

  /** The entry point: the verdict on the root element. */
  function Accepts(root: Xml, d: Decl, w: World): bool { CheckElement(root, d, 0, 0, w) == 0 }
}

/**
 Compiled schemas and what they assert: the issues an unbounded run reports, in order, and the
 declarative reading of the same keywords.
 */
module SchemaNodes {
  import opened Text
  import opened Json
  import opened Canonical

  datatype TypeName = NullName | BooleanName | StringName | ObjectName | ArrayName | NumberName | IntegerName

  /** Assertions on one string or number. */
  datatype Scalar = Scalar(
    minLength: Option<int>, maxLength: Option<int>, pattern: Option<Text>, format: Option<Text>,
    minimum: Option<real>, maximum: Option<real>,
    exclusiveMinimum: Option<real>, exclusiveMaximum: Option<real>, multipleOf: Option<real>)

  /** Bounds on how many items or properties there are. */
  datatype Range = Range(least: Option<int>, most: Option<int>)

  datatype Node = Node(
    ref: Option<Text>, nullableAny: bool,
    types: Option<seq<TypeName>>, enum: Option<seq<Json>>, constant: Option<Json>, scalar: Scalar,
    length: Range, unique: bool, prefix: Option<seq<Node>>, items: Option<Node>,
    contains: Option<Node>, matching: Range,
    size: Range, required: seq<Text>, properties: seq<Entry>, patterns: seq<Entry>,
    additional: Option<Node>, names: Option<Node>,
    allOf: seq<Node>, anyOf: Option<seq<Node>>, oneOf: Option<seq<Node>>, negated: Option<Node>,
    test: Option<Node>, consequent: Option<Node>, otherwise: Option<Node>)

  datatype Entry = Entry(name: Text, node: Node)

  const NO_SCALAR := Scalar(None, None, None, None, None, None, None, None, None)
  const ANY_RANGE := Range(None, None)
  const EMPTY := Node(None, false, None, None, None, NO_SCALAR, ANY_RANGE, false, None, None, None, ANY_RANGE,
                      ANY_RANGE, [], [], [], None, None, [], None, None, None, None, None, None)

  /** The reference is the only keyword. */
  predicate OnlyRef(s: Node) { s == EMPTY.(ref := s.ref) }

  // ----- the world a schema is evaluated in

  /** Library behaviour the evaluation relies on: number values, regular expressions, formats. */
  datatype Library = Library(
    number: Text -> real,
    matches: (Text, Text) -> bool,
    formatOk: (Text, Json) -> bool,
    multiple: (real, real) -> bool)

  datatype World = World(defs: map<Text, Node>, maxDepth: nat, maxPatternBytes: nat, lib: Library)

  function Left(depth: nat, w: World): nat { if depth > w.maxDepth then 0 else w.maxDepth + 1 - depth }

  // ----- issues

  datatype PathStep = AtIndex(i: nat) | AtKey(key: Text)

  datatype Rule =
    | DepthRule | RefRule | TypeRule | EnumRule | ConstRule
    | MinLengthRule | MaxLengthRule | PatternRule | FormatRule
    | MinimumRule | MaximumRule | ExclusiveMinimumRule | ExclusiveMaximumRule | MultipleOfRule
    | MinItemsRule | MaxItemsRule | UniqueItemsRule | ContainsRule | MaxContainsRule
    | MinPropertiesRule | MaxPropertiesRule | RequiredRule
    | AnyOfRule | OneOfRule(matched: nat) | NotRule

  /** `causes` are the failures quoted in the message of a failed alternative. */
  datatype Issue = Issue(path: seq<PathStep>, rule: Rule, causes: seq<Issue>)

  function Plain(path: seq<PathStep>, rule: Rule): Issue { Issue(path, rule, []) }

  function When(fails: bool, issue: Issue): seq<Issue> { if fails then [issue] else [] }

  function Take<T>(s: seq<T>, k: nat): seq<T> { if |s| <= k then s else s[..k] }

  function Flat<T>(s: seq<seq<T>>): seq<T> {
    if s == [] then [] else Flat(s[..|s| - 1]) + s[|s| - 1]
  }

  function Count(s: seq<bool>): nat {
    if s == [] then 0 else Count(s[..|s| - 1]) + (if s[|s| - 1] then 1 else 0)
  }

  // ----- scalars

  predicate MatchesType(v: Json, t: TypeName, lib: Library) {
    match t
    case NullName => v.Null?
    case BooleanName => v.Bool?
    case StringName => v.Str?
    case ObjectName => v.Obj?
    case ArrayName => v.Arr?
    case NumberName => v.Num?
    case IntegerName => v.Num? && lib.number(v.lexeme) == lib.number(v.lexeme).Floor as real
  }

  predicate TypeOk(v: Json, types: Option<seq<TypeName>>, lib: Library) {
    types.Some? ==> exists i :: 0 <= i < |types.value| && MatchesType(v, types.value[i], lib)
  }

  predicate EnumOk(v: Json, enum: Option<seq<Json>>) {
    enum.Some? ==> exists i :: 0 <= i < |enum.value| && SameValue(enum.value[i], v)
  }

  predicate ConstOk(v: Json, constant: Option<Json>) { constant.Some? ==> SameValue(constant.value, v) }

  /** Code points: a surrogate pair counts once. */
  function CodePoints(s: Text): nat {
    if s == [] then 0
    else if |s| >= 2 && High(s[0]) && Low(s[1]) then 1 + CodePoints(s[2..])
    else 1 + CodePoints(s[1..])
  }

  function Utf8Length(s: Text): nat {
    if s == [] then 0
    else if |s| >= 2 && High(s[0]) && Low(s[1]) then 4 + Utf8Length(s[2..])
    else (if s[0] < 0x80 then 1 else if s[0] < 0x800 then 2 else 3) + Utf8Length(s[1..])
  }

  predicate InRange(n: int, r: Range) {
    (r.least.Some? ==> r.least.value <= n) && (r.most.Some? ==> n <= r.most.value)
  }

  /** A pattern is not tried on a subject that is too long; that counts as a failure. */
  predicate PatternOk(s: Text, c: Scalar, w: World) {
    c.pattern.Some? ==> Utf8Length(s) <= w.maxPatternBytes && w.lib.matches(c.pattern.value, s)
  }

  predicate FormatFine(v: Json, c: Scalar, w: World) { c.format.Some? ==> w.lib.formatOk(c.format.value, v) }

  function StringIssues(s: Text, c: Scalar, path: seq<PathStep>, w: World): seq<Issue> {
    var n := CodePoints(s);
    When(c.minLength.Some? && n < c.minLength.value, Plain(path, MinLengthRule))
    + When(c.maxLength.Some? && n > c.maxLength.value, Plain(path, MaxLengthRule))
    + When(!PatternOk(s, c, w), Plain(path, PatternRule))
    + When(!FormatFine(Str(s), c, w), Plain(path, FormatRule))
  }

  function BoundIssues(x: real, c: Scalar, path: seq<PathStep>): seq<Issue> {
    When(c.minimum.Some? && x < c.minimum.value, Plain(path, MinimumRule))
    + When(c.maximum.Some? && x > c.maximum.value, Plain(path, MaximumRule))
    + When(c.exclusiveMinimum.Some? && x <= c.exclusiveMinimum.value, Plain(path, ExclusiveMinimumRule))
    + When(c.exclusiveMaximum.Some? && x >= c.exclusiveMaximum.value, Plain(path, ExclusiveMaximumRule))
  }

  function NumberIssues(lexeme: Text, c: Scalar, path: seq<PathStep>, w: World): seq<Issue> {
    var x := w.lib.number(lexeme);
    BoundIssues(x, c, path)
    + (When(c.multipleOf.Some? && c.multipleOf.value > 0.0 && !w.lib.multiple(x, c.multipleOf.value),
            Plain(path, MultipleOfRule))
       + When(!FormatFine(Num(lexeme), c, w), Plain(path, FormatRule)))
  }

  predicate StringValid(s: Text, c: Scalar, w: World) {
    && (c.minLength.Some? ==> c.minLength.value <= CodePoints(s))
    && (c.maxLength.Some? ==> CodePoints(s) <= c.maxLength.value)
    && PatternOk(s, c, w) && FormatFine(Str(s), c, w)
  }

  predicate NumberValid(lexeme: Text, c: Scalar, w: World) {
    var x := w.lib.number(lexeme);
    && (c.minimum.Some? ==> c.minimum.value <= x) && (c.maximum.Some? ==> x <= c.maximum.value)
    && (c.exclusiveMinimum.Some? ==> c.exclusiveMinimum.value < x)
    && (c.exclusiveMaximum.Some? ==> x < c.exclusiveMaximum.value)
    && (c.multipleOf.Some? && c.multipleOf.value > 0.0 ==> w.lib.multiple(x, c.multipleOf.value))
    && FormatFine(Num(lexeme), c, w)
  }

  /** Whether an item repeats an earlier one, up to and including position `i`. */
  predicate RepeatsAt(items: seq<Json>, i: nat)
    requires i < |items|
  {
    exists j :: 0 <= j < i && CanonicalJson(items[j]) == CanonicalJson(items[i])
  }

  /** The first item that repeats an earlier one, or the length. */
  function FirstDuplicate(items: seq<Json>, i: nat): (r: nat)
    requires i <= |items|
    ensures i <= r <= |items|
    ensures forall j :: i <= j < r ==> !RepeatsAt(items, j)
    ensures r < |items| ==> RepeatsAt(items, r)
    decreases |items| - i
  {
    if i == |items| || RepeatsAt(items, i) then i else FirstDuplicate(items, i + 1)
  }

  function Find(es: seq<Entry>, name: Text): (i: nat)
    ensures i <= |es| && (i < |es| ==> es[i].name == name)
    ensures (exists k :: 0 <= k < |es| && es[k].name == name) ==> i < |es|
  {
    if es == [] || es[0].name == name then 0
    else
      assert forall k :: 0 < k < |es| ==> es[k] == es[1..][k - 1];
      1 + Find(es[1..], name)
  }

  predicate AnyPattern(s: Node, key: Text, lib: Library) {
    exists k :: 0 <= k < |s.patterns| && lib.matches(s.patterns[k].name, key)
  }

  /** The key is claimed by `properties` or by some pattern. */
  predicate Claimed(s: Node, key: Text, lib: Library) {
    Find(s.properties, key) < |s.properties| || AnyPattern(s, key, lib)
  }

  function PrefixLength(s: Node): nat { if s.prefix.Some? then |s.prefix.value| else 0 }

  // ----- every issue, in the order an unbounded run reports them

  function All(v: Json, s: Node, path: seq<PathStep>, depth: nat, w: World): seq<Issue>
    decreases Left(depth, w), 9
  {
    if depth > w.maxDepth then [Plain(path, DepthRule)]
    else if s.ref.Some? then
      if s.ref.value !in w.defs then [Plain(path, RefRule)]
      else All(v, w.defs[s.ref.value], path, depth + 1, w)
           + (if OnlyRef(s) then [] else AllBeside(v, s, path, depth, w))
    else AllBeside(v, s, path, depth, w)
  }

  /** Every keyword beside a reference. */
  function AllBeside(v: Json, s: Node, path: seq<PathStep>, depth: nat, w: World): seq<Issue>
    requires depth <= w.maxDepth
    decreases Left(depth, w), 8
  {
    if s.nullableAny && v.Null? then []
    else if !TypeOk(v, s.types, w.lib) then [Plain(path, TypeRule)]
    else
      When(!EnumOk(v, s.enum), Plain(path, EnumRule)) + When(!ConstOk(v, s.constant), Plain(path, ConstRule))
      + AllByType(v, s, path, depth, w) + AllApplicators(v, s, path, depth, w)
  }

  function AllByType(v: Json, s: Node, path: seq<PathStep>, depth: nat, w: World): seq<Issue>
    requires depth <= w.maxDepth
    decreases Left(depth, w), 7
  {
    match v
    case Str(text) => StringIssues(text, s.scalar, path, w)
    case Num(lexeme) => NumberIssues(lexeme, s.scalar, path, w)
    case Arr(items) => AllArray(items, s, path, depth, w)
    case Obj(members) => AllObject(members, s, path, depth, w)
    case _ => []
  }

  function LengthIssues(items: seq<Json>, s: Node, path: seq<PathStep>): seq<Issue> {
    When(s.length.least.Some? && |items| < s.length.least.value, Plain(path, MinItemsRule))
    + When(s.length.most.Some? && |items| > s.length.most.value, Plain(path, MaxItemsRule))
    + (var d := FirstDuplicate(items, 0);
       When(s.unique && d < |items|, Plain(path + [AtIndex(d)], UniqueItemsRule)))
  }

  function Min(a: int, b: int): int { if a < b then a else b }

  function AllPrefix(items: seq<Json>, s: Node, path: seq<PathStep>, depth: nat, w: World, n: nat): seq<seq<Issue>>
    requires depth <= w.maxDepth && n <= PrefixLength(s) && n <= |items|
    decreases Left(depth, w), 0
  {
    seq(n, i requires 0 <= i < n => All(items[i], s.prefix.value[i], path + [AtIndex(i)], depth + 1, w))
  }

  function AllRest(items: seq<Json>, s: Node, path: seq<PathStep>, depth: nat, w: World, n: nat): seq<seq<Issue>>
    requires depth <= w.maxDepth && s.items.Some? && PrefixLength(s) + n <= |items|
    decreases Left(depth, w), 0
  {
    seq(n, i requires 0 <= i < n =>
      All(items[PrefixLength(s) + i], s.items.value, path + [AtIndex(PrefixLength(s) + i)], depth + 1, w))
  }

  function ContainedFlags(items: seq<Json>, c: Node, path: seq<PathStep>, depth: nat, w: World, n: nat): seq<bool>
    requires depth <= w.maxDepth && n <= |items|
    decreases Left(depth, w), 0
  {
    seq(n, i requires 0 <= i < n => All(items[i], c, path, depth + 1, w) == [])
  }

  function ContainsIssues(s: Node, matched: nat, path: seq<PathStep>): seq<Issue> {
    var least := if s.matching.least.Some? then s.matching.least.value else 1;
    When(matched < least, Plain(path, ContainsRule))
    + When(s.matching.most.Some? && matched > s.matching.most.value, Plain(path, MaxContainsRule))
  }

  function AllArray(items: seq<Json>, s: Node, path: seq<PathStep>, depth: nat, w: World): seq<Issue>
    requires depth <= w.maxDepth
    decreases Left(depth, w), 6
  {
    LengthIssues(items, s, path)
    + Flat(AllPrefix(items, s, path, depth, w, Min(PrefixLength(s), |items|)))
    + (if s.items.Some? && PrefixLength(s) <= |items|
       then Flat(AllRest(items, s, path, depth, w, |items| - PrefixLength(s))) else [])
    + (if s.contains.Some?
       then ContainsIssues(s, Count(ContainedFlags(items, s.contains.value, path, depth, w, |items|)), path) else [])
  }

  function SizeIssues(members: seq<Member>, s: Node, path: seq<PathStep>): seq<Issue> {
    When(s.size.least.Some? && |members| < s.size.least.value, Plain(path, MinPropertiesRule))
    + When(s.size.most.Some? && |members| > s.size.most.value, Plain(path, MaxPropertiesRule))
  }

  function MissingAt(members: seq<Member>, name: Text, path: seq<PathStep>): seq<Issue> {
    When(!HasKey(members, name), Plain(path + [AtKey(name)], RequiredRule))
  }

  function Missing(members: seq<Member>, s: Node, path: seq<PathStep>, n: nat): seq<seq<Issue>>
    requires n <= |s.required|
  {
    seq(n, i requires 0 <= i < n => MissingAt(members, s.required[i], path))
  }

  function AllPatterns(v: Json, key: Text, s: Node, path: seq<PathStep>, depth: nat, w: World, n: nat): seq<seq<Issue>>
    requires depth <= w.maxDepth && n <= |s.patterns|
    decreases Left(depth, w), 0
  {
    seq(n, k requires 0 <= k < n =>
      if w.lib.matches(s.patterns[k].name, key) then All(v, s.patterns[k].node, path, depth + 1, w) else [])
  }

  /** Everything one member of an object is checked against. */
  function AllMember(m: Member, s: Node, path: seq<PathStep>, depth: nat, w: World): seq<Issue>
    requires depth <= w.maxDepth
    decreases Left(depth, w), 1
  {
    var child := path + [AtKey(m.key)];
    var at := Find(s.properties, m.key);
    (if s.names.Some? then All(Str(m.key), s.names.value, child, depth + 1, w) else [])
    + (if at < |s.properties| then All(m.value, s.properties[at].node, child, depth + 1, w) else [])
    + Flat(AllPatterns(m.value, m.key, s, child, depth, w, |s.patterns|))
    + (if s.additional.Some? && !Claimed(s, m.key, w.lib) then All(m.value, s.additional.value, child, depth + 1, w)
       else [])
  }

  function AllMembers(members: seq<Member>, s: Node, path: seq<PathStep>, depth: nat, w: World, n: nat): seq<seq<Issue>>
    requires depth <= w.maxDepth && n <= |members|
    decreases Left(depth, w), 2
  {
    seq(n, i requires 0 <= i < n => AllMember(members[i], s, path, depth, w))
  }

  function AllObject(members: seq<Member>, s: Node, path: seq<PathStep>, depth: nat, w: World): seq<Issue>
    requires depth <= w.maxDepth
    decreases Left(depth, w), 6
  {
    SizeIssues(members, s, path) + Flat(Missing(members, s, path, |s.required|))
    + Flat(AllMembers(members, s, path, depth, w, |members|))
  }

  /** The issues of each alternative. */
  function Each(v: Json, ss: seq<Node>, path: seq<PathStep>, depth: nat, w: World, n: nat): (r: seq<seq<Issue>>)
    requires depth <= w.maxDepth && n <= |ss|
    ensures |r| == n
    decreases Left(depth, w), 0
  {
    seq(n, i requires 0 <= i < n => All(v, ss[i], path, depth + 1, w))
  }

  function Passing(r: seq<seq<Issue>>): seq<bool> { seq(|r|, i requires 0 <= i < |r| => r[i] == []) }

  function AnyOfIssues(r: seq<seq<Issue>>, path: seq<PathStep>): seq<Issue> {
    When(forall i :: 0 <= i < |r| ==> r[i] != [], Issue(path, AnyOfRule, Take(Flat(r), 3)))
  }

  function OneOfIssues(r: seq<seq<Issue>>, path: seq<PathStep>): seq<Issue> {
    var n := Count(Passing(r));
    When(n != 1, Issue(path, OneOfRule(n), if n == 0 then Take(Flat(r), 3) else []))
  }

  function AllConditional(v: Json, s: Node, path: seq<PathStep>, depth: nat, w: World): seq<Issue>
    requires depth <= w.maxDepth
    decreases Left(depth, w), 4
  {
    if s.test.None? then []
    else
      var branch := if All(v, s.test.value, path, depth + 1, w) == [] then s.consequent else s.otherwise;
      if branch.Some? then All(v, branch.value, path, depth + 1, w) else []
  }

  function AllApplicators(v: Json, s: Node, path: seq<PathStep>, depth: nat, w: World): seq<Issue>
    requires depth <= w.maxDepth
    decreases Left(depth, w), 6
  {
    Flat(Each(v, s.allOf, path, depth, w, |s.allOf|))
    + (if s.anyOf.Some? then AnyOfIssues(Each(v, s.anyOf.value, path, depth, w, |s.anyOf.value|), path) else [])
    + (if s.oneOf.Some? then OneOfIssues(Each(v, s.oneOf.value, path, depth, w, |s.oneOf.value|), path) else [])
    + (if s.negated.Some? then When(All(v, s.negated.value, path, depth + 1, w) == [], Plain(path, NotRule)) else [])
    + AllConditional(v, s, path, depth, w)
  }
}

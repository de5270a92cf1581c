/**
 Regular expressions as their author means them: alternatives of branches of quantified atoms.
 `PatternText` writes one out with the given text after it.
 */
module RegexSyntax {
  import opened Text

  const BACKSLASH: Unit := 92
  const LEFT_SQUARE: Unit := 91
  const RIGHT_SQUARE: Unit := 93
  const LEFT_ROUND: Unit := 40
  const RIGHT_ROUND: Unit := 41
  const LEFT_CURLY: Unit := 123
  const RIGHT_CURLY: Unit := 125
  const STAR: Unit := 42
  const PLUS: Unit := 43
  const QUERY: Unit := 63
  const BAR: Unit := 124

  datatype Pattern = Last(branch: Branch) | Or(branch: Branch, others: Pattern)

  datatype Branch = End | Then(atom: Atom, quantifier: Quantifier, rest: Branch)

  datatype Atom =
    | Char(c: Unit)
    | Escape(c: Unit)
    | Class(members: seq<Member>)
    | Group(lead: Text, body: Pattern)

  datatype Member = Plain(c: Unit) | Escaped(c: Unit)

  datatype Quantifier =
    | Once
    | Optional(lazy: bool)
    | Star(lazy: bool)
    | Plus(lazy: bool)
    | Range(bounds: Text, lazy: bool)

  /** Characters that stand for themselves, or assert (`^`, `$`, `.`): all but the structural ones. */
  predicate Ordinary(c: Unit) { c !in [BACKSLASH, LEFT_SQUARE, LEFT_ROUND, RIGHT_ROUND, STAR, PLUS, LEFT_CURLY, BAR] }

  predicate AllOrdinary(s: Text) { forall i :: 0 <= i < |s| ==> Ordinary(s[i]) }

  predicate MembersOk(ms: seq<Member>)
  {
    forall i :: 0 <= i < |ms| ==> (ms[i].Plain? ==> ms[i].c != BACKSLASH && ms[i].c != RIGHT_SQUARE)
  }

  predicate QuantifierOk(q: Quantifier) { q.Range? ==> AllOrdinary(q.bounds) }

  predicate PatternOk(p: Pattern) { BranchOk(p.branch) && (p.Or? ==> PatternOk(p.others)) }

  predicate BranchOk(b: Branch) { b.Then? ==> AtomOk(b.atom) && QuantifierOk(b.quantifier) && BranchOk(b.rest) }

  /** A group's lead is what follows its bracket: nothing, `?:`, `?=`, `?<name>` and so on. */
  predicate AtomOk(a: Atom) {
    match a
    case Char(c) => Ordinary(c)
    case Escape(_) => true
    case Class(members) => MembersOk(members)
    case Group(lead, body) => AllOrdinary(lead) && PatternOk(body)
  }

  // ----- the printed form

  function MembersText(ms: seq<Member>, rest: Text): Text {
    if ms == [] then [RIGHT_SQUARE] + rest
    else if ms[0].Plain? then [ms[0].c] + MembersText(ms[1..], rest)
    else [BACKSLASH, ms[0].c] + MembersText(ms[1..], rest)
  }

  function LazyText(lazy: bool, rest: Text): Text { if lazy then [QUERY] + rest else rest }

  function QuantifierText(q: Quantifier, rest: Text): Text {
    match q
    case Once => rest
    case Optional(lazy) => [QUERY] + LazyText(lazy, rest)
    case Star(lazy) => [STAR] + LazyText(lazy, rest)
    case Plus(lazy) => [PLUS] + LazyText(lazy, rest)
    case Range(bounds, lazy) => [LEFT_CURLY] + (bounds + ([RIGHT_CURLY] + LazyText(lazy, rest)))
  }

  function PatternText(p: Pattern, rest: Text): Text {
    match p
    case Last(branch) => BranchText(branch, rest)
    case Or(branch, others) => BranchText(branch, [BAR] + PatternText(others, rest))
  }

  function BranchText(b: Branch, rest: Text): Text {
    match b
    case End => rest
    case Then(atom, quantifier, more) => AtomText(atom, QuantifierText(quantifier, BranchText(more, rest)))
  }

  function AtomText(a: Atom, rest: Text): Text {
    match a
    case Char(c) => [c] + rest
    case Escape(c) => [BACKSLASH, c] + rest
    case Class(members) => [LEFT_SQUARE] + MembersText(members, rest)
    case Group(lead, body) => [LEFT_ROUND] + (lead + PatternText(body, [RIGHT_ROUND] + rest))
  }

  // ----- what makes a pattern dangerous

  /** `*`, `+` and `{...}`: the quantifiers that can repeat. */
  predicate Repeating(q: Quantifier) { q.Star? || q.Plus? || q.Range? }

  /** A repeating quantifier or an alternation, at any depth. */
  predicate Restless(p: Pattern) { p.Or? || RestlessBranch(p.branch) }

  predicate RestlessBranch(b: Branch) {
    b.Then? && (Repeating(b.quantifier) || RestlessAtom(b.atom) || RestlessBranch(b.rest))
  }

  predicate RestlessAtom(a: Atom) { a.Group? && Restless(a.body) }

  /** Somewhere a repeated group is itself restless. */
  predicate Nested(p: Pattern) { NestedBranch(p.branch) || (p.Or? && Nested(p.others)) }

  predicate NestedBranch(b: Branch) { b.Then? && (NestedTerm(b.atom, b.quantifier) || NestedBranch(b.rest)) }

  predicate NestedTerm(a: Atom, q: Quantifier) {
    a.Group? && (Nested(a.body) || (Repeating(q) && Restless(a.body)))
  }

  /** How many repeating quantifiers enclose one another. */
  function Height(p: Pattern): nat {
    match p
    case Last(branch) => HeightBranch(branch)
    case Or(branch, others) => Max(HeightBranch(branch), Height(others))
  }

  function HeightBranch(b: Branch): nat {
    match b
    case End => 0
    case Then(atom, quantifier, more) => Max(HeightAtom(atom) + (if Repeating(quantifier) then 1 else 0),
                                             HeightBranch(more))
  }

  function HeightAtom(a: Atom): nat { if a.Group? then Height(a.body) else 0 }

  function Max(a: nat, b: nat): nat { if a < b then b else a }
}

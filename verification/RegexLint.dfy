/**
 The pattern linter's two character scans, and what they decide about the pattern that was written.
 */
module RegexLint {
  import opened Text
  import opened RegexSyntax

  // ----- the scans as functions of the text still to read

  predicate Repeats(c: Unit) { c == STAR || c == PLUS || c == LEFT_CURLY }

  function Drop(s: Text, n: nat): (r: Text)
    ensures n > 0 && s != [] ==> |r| < |s|
  {
    if n <= |s| then s[n..] else []
  }

  /** Whether a repeating quantifier or a bar stands outside every character class. */
  predicate ScanRestless(s: Text, inClass: bool)
    decreases |s|
  {
    if s == [] then false
    else if s[0] == BACKSLASH then ScanRestless(Drop(s, 2), inClass)
    else if inClass then ScanRestless(s[1..], s[0] != RIGHT_SQUARE)
    else if s[0] == LEFT_SQUARE then ScanRestless(s[1..], true)
    else Repeats(s[0]) || s[0] == BAR || ScanRestless(s[1..], false)
  }

  /** What stands between an open bracket, given by the text after it, and the text `s`. */
  function Between(open: Text, s: Text): Text {
    if |s| <= |open| then open[..|open| - |s|] else []
  }

  predicate Followed(s: Text) { |s| > 1 && Repeats(s[1]) }

  /** `stack` holds, for each bracket open here, the text after it. */
  predicate ScanNested(s: Text, inClass: bool, stack: seq<Text>)
    decreases |s|
  {
    if s == [] then false
    else if s[0] == BACKSLASH then ScanNested(Drop(s, 2), inClass, stack)
    else if inClass then ScanNested(s[1..], s[0] != RIGHT_SQUARE, stack)
    else if s[0] == LEFT_SQUARE then ScanNested(s[1..], true, stack)
    else if s[0] == LEFT_ROUND then ScanNested(s[1..], false, stack + [s[1..]])
    else if s[0] == RIGHT_ROUND && stack != [] then
      (Followed(s) && ScanRestless(Between(stack[|stack| - 1], s), false))
          || ScanNested(s[1..], false, stack[..|stack| - 1])
    else ScanNested(s[1..], false, stack)
  }

  // ----- the scans as the linter runs them

  method HasQuantifierOrAlternation(body: Text) returns (found: bool)
    ensures found == ScanRestless(body, false)
  {
    var inClass := false;
    var i := 0;
    while i < |body|
      invariant 0 <= i
      invariant ScanRestless(body, false) == ScanRestless(Drop(body, i), inClass)
    {
      var ch := body[i];
      assert Drop(body, i)[1..] == Drop(body, i + 1) && Drop(Drop(body, i), 2) == Drop(body, i + 2);
      if ch == BACKSLASH {
        i := i + 2;
        continue;
      }
      if inClass {
        if ch == RIGHT_SQUARE { inClass := false; }
        i := i + 1;
        continue;
      }
      if ch == LEFT_SQUARE {
        inClass := true;
        i := i + 1;
        continue;
      }
      if ch == STAR || ch == PLUS || ch == LEFT_CURLY || ch == BAR { return true; }
      i := i + 1;
    }
    return false;
  }

  ghost function Opens(pattern: Text, stack: seq<nat>): seq<Text> {
    seq(|stack|, k requires 0 <= k < |stack| => Drop(pattern, stack[k] + 1))
  }

  method HasNestedQuantifier(pattern: Text) returns (found: bool)
    ensures found == ScanNested(pattern, false, [])
    ensures forall p :: PatternOk(p) && PatternText(p, []) == pattern ==> found == Nested(p)
  {
    found := RunScan(pattern);
    forall p | PatternOk(p) && PatternText(p, []) == pattern ensures found == Nested(p) { LintExact(p); }
  }

  /** What one turn of the loop reads, in terms of the index. */
  lemma Turn(pattern: Text, i: nat, inClass: bool, stack: seq<nat>)
    requires i < |pattern| && forall k :: 0 <= k < |stack| ==> stack[k] < i
    ensures ScanNested(Drop(pattern, i), inClass, Opens(pattern, stack)) ==
      if pattern[i] == BACKSLASH then ScanNested(Drop(pattern, i + 2), inClass, Opens(pattern, stack))
      else if inClass then ScanNested(Drop(pattern, i + 1), pattern[i] != RIGHT_SQUARE, Opens(pattern, stack))
      else if pattern[i] == LEFT_SQUARE then ScanNested(Drop(pattern, i + 1), true, Opens(pattern, stack))
      else if pattern[i] == LEFT_ROUND then ScanNested(Drop(pattern, i + 1), false, Opens(pattern, stack + [i]))
      else if pattern[i] == RIGHT_ROUND && stack != [] then
        ClosesBadly(pattern, i, stack[|stack| - 1])
            || ScanNested(Drop(pattern, i + 1), false, Opens(pattern, stack[..|stack| - 1]))
      else ScanNested(Drop(pattern, i + 1), false, Opens(pattern, stack))
  {
    hide ScanRestless;
    var here := Drop(pattern, i);
    var opens := Opens(pattern, stack);
    assert here[1..] == Drop(pattern, i + 1) && Drop(here, 2) == Drop(pattern, i + 2);
    if !inClass && pattern[i] == LEFT_ROUND {
      assert Opens(pattern, stack + [i]) == opens + [here[1..]];
    }
    if !inClass && pattern[i] == RIGHT_ROUND && stack != [] {
      assert Opens(pattern, stack[..|stack| - 1]) == opens[..|stack| - 1];
      assert Between(opens[|stack| - 1], here) == pattern[stack[|stack| - 1] + 1..i];
    }
  }

  predicate ClosesBadly(pattern: Text, i: nat, start: nat)
    requires start < i < |pattern|
  {
    i + 1 < |pattern| && Repeats(pattern[i + 1]) && ScanRestless(pattern[start + 1..i], false)
  }

  method RunScan(pattern: Text) returns (found: bool)
    ensures found == ScanNested(pattern, false, [])
  {
    var stack: seq<nat> := [];
    var inClass := false;
    var i := 0;
    assert Drop(pattern, 0) == pattern && Opens(pattern, []) == [];
    while i < |pattern|
      invariant 0 <= i
      invariant forall k :: 0 <= k < |stack| ==> stack[k] < i
      invariant ScanNested(pattern, false, []) == ScanNested(Drop(pattern, i), inClass, Opens(pattern, stack))
    {
      hide ScanRestless, ScanNested, Opens, Drop;
      var ch := pattern[i];
      Turn(pattern, i, inClass, stack);
      if ch == BACKSLASH {
        i := i + 2;
        continue;
      }
      if inClass {
        if ch == RIGHT_SQUARE { inClass := false; }
        i := i + 1;
        continue;
      }
      if ch == LEFT_SQUARE {
        inClass := true;
        i := i + 1;
        continue;
      }
      if ch == LEFT_ROUND {
        stack := stack + [i];
        i := i + 1;
        continue;
      }
      if ch == RIGHT_ROUND && stack != [] {
        var start := stack[|stack| - 1];
        stack := stack[..|stack| - 1];
        if i + 1 < |pattern| && (pattern[i + 1] == STAR || pattern[i + 1] == PLUS || pattern[i + 1] == LEFT_CURLY) {
          var restless := HasQuantifierOrAlternation(pattern[start + 1..i]);
          if restless { return true; }
        }
      }
      i := i + 1;
    }
    return false;
  }

  // ----- the first scan decides Restless

  lemma {:induction false} RestlessMembers(ms: seq<Member>, rest: Text)
    requires MembersOk(ms)
    ensures ScanRestless(MembersText(ms, rest), true) == ScanRestless(rest, false)
  {
    if ms != [] { RestlessMembers(ms[1..], rest); }
  }

  lemma {:induction false} RestlessOrdinary(s: Text, rest: Text)
    requires AllOrdinary(s)
    ensures ScanRestless(s + rest, false) == ScanRestless(rest, false)
  {
    if s == [] {
      assert s + rest == rest;
    } else {
      RestlessOrdinary(s[1..], rest);
      assert (s + rest)[1..] == s[1..] + rest;
    }
  }

  lemma RestlessQuantifier(q: Quantifier, rest: Text)
    requires QuantifierOk(q)
    ensures ScanRestless(QuantifierText(q, rest), false) == (Repeating(q) || ScanRestless(rest, false))
  {
    match q
    case Once =>
    case Optional(lazy) => assert lazy ==> ([QUERY] + ([QUERY] + rest))[1..][1..] == rest;
    case Star(_) =>
    case Plus(_) =>
    case Range(_, _) =>
  }

  lemma {:induction false} RestlessPattern(p: Pattern, rest: Text)
    requires PatternOk(p)
    ensures ScanRestless(PatternText(p, rest), false) == (Restless(p) || ScanRestless(rest, false))
  {
    if p.Or? {
      var after := PatternText(p.others, rest);
      RestlessBranchText(p.branch, [BAR] + after);
      RestlessPattern(p.others, rest);
    } else {
      RestlessBranchText(p.branch, rest);
    }
  }

  lemma {:induction false} RestlessBranchText(b: Branch, rest: Text)
    requires BranchOk(b)
    ensures ScanRestless(BranchText(b, rest), false) == (RestlessBranch(b) || ScanRestless(rest, false))
  {
    if b.Then? {
      var after := BranchText(b.rest, rest);
      RestlessBranchText(b.rest, rest);
      RestlessQuantifier(b.quantifier, after);
      RestlessAtomText(b.atom, QuantifierText(b.quantifier, after));
    }
  }

  lemma {:induction false} RestlessAtomText(a: Atom, rest: Text)
    requires AtomOk(a)
    ensures ScanRestless(AtomText(a, rest), false) == (RestlessAtom(a) || ScanRestless(rest, false))
  {
    match a
    case Char(_) =>
    case Escape(_) =>
    case Class(members) => RestlessMembers(members, rest);
    case Group(lead, body) =>
      RestlessPattern(body, [RIGHT_ROUND] + rest);
      RestlessOrdinary(lead, PatternText(body, [RIGHT_ROUND] + rest));
  }

  // ----- printing is appending

  lemma {:induction false} MembersAppend(ms: seq<Member>, rest: Text)
    ensures MembersText(ms, rest) == MembersText(ms, []) + rest
  {
    if ms != [] { MembersAppend(ms[1..], rest); }
  }

  lemma {:induction false} PatternAppend(p: Pattern, rest: Text)
    ensures PatternText(p, rest) == PatternText(p, []) + rest
  {
    hide BranchText;
    if p.Or? {
      var all, own := [BAR] + PatternText(p.others, rest), [BAR] + PatternText(p.others, []);
      PatternAppend(p.others, rest);
      Regroup([BAR], PatternText(p.others, []), rest);
      BranchAppend(p.branch, all);
      BranchAppend(p.branch, own);
      Regroup(BranchText(p.branch, []), own, rest);
    } else {
      BranchAppend(p.branch, rest);
    }
  }

  lemma {:induction false} BranchAppend(b: Branch, rest: Text)
    ensures BranchText(b, rest) == BranchText(b, []) + rest
  {
    if b.Then? {
      BranchAppend(b.rest, rest);
      QuantifierAppend(b.quantifier, BranchText(b.rest, rest));
      QuantifierAppend(b.quantifier, BranchText(b.rest, []));
      AtomAppend(b.atom, QuantifierText(b.quantifier, BranchText(b.rest, rest)));
      AtomAppend(b.atom, QuantifierText(b.quantifier, BranchText(b.rest, [])));
    }
  }

  lemma QuantifierAppend(q: Quantifier, rest: Text)
    ensures QuantifierText(q, rest) == QuantifierText(q, []) + rest
  {
    match q
    case Once =>
    case Optional(lazy) => MarkAppend([QUERY], lazy, rest);
    case Star(lazy) => MarkAppend([STAR], lazy, rest);
    case Plus(lazy) => MarkAppend([PLUS], lazy, rest);
    case Range(bounds, lazy) =>
      MarkAppend([RIGHT_CURLY], lazy, rest);
      Regroup(bounds, [RIGHT_CURLY] + LazyText(lazy, []), rest);
      Regroup([LEFT_CURLY], bounds + ([RIGHT_CURLY] + LazyText(lazy, [])), rest);
  }

  lemma MarkAppend(mark: Text, lazy: bool, rest: Text)
    ensures mark + LazyText(lazy, rest) == (mark + LazyText(lazy, [])) + rest
  {
    Regroup(mark, LazyText(lazy, []), rest);
  }

  lemma Regroup(a: Text, b: Text, c: Text)
    ensures a + (b + c) == (a + b) + c
  {
  }

  lemma {:induction false} AtomAppend(a: Atom, rest: Text)
    ensures AtomText(a, rest) == AtomText(a, []) + rest
  {
    match a
    case Char(_) =>
    case Escape(_) =>
    case Class(members) => MembersAppend(members, rest);
    case Group(lead, body) =>
      PatternAppend(body, [RIGHT_ROUND] + rest);
      PatternAppend(body, [RIGHT_ROUND] + []);
  }

  // ----- the second scan decides Nested

  /** What may follow a term with no quantifier: a repeating one never does. */
  predicate Calm(rest: Text) { rest == [] || !Repeats(rest[0]) }

  lemma {:induction false} CalmBranch(b: Branch, rest: Text)
    requires BranchOk(b) && Calm(rest)
    ensures Calm(BranchText(b, rest))
  {
  }

  lemma {:induction false} NestedMembers(ms: seq<Member>, rest: Text, stack: seq<Text>)
    requires MembersOk(ms)
    ensures ScanNested(MembersText(ms, rest), true, stack) == ScanNested(rest, false, stack)
  {
    if ms != [] { NestedMembers(ms[1..], rest, stack); }
  }

  lemma {:induction false} NestedOrdinary(s: Text, rest: Text, stack: seq<Text>)
    requires AllOrdinary(s)
    ensures ScanNested(s + rest, false, stack) == ScanNested(rest, false, stack)
  {
    if s == [] {
      assert s + rest == rest;
    } else {
      NestedOrdinary(s[1..], rest, stack);
      assert (s + rest)[1..] == s[1..] + rest;
    }
  }

  lemma NestedLazy(lazy: bool, rest: Text, stack: seq<Text>)
    ensures ScanNested(LazyText(lazy, rest), false, stack) == ScanNested(rest, false, stack)
  {
  }

  /** A quantifier holds no bracket, so the scan goes over it. */
  lemma NestedQuantifier(q: Quantifier, rest: Text, stack: seq<Text>)
    requires QuantifierOk(q)
    ensures ScanNested(QuantifierText(q, rest), false, stack) == ScanNested(rest, false, stack)
  {
    match q
    case Once =>
    case Optional(lazy) => NestedLazy(lazy, rest, stack);
    case Star(lazy) => NestedLazy(lazy, rest, stack);
    case Plus(lazy) => NestedLazy(lazy, rest, stack);
    case Range(bounds, lazy) =>
      NestedLazy(lazy, rest, stack);
      var closed := [RIGHT_CURLY] + LazyText(lazy, rest);
      NestedOrdinary(bounds, closed, stack);
  }

  lemma {:induction false} NestedPattern(p: Pattern, rest: Text, stack: seq<Text>)
    requires PatternOk(p) && Calm(rest)
    ensures ScanNested(PatternText(p, rest), false, stack) == (Nested(p) || ScanNested(rest, false, stack))
  {
    if p.Or? {
      NestedBranchText(p.branch, [BAR] + PatternText(p.others, rest), stack);
      NestedPattern(p.others, rest, stack);
    } else {
      NestedBranchText(p.branch, rest, stack);
    }
  }

  lemma {:induction false} NestedBranchText(b: Branch, rest: Text, stack: seq<Text>)
    requires BranchOk(b) && Calm(rest)
    ensures ScanNested(BranchText(b, rest), false, stack) == (NestedBranch(b) || ScanNested(rest, false, stack))
  {
    if b.Then? {
      CalmBranch(b.rest, rest);
      NestedBranchText(b.rest, rest, stack);
      NestedTermText(b.atom, b.quantifier, BranchText(b.rest, rest), stack);
    }
  }

  lemma {:induction false} NestedTermText(a: Atom, q: Quantifier, rest: Text, stack: seq<Text>)
    requires AtomOk(a) && QuantifierOk(q) && Calm(rest)
    ensures ScanNested(AtomText(a, QuantifierText(q, rest)), false, stack) ==
            (NestedTerm(a, q) || ScanNested(rest, false, stack))
  {
    var after := QuantifierText(q, rest);
    NestedQuantifier(q, rest, stack);
    match a
    case Char(_) =>
    case Escape(_) =>
    case Class(members) => NestedMembers(members, after, stack);
    case Group(lead, body) =>
      var inside := lead + PatternText(body, [RIGHT_ROUND] + after);
      NestedOrdinary(lead, PatternText(body, [RIGHT_ROUND] + after), stack + [inside]);
      NestedPattern(body, [RIGHT_ROUND] + after, stack + [inside]);
      ClosingBracket(lead, body, q, rest, stack);
  }

  /** At a group's closing bracket the scan looks at exactly the group's own text. */
  lemma ClosingBracket(lead: Text, body: Pattern, q: Quantifier, rest: Text, stack: seq<Text>)
    requires AllOrdinary(lead) && PatternOk(body) && QuantifierOk(q) && Calm(rest)
    ensures var close := [RIGHT_ROUND] + QuantifierText(q, rest);
            ScanNested(close, false, stack + [lead + PatternText(body, close)]) ==
            ((Repeating(q) && Restless(body)) || ScanNested(QuantifierText(q, rest), false, stack))
  {
    var close := [RIGHT_ROUND] + QuantifierText(q, rest);
    var open := lead + PatternText(body, close);
    OwnText(lead, body, close);
    MayFollow(q, rest);
    hide PatternText, QuantifierText, Restless, Between, Followed, ScanRestless;
    assert close[1..] == QuantifierText(q, rest);
    assert (stack + [open])[..|stack|] == stack;
  }

  lemma OwnText(lead: Text, body: Pattern, close: Text)
    requires AllOrdinary(lead) && PatternOk(body)
    ensures ScanRestless(Between(lead + PatternText(body, close), close), false) == Restless(body)
  {
    PatternAppend(body, close);
    RestlessOrdinary(lead, PatternText(body, []));
    RestlessPattern(body, []);
    hide PatternText, Restless;
    assert Between(lead + PatternText(body, close), close) == lead + PatternText(body, []);
  }

  lemma MayFollow(q: Quantifier, rest: Text)
    requires QuantifierOk(q) && Calm(rest)
    ensures Followed([RIGHT_ROUND] + QuantifierText(q, rest)) == Repeating(q)
  {
    var close := [RIGHT_ROUND] + QuantifierText(q, rest);
    assert |close| > 1 ==> close[1] == QuantifierText(q, rest)[0];
  }

  // ----- the results

  /** The linter reports a pattern exactly when a repeated group repeats or alternates inside. */
  lemma LintExact(p: Pattern)
    requires PatternOk(p)
    ensures ScanNested(PatternText(p, []), false, []) == Nested(p)
  {
    NestedPattern(p, [], []);
  }

  lemma {:induction false} CalmHasNoHeight(p: Pattern)
    requires !Restless(p)
    ensures Height(p) == 0
  {
    CalmBranchHasNoHeight(p.branch);
  }

  lemma {:induction false} CalmBranchHasNoHeight(b: Branch)
    requires !RestlessBranch(b)
    ensures HeightBranch(b) == 0
  {
    if b.Then? {
      CalmBranchHasNoHeight(b.rest);
      if b.atom.Group? { CalmHasNoHeight(b.atom.body); }
    }
  }

  /** What passes has star height at most one: no repetition multiplies another. */
  lemma {:induction false} PassedHeight(p: Pattern)
    requires !Nested(p)
    ensures Height(p) <= 1
  {
    PassedHeightBranch(p.branch);
    if p.Or? { PassedHeight(p.others); }
  }

  lemma {:induction false} PassedHeightBranch(b: Branch)
    requires !NestedBranch(b)
    ensures HeightBranch(b) <= 1
  {
    if b.Then? {
      PassedHeightBranch(b.rest);
      if b.atom.Group? {
        PassedHeight(b.atom.body);
        if Repeating(b.quantifier) { CalmHasNoHeight(b.atom.body); }
      }
    }
  }

  // ----- the characters that matter, written out

  /** No character of the pattern language that the scans look for. */
  predicate Quiet(s: Text) { forall c :: c in s ==> c !in Ascii("\\[()*+{|") }

  lemma MarksAre(c: Unit)
    ensures Repeats(c) <==> c in Ascii("*+{")
    ensures c in [BACKSLASH, LEFT_SQUARE, LEFT_ROUND, RIGHT_ROUND, STAR, PLUS, LEFT_CURLY, BAR]
            <==> c in Ascii("\\[()*+{|")
  {
    assert Ascii("*+{") == [STAR, PLUS, LEFT_CURLY];
    assert Ascii("\\[()*+{|") == [BACKSLASH, LEFT_SQUARE, LEFT_ROUND, RIGHT_ROUND, STAR, PLUS, LEFT_CURLY, BAR];
  }

  lemma {:induction false} QuietPasses(x: Text, rest: Text, stack: seq<Text>)
    requires Quiet(x)
    ensures ScanRestless(x + rest, false) == ScanRestless(rest, false)
    ensures ScanNested(x + rest, false, stack) == ScanNested(rest, false, stack)
  {
    if x == [] {
      assert x + rest == rest;
    } else {
      MarksAre(x[0]);
      assert x[0] in x && x[0] !in [BACKSLASH, LEFT_SQUARE, LEFT_ROUND, RIGHT_ROUND, STAR, PLUS, LEFT_CURLY, BAR];
      QuietPasses(x[1..], rest, stack);
      assert (x + rest)[1..] == x[1..] + rest;
    }
  }

  /** A bracket, what is in it, its closing bracket and what follows. */
  function Bracketed(inside: Text, rest: Text): Text { Ascii("(") + (inside + (Ascii(")") + rest)) }

  lemma BracketTurn(inside: Text, rest: Text)
    ensures Bracketed(inside, rest) == [LEFT_ROUND] + (inside + ([RIGHT_ROUND] + rest))
    ensures Between(inside + ([RIGHT_ROUND] + rest), [RIGHT_ROUND] + rest) == inside
  {
    assert Ascii("(") == [LEFT_ROUND] && Ascii(")") == [RIGHT_ROUND];
    var open := inside + ([RIGHT_ROUND] + rest);
    assert open[..|inside|] == inside;
  }

  /** The opening bracket is put on the stack; the closing one takes it off. */
  lemma BracketTurns(inside: Text, rest: Text)
    ensures var closing := [RIGHT_ROUND] + rest;
            var open := inside + closing;
            && ScanNested(Bracketed(inside, rest), false, []) == ScanNested(open, false, [open])
            && ScanNested(closing, false, [open])
               == ((rest != [] && rest[0] in Ascii("*+{") && ScanRestless(inside, false))
                   || ScanNested(rest, false, []))
  {
    var closing := [RIGHT_ROUND] + rest;
    var open := inside + closing;
    BracketTurn(inside, rest);
    assert ([LEFT_ROUND] + open)[1..] == open && closing[1..] == rest;
    if rest != [] { MarksAre(rest[0]); }
    hide Ascii, ScanRestless, Between, Bracketed;
    var one: seq<Text> := [open];
    assert [] + one == one && one[..0] == [];
  }

  /**
   A group with a repetition or an alternative in it is flagged exactly if `*`, `+` or `{` follows it
   or the rest of the pattern is flagged.
   */
  lemma GroupFlagged(x: Text, c: Unit, y: Text, rest: Text)
    requires Quiet(x) && Quiet(y) && c in Ascii("*+{|")
    ensures ScanNested(Bracketed(x + [c] + y, rest), false, [])
            <==> (rest != [] && rest[0] in Ascii("*+{")) || ScanNested(rest, false, [])
  {
    var inside := x + [c] + y;
    var closing := [RIGHT_ROUND] + rest;
    var open := inside + closing;
    BracketTurns(inside, rest);
    assert Ascii("*+{|") == [STAR, PLUS, LEFT_CURLY, BAR];
    hide Quiet, Ascii, Bracketed;
    assert open == x + ([c] + (y + closing)) && inside == x + ([c] + y);
    QuietPasses(x, [c] + (y + closing), [open]);
    MarkPasses(c, y + closing, [open]);
    QuietPasses(y, closing, [open]);
    QuietPasses(x, [c] + y, []);
    MarkPasses(c, y, []);
  }

  lemma MarkPasses(c: Unit, rest: Text, stack: seq<Text>)
    requires c in [STAR, PLUS, LEFT_CURLY, BAR]
    ensures ScanNested([c] + rest, false, stack) == ScanNested(rest, false, stack) && ScanRestless([c] + rest, false)
  {
    assert ([c] + rest)[1..] == rest;
  }

  /** A group with neither is flagged exactly if the rest is, whatever follows it. */
  lemma QuietGroup(x: Text, rest: Text)
    requires Quiet(x)
    ensures ScanNested(Bracketed(x, rest), false, []) == ScanNested(rest, false, [])
  {
    var open := x + ([RIGHT_ROUND] + rest);
    BracketTurns(x, rest);
    hide Quiet, Ascii, Bracketed;
    QuietPasses(x, [RIGHT_ROUND] + rest, [open]);
    QuietPasses(x, [], []);
    assert x + [] == x;
  }

  /** A character after a backslash counts for nothing. */
  lemma EscapedPasses(c: Unit, rest: Text)
    ensures ScanNested(Ascii("\\") + ([c] + rest), false, []) == ScanNested(rest, false, [])
    ensures ScanRestless(Ascii("\\") + ([c] + rest), false) == ScanRestless(rest, false)
  {
    assert Ascii("\\") == [BACKSLASH];
    assert ([BACKSLASH] + ([c] + rest))[2..] == rest;
  }
}

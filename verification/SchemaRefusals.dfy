/**
 What a hoist refuses, keyword by keyword, and what a component is called: the conditions the
 compiler and its safety laws have in common, said of the document alone.
 */
module SchemaRefusals {
  import opened Text
  import opened Json
  import opened SchemaNodes
  import opened SchemaSource
  import opened SchemaImage
  import opened CompilerState

  // ----- keywords that make a hoist throw

  /** A refused or misshapen keyword, a word that is no JSON type, or a pattern the linter refuses. */
  ghost predicate Faulty(own: Own, doc: Document) {
    || own.unsupported
    || (exists words :: own.types == Some(words) && Unknown in words)
    || (exists p :: own.pattern == Some(p) && doc.refuses(p))
  }

  lemma FaultyExact(own: Own, doc: Document)
    ensures OwnFine(own, doc) <==> !Faulty(own, doc)
  {
    if own.types.Some? { assert own.types == Some(own.types.value); }
    if own.pattern.Some? { assert own.pattern == Some(own.pattern.value); }
  }

  /** Whatever else it says, a schema with a fault is not compiled. */
  lemma FaultFails(s: Source, depth: nat, b: Bundle, max: nat, doc: Document)
    requires s.Shape? && Faulty(s.own, doc)
    ensures !Visit(s, depth, b, max, doc).ok
  {
    hide VisitReference, VisitAll, PartsOf;
    FaultyExact(s.own, doc);
  }

  /** And a schema of keywords alone is compiled exactly if it has none. */
  lemma LeafExactly(own: Own, nullable: bool, depth: nat, b: Bundle, max: nat, doc: Document)
    requires depth <= max
    ensures Visit(Shape(None, nullable, own, NO_INSIDE, NO_LOGIC), depth, b, max, doc).ok <==> !Faulty(own, doc)
  {
    FaultyExact(own, doc);
    var s := Shape(None, nullable, own, NO_INSIDE, NO_LOGIC);
    assert PartsOf(s, doc) == [];
    hide PartsOf;
    NoParts(depth + 1, b, s, max, doc);
  }

  /** Outside the document, deeper than the bound, and what is no schema at all: not compiled either. */
  lemma StrayFails(s: Source, depth: nat, b: Bundle, max: nat, doc: Document)
    requires depth > max || s.Broken? || (s.Shape? && s.ref.Some? && !(Ascii("#/") <= s.ref.value))
    ensures !Visit(s, depth, b, max, doc).ok
  {
    hide VisitAll, PartsOf;
    assert Ascii("#/") == [35, 47];
    if s.Shape? && s.ref.Some? { assert Local(s.ref.value) ==> Ascii("#/") <= s.ref.value; }
  }

  lemma {:induction false} RefusedPart(ps: seq<Part>, k: nat, depth: nat, b: Bundle, parent: Source, max: nat,
                                       doc: Document)
    requires Below(ps, parent) && k < |ps| && ps[k].refused
    ensures !VisitAll(ps, depth, b, parent, max, doc).ok
    decreases |ps|
  {
    hide Visit, Unseen;
    if k > 0 && !ps[0].refused {
      var r := Visit(ps[0].schema, depth, b, max, doc);
      assert ps[1..][k - 1] == ps[k];
      if r.ok { RefusedPart(ps[1..], k - 1, depth, r.bundle, parent, max, doc); }
    }
  }

  lemma PatternPart(s: Source, k: nat, doc: Document) returns (i: nat)
    requires s.Shape? && k < |s.inside.patterns| && doc.refuses(s.inside.patterns[k].name)
    ensures i < |PartsOf(s, doc)| && PartsOf(s, doc)[i].refused
  {
    var a, ps := ArrayParts(s), ChildParts(s.inside.properties, false, doc);
    var qs := ChildParts(s.inside.patterns, true, doc);
    i := |a| + |ps| + k;
    assert qs[k].refused;
    assert ObjectParts(s, doc)[|ps| + k] == qs[k];
    assert PartsOf(s, doc)[i] == ObjectParts(s, doc)[|ps| + k];
  }

  lemma PartsVisited(s: Source, depth: nat, b: Bundle, max: nat, doc: Document) returns (c: Bundle)
    requires depth <= max && s.Shape? && !NoSiblings(s)
    ensures !VisitAll(PartsOf(s, doc), depth + 1, c, s, max, doc).ok ==> !Visit(s, depth, b, max, doc).ok
  {
    hide PartsOf, VisitReference, OwnFine, VisitAll, Unseen, NoSiblings;
    c := if s.ref.Some? then VisitReference(s.ref.value, b, s, max, doc).bundle else b;
  }

  /** A name under `patternProperties` is a pattern, and is linted as one. */
  lemma RefusedNameFails(s: Source, k: nat, depth: nat, b: Bundle, max: nat, doc: Document)
    requires s.Shape? && k < |s.inside.patterns| && doc.refuses(s.inside.patterns[k].name)
    ensures !Visit(s, depth, b, max, doc).ok
  {
    var i := PatternPart(s, k, doc);
    assert s.inside != NO_INSIDE;
    if depth <= max {
      var c := PartsVisited(s, depth, b, max, doc);
      hide PartsOf, Visit, VisitAll;
      RefusedPart(PartsOf(s, doc), i, depth + 1, c, s, max, doc);
    }
  }

  // ----- names of components

  /** A letter or a digit of ASCII. */
  predicate Plain(c: char) { ('0' <= c <= '9') || ('a' <= c <= 'z') || ('A' <= c <= 'Z') }

  ghost predicate Plainly(u: Unit) { exists c: char :: Plain(c) && u == c as int }

  lemma PlainlyExact(u: Unit)
    ensures Alphanumeric(u) <==> Plainly(u)
  {
    if Alphanumeric(u) {
      var c := u as char;
      assert Plain(c) && u == c as int;
    }
  }

  lemma {:induction false} LettersStay(a: Text, b: Text, inRun: bool)
    requires forall i :: 0 <= i < |a| ==> Plainly(a[i])
    ensures Sanitized(a + b, inRun) == a + Sanitized(b, if a == [] then inRun else false)
    decreases |a|
  {
    hide Plainly;
    if a == [] {
      assert a + b == b;
    } else {
      PlainlyExact(a[0]);
      assert (a + b)[1..] == a[1..] + b;
      LettersStay(a[1..], b, false);
      assert a == [a[0]] + a[1..];
    }
  }

  lemma {:induction false} RunSwallowed(run: Text, b: Text)
    requires forall i :: 0 <= i < |run| ==> !Plainly(run[i])
    ensures Sanitized(run + b, true) == Sanitized(b, true)
    decreases |run|
  {
    hide Plainly;
    if run == [] {
      assert run + b == b;
    } else {
      PlainlyExact(run[0]);
      assert (run + b)[1..] == run[1..] + b;
      RunSwallowed(run[1..], b);
    }
  }

  /** Letters and digits stay as they are, and each longest run of anything else becomes one underscore. */
  lemma NameExactly(a: Text, run: Text, b: Text)
    requires forall i :: 0 <= i < |a| ==> Plainly(a[i])
    requires run != [] && forall i :: 0 <= i < |run| ==> !Plainly(run[i])
    requires b != [] ==> Plainly(b[0])
    ensures NameOf(a) == a
    ensures NameOf(a + (run + b)) == a + Ascii("_") + NameOf(b)
  {
    hide Plainly;
    assert Ascii("_") == [95];
    assert a + [] == a;
    LettersStay(a, [], false);
    LettersStay(a, run + b, false);
    PlainlyExact(run[0]);
    assert (run + b)[1..] == run[1..] + b;
    RunSwallowed(run[1..], b);
    if b != [] { PlainlyExact(b[0]); }
    assert a + ([95] + NameOf(b)) == a + [95] + NameOf(b);
  }
}

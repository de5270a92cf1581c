/**
 What the words of a particle begin with, by structure, for every particle; and when the matcher's
 scan of first names, which stops at a required item and at a depth of 32, says the same.
 */
module XsdFirst {
  import opened Text
  import opened XsdModel
  import opened XsdExactness
  import opened XsdWords

  // ----- particles that match something

  predicate Able(p: Particle) { p.max.Some? ==> p.min <= p.max.value }

  predicate May(p: Particle)
    decreases p, 1
  {
    p.min == 0 || (Able(p) && (p.Group? ==> MayInside(p.kind, p.items)))
  }

  predicate MayInside(kind: GroupKind, items: seq<Particle>)
    decreases items, 0
  {
    match kind
    case Choice => exists i :: 0 <= i < |items| && May(items[i])
    case _ => forall i :: 0 <= i < |items| ==> May(items[i])
  }

  lemma {:induction false} AcceptedMay(p: Particle, s: Word)
    requires Accepted(p, s)
    ensures May(p)
    decreases p, 3
  {
    hide Single;
    var n: nat :| p.min <= n && (p.max.Some? ==> n <= p.max.value) && Times(p, n, s);
    if p.min > 0 && p.Group? {
      var k :| 0 <= k <= |s| && Single(p, s[..k]) && Times(p, n - 1, s[k..]);
      SingleMay(p, s[..k]);
    }
  }

  lemma {:induction false} SingleMay(p: Particle, s: Word)
    requires p.Group? && Single(p, s)
    ensures MayInside(p.kind, p.items)
    decreases p, 1
  {
    hide Accepted, May;
    match p.kind
    case Sequence => ChainMay(p.items, s);
    case Choice =>
      var i :| 0 <= i < |p.items| && Accepted(p.items[i], s);
      AcceptedMay(p.items[i], s);
    case Every => ShuffleMay(p.items, Places(|p.items|), s);
  }

  lemma {:induction false} ChainMay(items: seq<Particle>, s: Word)
    requires Chain(items, s)
    ensures forall i :: 0 <= i < |items| ==> May(items[i])
    decreases items, 0
  {
    hide Accepted, May;
    if items != [] {
      var k :| 0 <= k <= |s| && Accepted(items[0], s[..k]) && Chain(items[1..], s[k..]);
      AcceptedMay(items[0], s[..k]);
      ChainMay(items[1..], s[k..]);
      assert forall i :: 0 < i < |items| ==> items[i] == items[1..][i - 1];
    }
  }

  lemma {:induction false} ShuffleMay(items: seq<Particle>, left: set<nat>, s: Word)
    requires Shuffle(items, left, s)
    ensures forall i :: i in left && i < |items| ==> May(items[i])
    decreases items, 0, left
  {
    hide Accepted, May, Shuffle;
    if NothingMore(items, left, s) {
      forall i | i in left && i < |items| ensures May(items[i]) { AcceptedMay(items[i], []); }
    } else {
      var i, k := TakeOne(items, left, s);
      AcceptedMay(items[i], s[..k]);
      ShuffleMay(items, left - {i}, s[k..]);
    }
  }

  /** A word taken n times. */
  function Power(s: Word, n: nat): Word { if n == 0 then [] else s + Power(s, n - 1) }

  lemma {:induction false} PowerTimes(p: Particle, n: nat, s: Word)
    requires Single(p, s)
    ensures Times(p, n, Power(s, n))
    decreases n
  {
    hide Single;
    if n > 0 {
      PowerTimes(p, n - 1, s);
      var t := Power(s, n);
      assert t[..|s|] == s && t[|s|..] == Power(s, n - 1);
    }
  }

  /** A single word, repeated as often as it must be, is accepted. */
  lemma Repeated(p: Particle, s: Word) returns (t: Word)
    requires Able(p) && p.max != Some(0) && Single(p, s)
    ensures Accepted(p, t) && s <= t
  {
    hide Single, Times;
    var n := if p.min == 0 then 1 else p.min;
    t := Power(s, n);
    PowerTimes(p, n, s);
  }

  lemma {:induction false} MayAccepted(p: Particle) returns (s: Word)
    requires May(p)
    ensures Accepted(p, s)
    decreases p, 3
  {
    hide Single, MayInside;
    if p.min == 0 {
      s := [];
      assert Times(p, 0, s);
    } else {
      var one := MaySingle(p);
      s := Repeated(p, one);
    }
  }

  lemma {:induction false} MaySingle(p: Particle) returns (s: Word)
    requires p.Group? ==> MayInside(p.kind, p.items)
    ensures Single(p, s)
    decreases p, 1
  {
    hide Accepted, May;
    match p {
      case Element(_, _, d) => s := [d.qname];
      case Wildcard(_, _) => s := [[]];
      case Group(Sequence, _, _, items) => s := MayChain(items);
      case Group(Choice, _, _, items) =>
        var i :| 0 <= i < |items| && May(items[i]);
        s := MayAccepted(items[i]);
      case Group(Every, _, _, items) => s := MayShuffle(items, Places(|items|));
    }
  }

  lemma {:induction false} MayChain(items: seq<Particle>) returns (s: Word)
    requires forall i :: 0 <= i < |items| ==> May(items[i])
    ensures Chain(items, s)
    decreases items, 0
  {
    hide Accepted, May;
    if items == [] {
      s := [];
    } else {
      var a := MayAccepted(items[0]);
      var b := MayChain(items[1..]);
      s := a + b;
      ChainNext(items, a, b);
    }
  }

  lemma ChainNext(items: seq<Particle>, a: Word, b: Word)
    requires items != [] && Accepted(items[0], a) && Chain(items[1..], b)
    ensures Chain(items, a + b)
  {
    hide Accepted;
    assert (a + b)[..|a|] == a && (a + b)[|a|..] == b;
  }

  lemma ShuffleNext(items: seq<Particle>, left: set<nat>, i: nat, a: Word, b: Word)
    requires i in left && i < |items| && Accepted(items[i], a) && Shuffle(items, left - {i}, b)
    ensures Shuffle(items, left, a + b)
  {
    hide Accepted;
    assert (a + b)[..|a|] == a && (a + b)[|a|..] == b;
  }

  lemma {:induction false} MayShuffle(items: seq<Particle>, left: set<nat>) returns (s: Word)
    requires forall i :: i in left && i < |items| ==> May(items[i])
    ensures Shuffle(items, left, s)
    decreases items, 0, left
  {
    hide Accepted, May;
    if i: nat :| i in left && i < |items| {
      var a := MayAccepted(items[i]);
      var b := MayShuffle(items, left - {i});
      s := a + b;
      ShuffleNext(items, left, i, a, b);
    } else {
      s := [];
    }
  }

  // ----- what words begin with

  function Begins(p: Particle): set<First>
    decreases p, 1
  {
    match p
    case Element(_, _, d) => {Name(d.qname)}
    case Wildcard(_, _) => {AnyName}
    case Group(Sequence, _, _, items) => BeginsChain(items)
    case Group(Choice, _, _, items) => BeginsSome(items)
    case Group(Every, _, _, items) => if MayInside(Every, items) then BeginsSome(items) else {}
  }

  /** However often the particle may occur. */
  function BeginsIn(p: Particle): set<First>
    decreases p, 2
  {
    if p.max == Some(0) || !Able(p) then {} else Begins(p)
  }

  /** Past every item that may match nothing, the items after it being satisfiable. */
  function BeginsChain(items: seq<Particle>): set<First>
    decreases items, 0
  {
    if items == [] then {}
    else
      (if MayInside(Sequence, items[1..]) then BeginsIn(items[0]) else {})
      + (if EmptyWord(items[0]) then BeginsChain(items[1..]) else {})
  }

  function BeginsSome(items: seq<Particle>): set<First>
    decreases items, 0
  {
    if items == [] then {} else BeginsIn(items[0]) + BeginsSome(items[1..])
  }

  predicate Listed(f: set<First>, q: Text) { AnyName in f || Name(q) in f }

  lemma {:induction false} SomeListed(items: seq<Particle>, q: Text)
    ensures Listed(BeginsSome(items), q) <==> exists i :: 0 <= i < |items| && Listed(BeginsIn(items[i]), q)
    decreases |items|
  {
    if items != [] {
      SomeListed(items[1..], q);
      assert forall i :: 0 < i < |items| ==> items[i] == items[1..][i - 1];
      if i :| 0 <= i < |items[1..]| && Listed(BeginsIn(items[1..][i]), q) {
        assert Listed(BeginsIn(items[i + 1]), q);
      }
    }
  }

  lemma {:induction false} AcceptedBegins(p: Particle, s: Word)
    requires s != [] && Accepted(p, s)
    ensures Listed(BeginsIn(p), s[0])
    decreases p, 3
  {
    hide Single;
    var n: nat :| p.min <= n && (p.max.Some? ==> n <= p.max.value) && Times(p, n, s);
    TimesBegin(p, n, s);
  }

  lemma {:induction false} TimesBegin(p: Particle, n: nat, s: Word)
    requires s != [] && Times(p, n, s)
    ensures n > 0 && Listed(Begins(p), s[0])
    decreases p, 2, n
  {
    hide Single;
    var k :| 0 <= k <= |s| && Single(p, s[..k]) && Times(p, n - 1, s[k..]);
    if k == 0 {
      assert s[0..] == s;
      TimesBegin(p, n - 1, s);
    } else {
      SingleBegins(p, s[..k]);
    }
  }

  lemma {:induction false} SingleBegins(p: Particle, s: Word)
    requires s != [] && Single(p, s)
    ensures Listed(Begins(p), s[0])
    decreases p, 1
  {
    match p {
      case Element(_, _, d) =>
      case Wildcard(_, _) =>
      case Group(Sequence, _, _, items) => ChainBegins(items, s);
      case Group(Choice, _, _, items) =>
        hide Accepted, BeginsIn;
        var i :| 0 <= i < |items| && Accepted(items[i], s);
        AcceptedBegins(items[i], s);
        SomeListed(items, s[0]);
      case Group(Every, _, _, items) =>
        hide Accepted, BeginsIn;
        ShuffleMay(items, Places(|items|), s);
        var i := ShuffleBegins(items, Places(|items|), s);
        SomeListed(items, s[0]);
    }
  }

  lemma {:induction false} ChainBegins(items: seq<Particle>, s: Word)
    requires s != [] && Chain(items, s)
    ensures Listed(BeginsChain(items), s[0])
    decreases items, 0
  {
    hide Accepted, BeginsIn, May, EmptyWord;
    var k :| 0 <= k <= |s| && Accepted(items[0], s[..k]) && Chain(items[1..], s[k..]);
    if k == 0 {
      assert s[0..] == s && s[..0] == [];
      EmptyAccepted(items[0]);
      ChainBegins(items[1..], s);
    } else {
      AcceptedBegins(items[0], s[..k]);
      ChainMay(items[1..], s[k..]);
    }
  }

  lemma {:induction false} ShuffleBegins(items: seq<Particle>, left: set<nat>, s: Word) returns (i: nat)
    requires s != [] && Shuffle(items, left, s)
    ensures i < |items| && Listed(BeginsIn(items[i]), s[0])
    decreases items, 0, left
  {
    hide Accepted, BeginsIn, Shuffle;
    var k: nat;
    i, k := TakeOne(items, left, s);
    if k == 0 {
      assert s[0..] == s;
      i := ShuffleBegins(items, left - {i}, s);
    } else {
      AcceptedBegins(items[i], s[..k]);
    }
  }

  // ----- and every such beginning is that of a word

  lemma {:induction false} BeginsAccepted(p: Particle, q: Text) returns (s: Word)
    requires Listed(BeginsIn(p), q)
    ensures s != [] && s[0] == q && Accepted(p, s)
    decreases p, 3
  {
    hide Single;
    var one := BeginsSingle(p, q);
    s := Repeated(p, one);
  }

  lemma {:induction false} BeginsSingle(p: Particle, q: Text) returns (s: Word)
    requires Listed(Begins(p), q)
    ensures s != [] && s[0] == q && Single(p, s)
    decreases p, 1
  {
    hide Accepted, BeginsIn, May;
    match p {
      case Element(_, _, d) => s := [d.qname];
      case Wildcard(_, _) => s := [q];
      case Group(Sequence, _, _, items) => s := BeginsInChain(items, q);
      case Group(Choice, _, _, items) =>
        SomeListed(items, q);
        var i :| 0 <= i < |items| && Listed(BeginsIn(items[i]), q);
        s := BeginsAccepted(items[i], q);
      case Group(Every, _, _, items) =>
        SomeListed(items, q);
        var i: nat :| i < |items| && Listed(BeginsIn(items[i]), q);
        var a := BeginsAccepted(items[i], q);
        var b := MayShuffle(items, Places(|items|) - {i});
        s := a + b;
        ShuffleNext(items, Places(|items|), i, a, b);
    }
  }

  lemma {:induction false} BeginsInChain(items: seq<Particle>, q: Text) returns (s: Word)
    requires Listed(BeginsChain(items), q)
    ensures s != [] && s[0] == q && Chain(items, s)
    decreases items, 0
  {
    hide Accepted, BeginsIn, May, EmptyWord;
    if MayInside(Sequence, items[1..]) && Listed(BeginsIn(items[0]), q) {
      var a := BeginsAccepted(items[0], q);
      var b := MayChain(items[1..]);
      s := a + b;
      ChainNext(items, a, b);
    } else {
      s := BeginsInChain(items[1..], q);
      EmptyAccepted(items[0]);
      ChainNext(items, [], s);
      assert [] + s == s;
    }
  }

  // ----- the scan of first names

  function Height(p: Particle): nat
    decreases p, 1
  {
    if p.Group? then 1 + HeightOf(p.items) else 0
  }

  function HeightOf(items: seq<Particle>): nat
    decreases items, 0
  {
    if items == [] then 0
    else
      var a, b := Height(items[0]), HeightOf(items[1..]);
      if a > b then a else b
  }

  /** In every sequence, required items do not match the empty word. */
  predicate Firm(p: Particle)
    decreases p, 1
  {
    p.Group? ==>
      && (p.kind == Sequence ==> forall i :: 0 <= i < |p.items| && p.items[i].min > 0 ==> !EmptyWord(p.items[i]))
      && FirmAll(p.items)
  }

  predicate FirmAll(items: seq<Particle>)
    decreases items, 0
  {
    forall i :: 0 <= i < |items| ==> Firm(items[i])
  }

  /** Everything inside may occur. */
  predicate Live(p: Particle)
    decreases p, 1
  {
    p.Group? ==> (p.kind == Choice ==> p.items != []) && LiveAll(p.items)
  }

  predicate LiveAll(items: seq<Particle>)
    decreases items, 0
  {
    forall i :: 0 <= i < |items| ==> items[i].max != Some(0) && Able(items[i]) && Live(items[i])
  }

  lemma {:induction false} LiveMay(p: Particle)
    requires Live(p)
    ensures p.Group? ==> MayInside(p.kind, p.items)
    ensures Able(p) ==> May(p)
    decreases p, 1
  {
    if p.Group? {
      forall i | 0 <= i < |p.items| ensures May(p.items[i]) { LiveMay(p.items[i]); }
      if p.kind == Choice { assert May(p.items[0]); }
    }
  }

  /** The scan misses no beginning, on firm particles within its depth. */
  lemma {:induction false} ScanCovers(p: Particle, depth: nat)
    requires Firm(p) && depth + Height(p) <= 32
    ensures Begins(p) <= FirstNames(p, depth)
    decreases p, 1
  {
    if p.Group? {
      if p.kind == Sequence { SequenceCovered(p.items, depth + 1); } else { SomeCovered(p.items, depth + 1); }
    }
  }

  lemma {:induction false} SequenceCovered(items: seq<Particle>, depth: nat)
    requires FirmAll(items) && depth + HeightOf(items) <= 32
    requires forall i :: 0 <= i < |items| && items[i].min > 0 ==> !EmptyWord(items[i])
    ensures BeginsChain(items) <= FirstOf(items, true, depth)
    decreases items, 0
  {
    hide EmptyWord, Begins, FirstNames, Firm;
    if items != [] {
      ScanCovers(items[0], depth);
      assert forall i :: 0 <= i < |items[1..]| ==> items[1..][i] == items[i + 1];
      SequenceCovered(items[1..], depth);
    }
  }

  lemma {:induction false} SomeCovered(items: seq<Particle>, depth: nat)
    requires FirmAll(items) && depth + HeightOf(items) <= 32
    ensures BeginsSome(items) <= FirstOf(items, false, depth)
    decreases items, 0
  {
    hide Begins, FirstNames, Firm;
    if items != [] {
      ScanCovers(items[0], depth);
      SomeCovered(items[1..], depth);
    }
  }

  /** And it names nothing else where everything may occur. */
  lemma {:induction false} ScanExact(p: Particle, depth: nat)
    requires Firm(p) && Live(p) && depth + Height(p) <= 32
    ensures FirstNames(p, depth) == Begins(p)
    decreases p, 1
  {
    if p.Group? {
      LiveMay(p);
      if p.kind == Sequence { SequenceScanned(p.items, depth + 1); } else { SomeScanned(p.items, depth + 1); }
    }
  }

  lemma {:induction false} SequenceScanned(items: seq<Particle>, depth: nat)
    requires FirmAll(items) && LiveAll(items) && depth + HeightOf(items) <= 32
    requires forall i :: 0 <= i < |items| && items[i].min > 0 ==> !EmptyWord(items[i])
    ensures FirstOf(items, true, depth) == BeginsChain(items)
    decreases items, 0
  {
    hide Begins, FirstNames, Firm, Live;
    if items != [] {
      ScanExact(items[0], depth);
      assert forall i :: 0 <= i < |items[1..]| ==> items[1..][i] == items[i + 1];
      forall i | 0 <= i < |items[1..]| ensures May(items[1..][i]) { LiveMay(items[i + 1]); }
      SequenceScanned(items[1..], depth);
      assert EmptyWord(items[0]) <==> items[0].min == 0;
    }
  }

  lemma {:induction false} SomeScanned(items: seq<Particle>, depth: nat)
    requires FirmAll(items) && LiveAll(items) && depth + HeightOf(items) <= 32
    ensures FirstOf(items, false, depth) == BeginsSome(items)
    decreases items, 0
  {
    hide Begins, FirstNames, Firm, Live;
    if items != [] {
      ScanExact(items[0], depth);
      SomeScanned(items[1..], depth);
    }
  }

  // ----- the theorems

  /** Some non-empty child list that begins with the name is one occurrence of the particle. */
  ghost predicate Startable(p: Particle, q: Text) {
    exists e: Xml, w: World :: e.children != [] && e.children[0].qname == q && Once(p, e, 0, |e.children|, w)
  }

  /** For every particle: its words begin with exactly the names its structure says. */
  lemma BeginsExactly(p: Particle, q: Text)
    ensures Startable(p, q) <==> Listed(Begins(p), q)
  {
    hide Begins, Once, Single;
    if Startable(p, q) {
      var e: Xml, w: World :| e.children != [] && e.children[0].qname == q && Once(p, e, 0, |e.children|, w);
      OnceNamed(p, e, 0, |e.children|, w);
      SingleBegins(p, NamesIn(e, 0, |e.children|));
    }
    if Listed(Begins(p), q) {
      var s := BeginsSingle(p, q);
      var e, w := ListOf(s), BareWorld(p);
      assert NamesIn(e, 0, |e.children|) == s;
      SingleOnce(p, e, 0, |e.children|, w);
      assert e.children[0].qname == q;
    }
  }

  /** So the scan is exact on firm particles in which everything may occur, no deeper than 32. */
  lemma FirstNamesExact(p: Particle, q: Text)
    requires Firm(p) && Live(p) && Height(p) <= 32
    ensures Listed(FirstNames(p, 0), q) <==> Startable(p, q)
  {
    BeginsExactly(p, q);
    ScanExact(p, 0);
  }

  /** And in general exactly where it agrees with the structure. */
  lemma ScanRight(p: Particle)
    ensures (forall q :: Listed(FirstNames(p, 0), q) <==> Startable(p, q)) <==>
            (forall q :: Listed(FirstNames(p, 0), q) <==> Listed(Begins(p), q))
  {
    hide FirstNames, Begins, Listed, Startable;
    forall q ensures Startable(p, q) <==> Listed(Begins(p), q) { BeginsExactly(p, q); }
  }

  /** A required item that may match nothing hides what follows it from the scan. */
  lemma EmptyItemHides(a: Decl, b: Decl)
    requires a.qname != b.qname
    ensures var inner := Group(Sequence, 1, Some(1), [Element(0, Some(1), a)]);
            var p := Group(Sequence, 1, Some(1), [inner, Element(1, Some(1), b)]);
            Startable(p, b.qname) && !Listed(FirstNames(p, 0), b.qname)
  {
    var opt, el := Element(0, Some(1), a), Element(1, Some(1), b);
    var inner := Group(Sequence, 1, Some(1), [opt]);
    var p := Group(Sequence, 1, Some(1), [inner, el]);
    assert FirstOf([opt], true, 2) == {Name(a.qname)} by { assert [opt][1..] == []; }
    assert FirstNames(inner, 1) == {Name(a.qname)};
    assert FirstOf([inner, el], true, 1) == {Name(a.qname)};
    BeginsExactly(p, b.qname);
    assert EmptyWord(inner) by { assert EmptyWord(opt); }
    assert [inner, el][1..] == [el] && [el][1..] == [];
    assert MayInside(Sequence, [el][1..]) && Begins(el) == BeginsIn(el) == {Name(b.qname)};
    assert Name(b.qname) in BeginsChain([el]);
    assert Name(b.qname) in BeginsChain([inner, el]);
  }
}

/**
 Greedy matching is exact on nested content models too. Under Unique Particle Attribution
 (section 3.8.6 of XML Schema Part 1), seen through the names that can come next, with no required
 particle that may match nothing and no optional group that reports at the end of the content, a
 child list is matched without an issue exactly if it is in the language, and a whole document
 is accepted exactly if it conforms.
 */
module XsdDeterminism {
  import opened Text
  import opened XsdModel
  import opened XsdSoundness
  import opened XsdExactness
  import opened XsdWords
  import opened XsdFirst

  // ----- determinism, by the names that can come next

  /** No name is listed in both. */
  predicate Apart(f: set<First>, g: set<First>) {
    f * g == {} && (AnyName in f ==> g == {}) && (AnyName in g ==> f == {})
  }

  lemma ApartListed(f: set<First>, g: set<First>, q: Text)
    requires Apart(f, g) && Listed(f, q)
    ensures !Listed(g, q)
  {
    assert Name(q) in f && Name(q) in g ==> Name(q) in f * g;
  }

  /** What can follow one occurrence: another one, or what follows the particle. */
  function Inner(p: Particle, follow: set<First>): set<First> {
    (if p.max.None? || p.max.value > 1 then FirstNames(p, 0) else {}) + follow
  }

  /** What can come next where these items are still to come. */
  function Ahead(items: seq<Particle>, follow: set<First>): set<First> {
    if items == [] then follow
    else FirstNames(items[0], 0) + (if items[0].min > 0 then {} else Ahead(items[1..], follow))
  }

  /** The next name decides whether to go on repeating, and which member of a group it belongs to. */
  predicate Determined(p: Particle, follow: set<First>)
    decreases p, 1
  {
    && (p.max != Some(p.min) ==> Apart(FirstNames(p, 0), follow))
    && (p.Group? ==> DeterminedInside(p.kind, p.items, Inner(p, follow)))
  }

  predicate DeterminedInside(kind: GroupKind, items: seq<Particle>, follow: set<First>)
    decreases items, 1
  {
    match kind
    case Sequence => DeterminedChain(items, follow)
    case Choice =>
      && (forall i :: 0 <= i < |items| ==> Determined(items[i], follow))
      && (forall i, j :: 0 <= i < j < |items| ==> Apart(FirstNames(items[i], 0), FirstNames(items[j], 0)))
    case Every =>
      && (forall i :: 0 <= i < |items| ==> items[i].Element? && Apart({Name(items[i].decl.qname)}, follow))
      && (forall i, j :: 0 <= i < j < |items| ==> items[i].decl.qname != items[j].decl.qname)
  }

  predicate DeterminedChain(items: seq<Particle>, follow: set<First>)
    decreases items, 0
  {
    items != [] ==> Determined(items[0], Ahead(items[1..], follow)) && DeterminedChain(items[1..], follow)
  }

  /** Nothing required may match nothing, and optional groups are quiet at the end of the content. */
  predicate Orderly(p: Particle)
    decreases p, 1
  {
    && (p.min > 0 ==> !EmptyWord(p)) && (p.Group? && p.min == 0 ==> Quiet(p))
    && (p.Group? ==> OrderlyAll(p.items))
  }

  predicate OrderlyAll(items: seq<Particle>)
    decreases items, 0
  {
    forall i :: 0 <= i < |items| ==> Orderly(items[i])
  }

  lemma {:induction false} OrderlyFirm(p: Particle)
    requires Orderly(p)
    ensures Firm(p)
    decreases p
  {
    if p.Group? {
      forall i | 0 <= i < |p.items| ensures Firm(p.items[i]) && (p.items[i].min > 0 ==> !EmptyWord(p.items[i])) {
        OrderlyFirm(p.items[i]);
      }
    }
  }

  lemma {:induction false} HeightItem(items: seq<Particle>, i: nat)
    requires i < |items|
    ensures Height(items[i]) <= HeightOf(items)
    decreases i
  {
    if i > 0 { HeightItem(items[1..], i - 1); }
  }

  /** Fit for the scan and for the matcher. */
  predicate Good(p: Particle) { Orderly(p) && Height(p) <= 32 }

  lemma GoodItem(p: Particle, i: nat)
    requires p.Group? && i < |p.items| && Good(p)
    ensures Good(p.items[i])
  {
    HeightItem(p.items, i);
    assert OrderlyAll(p.items);
    assert Orderly(p.items[i]);
  }

  // ----- element declarations

  function Decls(p: Particle): set<Decl>
    decreases p, 1
  {
    match p
    case Element(_, _, d) => {d}
    case Wildcard(_, _) => {}
    case Group(_, _, _, items) => DeclsOf(items)
  }

  function DeclsOf(items: seq<Particle>): set<Decl>
    decreases items, 0
  {
    if items == [] then {} else Decls(items[0]) + DeclsOf(items[1..])
  }

  lemma {:induction false} DeclsIn(items: seq<Particle>, i: nat)
    requires i < |items|
    ensures Decls(items[i]) <= DeclsOf(items)
    decreases i
  {
    if i > 0 { DeclsIn(items[1..], i - 1); }
  }

  /** Children that conform to a declaration of the model pass its check. */
  ghost predicate Decided(p: Particle, e: Xml, depth: nat, w: World) {
    forall t, d :: 0 <= t < |e.children| && d in Decls(p) && Conforms(e.children[t], d, w) ==>
      CheckElement(e.children[t], d, depth + 1, 0, w) == 0
  }

  lemma DecidedItem(p: Particle, i: nat, e: Xml, depth: nat, w: World)
    requires p.Group? && i < |p.items| && Decided(p, e, depth, w)
    ensures Decided(p.items[i], e, depth, w)
  {
    DeclsIn(p.items, i);
    assert Decls(p) == DeclsOf(p.items);
  }

  // ----- beginnings

  lemma OnceStarts(p: Particle, e: Xml, lo: nat, hi: nat, w: World)
    requires lo < hi <= |e.children| && Good(p) && Once(p, e, lo, hi, w)
    ensures Listed(FirstNames(p, 0), e.children[lo].qname)
  {
    hide Once, Single, FirstNames, Begins;
    OnceNamed(p, e, lo, hi, w);
    SingleBegins(p, NamesIn(e, lo, hi));
    OrderlyFirm(p);
    ScanCovers(p, 0);
  }

  lemma MatchesStart(p: Particle, e: Xml, lo: nat, hi: nat, w: World)
    requires lo < hi <= |e.children| && Good(p) && Matches(p, e, lo, hi, w)
    ensures Listed(FirstNames(p, 0), e.children[lo].qname)
  {
    hide Matches, Accepted, FirstNames, Begins;
    MatchesNamed(p, e, lo, hi, w);
    AcceptedBegins(p, NamesIn(e, lo, hi));
    OrderlyFirm(p);
    ScanCovers(p, 0);
  }

  /** Where a good particle matches nothing, it is optional. */
  lemma NothingOptional(p: Particle, e: Xml, at: nat, w: World)
    requires at <= |e.children| && Good(p) && Matches(p, e, at, at, w)
    ensures p.min == 0
  {
    EmptyWordExact(p, e, at, w);
  }

  // ----- repetitions that all match something

  ghost predicate Dense(p: Particle, m: nat, e: Xml, lo: nat, hi: nat, w: World)
    requires lo <= hi <= |e.children|
    decreases m
  {
    if m == 0 then lo == hi
    else exists mid :: lo < mid <= hi && Once(p, e, lo, mid, w) && Dense(p, m - 1, e, mid, hi, w)
  }

  lemma {:induction false} RepeatsSplit(p: Particle, n: nat, e: Xml, lo: nat, hi: nat, w: World) returns (mid: nat)
    requires lo <= hi <= |e.children| && n > 0 && Repeats(p, n, e, lo, hi, w)
    ensures lo <= mid <= hi && Once(p, e, lo, mid, w) && Repeats(p, n - 1, e, mid, hi, w)
    decreases n
  {
    hide Once;
    var last: nat :| lo <= last <= hi && Repeats(p, n - 1, e, lo, last, w) && Once(p, e, last, hi, w);
    if n == 1 {
      mid := hi;
      assert Repeats(p, 0, e, hi, hi, w);
    } else {
      mid := RepeatsSplit(p, n - 1, e, lo, last, w);
      assert mid <= last <= hi && Repeats(p, n - 2, e, mid, last, w) && Once(p, e, last, hi, w);
    }
  }

  lemma {:induction false} RepeatsDense(p: Particle, n: nat, e: Xml, lo: nat, hi: nat, w: World) returns (m: nat)
    requires lo <= hi <= |e.children| && Repeats(p, n, e, lo, hi, w)
    ensures m <= n && Dense(p, m, e, lo, hi, w)
    ensures m < n ==> p.Group? && EmptyInside(p.kind, p.items)
    decreases n
  {
    hide Once;
    if n == 0 {
      m := 0;
    } else {
      var mid := RepeatsSplit(p, n, e, lo, hi, w);
      var rest := RepeatsDense(p, n - 1, e, mid, hi, w);
      if mid == lo {
        OnceEmptyExact(p, e, lo, w);
        m := rest;
      } else {
        m := rest + 1;
        assert lo < mid <= hi && Once(p, e, lo, mid, w) && Dense(p, m - 1, e, mid, hi, w);
      }
    }
  }

  lemma MatchesDense(p: Particle, e: Xml, lo: nat, hi: nat, w: World) returns (m: nat)
    requires lo <= hi <= |e.children| && Good(p) && Matches(p, e, lo, hi, w)
    ensures Within(p, m) && Dense(p, m, e, lo, hi, w)
  {
    var n: nat :| p.min <= n && (p.max.Some? ==> n <= p.max.value) && Repeats(p, n, e, lo, hi, w);
    m := RepeatsDense(p, n, e, lo, hi, w);
  }

  // ----- the matcher finds every match

  /** What stands at `hi` can follow. */
  predicate Follows(e: Xml, hi: nat, follow: set<First>)
  {
    hi < |e.children| ==> Listed(follow, e.children[hi].qname)
  }

  lemma {:induction false} ParticleComplete(p: Particle, e: Xml, lo: nat, hi: nat, follow: set<First>, depth: nat,
                                            w: World)
    requires w.maxErrors >= 1 && lo <= hi <= |e.children| && Matches(p, e, lo, hi, w)
    requires Good(p) && Determined(p, follow) && Decided(p, e, depth, w) && Follows(e, hi, follow)
    ensures MatchParticle(p, e, lo, depth, 0, w) == Outcome(Some(hi), 0)
    decreases p, 3
  {
    hide Matches, Good, Determined, Decided, Follows, Dense, MatchLoop, Within;
    var m := MatchesDense(p, e, lo, hi, w);
    assert Within(p, 0 + m);
    LoopComplete(p, m, e, lo, hi, 0, follow, depth, w);
  }

  lemma {:induction false} LoopComplete(p: Particle, m: nat, e: Xml, index: nat, hi: nat, reps: nat,
                                        follow: set<First>,
                                        depth: nat, w: World)
    requires w.maxErrors >= 1 && index <= hi <= |e.children| && Dense(p, m, e, index, hi, w) && Within(p, reps + m)
    requires Good(p) && Determined(p, follow) && Decided(p, e, depth, w) && Follows(e, hi, follow)
    ensures MatchLoop(p, e, index, reps, depth, 0, w) == Outcome(Some(hi), 0)
    decreases p, 2, m
  {
    hide Once, Good, Decided, MatchOnce, FirstNames, DeterminedInside;
    if m == 0 {
      LoopStops(p, e, hi, reps, follow, depth, w);
    } else {
      var mid: nat :| index < mid <= hi && Once(p, e, index, mid, w) && Dense(p, m - 1, e, mid, hi, w);
      OnceStarts(p, e, index, mid, w);
      if m > 1 {
        var next :| mid < next <= hi && Once(p, e, mid, next, w) && Dense(p, m - 2, e, next, hi, w);
        OnceStarts(p, e, mid, next, w);
      }
      assert Follows(e, mid, Inner(p, follow));
      OnceComplete(p, e, index, mid, Inner(p, follow), depth, w);
      LoopComplete(p, m - 1, e, mid, hi, reps + 1, follow, depth, w);
    }
  }

  /** With nothing left to match, the loop stops there and reports nothing. */
  lemma LoopStops(p: Particle, e: Xml, at: nat, reps: nat, follow: set<First>, depth: nat, w: World)
    requires w.maxErrors >= 1 && at <= |e.children| && Within(p, reps)
    requires Good(p) && Determined(p, follow) && Follows(e, at, follow)
    ensures MatchLoop(p, e, at, reps, depth, 0, w) == Outcome(Some(at), 0)
  {
    hide FirstNames, EmptyWord, Quiet, DeterminedInside;
    if Below(reps, p.max) {
      if at < |e.children| {
        assert p.max != Some(p.min);
        if Listed(FirstNames(p, 0), e.children[at].qname) {
          ApartListed(FirstNames(p, 0), follow, e.children[at].qname);
          assert false;
        }
      } else if p.min == 0 {
        EndStops(p, e, depth, w);
      }
    }
  }

  lemma EndStops(p: Particle, e: Xml, depth: nat, w: World)
    requires w.maxErrors >= 1 && Good(p) && p.min == 0 && p.max != Some(0)
    ensures var m := MatchOnce(p, e, |e.children|, depth, 0, w);
            m.issues == 0 && (m.end.None? || (m.end.value == |e.children| && p.Group?))
  {
    if p.Group? { InsideExact(p, e, depth, 0, w); }
  }

  lemma {:induction false} OnceComplete(p: Particle, e: Xml, lo: nat, hi: nat, inner: set<First>, depth: nat, w: World)
    requires w.maxErrors >= 1 && lo < hi <= |e.children| && Once(p, e, lo, hi, w)
    requires Good(p) && (p.Group? ==> DeterminedInside(p.kind, p.items, inner)) && Decided(p, e, depth, w)
    requires Follows(e, hi, inner)
    ensures MatchOnce(p, e, lo, depth, 0, w) == Outcome(Some(hi), 0)
    decreases p, 1
  {
    match p {
      case Element(_, _, d) => assert d in Decls(p) && Conforms(e.children[lo], d, w);
      case Wildcard(_, _) =>
      case Group(Sequence, _, _, items) =>
        TailFrom(p, |items|, e, lo, hi, hi, w);
        assert items[0..] == items;
        SequenceComplete(p, 0, e, lo, hi, inner, depth, w);
      case Group(Choice, _, _, items) =>
        hide Matches, Good, Decided, Follows, MatchChoice;
        var i: nat :| i < |items| && Matches(items[i], e, lo, hi, w);
        ChoiceComplete(p, 0, i, e, lo, hi, inner, depth, w);
      case Group(Every, _, _, items) =>
        hide Matches, Good, Decided, Follows, MatchEvery;
        var order: seq<nat> :| IsOrder(order, items, e, hi, w) && InSome(p, order, e, lo, hi, w);
        OthersOptional(p, order, e, hi, w);
        EveryComplete(p, order, {}, e, lo, hi, inner, depth, w);
    }
  }

  /** The name that stands where items are still to come is one of those ahead. */
  lemma {:induction false} TailAhead(p: Particle, k: nat, e: Xml, lo: nat, hi: nat, inner: set<First>, w: World)
    requires p.Group? && k <= |p.items| && lo <= hi <= |e.children| && Tail(p, k, e, lo, hi, w) && Good(p)
    requires Follows(e, hi, inner)
    ensures Follows(e, lo, Ahead(p.items[k..], inner))
    decreases |p.items| - k
  {
    hide Matches, Good, FirstNames;
    if k < |p.items| {
      var mid: nat :| lo <= mid <= hi && Matches(p.items[k], e, lo, mid, w) && Tail(p, k + 1, e, mid, hi, w);
      GoodItem(p, k);
      assert p.items[k..][1..] == p.items[k + 1..] && p.items[k..][0] == p.items[k];
      if lo < mid {
        MatchesStart(p.items[k], e, lo, mid, w);
      } else {
        NothingOptional(p.items[k], e, lo, w);
        TailAhead(p, k + 1, e, mid, hi, inner, w);
      }
    }
  }

  lemma {:induction false} SequenceComplete(p: Particle, k: nat, e: Xml, index: nat, hi: nat, inner: set<First>,
                                            depth: nat, w: World)
    requires w.maxErrors >= 1 && p.Group? && k <= |p.items| && index <= hi <= |e.children|
    requires Tail(p, k, e, index, hi, w) && Good(p) && DeterminedChain(p.items[k..], inner) && Decided(p, e, depth, w)
    requires Follows(e, hi, inner)
    ensures MatchSequence(p, k, e, index, depth, 0, w) == Outcome(Some(hi), 0)
    decreases p, 0, |p.items| - k
  {
    hide Matches, Good, Determined, Decided, Follows, MatchParticle;
    if k < |p.items| {
      var mid: nat :| index <= mid <= hi && Matches(p.items[k], e, index, mid, w) && Tail(p, k + 1, e, mid, hi, w);
      assert p.items[k..][1..] == p.items[k + 1..] && p.items[k..][0] == p.items[k];
      GoodItem(p, k);
      DecidedItem(p, k, e, depth, w);
      TailAhead(p, k + 1, e, mid, hi, inner, w);
      ParticleComplete(p.items[k], e, index, mid, Ahead(p.items[k + 1..], inner), depth, w);
      SequenceComplete(p, k + 1, e, mid, hi, inner, depth, w);
    }
  }

  lemma {:induction false} ChoiceComplete(p: Particle, k: nat, i: nat, e: Xml, lo: nat, hi: nat, inner: set<First>,
                                          depth: nat, w: World)
    requires w.maxErrors >= 1 && p.Group? && k <= i < |p.items| && lo < hi <= |e.children|
    requires Matches(p.items[i], e, lo, hi, w) && Good(p) && DeterminedInside(Choice, p.items, inner)
    requires Decided(p, e, depth, w) && Follows(e, hi, inner)
    ensures MatchChoice(p, k, e, lo, depth, 0, w) == Outcome(Some(hi), 0)
    decreases p, 0, |p.items| - k
  {
    hide Matches, Good, Determined, Decided, Follows, MatchParticle, FirstNames;
    GoodItem(p, i);
    MatchesStart(p.items[i], e, lo, hi, w);
    if k == i {
      DecidedItem(p, i, e, depth, w);
      ParticleComplete(p.items[i], e, lo, hi, inner, depth, w);
    } else {
      var q := e.children[lo].qname;
      assert Apart(FirstNames(p.items[k], 0), FirstNames(p.items[i], 0));
      if Listed(FirstNames(p.items[k], 0), q) {
        ApartListed(FirstNames(p.items[k], 0), FirstNames(p.items[i], 0), q);
        assert false;
      }
      ChoiceComplete(p, k + 1, i, e, lo, hi, inner, depth, w);
    }
  }

  // ----- all groups

  predicate OrderOf(p: Particle, order: seq<nat>, seen: set<nat>)
    requires p.Group?
  {
    && (forall i :: 0 <= i < |order| ==> order[i] < |p.items| && order[i] !in seen)
    && (forall i, j :: 0 <= i < j < |order| ==> order[i] != order[j])
    && (forall i :: 0 <= i < |p.items| && i !in order && i !in seen ==> p.items[i].min == 0)
  }

  lemma OthersOptional(p: Particle, order: seq<nat>, e: Xml, hi: nat, w: World)
    requires p.Group? && hi <= |e.children| && Good(p) && IsOrder(order, p.items, e, hi, w)
    ensures OrderOf(p, order, {})
  {
    hide Matches, Good;
    forall i | 0 <= i < |p.items| && i !in order ensures p.items[i].min == 0 {
      GoodItem(p, i);
      NothingOptional(p.items[i], e, hi, w);
    }
  }

  lemma {:induction false} ChosenExact(items: seq<Particle>, i: nat)
    requires i < |items| && forall j :: 0 <= j < |items| ==> items[j].Element?
    requires forall j, k :: 0 <= j < k < |items| ==> items[j].decl.qname != items[k].decl.qname
    ensures Chosen(items, items[i].decl.qname) == Some(i)
    decreases |items|
  {
    var n := |items| - 1;
    assert FirstNames(items[n], 0) == {Name(items[n].decl.qname)};
    if i < n { ChosenExact(items[..n], i); }
  }

  lemma {:induction false} ChosenNone(items: seq<Particle>, q: Text)
    requires forall j :: 0 <= j < |items| ==> items[j].Element? && items[j].decl.qname != q
    ensures Chosen(items, q) == None
    decreases |items|
  {
    if items != [] {
      assert FirstNames(items[|items| - 1], 0) == {Name(items[|items| - 1].decl.qname)};
      ChosenNone(items[..|items| - 1], q);
    }
  }

  /** The names of the other members, and what follows the group. */
  function Others(items: seq<Particle>, a: nat, inner: set<First>): set<First>
    requires forall j :: 0 <= j < |items| ==> items[j].Element?
  {
    (set j | 0 <= j < |items| && j != a :: Name(items[j].decl.qname)) + inner
  }

  lemma MemberDetermined(p: Particle, a: nat, inner: set<First>)
    requires p.Group? && a < |p.items| && DeterminedInside(Every, p.items, inner)
    ensures Determined(p.items[a], Others(p.items, a, inner))
  {
    var q := p.items[a].decl.qname;
    assert FirstNames(p.items[a], 0) == {Name(q)};
    assert Apart({Name(q)}, inner);
    assert Name(q) in inner ==> Name(q) in {Name(q)} * inner;
    var g := Others(p.items, a, inner);
    assert Name(q) !in g by {
      forall j | 0 <= j < |p.items| && j != a ensures p.items[j].decl.qname != q {
        if j < a { assert p.items[j].decl.qname != p.items[a].decl.qname; }
      }
    }
    assert {Name(q)} * g == {};
  }

  lemma {:induction false} EveryAhead(p: Particle, order: seq<nat>, e: Xml, lo: nat, hi: nat, a: nat, inner: set<First>,
                                      w: World)
    requires p.Group? && lo <= hi <= |e.children| && a !in order && Good(p)
    requires forall i :: 0 <= i < |order| ==> order[i] < |p.items|
    requires forall j :: 0 <= j < |p.items| ==> p.items[j].Element?
    requires InSome(p, order, e, lo, hi, w) && Follows(e, hi, inner)
    ensures Follows(e, lo, Others(p.items, a, inner))
    decreases |order|
  {
    hide Matches, Good;
    if order != [] {
      var mid := InSomeFront(p, order, e, lo, hi, w);
      assert order == [order[0]] + order[1..];
      if lo < mid {
        GoodItem(p, order[0]);
        MatchesStart(p.items[order[0]], e, lo, mid, w);
        assert FirstNames(p.items[order[0]], 0) == {Name(p.items[order[0]].decl.qname)};
        assert order[0] != a;
      } else {
        EveryAhead(p, order[1..], e, mid, hi, a, inner, w);
      }
    }
  }

  lemma {:induction false} EveryComplete(p: Particle, order: seq<nat>, seen: set<nat>, e: Xml, index: nat, hi: nat,
                                         inner: set<First>, depth: nat, w: World)
    requires w.maxErrors >= 1 && p.Group? && index <= hi <= |e.children| && OrderOf(p, order, seen)
    requires InSome(p, order, e, index, hi, w) && Good(p) && DeterminedInside(Every, p.items, inner)
    requires Decided(p, e, depth, w) && Follows(e, hi, inner)
    ensures MatchEvery(p, seen, e, index, depth, 0, w) == Outcome(Some(hi), 0)
    decreases p, 0, |order|
  {
    hide Matches, Good, Determined, Decided, MatchParticle;
    if order == [] {
      EveryStops(p, seen, e, hi, inner, depth, w);
    } else {
      var a := order[0];
      var mid := InSomeFront(p, order, e, index, hi, w);
      GoodItem(p, a);
      RestOrder(p, order, seen);
      if index == mid {
        NothingOptional(p.items[a], e, index, w);
        SkipOrder(p, order, seen);
        EveryComplete(p, order[1..], seen, e, mid, hi, inner, depth, w);
      } else {
        MemberTaken(p, order, e, index, mid, hi, inner, depth, w);
        EveryComplete(p, order[1..], seen + {a}, e, mid, hi, inner, depth, w);
      }
    }
  }

  lemma RestOrder(p: Particle, order: seq<nat>, seen: set<nat>)
    requires p.Group? && order != [] && OrderOf(p, order, seen)
    ensures OrderOf(p, order[1..], seen + {order[0]}) && order[0] !in order[1..]
  {
    var rest := order[1..];
    assert forall i :: 0 <= i < |rest| ==> rest[i] == order[i + 1];
    assert order == [order[0]] + rest;
  }

  lemma SkipOrder(p: Particle, order: seq<nat>, seen: set<nat>)
    requires p.Group? && order != [] && OrderOf(p, order, seen) && order[0] < |p.items| && p.items[order[0]].min == 0
    ensures OrderOf(p, order[1..], seen)
  {
    var rest := order[1..];
    assert forall i :: 0 <= i < |rest| ==> rest[i] == order[i + 1];
    assert order == [order[0]] + rest;
  }

  lemma EveryStops(p: Particle, seen: set<nat>, e: Xml, at: nat, inner: set<First>, depth: nat, w: World)
    requires p.Group? && at <= |e.children| && OrderOf(p, [], seen) && DeterminedInside(Every, p.items, inner)
    requires Follows(e, at, inner)
    ensures MatchEvery(p, seen, e, at, depth, 0, w) == Outcome(Some(at), 0)
  {
    if at < |e.children| {
      var q := e.children[at].qname;
      forall j | 0 <= j < |p.items| ensures p.items[j].decl.qname != q {
        if p.items[j].decl.qname == q { ApartListed({Name(q)}, inner, q); }
      }
      ChosenNone(p.items, q);
    }
  }

  /** The next member of the order is the one its name selects, and is matched as far as it goes. */
  lemma {:induction false} MemberTaken(p: Particle, order: seq<nat>, e: Xml, index: nat, mid: nat, hi: nat,
                                       inner: set<First>, depth: nat, w: World)
    requires w.maxErrors >= 1 && p.Group? && index < mid <= hi <= |e.children| && order != []
    requires (forall i :: 0 <= i < |order| ==> order[i] < |p.items|) && order[0] !in order[1..]
    requires Matches(p.items[order[0]], e, index, mid, w) && InSome(p, order[1..], e, mid, hi, w)
    requires Good(p) && Good(p.items[order[0]]) && DeterminedInside(Every, p.items, inner) && Decided(p, e, depth, w)
    requires Follows(e, hi, inner)
    ensures Chosen(p.items, e.children[index].qname) == Some(order[0])
    ensures MatchParticle(p.items[order[0]], e, index, depth, 0, w) == Outcome(Some(mid), 0)
    decreases p, 0, 0
  {
    hide Matches, Good, Determined, Decided, MatchParticle, InSome;
    var a := order[0];
    MatchesStart(p.items[a], e, index, mid, w);
    assert FirstNames(p.items[a], 0) == {Name(p.items[a].decl.qname)};
    ChosenExact(p.items, a);
    MemberDetermined(p, a, inner);
    EveryAhead(p, order[1..], e, mid, hi, a, inner, w);
    DecidedItem(p, a, e, depth, w);
    ParticleComplete(p.items[a], e, index, mid, Others(p.items, a, inner), depth, w);
  }

  // ----- content

  /** A content model that greedy matching reads exactly. */
  predicate Regular(p: Particle) { Good(p) && Determined(p, {}) }

  /** All children are matched and nothing is reported exactly if they are in the language. */
  lemma ContentExact(p: Particle, e: Xml, depth: nat, w: World)
    requires w.maxErrors >= 1 && Regular(p) && Decided(p, e, depth, w)
    ensures MatchParticle(p, e, 0, depth, 0, w) == Outcome(Some(|e.children|), 0) <==>
            Matches(p, e, 0, |e.children|, w)
  {
    hide MatchParticle, Matches, Good, Determined, Decided;
    if MatchParticle(p, e, 0, depth, 0, w) == Outcome(Some(|e.children|), 0) { ParticleSound(p, e, 0, depth, w); }
    if Matches(p, e, 0, |e.children|, w) { ParticleComplete(p, e, 0, |e.children|, {}, depth, w); }
  }

  /** Alternatives that are single elements with distinct names. */
  predicate PlainChoice(p: Particle) {
    && p.Group? && p.kind == Choice
    && (forall i :: 0 <= i < |p.items| ==> p.items[i].Element? && p.items[i].min == 1 && p.items[i].max == Some(1))
    && (forall i, j :: 0 <= i < j < |p.items| ==> p.items[i].decl.qname != p.items[j].decl.qname)
  }

  lemma {:induction false} FlatHeight(items: seq<Particle>)
    requires forall i :: 0 <= i < |items| ==> items[i].Element?
    ensures HeightOf(items) == 0
    decreases |items|
  {
    if items != [] { FlatHeight(items[1..]); }
  }

  lemma PlainRegular(p: Particle)
    requires PlainChoice(p)
    ensures Regular(p)
  {
    FlatHeight(p.items);
    forall i | 0 <= i < |p.items|
      ensures Orderly(p.items[i]) && Determined(p.items[i], Inner(p, {})) && !EmptyWord(p.items[i])
      ensures FirstNames(p.items[i], 0) == {Name(p.items[i].decl.qname)}
    {}
    assert !EmptyInside(p.kind, p.items);
    assert QuietInside(p.kind, p.items);
    assert OrderlyAll(p.items);
    assert Orderly(p);
    forall i, j | 0 <= i < j < |p.items| ensures Apart(FirstNames(p.items[i], 0), FirstNames(p.items[j], 0)) {
      assert {Name(p.items[i].decl.qname)} * {Name(p.items[j].decl.qname)} == {};
    }
    assert DeterminedInside(p.kind, p.items, Inner(p, {}));
  }

  /** However often the choice may occur, its content is matched exactly if it is in the language. */
  lemma ChoiceExact(p: Particle, e: Xml, depth: nat, w: World)
    requires w.maxErrors >= 1 && PlainChoice(p) && Decided(p, e, depth, w)
    ensures MatchParticle(p, e, 0, depth, 0, w) == Outcome(Some(|e.children|), 0) <==>
            Matches(p, e, 0, |e.children|, w)
  {
    PlainRegular(p);
    ContentExact(p, e, depth, w);
  }

  // ----- elements and documents

  /** On a regular content model, an element is accepted exactly if it conforms. */
  lemma ElementExact(e: Xml, d: Decl, depth: nat, w: World)
    requires w.maxErrors >= 1 && depth <= w.maxDepth && ParticleType(e, d, w)
    requires Regular(ParticleOf(e, d, w)) && Decided(ParticleOf(e, d, w), e, depth, w)
    ensures CheckElement(e, d, depth, 0, w) == 0 <==> Conforms(e, d, w)
  {
    hide MatchParticle, Matches, Regular, Decided;
    var p := ParticleOf(e, d, w);
    if CheckElement(e, d, depth, 0, w) == 0 { ElementSound(e, d, depth, w); }
    if Conforms(e, d, w) {
      ContentExact(p, e, depth, w);
      assert CheckComplex(e, w.types[d.typ.name].content, depth, 0, w) == 0;
      assert CheckType(e, d.typ, depth, 0, w) == 0;
    }
  }

  /** Every content model of the schema is regular, no value is fixed, and attributes and values are fine. */
  ghost predicate Schema(w: World) {
    && w.maxErrors >= 1
    && (forall e, c :: w.lib.attributeIssues(e, c) == 0) && (forall e, t :: w.lib.valueIssues(e, t) == 0)
    && forall name :: name in w.types && w.types[name].Complex? && w.types[name].content.particle.Some? ==>
         var p := w.types[name].content.particle.value;
         Regular(p) && forall d :: d in Decls(p) ==> d.fixed.None?
  }

  /** No text anywhere. */
  predicate Textless(e: Xml)
    decreases e
  {
    e.text == [] && forall t :: 0 <= t < |e.children| ==> Textless(e.children[t])
  }

  function Levels(e: Xml): nat
    decreases e, 1
  {
    1 + LevelsOf(e.children)
  }

  function LevelsOf(es: seq<Xml>): nat
    decreases es, 0
  {
    if es == [] then 0
    else
      var a, b := Levels(es[0]), LevelsOf(es[1..]);
      if a > b then a else b
  }

  lemma {:induction false} LevelsIn(es: seq<Xml>, t: nat)
    requires t < |es|
    ensures Levels(es[t]) <= LevelsOf(es)
    decreases t
  {
    if t > 0 { LevelsIn(es[1..], t - 1); }
  }

  /** A document within the nesting bound is accepted exactly if it conforms, at every level. */
  lemma {:induction false} DocumentExact(e: Xml, d: Decl, depth: nat, w: World)
    requires Schema(w) && Textless(e) && d.fixed.None? && depth + Levels(e) <= w.maxDepth + 1
    ensures CheckElement(e, d, depth, 0, w) == 0 <==> Conforms(e, d, w)
    decreases e
  {
    hide MatchParticle, Matches, Good, Determined, FirstNames;
    if CheckElement(e, d, depth, 0, w) == 0 { ElementSound(e, d, depth, w); }
    if Conforms(e, d, w) && !e.nil && d.typ.Named? && w.types[d.typ.name].Complex? {
      var c := w.types[d.typ.name].content;
      if c.textType.None? && c.particle.Some? {
        var p := c.particle.value;
        forall t, d' | 0 <= t < |e.children| && d' in Decls(p) && Conforms(e.children[t], d', w)
          ensures CheckElement(e.children[t], d', depth + 1, 0, w) == 0
        {
          LevelsIn(e.children, t);
          DocumentExact(e.children[t], d', depth + 1, w);
        }
        assert Decided(p, e, depth, w);
        assert ParticleType(e, d, w);
        ElementExact(e, d, depth, w);
      } else {
        assert CheckComplex(e, c, depth, 0, w) == 0;
        assert CheckType(e, d.typ, depth, 0, w) == 0;
      }
    }
  }
}

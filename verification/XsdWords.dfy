/**
 The language of a content model over element names alone, children's own content apart, and what
 its words can begin with. The scan of first names is compared with that, for every particle.
 */
module XsdWords {
  import opened Text
  import opened XsdModel
  import opened XsdSoundness
  import opened XsdExactness

  // ----- words of names

  type Word = seq<Text>

  /** Lists of names the particle matches, however often it may occur. */
  ghost predicate Accepted(p: Particle, s: Word)
    decreases p, 3
  {
    exists n: nat :: p.min <= n && (p.max.Some? ==> n <= p.max.value) && Times(p, n, s)
  }

  ghost predicate Times(p: Particle, n: nat, s: Word)
    decreases p, 2, n
  {
    if n == 0 then s == []
    else exists k :: 0 <= k <= |s| && Single(p, s[..k]) && Times(p, n - 1, s[k..])
  }

  /** One occurrence. */
  ghost predicate Single(p: Particle, s: Word)
    decreases p, 1
  {
    match p
    case Element(_, _, d) => s == [d.qname]
    case Wildcard(_, _) => |s| == 1
    case Group(Sequence, _, _, items) => Chain(items, s)
    case Group(Choice, _, _, items) => exists i :: 0 <= i < |items| && Accepted(items[i], s)
    case Group(Every, _, _, items) => Shuffle(items, Places(|items|), s)
  }

  ghost predicate Chain(items: seq<Particle>, s: Word)
    decreases items, 0
  {
    if items == [] then s == []
    else exists k :: 0 <= k <= |s| && Accepted(items[0], s[..k]) && Chain(items[1..], s[k..])
  }

  function Places(n: nat): (r: set<nat>)
    ensures forall i: nat :: i in r <==> i < n
  {
    if n == 0 then {} else Places(n - 1) + {n - 1}
  }

  /** Each of the members left, once, in some order; the ones that match nothing may stay away. */
  ghost predicate Shuffle(items: seq<Particle>, left: set<nat>, s: Word)
    decreases items, 0, left
  {
    || (s == [] && forall i :: i in left && i < |items| ==> Accepted(items[i], []))
    || (exists i: nat, k :: i in left && i < |items| && 0 <= k <= |s| && Accepted(items[i], s[..k])
          && Shuffle(items, left - {i}, s[k..]))
  }

  // ----- the same language as that of child lists

  function NamesIn(e: Xml, lo: nat, hi: nat): Word
    requires lo <= hi <= |e.children|
  {
    seq(hi - lo, t requires 0 <= t < hi - lo => e.children[lo + t].qname)
  }

  lemma NamesSplit(e: Xml, lo: nat, mid: nat, hi: nat)
    requires lo <= mid <= hi <= |e.children|
    ensures NamesIn(e, lo, hi)[..mid - lo] == NamesIn(e, lo, mid)
    ensures NamesIn(e, lo, hi)[mid - lo..] == NamesIn(e, mid, hi)
  {
  }

  lemma {:induction false} TimesJoin(p: Particle, n: nat, s: Word, t: Word)
    requires Times(p, n, s) && Single(p, t)
    ensures Times(p, n + 1, s + t)
    decreases n
  {
    hide Single;
    if n == 0 {
      assert s + t == t && t[..|t|] == t && t[|t|..] == [];
      assert Times(p, 0, t[|t|..]);
    } else {
      var k :| 0 <= k <= |s| && Single(p, s[..k]) && Times(p, n - 1, s[k..]);
      TimesJoin(p, n - 1, s[k..], t);
      assert (s + t)[..k] == s[..k] && (s + t)[k..] == s[k..] + t;
    }
  }

  lemma {:induction false} MatchesNamed(p: Particle, e: Xml, lo: nat, hi: nat, w: World)
    requires lo <= hi <= |e.children| && Matches(p, e, lo, hi, w)
    ensures Accepted(p, NamesIn(e, lo, hi))
    decreases p, 3
  {
    hide Times, Repeats;
    var n: nat :| p.min <= n && (p.max.Some? ==> n <= p.max.value) && Repeats(p, n, e, lo, hi, w);
    RepeatsNamed(p, n, e, lo, hi, w);
  }

  lemma {:induction false} RepeatsNamed(p: Particle, n: nat, e: Xml, lo: nat, hi: nat, w: World)
    requires lo <= hi <= |e.children| && Repeats(p, n, e, lo, hi, w)
    ensures Times(p, n, NamesIn(e, lo, hi))
    decreases p, 2, n
  {
    hide Once, Single;
    if n > 0 {
      var mid :| lo <= mid <= hi && Repeats(p, n - 1, e, lo, mid, w) && Once(p, e, mid, hi, w);
      RepeatsNamed(p, n - 1, e, lo, mid, w);
      OnceNamed(p, e, mid, hi, w);
      TimesJoin(p, n - 1, NamesIn(e, lo, mid), NamesIn(e, mid, hi));
      assert NamesIn(e, lo, hi) == NamesIn(e, lo, mid) + NamesIn(e, mid, hi);
    }
  }

  lemma {:induction false} OnceNamed(p: Particle, e: Xml, lo: nat, hi: nat, w: World)
    requires lo <= hi <= |e.children| && Once(p, e, lo, hi, w)
    ensures Single(p, NamesIn(e, lo, hi))
    decreases p, 1
  {
    match p {
      case Element(_, _, d) =>
      case Wildcard(_, _) =>
      case Group(Sequence, _, _, items) =>
        TailFrom(p, |items|, e, lo, hi, hi, w);
        TailNamed(p, 0, e, lo, hi, w);
        assert items[0..] == items;
      case Group(Choice, _, _, items) =>
        hide Matches, Accepted;
        var i :| 0 <= i < |items| && Matches(items[i], e, lo, hi, w);
        MatchesNamed(items[i], e, lo, hi, w);
      case Group(Every, _, _, items) =>
        hide Matches;
        var order: seq<nat> :| IsOrder(order, items, e, hi, w) && InSome(p, order, e, lo, hi, w);
        EveryNamed(p, order, Places(|items|), e, lo, hi, w);
    }
  }

  /** The items from `k` on match the children from `lo` on, one after another. */
  ghost predicate Tail(p: Particle, k: nat, e: Xml, lo: nat, hi: nat, w: World)
    requires p.Group? && k <= |p.items| && lo <= hi <= |e.children|
    decreases |p.items| - k
  {
    if k == |p.items| then lo == hi
    else exists mid :: lo <= mid <= hi && Matches(p.items[k], e, lo, mid, w) && Tail(p, k + 1, e, mid, hi, w)
  }

  lemma {:induction false} TailFrom(p: Particle, k: nat, e: Xml, lo: nat, mid: nat, hi: nat, w: World)
    requires p.Group? && k <= |p.items| && lo <= mid <= hi <= |e.children|
    requires InOrder(p, k, e, lo, mid, w) && Tail(p, k, e, mid, hi, w)
    ensures Tail(p, 0, e, lo, hi, w)
    decreases k
  {
    hide Matches;
    if k > 0 {
      var m: nat :| lo <= m <= mid && InOrder(p, k - 1, e, lo, m, w) && Matches(p.items[k - 1], e, m, mid, w);
      assert Tail(p, k - 1, e, m, hi, w);
      TailFrom(p, k - 1, e, lo, m, hi, w);
    }
  }

  lemma {:induction false} TailNamed(p: Particle, k: nat, e: Xml, lo: nat, hi: nat, w: World)
    requires p.Group? && k <= |p.items| && lo <= hi <= |e.children| && Tail(p, k, e, lo, hi, w)
    ensures Chain(p.items[k..], NamesIn(e, lo, hi))
    decreases p, 0, |p.items| - k
  {
    hide Matches, Accepted;
    if k < |p.items| {
      var mid: nat :| lo <= mid <= hi && Matches(p.items[k], e, lo, mid, w) && Tail(p, k + 1, e, mid, hi, w);
      MatchesNamed(p.items[k], e, lo, mid, w);
      TailNamed(p, k + 1, e, mid, hi, w);
      NamesSplit(e, lo, mid, hi);
      assert p.items[k..][1..] == p.items[k + 1..] && p.items[k..][0] == p.items[k];
      var s := NamesIn(e, lo, hi);
      assert Accepted(p.items[k..][0], s[..mid - lo]) && Chain(p.items[k..][1..], s[mid - lo..]);
    }
  }

  /** The first of an order, and then the others. */
  lemma {:induction false} InSomeFront(p: Particle, order: seq<nat>, e: Xml, lo: nat, hi: nat, w: World)
    returns (mid: nat)
    requires p.Group? && lo <= hi <= |e.children| && order != []
    requires forall i :: 0 <= i < |order| ==> order[i] < |p.items|
    requires InSome(p, order, e, lo, hi, w)
    ensures lo <= mid <= hi && Matches(p.items[order[0]], e, lo, mid, w) && InSome(p, order[1..], e, mid, hi, w)
    decreases |order|
  {
    hide Matches;
    var n := |order| - 1;
    var m: nat :| lo <= m <= hi && InSome(p, order[..n], e, lo, m, w) && Matches(p.items[order[n]], e, m, hi, w);
    if n == 0 {
      mid := hi;
      assert order[1..] == [] && m == lo;
    } else {
      mid := InSomeFront(p, order[..n], e, lo, m, w);
      assert order[1..][..n - 1] == order[..n][1..] && order[1..][n - 1] == order[n];
      assert InSome(p, order[1..], e, mid, hi, w);
    }
  }

  lemma {:induction false} EveryNamed(p: Particle, order: seq<nat>, left: set<nat>, e: Xml, lo: nat, hi: nat, w: World)
    requires p.Group? && lo <= hi <= |e.children|
    requires forall i :: 0 <= i < |order| ==> order[i] < |p.items| && order[i] in left
    requires forall i, j :: 0 <= i < j < |order| ==> order[i] != order[j]
    requires forall i :: i in left && i < |p.items| && i !in order ==> Matches(p.items[i], e, hi, hi, w)
    requires InSome(p, order, e, lo, hi, w)
    ensures Shuffle(p.items, left, NamesIn(e, lo, hi))
    decreases p, 0, |order|
  {
    hide Matches, Accepted;
    if order == [] {
      assert NamesIn(e, lo, hi) == [];
      forall i | i in left && i < |p.items| ensures Accepted(p.items[i], []) {
        MatchesNamed(p.items[i], e, hi, hi, w);
        assert NamesIn(e, hi, hi) == [];
      }
    } else {
      var i := order[0];
      var mid := InSomeFront(p, order, e, lo, hi, w);
      MatchesNamed(p.items[i], e, lo, mid, w);
      assert forall j :: 0 <= j < |order[1..]| ==> order[1..][j] == order[j + 1];
      assert order == [i] + order[1..];
      EveryNamed(p, order[1..], left - {i}, e, mid, hi, w);
      NamesSplit(e, lo, mid, hi);
      var s := NamesIn(e, lo, hi);
      assert Accepted(p.items[i], s[..mid - lo]) && Shuffle(p.items, left - {i}, s[mid - lo..]);
    }
  }

  // ----- every word is that of some child list

  function TypeNames(p: Particle): set<Text>
    decreases p, 1
  {
    match p
    case Element(_, _, d) => if d.typ.Named? then {d.typ.name} else {}
    case Wildcard(_, _) => {}
    case Group(_, _, _, items) => TypeNamesOf(items)
  }

  function TypeNamesOf(items: seq<Particle>): set<Text>
    decreases items, 0
  {
    if items == [] then {} else TypeNames(items[0]) + TypeNamesOf(items[1..])
  }

  lemma {:induction false} TypeNamesIn(items: seq<Particle>, i: nat)
    requires i < |items|
    ensures TypeNames(items[i]) <= TypeNamesOf(items)
    decreases i
  {
    if i > 0 { TypeNamesIn(items[1..], i - 1); }
  }

  /** Elements without children, and a world in which that conforms to every type of the particle. */
  ghost predicate Leaves(e: Xml) {
    forall t :: 0 <= t < |e.children| ==> !e.children[t].nil && e.children[t].children == []
  }

  ghost predicate Bare(p: Particle, w: World) {
    forall n :: n in TypeNames(p) ==> n in w.types && w.types[n].SimpleType?
  }

  lemma BareItem(p: Particle, i: nat, w: World)
    requires p.Group? && i < |p.items| && Bare(p, w)
    ensures Bare(p.items[i], w)
  {
    TypeNamesIn(p.items, i);
  }

  lemma {:induction false} RepeatsFront(p: Particle, n: nat, e: Xml, lo: nat, mid: nat, hi: nat, w: World)
    requires lo <= mid <= hi <= |e.children| && Once(p, e, lo, mid, w) && Repeats(p, n, e, mid, hi, w)
    ensures Repeats(p, n + 1, e, lo, hi, w)
    decreases n
  {
    hide Once;
    if n == 0 {
      assert Repeats(p, 0, e, lo, lo, w);
      assert lo <= lo <= hi && Repeats(p, 0, e, lo, lo, w) && Once(p, e, lo, hi, w);
    } else {
      var m :| mid <= m <= hi && Repeats(p, n - 1, e, mid, m, w) && Once(p, e, m, hi, w);
      RepeatsFront(p, n - 1, e, lo, mid, m, w);
      assert lo <= m <= hi && Repeats(p, n, e, lo, m, w) && Once(p, e, m, hi, w);
    }
  }

  lemma {:induction false} AcceptedMatches(p: Particle, e: Xml, lo: nat, hi: nat, w: World)
    requires lo <= hi <= |e.children| && Leaves(e) && Bare(p, w) && Accepted(p, NamesIn(e, lo, hi))
    ensures Matches(p, e, lo, hi, w)
    decreases p, 3
  {
    hide Times, Repeats;
    var n: nat :| p.min <= n && (p.max.Some? ==> n <= p.max.value) && Times(p, n, NamesIn(e, lo, hi));
    TimesRepeats(p, n, e, lo, hi, w);
  }

  lemma {:induction false} TimesRepeats(p: Particle, n: nat, e: Xml, lo: nat, hi: nat, w: World)
    requires lo <= hi <= |e.children| && Leaves(e) && Bare(p, w) && Times(p, n, NamesIn(e, lo, hi))
    ensures Repeats(p, n, e, lo, hi, w)
    decreases p, 2, n
  {
    hide Once, Single, Leaves, Bare;
    var s := NamesIn(e, lo, hi);
    if n == 0 {
      assert |s| == hi - lo;
    } else {
      var k :| 0 <= k <= |s| && Single(p, s[..k]) && Times(p, n - 1, s[k..]);
      NamesSplit(e, lo, lo + k, hi);
      SingleOnce(p, e, lo, lo + k, w);
      TimesRepeats(p, n - 1, e, lo + k, hi, w);
      RepeatsFront(p, n - 1, e, lo, lo + k, hi, w);
    }
  }

  lemma LeafConforms(e: Xml, d: Decl, w: World)
    requires !e.nil && e.children == [] && (d.typ.Named? ==> d.typ.name in w.types && w.types[d.typ.name].SimpleType?)
    ensures Conforms(e, d, w)
  {
  }

  lemma {:induction false} SingleOnce(p: Particle, e: Xml, lo: nat, hi: nat, w: World)
    requires lo <= hi <= |e.children| && Leaves(e) && Bare(p, w) && Single(p, NamesIn(e, lo, hi))
    ensures Once(p, e, lo, hi, w)
    decreases p, 1
  {
    var s := NamesIn(e, lo, hi);
    match p {
      case Element(_, _, d) =>
        assert |s| == 1 && s[0] == d.qname;
        LeafConforms(e.children[lo], d, w);
      case Wildcard(_, _) => assert |s| == hi - lo;
      case Group(Sequence, _, _, items) =>
        assert items[0..] == items;
        ChainTail(p, 0, e, lo, hi, w);
        assert InOrder(p, 0, e, lo, lo, w);
        OrderFrom(p, 0, e, lo, lo, hi, w);
      case Group(Choice, _, _, items) =>
        hide Matches, Accepted;
        var i :| 0 <= i < |items| && Accepted(items[i], s);
        BareItem(p, i, w);
        AcceptedMatches(items[i], e, lo, hi, w);
      case Group(Every, _, _, items) =>
        hide Matches, Accepted;
        var order := ShuffleOrder(p, Places(|items|), e, lo, hi, w);
        assert IsOrder(order, items, e, hi, w);
    }
  }

  lemma {:induction false} ChainTail(p: Particle, k: nat, e: Xml, lo: nat, hi: nat, w: World)
    requires p.Group? && k <= |p.items| && lo <= hi <= |e.children| && Leaves(e) && Bare(p, w)
    requires Chain(p.items[k..], NamesIn(e, lo, hi))
    ensures Tail(p, k, e, lo, hi, w)
    decreases p, 0, |p.items| - k
  {
    hide Matches, Accepted, Leaves, Bare;
    var s := NamesIn(e, lo, hi);
    if k == |p.items| {
      assert |s| == hi - lo;
    } else {
      assert p.items[k..][1..] == p.items[k + 1..] && p.items[k..][0] == p.items[k];
      var m :| 0 <= m <= |s| && Accepted(p.items[k..][0], s[..m]) && Chain(p.items[k..][1..], s[m..]);
      NamesSplit(e, lo, lo + m, hi);
      BareItem(p, k, w);
      AcceptedMatches(p.items[k], e, lo, lo + m, w);
      ChainTail(p, k + 1, e, lo + m, hi, w);
    }
  }

  lemma {:induction false} OrderFrom(p: Particle, k: nat, e: Xml, lo: nat, mid: nat, hi: nat, w: World)
    requires p.Group? && k <= |p.items| && lo <= mid <= hi <= |e.children|
    requires InOrder(p, k, e, lo, mid, w) && Tail(p, k, e, mid, hi, w)
    ensures InOrder(p, |p.items|, e, lo, hi, w)
    decreases |p.items| - k
  {
    hide Matches;
    if k < |p.items| {
      var m: nat :| mid <= m <= hi && Matches(p.items[k], e, mid, m, w) && Tail(p, k + 1, e, m, hi, w);
      assert InOrder(p, k + 1, e, lo, m, w);
      OrderFrom(p, k + 1, e, lo, m, hi, w);
    }
  }

  lemma {:induction false} InSomeNext(p: Particle, a: nat, order: seq<nat>, e: Xml, lo: nat, mid: nat, hi: nat,
                                      w: World)
    requires p.Group? && lo <= mid <= hi <= |e.children| && a < |p.items|
    requires forall i :: 0 <= i < |order| ==> order[i] < |p.items|
    requires Matches(p.items[a], e, lo, mid, w) && InSome(p, order, e, mid, hi, w)
    ensures InSome(p, [a] + order, e, lo, hi, w)
    decreases |order|
  {
    hide Matches;
    var longer := [a] + order;
    var n := |order|;
    assert longer[n] == if n == 0 then a else order[n - 1];
    if n == 0 {
      assert longer[..0] == [] && InSome(p, [], e, lo, lo, w);
      assert lo <= lo <= hi && InSome(p, longer[..0], e, lo, lo, w) && Matches(p.items[longer[0]], e, lo, hi, w);
    } else {
      var m: nat :| mid <= m <= hi && InSome(p, order[..n - 1], e, mid, m, w)
        && Matches(p.items[order[n - 1]], e, m, hi, w);
      InSomeNext(p, a, order[..n - 1], e, lo, mid, m, w);
      assert longer[..n] == [a] + order[..n - 1];
      assert lo <= m <= hi && InSome(p, longer[..n], e, lo, m, w) && Matches(p.items[longer[n]], e, m, hi, w);
    }
  }

  /** Distinct members among those left, and the others match nothing. */
  ghost predicate Orders(p: Particle, order: seq<nat>, left: set<nat>, e: Xml, hi: nat, w: World)
    requires p.Group? && hi <= |e.children|
  {
    && (forall i :: 0 <= i < |order| ==> order[i] < |p.items| && order[i] in left)
    && (forall i, j :: 0 <= i < j < |order| ==> order[i] != order[j])
    && (forall i :: i in left && i < |p.items| && i !in order ==> Matches(p.items[i], e, hi, hi, w))
  }

  lemma NoneLeft(p: Particle, left: set<nat>, e: Xml, hi: nat, w: World)
    requires p.Group? && hi <= |e.children| && Leaves(e) && Bare(p, w)
    requires forall i :: i in left && i < |p.items| ==> Accepted(p.items[i], [])
    ensures Orders(p, [], left, e, hi, w) && InSome(p, [], e, hi, hi, w)
    decreases p, 0, 0
  {
    hide Matches, Accepted, Leaves, Bare;
    forall i | i in left && i < |p.items| ensures Matches(p.items[i], e, hi, hi, w) {
      BareItem(p, i, w);
      assert NamesIn(e, hi, hi) == [];
      AcceptedMatches(p.items[i], e, hi, hi, w);
    }
  }

  lemma OneMore(p: Particle, i: nat, rest: seq<nat>, left: set<nat>, e: Xml, hi: nat, w: World)
    requires p.Group? && hi <= |e.children| && i in left && i < |p.items| && Orders(p, rest, left - {i}, e, hi, w)
    ensures Orders(p, [i] + rest, left, e, hi, w)
  {
    hide Matches;
    var order := [i] + rest;
    assert forall j :: 0 <= j < |rest| ==> order[j + 1] == rest[j];
    forall k | k in left && k < |p.items| && k !in order ensures Matches(p.items[k], e, hi, hi, w) {
      assert order[0] == i && k != i;
      assert k !in rest;
    }
  }

  ghost predicate NothingMore(items: seq<Particle>, left: set<nat>, s: Word) {
    s == [] && forall i :: i in left && i < |items| ==> Accepted(items[i], [])
  }

  lemma TakeOne(items: seq<Particle>, left: set<nat>, s: Word) returns (i: nat, k: nat)
    requires Shuffle(items, left, s) && !NothingMore(items, left, s)
    ensures i in left && i < |items| && k <= |s| && Accepted(items[i], s[..k]) && Shuffle(items, left - {i}, s[k..])
  {
    hide Accepted;
    i, k :| i in left && i < |items| && 0 <= k <= |s| && Accepted(items[i], s[..k])
      && Shuffle(items, left - {i}, s[k..]);
  }

  lemma {:induction false} ShuffleOrder(p: Particle, left: set<nat>, e: Xml, lo: nat, hi: nat, w: World)
    returns (order: seq<nat>)
    requires p.Group? && lo <= hi <= |e.children| && Leaves(e) && Bare(p, w)
    requires Shuffle(p.items, left, NamesIn(e, lo, hi))
    ensures Orders(p, order, left, e, hi, w) && InSome(p, order, e, lo, hi, w)
    decreases p, 0, 1, left
  {
    hide Matches, Accepted, Leaves, Bare, Orders, Shuffle, InSome;
    var s := NamesIn(e, lo, hi);
    if NothingMore(p.items, left, s) {
      order := [];
      assert |s| == hi - lo;
      NoneLeft(p, left, e, hi, w);
    } else {
      var i, k := TakeOne(p.items, left, s);
      NamesSplit(e, lo, lo + k, hi);
      BareItem(p, i, w);
      AcceptedMatches(p.items[i], e, lo, lo + k, w);
      var rest := ShuffleOrder(p, left - {i}, e, lo + k, hi, w);
      OrderedIn(p, rest, left - {i}, e, hi, w);
      InSomeNext(p, i, rest, e, lo, lo + k, hi, w);
      OneMore(p, i, rest, left, e, hi, w);
      order := [i] + rest;
    }
  }

  lemma OrderedIn(p: Particle, order: seq<nat>, left: set<nat>, e: Xml, hi: nat, w: World)
    requires p.Group? && hi <= |e.children| && Orders(p, order, left, e, hi, w)
    ensures forall j :: 0 <= j < |order| ==> order[j] < |p.items|
  {
  }

  function LeafOf(qname: Text): Xml { Xml(qname, false, [], []) }

  /** A list of empty elements with these names. */
  function ListOf(s: Word): Xml { Xml([], false, [], seq(|s|, t requires 0 <= t < |s| => LeafOf(s[t]))) }

  function BareWorld(p: Particle): World {
    World(map n | n in TypeNames(p) :: SimpleType, 1, 64, Library((e, c) => 0, (e, t) => 0))
  }

  /** A word is accepted exactly if some child list has its names and conforms, in some world. */
  lemma WordExact(p: Particle, s: Word)
    ensures Single(p, s)
            <==> exists e: Xml, w: World :: NamesIn(e, 0, |e.children|) == s && Once(p, e, 0, |e.children|, w)
  {
    hide Single, Once;
    var e, w := ListOf(s), BareWorld(p);
    assert NamesIn(e, 0, |e.children|) == s;
    if Single(p, s) { SingleOnce(p, e, 0, |e.children|, w); }
    if e': Xml, w': World :| NamesIn(e', 0, |e'.children|) == s && Once(p, e', 0, |e'.children|, w') {
      OnceNamed(p, e', 0, |e'.children|, w');
    }
  }

  lemma EmptyAccepted(p: Particle)
    ensures Accepted(p, []) <==> EmptyWord(p)
  {
    hide Accepted, Matches;
    var e, w := ListOf([]), BareWorld(p);
    assert NamesIn(e, 0, 0) == [];
    EmptyWordExact(p, e, 0, w);
    if Accepted(p, []) { AcceptedMatches(p, e, 0, 0, w); }
    if EmptyWord(p) { MatchesNamed(p, e, 0, 0, w); }
  }
}

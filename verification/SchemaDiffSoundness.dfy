/**
 Why a clean comparison can be trusted: if the request side reports nothing breaking and the
 budget was not exhausted, every value the old (possibly recursive) schema accepts is accepted by
 the new one. The memo is read as a relation between schema pairs, and the proof inducts on values.
 */
module SchemaDiffSoundness {
  import opened Text
  import opened Json
  import opened Canonical
  import opened SchemaDiff

  // ----- what a schema means

  /** Which values a type name covers; the theorem holds for every reading of the names. */
  type Meaning = (Json, Text) -> bool

  /** References followed for up to `hops` steps. */
  function Resolve(s: Schema, c: Components, hops: nat): Schema
    decreases hops
  {
    if hops == 0 then s else Resolve(Deref(s, c), c, hops - 1)
  }

  predicate TypeAccepts(v: Json, t: TypeKeyword, means: Meaning) {
    match t
    case Untyped => true
    case OneType(name) => means(v, name)
    case ManyTypes(names) => exists i :: 0 <= i < |names| && means(v, names[i])
  }

  ghost predicate EnumAccepts(v: Json, enum: Option<seq<Json>>) {
    enum.Some? ==> exists k :: 0 <= k < |enum.value| && Same(enum.value[k], v)
  }

  ghost predicate Valid(v: Json, s: Schema, c: Components, hops: nat, means: Meaning)
    decreases v
  {
    var t := Resolve(s, c, hops);
    match t
    case Missing => true
    case Boolean(accepts) => accepts
    case Object(_, typ, enum, required, properties, items) =>
      && TypeAccepts(v, typ, means)
      && EnumAccepts(v, enum)
      && (v.Obj? ==>
            && (forall k :: 0 <= k < |required| ==> HasKey(v.members, required[k]))
            && (forall i :: 0 <= i < |v.members| && Declares(t, v.members[i].key) ==>
                  Valid(v.members[i].value, PropertyOf(t, v.members[i].key), c, hops, means)))
      && (v.Arr? && items.Some? ==>
            forall i :: 0 <= i < |v.items| ==> Valid(v.items[i], items.value, c, hops, means))
  }

  /** At every level, the value uses no property that only the new revision declares. */
  ghost predicate OldShape(v: Json, was: Schema, now: Schema, cx: Setting)
    decreases v
  {
    var w, n := Deref(was, cx.from), Deref(now, cx.to);
    w.Object? && n.Object? ==>
      && (v.Obj? ==>
            forall i :: 0 <= i < |v.members| && Declares(n, v.members[i].key) ==>
              && Declares(w, v.members[i].key)
              && OldShape(v.members[i].value, PropertyOf(w, v.members[i].key), PropertyOf(n, v.members[i].key), cx))
      && (v.Arr? && w.items.Some? && n.items.Some? ==>
            forall i :: 0 <= i < |v.items| ==> OldShape(v.items[i], w.items.value, n.items.value, cx))
  }

  // ----- the fragment the comparison looks at

  predicate NoBar(s: Text) { 124 !in s }

  predicate TypeSane(t: TypeKeyword) {
    match t
    case Untyped => true
    case OneType(name) => name != [] && NoBar(name)
    case ManyTypes(names) => names != [] && forall i :: 0 <= i < |names| ==> names[i] != [] && NoBar(names[i])
  }

  ghost predicate EnumSane(enum: Option<seq<Json>>) {
    enum.Some? ==> forall i :: 0 <= i < |enum.value| ==> WellFormed(enum.value[i])
  }

  /** A reference stands on both sides or on neither, and it resolves. */
  predicate RefsPaired(was: Schema, now: Schema, cx: Setting)
    requires was.Object? && now.Object?
  {
    && (was.ref.Some? <==> now.ref.Some?)
    && (was.ref.Some? ==>
          && Local(was.ref.value) && NoBar(was.ref.value) && was.ref.value in cx.from
          && Local(now.ref.value) && NoBar(now.ref.value) && now.ref.value in cx.to)
  }

  /** Keywords of the shapes a JSON document can hold, with names the joined key keeps apart. */
  ghost predicate ShapesSane(w: Schema, n: Schema) {
    w.Object? && n.Object? && TypeSane(w.typ) && TypeSane(n.typ) && EnumSane(w.enum) && EnumSane(n.enum)
  }

  ghost predicate ShapesComparable(w: Schema, n: Schema) {
    && ShapesSane(w, n) && w.ref.None? && n.ref.None?
    && (n.enum.Some? ==> w.enum.Some?)
    && (n.items.Some? ==> w.items.Some?)
    && (forall k :: 0 <= k < |n.required| ==> Declares(n, n.required[k]) || n.required[k] in w.required)
  }

  /** A set of schema pairs that the memo can tell apart, closed under descent. */
  ghost predicate Tracked(pairs: iset<(Schema, Schema)>, cx: Setting) {
    forall was, now :: (was, now) in pairs ==> PairTracked(was, now, pairs, cx)
  }

  ghost predicate PairTracked(was: Schema, now: Schema, pairs: iset<(Schema, Schema)>, cx: Setting) {
    && was.Object? && now.Object? && RefsPaired(was, now, cx)
    && var w, n := Deref(was, cx.from), Deref(now, cx.to);
       && w.Object? && n.Object?
       && (forall name :: Declares(w, name) && Declares(n, name) ==>
             (PropertyOf(w, name), PropertyOf(n, name)) in pairs)
       && (w.items.Some? && n.items.Some? ==> (w.items.value, n.items.value) in pairs)
  }

  /** Such a set in which every pair is comparable. */
  ghost predicate Fragment(pairs: iset<(Schema, Schema)>, cx: Setting) {
    && Tracked(pairs, cx)
    && forall was, now :: (was, now) in pairs ==> ShapesComparable(Deref(was, cx.from), Deref(now, cx.to))
  }

  // ----- the relation the memo stands for

  /** The pair passes every local rule of the side, and its children are covered by the memo `s`. */
  ghost predicate Clean(side: Side, w: Schema, n: Schema, s: set<Text>)
    decreases w, 1
  {
    && w.Object? && n.Object? && !TypeChanged(w, n)
    && (side == Request ==> !EnumLoss(w, n))
    && (side == Response ==> forall i :: 0 <= i < |w.properties| ==> Declares(n, w.properties[i].name))
    && (forall i :: 0 <= i < |n.properties| ==> PropertyClean(side, w, n, n.properties[i].name, s))
    && (w.items.Some? && n.items.Some? ==> Covered(side, w.items.value, n.items.value, s))
  }

  ghost predicate PropertyClean(side: Side, w: Schema, n: Schema, name: Text, s: set<Text>)
    requires w.Object? && n.Object?
    decreases w, 0
  {
    if !Declares(w, name) then side == Request ==> name !in n.required
    else
      && (side == Request ==> !RequiredNow(w, n, name))
      && Covered(side, PropertyOf(w, name), PropertyOf(n, name), s)
  }

  /** Remembered by its references, or inline and clean. */
  ghost predicate Covered(side: Side, was: Schema, now: Schema, s: set<Text>)
    decreases was, 2
  {
    var key := MemoKey(was, now);
    if key.Some? then key.value in s else Clean(side, was, now, s)
  }

  /** Every pair remembered in `s` but not in `s0` has been found clean. */
  ghost predicate NewlyClean(s0: set<Text>, s: set<Text>, pairs: iset<(Schema, Schema)>, cx: Setting) {
    forall was, now :: (was, now) in pairs && Remembered(was, now, s) && !Remembered(was, now, s0) ==>
      Clean(cx.side, Deref(was, cx.from), Deref(now, cx.to), s)
  }

  predicate Remembered(was: Schema, now: Schema, s: set<Text>) {
    MemoKey(was, now).Some? && MemoKey(was, now).value in s
  }

  // ----- small facts

  lemma BreaksConcat(a: seq<Detail>, b: seq<Detail>)
    ensures Breaks(a + b) <==> Breaks(a) || Breaks(b)
  {
    assert forall i :: 0 <= i < |a| ==> (a + b)[i] == a[i];
    assert forall i :: 0 <= i < |b| ==> (a + b)[|a| + i] == b[i];
  }

  lemma OneBreaks(d: Detail)
    requires d.breaking
    ensures Breaks([d])
  {
    assert [d][0].breaking;
  }

  lemma SplitAtBar(a: Text, b: Text, c: Text, d: Text)
    requires NoBar(a) && NoBar(c) && a + [124] + b == c + [124] + d
    ensures a == c && b == d
  {
    var l, r := a + [124] + b, c + [124] + d;
    assert forall i :: 0 <= i < |a| ==> l[i] == a[i] && a[i] in a;
    assert forall i :: 0 <= i < |c| ==> r[i] == c[i] && c[i] in c;
    assert l[|a|] == 124 && r[|c|] == 124;
    assert a == l[..|a|] && c == r[..|c|];
    assert b == l[|a| + 1..] && d == r[|c| + 1..];
  }

  lemma SplitAtLastBar(a: Text, b: Text, c: Text, d: Text)
    requires NoBar(b) && NoBar(d) && a + [124] + b == c + [124] + d
    ensures b == d
  {
    var l, r := a + [124] + b, c + [124] + d;
    assert forall i :: |a| < i < |l| ==> l[i] == b[i - |a| - 1] && b[i - |a| - 1] in b;
    assert forall i :: |c| < i < |r| ==> r[i] == d[i - |c| - 1] && d[i - |c| - 1] in d;
    assert l[|a|] == 124 && r[|c|] == 124;
    assert b == l[|a| + 1..] && d == r[|c| + 1..];
  }

  /** Within the fragment the memo key determines what is compared. */
  lemma KeyDetermines(was: Schema, now: Schema, was': Schema, now': Schema, cx: Setting)
    requires was.Object? && now.Object? && was'.Object? && now'.Object?
    requires RefsPaired(was, now, cx) && RefsPaired(was', now', cx)
    requires MemoKey(was, now).Some? && MemoKey(was, now) == MemoKey(was', now')
    ensures Deref(was, cx.from) == Deref(was', cx.from) && Deref(now, cx.to) == Deref(now', cx.to)
  {
    SplitAtBar(was.ref.value, now.ref.value, was'.ref.value, now'.ref.value);
  }

  lemma {:induction false} CleanGrows(side: Side, w: Schema, n: Schema, s: set<Text>, t: set<Text>)
    requires s <= t && Clean(side, w, n, s)
    ensures Clean(side, w, n, t)
    decreases w, 1
  {
    forall i | 0 <= i < |n.properties| ensures PropertyClean(side, w, n, n.properties[i].name, t) {
      PropertyCleanGrows(side, w, n, n.properties[i].name, s, t);
    }
    if w.items.Some? && n.items.Some? { CoveredGrows(side, w.items.value, n.items.value, s, t); }
  }

  lemma {:induction false} PropertyCleanGrows(side: Side, w: Schema, n: Schema, name: Text, s: set<Text>, t: set<Text>)
    requires w.Object? && n.Object? && s <= t && PropertyClean(side, w, n, name, s)
    ensures PropertyClean(side, w, n, name, t)
    decreases w, 0
  {
    if Declares(w, name) { CoveredGrows(side, PropertyOf(w, name), PropertyOf(n, name), s, t); }
  }

  lemma {:induction false} CoveredGrows(side: Side, was: Schema, now: Schema, s: set<Text>, t: set<Text>)
    requires s <= t && Covered(side, was, now, s)
    ensures Covered(side, was, now, t)
    decreases was, 2
  {
    if MemoKey(was, now).None? { CleanGrows(side, was, now, s, t); }
  }

  lemma NewlyCleanChain(s0: set<Text>, s1: set<Text>, s2: set<Text>, pairs: iset<(Schema, Schema)>, cx: Setting)
    requires s1 <= s2 && NewlyClean(s0, s1, pairs, cx) && NewlyClean(s1, s2, pairs, cx)
    ensures NewlyClean(s0, s2, pairs, cx)
  {
    forall was, now | (was, now) in pairs && Remembered(was, now, s2) && !Remembered(was, now, s0)
      ensures Clean(cx.side, Deref(was, cx.from), Deref(now, cx.to), s2)
    {
      if Remembered(was, now, s1) { CleanGrows(cx.side, Deref(was, cx.from), Deref(now, cx.to), s1, s2); }
    }
  }

  // ----- what a run that reports nothing leaves in the memo

  ghost predicate Silent(r: Outcome) { !Breaks(r.details) && !r.state.exhausted }

  lemma {:induction false} CompareCovers(was: Schema, now: Schema, cx: Setting, path: seq<Step>, depth: nat,
                                         st: State, pairs: iset<(Schema, Schema)>)
    requires Tracked(pairs, cx) && (was, now) in pairs
    requires Silent(Compare(was, now, cx, path, depth, st))
    ensures var s := Compare(was, now, cx, path, depth, st).state.seen;
            Covered(cx.side, was, now, s) && NewlyClean(st.seen, s, pairs, cx)
    decreases st.nodes, 0
  {
    assert PairTracked(was, now, pairs, cx);
    var key := MemoKey(was, now);
    var spent := st.(nodes := st.nodes - 1);
    if key.Some? && key.value in st.seen {
    } else {
      var marked := if key.Some? then spent.(seen := st.seen + {key.value}) else spent;
      ShapesCover(was, now, cx, path, depth, marked, pairs);
      var s := Compare(was, now, cx, path, depth, st).state.seen;
      if key.Some? {
        CurrentIsClean(was, now, st.seen, s, pairs, cx);
      }
    }
  }

  /** The pair whose key was just added is the only one the rest of the run did not account for. */
  lemma CurrentIsClean(was: Schema, now: Schema, s0: set<Text>, s: set<Text>, pairs: iset<(Schema, Schema)>,
                       cx: Setting)
    requires Tracked(pairs, cx) && (was, now) in pairs && MemoKey(was, now).Some?
    requires Clean(cx.side, Deref(was, cx.from), Deref(now, cx.to), s)
    requires NewlyClean(s0 + {MemoKey(was, now).value}, s, pairs, cx)
    ensures NewlyClean(s0, s, pairs, cx)
  {
    var key := MemoKey(was, now);
    assert PairTracked(was, now, pairs, cx);
    forall w, n | (w, n) in pairs && Remembered(w, n, s) && !Remembered(w, n, s0)
      ensures Clean(cx.side, Deref(w, cx.from), Deref(n, cx.to), s)
    {
      assert PairTracked(w, n, pairs, cx);
      if MemoKey(w, n) == key {
        KeyDetermines(was, now, w, n, cx);
      } else {
        assert !Remembered(w, n, s0 + {key.value});
      }
    }
  }

  lemma {:induction false} ShapesCover(was: Schema, now: Schema, cx: Setting, path: seq<Step>, depth: nat,
                                       st: State, pairs: iset<(Schema, Schema)>)
    requires Tracked(pairs, cx) && (was, now) in pairs
    requires Silent(CompareShapes(Deref(was, cx.from), Deref(now, cx.to), cx, path, depth, st))
    ensures var w, n := Deref(was, cx.from), Deref(now, cx.to);
            var s := CompareShapes(w, n, cx, path, depth, st).state.seen;
            Clean(cx.side, w, n, s) && NewlyClean(st.seen, s, pairs, cx)
    decreases st.nodes, 2
  {
    assert PairTracked(was, now, pairs, cx);
    var w, n := Deref(was, cx.from), Deref(now, cx.to);
    var ps := CompareProperties(w, n, cx, path, depth, 0, st);
    var elems := CompareItems(w, n, cx, path, depth, ps.state);
    var r := CompareShapes(w, n, cx, path, depth, st);
    SilentParts(w, n, cx, path, depth, st);
    PropertiesCover(was, now, cx, path, depth, 0, st, pairs);
    ItemsCover(was, now, cx, path, depth, ps.state, pairs);
    NewlyCleanChain(st.seen, ps.state.seen, elems.state.seen, pairs, cx);
    forall i | 0 <= i < |n.properties| ensures PropertyClean(cx.side, w, n, n.properties[i].name, elems.state.seen) {
      PropertyCleanGrows(cx.side, w, n, n.properties[i].name, ps.state.seen, elems.state.seen);
    }
    if cx.side == Response {
      forall k | 0 <= k < |w.properties| ensures Declares(n, w.properties[k].name) { GoneCovers(w, n, 0, k, path); }
    }
  }

  lemma SilentParts(w: Schema, n: Schema, cx: Setting, path: seq<Step>, depth: nat, st: State)
    requires w.Object? && n.Object? && Silent(CompareShapes(w, n, cx, path, depth, st))
    ensures !TypeChanged(w, n) && (cx.side == Request ==> !EnumLoss(w, n))
    ensures !Breaks(GoneDetails(cx.side, w, n, 0, path))
    ensures var ps := CompareProperties(w, n, cx, path, depth, 0, st);
            var elems := CompareItems(w, n, cx, path, depth, ps.state);
            && Silent(ps) && Silent(elems) && CompareShapes(w, n, cx, path, depth, st).state == elems.state
  {
    hide CompareProperties, CompareItems, TypeChanged, EnumLoss, GoneDetails;
    var r := CompareShapes(w, n, cx, path, depth, st);
    OneBreaks(Detail(path, TypeChangedRule, true));
    OneBreaks(Detail(path, ResponseRetyped, true));
    OneBreaks(Detail(path, EnumValueRemoved, true));
    var e := EnumDetails(cx.side, w, n, path);
    var ps := CompareProperties(w, n, cx, path, depth, 0, st);
    var g := GoneDetails(cx.side, w, n, 0, path);
    var elems := CompareItems(w, n, cx, path, depth, ps.state);
    BreaksConcat(e, ps.details);
    BreaksConcat(e + ps.details, g);
    BreaksConcat(e + ps.details + g, elems.details);
  }

  lemma {:induction false} GoneCovers(w: Schema, n: Schema, i: nat, k: nat, path: seq<Step>)
    requires w.Object? && n.Object? && i <= k < |w.properties| && !Breaks(GoneDetails(Response, w, n, i, path))
    ensures Declares(n, w.properties[k].name)
    decreases k - i
  {
    var one := GoneDetail(Response, n, w.properties[i].name, path);
    BreaksConcat(one, GoneDetails(Response, w, n, i + 1, path));
    if !Declares(n, w.properties[i].name) {
      OneBreaks(Detail(path + [ToProperty(w.properties[i].name)], ResponsePropertyRemoved, true));
    }
    if i < k { GoneCovers(w, n, i + 1, k, path); }
  }

  lemma {:induction false} PropertiesCover(was: Schema, now: Schema, cx: Setting, path: seq<Step>, depth: nat, i: nat,
                                           st: State, pairs: iset<(Schema, Schema)>)
    requires Tracked(pairs, cx) && (was, now) in pairs
    requires Deref(was, cx.from).Object? && Deref(now, cx.to).Object? && i <= |Deref(now, cx.to).properties|
    requires Silent(CompareProperties(Deref(was, cx.from), Deref(now, cx.to), cx, path, depth, i, st))
    ensures var w, n := Deref(was, cx.from), Deref(now, cx.to);
            var s := CompareProperties(w, n, cx, path, depth, i, st).state.seen;
            && (forall k :: i <= k < |n.properties| ==> PropertyClean(cx.side, w, n, n.properties[k].name, s))
            && NewlyClean(st.seen, s, pairs, cx)
    decreases st.nodes, 1, |Deref(now, cx.to).properties| - i
  {
    var w, n := Deref(was, cx.from), Deref(now, cx.to);
    if i < |n.properties| {
      var name := n.properties[i].name;
      var first := CompareProperty(w, n, cx, path, depth, name, st);
      var rest := CompareProperties(w, n, cx, path, depth, i + 1, first.state);
      BreaksConcat(first.details, rest.details);
      PropertyCovers(was, now, cx, path, depth, name, st, pairs);
      PropertiesCover(was, now, cx, path, depth, i + 1, first.state, pairs);
      NewlyCleanChain(st.seen, first.state.seen, rest.state.seen, pairs, cx);
      PropertyCleanGrows(cx.side, w, n, name, first.state.seen, rest.state.seen);
    }
  }

  lemma {:induction false} PropertyCovers(was: Schema, now: Schema, cx: Setting, path: seq<Step>, depth: nat,
                                          name: Text,
                                          st: State, pairs: iset<(Schema, Schema)>)
    requires Tracked(pairs, cx) && (was, now) in pairs
    requires Deref(was, cx.from).Object? && Deref(now, cx.to).Object? && Declares(Deref(now, cx.to), name)
    requires Silent(CompareProperty(Deref(was, cx.from), Deref(now, cx.to), cx, path, depth, name, st))
    ensures var w, n := Deref(was, cx.from), Deref(now, cx.to);
            var s := CompareProperty(w, n, cx, path, depth, name, st).state.seen;
            PropertyClean(cx.side, w, n, name, s) && NewlyClean(st.seen, s, pairs, cx)
    decreases st.nodes, 1, 0
  {
    var w, n := Deref(was, cx.from), Deref(now, cx.to);
    var r := CompareProperty(w, n, cx, path, depth, name, st);
    assert PairTracked(was, now, pairs, cx);
    if !Declares(w, name) {
      assert !r.details[0].breaking;
    } else {
      OneBreaks(Detail(path + [ToProperty(name)], RequiredAdded, true));
      var inner := Compare(PropertyOf(w, name), PropertyOf(n, name), cx, path + [ToProperty(name)], depth + 1, st);
      var req := RequiredDetails(cx.side, w, n, name, path);
      BreaksConcat(req, inner.details);
      CompareCovers(PropertyOf(w, name), PropertyOf(n, name), cx, path + [ToProperty(name)], depth + 1, st, pairs);
    }
  }

  lemma {:induction false} ItemsCover(was: Schema, now: Schema, cx: Setting, path: seq<Step>, depth: nat,
                                      st: State, pairs: iset<(Schema, Schema)>)
    requires Tracked(pairs, cx) && (was, now) in pairs
    requires Deref(was, cx.from).Object? && Deref(now, cx.to).Object?
    requires Silent(CompareItems(Deref(was, cx.from), Deref(now, cx.to), cx, path, depth, st))
    ensures var w, n := Deref(was, cx.from), Deref(now, cx.to);
            var s := CompareItems(w, n, cx, path, depth, st).state.seen;
            && (w.items.Some? && n.items.Some? ==> Covered(cx.side, w.items.value, n.items.value, s))
            && NewlyClean(st.seen, s, pairs, cx)
    decreases st.nodes, 1
  {
    var w, n := Deref(was, cx.from), Deref(now, cx.to);
    assert PairTracked(was, now, pairs, cx);
    if w.items.Some? && n.items.Some? {
      CompareCovers(w.items.value, n.items.value, cx, path + [ToItems], depth + 1, st, pairs);
    } else if w.items.Some? || n.items.Some? {
      OneSidedItems(ItemsOf(w), ItemsOf(n), st.seen, pairs, cx);
      OneSidedRun(ItemsOf(w), ItemsOf(n), cx, path + [ToItems], depth + 1, st);
    }
  }

  lemma OneSidedRun(was: Schema, now: Schema, cx: Setting, path: seq<Step>, depth: nat, st: State)
    requires was == Missing || now == Missing
    requires !Compare(was, now, cx, path, depth, st).state.exhausted
    ensures var key := MemoKey(was, now);
            Compare(was, now, cx, path, depth, st).state.seen
            == if key.Some? then st.seen + {key.value} else st.seen
  {
    var key := MemoKey(was, now);
    assert key.Some? && key.value in st.seen ==> st.seen + {key.value} == st.seen;
    assert Deref(Missing, cx.to) == Missing && Deref(Missing, cx.from) == Missing;
  }

  /** Array items that only one revision describes leave no key a tracked pair could have. */
  lemma OneSidedItems(was: Schema, now: Schema, s: set<Text>, pairs: iset<(Schema, Schema)>, cx: Setting)
    requires (was == Missing || now == Missing) && Tracked(pairs, cx)
    ensures var key := MemoKey(was, now);
            NewlyClean(s, if key.Some? then s + {key.value} else s, pairs, cx)
  {
    var key := MemoKey(was, now);
    if key.Some? {
      forall w, n | (w, n) in pairs && MemoKey(w, n).Some? ensures MemoKey(w, n) != key {
        assert PairTracked(w, n, pairs, cx);
        if MemoKey(w, n) == key {
          if now == Missing { SplitAtLastBar(was.ref.value, [45], w.ref.value, n.ref.value); }
          if was == Missing { SplitAtBar([45], now.ref.value, w.ref.value, n.ref.value); }
        }
      }
    }
  }

  // ----- type keywords with the same key accept the same values

  lemma {:induction false} JoinBarFree(names: seq<Text>)
    requires forall i :: 0 <= i < |names| ==> names[i] != [] && NoBar(names[i])
    requires |names| >= 2
    ensures !NoBar(Join(names))
  {
    assert Join(names)[|names[0]|] == 124;
  }

  lemma {:induction false} JoinInjective(a: seq<Text>, b: seq<Text>)
    requires forall i :: 0 <= i < |a| ==> a[i] != [] && NoBar(a[i])
    requires forall i :: 0 <= i < |b| ==> b[i] != [] && NoBar(b[i])
    requires a != [] && b != [] && Join(a) == Join(b)
    ensures a == b
    decreases |a|
  {
    if |a| >= 2 { JoinBarFree(a); }
    if |b| >= 2 { JoinBarFree(b); }
    if |a| >= 2 && |b| >= 2 {
      SplitAtBar(a[0], Join(a[1..]), b[0], Join(b[1..]));
      JoinInjective(a[1..], b[1..]);
      assert a == [a[0]] + a[1..] && b == [b[0]] + b[1..];
    } else {
      assert a == [a[0]] && b == [b[0]];
    }
  }

  function NamesOf(t: TypeKeyword): seq<Text> {
    match t
    case Untyped => []
    case OneType(name) => [name]
    case ManyTypes(names) => SortTexts(names)
  }

  lemma NamesDecide(v: Json, t: TypeKeyword, means: Meaning)
    ensures TypeAccepts(v, t, means) <==> t.Untyped? || exists x :: x in NamesOf(t) && means(v, x)
  {
    if t.ManyTypes? {
      forall x ensures x in SortTexts(t.names) <==> x in t.names { SortIn(t.names, x); }
      if i :| 0 <= i < |t.names| && means(v, t.names[i]) { assert t.names[i] in SortTexts(t.names); }
      if x :| x in SortTexts(t.names) && means(v, x) { assert x in t.names; }
    } else if t.OneType? {
      assert t.name in NamesOf(t);
    }
  }

  lemma SaneNames(t: TypeKeyword)
    requires TypeSane(t) && !t.Untyped?
    ensures NamesOf(t) != [] && TypeKey(t) == Some(Join(NamesOf(t))) && Join(NamesOf(t)) != []
    ensures forall i :: 0 <= i < |NamesOf(t)| ==> NamesOf(t)[i] != [] && NoBar(NamesOf(t)[i])
  {
    if t.ManyTypes? {
      var ks := SortTexts(t.names);
      SortIn(t.names, t.names[0]);
      assert t.names[0] in t.names;
      forall i | 0 <= i < |ks| ensures ks[i] != [] && NoBar(ks[i]) {
        assert ks[i] in ks;
        SortIn(t.names, ks[i]);
      }
    }
  }

  lemma SameTypes(v: Json, w: Schema, n: Schema, means: Meaning)
    requires w.Object? && n.Object? && TypeSane(w.typ) && TypeSane(n.typ) && !TypeChanged(w, n)
    ensures TypeAccepts(v, w.typ, means) ==> TypeAccepts(v, n.typ, means)
  {
    if !w.typ.Untyped? { SaneNames(w.typ); }
    if !n.typ.Untyped? { SaneNames(n.typ); }
    if !w.typ.Untyped? && !n.typ.Untyped? { JoinInjective(NamesOf(w.typ), NamesOf(n.typ)); }
    NamesDecide(v, w.typ, means);
    NamesDecide(v, n.typ, means);
  }

  lemma KeptEnum(v: Json, w: Schema, n: Schema)
    requires w.Object? && n.Object? && EnumSane(w.enum) && EnumSane(n.enum) && !EnumLoss(w, n)
    requires n.enum.Some? ==> w.enum.Some?
    requires EnumAccepts(v, w.enum)
    ensures EnumAccepts(v, n.enum)
  {
    if n.enum.Some? {
      var k :| 0 <= k < |w.enum.value| && Same(w.enum.value[k], v);
      assert Printable(w.enum.value[k], n.enum.value);
      var j :| 0 <= j < |n.enum.value| && Stringify(n.enum.value[j]) == Stringify(w.enum.value[k]);
      StringifyInjective(n.enum.value[j], w.enum.value[k]);
    }
  }

  // ----- the memo is a simulation

  /** In the fragment one hop resolves everything. */
  lemma {:induction false} ResolveIsDeref(s: Schema, c: Components, hops: nat)
    requires hops >= 1 && RefOf(Deref(s, c)).None?
    ensures Resolve(s, c, hops) == Deref(s, c)
    decreases hops
  {
    if hops > 1 {
      assert Deref(Deref(s, c), c) == Deref(s, c);
      ResolveIsDeref(Deref(s, c), c, hops - 1);
    }
  }

  ghost predicate Simulation(s: set<Text>, pairs: iset<(Schema, Schema)>, cx: Setting) {
    Fragment(pairs, cx) && NewlyClean({}, s, pairs, cx)
  }

  lemma CoveredIsClean(was: Schema, now: Schema, s: set<Text>, pairs: iset<(Schema, Schema)>, cx: Setting)
    requires Simulation(s, pairs, cx) && (was, now) in pairs && Covered(cx.side, was, now, s)
    ensures Clean(cx.side, Deref(was, cx.from), Deref(now, cx.to), s)
  {
    assert PairTracked(was, now, pairs, cx);
    if MemoKey(was, now).Some? { assert Remembered(was, now, s) && !Remembered(was, now, {}); }
  }

  lemma {:induction false} CoveredSound(v: Json, was: Schema, now: Schema, s: set<Text>,
                                        pairs: iset<(Schema, Schema)>, cx: Setting, hops: nat, means: Meaning)
    requires cx.side == Request && hops >= 1 && Simulation(s, pairs, cx) && (was, now) in pairs
    requires Covered(Request, was, now, s)
    requires Valid(v, was, cx.from, hops, means) && OldShape(v, was, now, cx)
    ensures Valid(v, now, cx.to, hops, means)
    decreases v
  {
    assert PairTracked(was, now, pairs, cx);
    var w, n := Deref(was, cx.from), Deref(now, cx.to);
    CoveredIsClean(was, now, s, pairs, cx);
    ResolveIsDeref(was, cx.from, hops);
    ResolveIsDeref(now, cx.to, hops);
    SameTypes(v, w, n, means);
    KeptEnum(v, w, n);
    if v.Obj? {
      RequiredKept(v, w, n, s);
      forall i | 0 <= i < |v.members| && Declares(n, v.members[i].key)
        ensures Valid(v.members[i].value, PropertyOf(n, v.members[i].key), cx.to, hops, means)
      {
        var name := v.members[i].key;
        assert Declares(w, name);
        PropertyIsClean(w, n, name, s);
        CoveredSound(v.members[i].value, PropertyOf(w, name), PropertyOf(n, name), s, pairs, cx, hops, means);
      }
    }
    if v.Arr? && n.items.Some? {
      forall i | 0 <= i < |v.items| ensures Valid(v.items[i], n.items.value, cx.to, hops, means) {
        CoveredSound(v.items[i], w.items.value, n.items.value, s, pairs, cx, hops, means);
      }
    }
  }

  lemma PropertyIsClean(w: Schema, n: Schema, name: Text, s: set<Text>)
    requires Clean(Request, w, n, s) && Declares(n, name)
    ensures PropertyClean(Request, w, n, name, s)
  {
    var i :| 0 <= i < |n.properties| && n.properties[i].name == name;
    assert PropertyClean(Request, w, n, n.properties[i].name, s);
  }

  lemma RequiredKept(v: Json, w: Schema, n: Schema, s: set<Text>)
    requires v.Obj? && ShapesComparable(w, n) && Clean(Request, w, n, s)
    requires forall k :: 0 <= k < |w.required| ==> HasKey(v.members, w.required[k])
    ensures forall k :: 0 <= k < |n.required| ==> HasKey(v.members, n.required[k])
  {
    forall k | 0 <= k < |n.required| ensures HasKey(v.members, n.required[k]) {
      var name := n.required[k];
      assert name in n.required;
      if Declares(n, name) { PropertyIsClean(w, n, name, s); }
      assert name in w.required;
      var j :| 0 <= j < |w.required| && w.required[j] == name;
    }
  }

  // ----- the theorem

  /**
   No breaking change reported within the budget: every value the old schema accepts, and that
   stays within the properties the old schema declares, is accepted by the new schema.
   */
  lemma NothingBreakingIsSafe(v: Json, was: Schema, now: Schema, cx: Setting, path: seq<Step>, nodes: nat,
                              pairs: iset<(Schema, Schema)>, hops: nat, means: Meaning)
    requires cx.side == Request && hops >= 1 && Fragment(pairs, cx) && (was, now) in pairs
    requires Silent(Compare(was, now, cx, path, 0, State(nodes, false, {})))
    requires Valid(v, was, cx.from, hops, means) && OldShape(v, was, now, cx)
    ensures Valid(v, now, cx.to, hops, means)
  {
    var st := State(nodes, false, {});
    CompareCovers(was, now, cx, path, 0, st, pairs);
    CoveredSound(v, was, now, Compare(was, now, cx, path, 0, st).state.seen, pairs, cx, hops, means);
  }
}

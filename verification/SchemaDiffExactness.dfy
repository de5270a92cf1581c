/**
 What the comparison reports, on either side, said of the schemas alone: it breaks exactly where no
 relation between the two revisions keeps every caller, every local change is reported at its place,
 and every detail reported is a change at the place it names.
 */
module SchemaDiffExactness {
  import opened Text
  import opened Json
  import opened Canonical
  import opened SchemaDiff
  import opened SchemaDiffSoundness

  // ----- changes that lose a caller

  /** The type names of a schema; one name and a list of that name alone mean the same. */
  function Words(t: TypeKeyword): multiset<Text> {
    match t
    case Untyped => multiset{}
    case OneType(name) => multiset{name}
    case ManyTypes(names) => multiset(names)
  }

  ghost predicate EnumLost(w: Schema, n: Schema)
    requires w.Object? && n.Object?
  {
    w.enum.Some? && n.enum.Some? && exists v :: v in w.enum.value && v !in n.enum.value
  }

  /** A name callers must send now and need not have sent before. */
  predicate NewlyRequired(w: Schema, n: Schema, name: Text)
    requires w.Object? && n.Object?
  {
    Declares(n, name) && name in n.required && !(Declares(w, name) && name in w.required)
  }

  predicate Dropped(w: Schema, n: Schema, name: Text)
    requires w.Object? && n.Object?
  {
    Declares(w, name) && !Declares(n, name)
  }

  /**
   One level of a change that keeps every caller: the same types, and then in requests no enumerated
   value lost and no name newly required, in responses no property dropped.
   */
  ghost predicate KeepsCallers(side: Side, w: Schema, n: Schema)
    requires w.Object? && n.Object?
  {
    && Words(w.typ) == Words(n.typ)
    && (side == Request ==> !EnumLost(w, n) && forall name :: !NewlyRequired(w, n, name))
    && (side == Response ==> forall name :: !Dropped(w, n, name))
  }

  /** A relation that keeps callers at every level, however deep or recursive the schemas are. */
  ghost predicate Keeping(r: iset<(Schema, Schema)>, cx: Setting) {
    forall was, now :: (was, now) in r ==> StepKeeps(r, Deref(was, cx.from), Deref(now, cx.to), cx)
  }

  ghost predicate StepKeeps(r: iset<(Schema, Schema)>, w: Schema, n: Schema, cx: Setting) {
    w.Object? && n.Object? ==>
      && KeepsCallers(cx.side, w, n)
      && (forall name :: Declares(w, name) && Declares(n, name) ==> (PropertyOf(w, name), PropertyOf(n, name)) in r)
      && (w.items.Some? && n.items.Some? ==> (w.items.value, n.items.value) in r)
  }

  ghost predicate CallersKept(was: Schema, now: Schema, cx: Setting) {
    exists r: iset<(Schema, Schema)> :: Keeping(r, cx) && (was, now) in r
  }

  /** What a schema stands for: the target of a local reference that resolves, otherwise itself. */
  lemma DerefExact(s: Schema, c: Components, t: Schema)
    ensures Deref(s, c) == t <==>
            || (exists p :: p in c && s.Object? && s.ref == Some(p) && Ascii("#/") <= p && t == c[p])
            || (t == s && !(exists p :: p in c && s.Object? && s.ref == Some(p) && Ascii("#/") <= p))
  {
    var hash := Ascii("#/");
    assert hash == [35, 47];
    if s.Object? && s.ref.Some? {
      var p := s.ref.value;
      assert hash <= p <==> |p| >= 2 && p[0] == 35 && p[1] == 47;
    }
  }

  // ----- types as words

  lemma {:induction false} InsertWords(k: Text, ks: seq<Text>)
    ensures multiset(Insert(k, ks)) == multiset{k} + multiset(ks)
    decreases |ks|
  {
    if ks != [] && TextLess(ks[0], k) {
      InsertWords(k, ks[1..]);
      assert ks == [ks[0]] + ks[1..];
    }
  }

  predicate Rising(ks: seq<Text>) { forall i, j :: 0 <= i < j < |ks| ==> !TextLess(ks[j], ks[i]) }

  lemma {:induction false} InsertRising(k: Text, ks: seq<Text>)
    requires Rising(ks)
    ensures Rising(Insert(k, ks))
    decreases |ks|
  {
    var r := Insert(k, ks);
    if ks == [] {
    } else if !TextLess(ks[0], k) {
      TextLessIrreflexive(ks[0]);
      forall j | 0 < j < |r| ensures !TextLess(r[j], k) { NotAbove(k, ks[0], r[j]); }
    } else {
      InsertRising(k, ks[1..]);
      var tail := Insert(k, ks[1..]);
      forall j | 0 <= j < |tail| ensures !TextLess(tail[j], ks[0]) {
        InsertIn(k, ks[1..], tail[j]);
        if tail[j] == k {
          if TextLess(k, ks[0]) {
            TextLessTransitive(k, ks[0], k);
            TextLessIrreflexive(k);
          }
        } else {
          var m :| 0 <= m < |ks[1..]| && ks[1..][m] == tail[j];
          assert ks[m + 1] == tail[j];
        }
      }
    }
  }

  lemma NotAbove(k: Text, a: Text, b: Text)
    requires !TextLess(a, k) && !TextLess(b, a)
    ensures !TextLess(b, k)
  {
    TextLessTotal(a, b);
    if TextLess(b, k) && TextLess(a, b) { TextLessTransitive(a, b, k); }
  }

  lemma {:induction false} SortedWords(ks: seq<Text>)
    ensures multiset(SortTexts(ks)) == multiset(ks) && Rising(SortTexts(ks))
    decreases |ks|
  {
    if ks != [] {
      SortedWords(ks[1..]);
      InsertWords(ks[0], SortTexts(ks[1..]));
      InsertRising(ks[0], SortTexts(ks[1..]));
      assert ks == [ks[0]] + ks[1..];
    }
  }

  lemma SameFirst(a: seq<Text>, b: seq<Text>)
    requires Rising(a) && Rising(b) && a != [] && b != [] && a[0] in b && b[0] in a
    ensures a[0] == b[0]
  {
    var j :| 0 <= j < |b| && b[j] == a[0];
    var i :| 0 <= i < |a| && a[i] == b[0];
    if a[0] != b[0] {
      assert !TextLess(b[j], b[0]) && !TextLess(a[i], a[0]);
      TextLessTotal(a[0], b[0]);
    }
  }

  lemma TailWords(a: seq<Text>)
    requires a != []
    ensures multiset(a[1..]) == multiset(a) - multiset{a[0]}
  {
    assert a == [a[0]] + a[1..];
  }

  lemma {:induction false} RisingUnique(a: seq<Text>, b: seq<Text>)
    requires Rising(a) && Rising(b) && multiset(a) == multiset(b)
    ensures a == b
    decreases |a|
  {
    assert |multiset(a)| == |a| && |multiset(b)| == |b|;
    if a != [] {
      assert a[0] in b && b[0] in a by { assert a[0] in multiset(a) && b[0] in multiset(b); }
      SameFirst(a, b);
      TailWords(a);
      TailWords(b);
      assert Rising(a[1..]) && Rising(b[1..]);
      hide Rising;
      RisingUnique(a[1..], b[1..]);
      assert a == [a[0]] + a[1..] && b == [b[0]] + b[1..];
    }
  }

  lemma SortSame(a: seq<Text>, b: seq<Text>)
    requires multiset(a) == multiset(b)
    ensures SortTexts(a) == SortTexts(b)
  {
    SortedWords(a);
    SortedWords(b);
    RisingUnique(SortTexts(a), SortTexts(b));
  }

  lemma NamesAreWords(t: TypeKeyword)
    ensures multiset(NamesOf(t)) == Words(t) && Rising(NamesOf(t))
    ensures t.Untyped? || TypeKey(t) == Some(Join(NamesOf(t)))
  {
    if t.ManyTypes? { SortedWords(t.names); }
    if t.OneType? { assert multiset([t.name]) == multiset{t.name}; }
  }

  /** Equal words are never reported, and different ones always are. */
  lemma TypesExact(w: Schema, n: Schema)
    requires w.Object? && n.Object?
    ensures Words(w.typ) == Words(n.typ) ==> !TypeChanged(w, n)
    ensures TypeSane(w.typ) && TypeSane(n.typ) ==> (TypeChanged(w, n) <==> Words(w.typ) != Words(n.typ))
  {
    hide SortTexts;
    NamesAreWords(w.typ);
    NamesAreWords(n.typ);
    if Words(w.typ) == Words(n.typ) {
      RisingUnique(NamesOf(w.typ), NamesOf(n.typ));
      if w.typ.Untyped? || n.typ.Untyped? {
        assert |multiset(NamesOf(w.typ))| == |NamesOf(w.typ)| && |multiset(NamesOf(n.typ))| == |NamesOf(n.typ)|;
        assert NamesOf(w.typ) == NamesOf(n.typ) == [];
      }
    } else if TypeSane(w.typ) && TypeSane(n.typ) && !TypeChanged(w, n) {
      if !w.typ.Untyped? { SaneNames(w.typ); }
      if !n.typ.Untyped? { SaneNames(n.typ); }
      JoinInjective(NamesOf(w.typ), NamesOf(n.typ));
      assert false;
    }
  }

  lemma EnumExact(w: Schema, n: Schema)
    requires w.Object? && n.Object?
    ensures EnumLoss(w, n) ==> EnumLost(w, n)
    ensures EnumSane(w.enum) && EnumSane(n.enum) ==> (EnumLoss(w, n) <==> EnumLost(w, n))
  {
    hide Stringify;
    if EnumLoss(w, n) {
      var i :| 0 <= i < |w.enum.value| && !Printable(w.enum.value[i], n.enum.value);
      assert w.enum.value[i] in w.enum.value;
    }
    if EnumLost(w, n) && EnumSane(w.enum) && EnumSane(n.enum) && !EnumLoss(w, n) {
      var v :| v in w.enum.value && v !in n.enum.value;
      var i :| 0 <= i < |w.enum.value| && w.enum.value[i] == v;
      assert Printable(v, n.enum.value);
      var k :| 0 <= k < |n.enum.value| && Stringify(n.enum.value[k]) == Stringify(v);
      StringifyInjective(n.enum.value[k], v);
      assert false;
    }
  }

  // ----- no false alarm

  lemma {:induction false} GoneQuiet(side: Side, w: Schema, n: Schema, i: nat, path: seq<Step>)
    requires w.Object? && n.Object? && i <= |w.properties|
    requires side == Response ==> forall name :: !Dropped(w, n, name)
    ensures !Breaks(GoneDetails(side, w, n, i, path))
    decreases |w.properties| - i
  {
    if i < |w.properties| {
      var name := w.properties[i].name;
      assert Declares(w, name) && (side == Response ==> !Dropped(w, n, name));
      GoneQuiet(side, w, n, i + 1, path);
      BreaksConcat(GoneDetail(side, n, name, path), GoneDetails(side, w, n, i + 1, path));
    }
  }

  /** Related schemas are compared without anything breaking, on either side and whatever the budget. */
  lemma {:induction false} NoFalseAlarm(was: Schema, now: Schema, cx: Setting, path: seq<Step>, depth: nat, st: State,
                                        r: iset<(Schema, Schema)>)
    requires Keeping(r, cx) && (was, now) in r
    ensures !Breaks(Compare(was, now, cx, path, depth, st).details)
    decreases st.nodes, 0
  {
    if st.nodes > 0 && depth <= MAX_SCHEMA_DEPTH {
      var key := MemoKey(was, now);
      var spent := st.(nodes := st.nodes - 1);
      if !(key.Some? && key.value in st.seen) {
        var marked := if key.Some? then spent.(seen := st.seen + {key.value}) else spent;
        ShapesQuiet(Deref(was, cx.from), Deref(now, cx.to), cx, path, depth, marked, r);
      }
    }
  }

  lemma {:induction false} ShapesQuiet(w: Schema, n: Schema, cx: Setting, path: seq<Step>, depth: nat, st: State,
                                       r: iset<(Schema, Schema)>)
    requires Keeping(r, cx) && StepKeeps(r, w, n, cx)
    ensures !Breaks(CompareShapes(w, n, cx, path, depth, st).details)
    decreases st.nodes, 2
  {
    hide TypeChanged, EnumLoss, GoneDetails, TypeKey, KeepsCallers;
    if w.Object? && n.Object? {
      assert KeepsCallers(cx.side, w, n);
      LevelQuiet(cx.side, w, n, path);
      var e, ps := EnumDetails(cx.side, w, n, path), CompareProperties(w, n, cx, path, depth, 0, st);
      PropertiesQuiet(w, n, cx, path, depth, 0, st, r);
      ItemsQuiet(w, n, cx, path, depth, ps.state, r);
      var g, elems := GoneDetails(cx.side, w, n, 0, path), CompareItems(w, n, cx, path, depth, ps.state);
      BreaksConcat(e, ps.details);
      BreaksConcat(e + ps.details, g);
      BreaksConcat(e + ps.details + g, elems.details);
    }
  }

  lemma LevelQuiet(side: Side, w: Schema, n: Schema, path: seq<Step>)
    requires w.Object? && n.Object? && KeepsCallers(side, w, n)
    ensures !TypeChanged(w, n) && !Breaks(EnumDetails(side, w, n, path)) && !Breaks(GoneDetails(side, w, n, 0, path))
  {
    hide TypeChanged, EnumLoss, TypeKey;
    TypesExact(w, n);
    EnumExact(w, n);
    GoneQuiet(side, w, n, 0, path);
  }

  lemma {:induction false} PropertiesQuiet(w: Schema, n: Schema, cx: Setting, path: seq<Step>, depth: nat, i: nat,
                                           st: State, r: iset<(Schema, Schema)>)
    requires w.Object? && n.Object? && i <= |n.properties| && Keeping(r, cx) && StepKeeps(r, w, n, cx)
    ensures !Breaks(CompareProperties(w, n, cx, path, depth, i, st).details)
    decreases st.nodes, 1, |n.properties| - i
  {
    if i < |n.properties| {
      var name := n.properties[i].name;
      assert Declares(n, name);
      var first := CompareProperty(w, n, cx, path, depth, name, st);
      var rest := CompareProperties(w, n, cx, path, depth, i + 1, first.state);
      PropertyQuiet(w, n, cx, path, depth, name, st, r);
      PropertiesQuiet(w, n, cx, path, depth, i + 1, first.state, r);
      BreaksConcat(first.details, rest.details);
    }
  }

  lemma {:induction false} PropertyQuiet(w: Schema, n: Schema, cx: Setting, path: seq<Step>, depth: nat, name: Text,
                                         st: State, r: iset<(Schema, Schema)>)
    requires w.Object? && n.Object? && Declares(n, name) && Keeping(r, cx) && StepKeeps(r, w, n, cx)
    ensures !Breaks(CompareProperty(w, n, cx, path, depth, name, st).details)
    decreases st.nodes, 1, 0
  {
    hide Words, EnumLost;
    assert cx.side == Request ==> !NewlyRequired(w, n, name);
    if Declares(w, name) {
      var at := path + [ToProperty(name)];
      NoFalseAlarm(PropertyOf(w, name), PropertyOf(n, name), cx, at, depth + 1, st, r);
      BreaksConcat(RequiredDetails(cx.side, w, n, name, path),
                   Compare(PropertyOf(w, name), PropertyOf(n, name), cx, at, depth + 1, st).details);
    }
  }

  lemma {:induction false} ItemsQuiet(w: Schema, n: Schema, cx: Setting, path: seq<Step>, depth: nat, st: State,
                                      r: iset<(Schema, Schema)>)
    requires w.Object? && n.Object? && Keeping(r, cx) && StepKeeps(r, w, n, cx)
    ensures !Breaks(CompareItems(w, n, cx, path, depth, st).details)
    decreases st.nodes, 1
  {
    hide Words, EnumLost;
    if w.items.Some? && n.items.Some? {
      NoFalseAlarm(w.items.value, n.items.value, cx, path + [ToItems], depth + 1, st, r);
    } else if w.items.Some? || n.items.Some? {
      OneSidedQuiet(ItemsOf(w), ItemsOf(n), cx, path + [ToItems], depth + 1, st);
    }
  }

  lemma OneSidedQuiet(was: Schema, now: Schema, cx: Setting, path: seq<Step>, depth: nat, st: State)
    requires was == Missing || now == Missing
    ensures Compare(was, now, cx, path, depth, st).details == []
  {
    assert Deref(Missing, cx.from) == Missing && Deref(Missing, cx.to) == Missing;
  }

  // ----- no missed change

  ghost predicate SanePairs(pairs: iset<(Schema, Schema)>, cx: Setting) {
    && Tracked(pairs, cx)
    && forall was, now :: (was, now) in pairs ==> ShapesSane(Deref(was, cx.from), Deref(now, cx.to))
  }

  /** The pairs a memo covers. */
  ghost function CoveredPairs(s: set<Text>, pairs: iset<(Schema, Schema)>, cx: Setting): iset<(Schema, Schema)> {
    iset was: Schema, now: Schema | (was, now) in pairs && Covered(cx.side, was, now, s) :: (was, now)
  }

  lemma CleanKeeps(w: Schema, n: Schema, s: set<Text>, cx: Setting)
    requires ShapesSane(w, n) && Clean(cx.side, w, n, s)
    ensures KeepsCallers(cx.side, w, n)
  {
    hide TypeChanged, EnumLoss, TypeKey, Words, EnumLost, Covered;
    TypesExact(w, n);
    EnumExact(w, n);
    if cx.side == Request {
      forall name ensures !NewlyRequired(w, n, name) {
        if Declares(n, name) { NamedClean(w, n, name, s, cx); }
      }
    } else {
      forall name ensures !Dropped(w, n, name) {
        if Declares(w, name) {
          var i :| 0 <= i < |w.properties| && w.properties[i].name == name;
          assert Declares(n, w.properties[i].name);
        }
      }
    }
  }

  lemma NamedClean(w: Schema, n: Schema, name: Text, s: set<Text>, cx: Setting)
    requires Clean(cx.side, w, n, s) && Declares(n, name)
    ensures PropertyClean(cx.side, w, n, name, s)
  {
    var i :| 0 <= i < |n.properties| && n.properties[i].name == name;
    assert PropertyClean(cx.side, w, n, n.properties[i].name, s);
  }

  lemma CoveredPairsKeep(s: set<Text>, pairs: iset<(Schema, Schema)>, cx: Setting)
    requires SanePairs(pairs, cx) && NewlyClean({}, s, pairs, cx)
    ensures Keeping(CoveredPairs(s, pairs, cx), cx)
  {
    var r := CoveredPairs(s, pairs, cx);
    forall was, now | (was, now) in r ensures StepKeeps(r, Deref(was, cx.from), Deref(now, cx.to), cx) {
      hide KeepsCallers, ShapesSane;
      assert PairTracked(was, now, pairs, cx);
      var w, n := Deref(was, cx.from), Deref(now, cx.to);
      if MemoKey(was, now).Some? { assert Remembered(was, now, s) && !Remembered(was, now, {}); }
      assert Clean(cx.side, w, n, s);
      CleanKeeps(w, n, s, cx);
      forall name | Declares(w, name) && Declares(n, name)
        ensures (PropertyOf(w, name), PropertyOf(n, name)) in r
      {
        NamedClean(w, n, name, s, cx);
      }
    }
  }

  /**
   Within the budget, and where references come in pairs: something breaking is reported exactly if
   no relation between the two revisions keeps every caller. Both sides, any recursion.
   */
  lemma BreaksExactly(was: Schema, now: Schema, cx: Setting, path: seq<Step>, nodes: nat,
                      pairs: iset<(Schema, Schema)>)
    requires SanePairs(pairs, cx) && (was, now) in pairs
    requires !Compare(was, now, cx, path, 0, State(nodes, false, {})).state.exhausted
    ensures Breaks(Compare(was, now, cx, path, 0, State(nodes, false, {})).details) <==> !CallersKept(was, now, cx)
  {
    hide Compare;
    var st := State(nodes, false, {});
    var r := Compare(was, now, cx, path, 0, st);
    if CallersKept(was, now, cx) {
      var rel: iset<(Schema, Schema)> :| Keeping(rel, cx) && (was, now) in rel;
      NoFalseAlarm(was, now, cx, path, 0, st, rel);
    }
    if !Breaks(r.details) {
      CompareCovers(was, now, cx, path, 0, st, pairs);
      CoveredPairsKeep(r.state.seen, pairs, cx);
      assert (was, now) in CoveredPairs(r.state.seen, pairs, cx);
    }
  }

  // ----- every local change is reported, at its place

  lemma {:induction false} GoneListed(side: Side, w: Schema, n: Schema, i: nat, k: nat, path: seq<Step>)
    requires w.Object? && n.Object? && i <= k < |w.properties| && !Declares(n, w.properties[k].name)
    ensures Detail(path + [ToProperty(w.properties[k].name)],
                   if side == Response then ResponsePropertyRemoved else PropertyGone, side == Response)
            in GoneDetails(side, w, n, i, path)
    decreases k - i
  {
    if i < k { GoneListed(side, w, n, i + 1, k, path); }
  }

  lemma {:induction false} PropertyListed(w: Schema, n: Schema, cx: Setting, path: seq<Step>, depth: nat, i: nat,
                                          k: nat, st: State, d: Detail)
    requires w.Object? && n.Object? && i <= k < |n.properties|
    requires forall s: State :: d in CompareProperty(w, n, cx, path, depth, n.properties[k].name, s).details
    ensures d in CompareProperties(w, n, cx, path, depth, i, st).details
    decreases k - i
  {
    hide CompareProperty;
    if i < k {
      var first := CompareProperty(w, n, cx, path, depth, n.properties[i].name, st);
      PropertyListed(w, n, cx, path, depth, i + 1, k, first.state, d);
    }
  }

  ghost predicate FirstVisit(was: Schema, now: Schema, depth: nat, st: State) {
    st.nodes > 0 && depth <= 32 && !Remembered(was, now, st.seen)
  }

  /** Different types are the whole report: nothing below them is compared. */
  lemma RetypingReported(was: Schema, now: Schema, cx: Setting, path: seq<Step>, depth: nat, st: State)
    requires FirstVisit(was, now, depth, st) && ShapesSane(Deref(was, cx.from), Deref(now, cx.to))
    requires Words(Deref(was, cx.from).typ) != Words(Deref(now, cx.to).typ)
    ensures Compare(was, now, cx, path, depth, st).details
         == [Detail(path, if cx.side == Request then TypeChangedRule else ResponseRetyped, true)]
  {
    TypesExact(Deref(was, cx.from), Deref(now, cx.to));
  }

  /** A lost enumerated value is reported in requests. */
  lemma EnumReported(was: Schema, now: Schema, cx: Setting, path: seq<Step>, depth: nat, st: State)
    requires FirstVisit(was, now, depth, st) && ShapesSane(Deref(was, cx.from), Deref(now, cx.to))
    requires Words(Deref(was, cx.from).typ) == Words(Deref(now, cx.to).typ)
    requires cx.side == Request && EnumLost(Deref(was, cx.from), Deref(now, cx.to))
    ensures Detail(path, EnumValueRemoved, true) in Compare(was, now, cx, path, depth, st).details
  {
    hide CompareProperties, CompareItems, GoneDetails, TypeKey;
    TypesExact(Deref(was, cx.from), Deref(now, cx.to));
    EnumExact(Deref(was, cx.from), Deref(now, cx.to));
  }

  /** A property the new revision dropped breaks callers who parse it, and nobody else. */
  lemma DropReported(was: Schema, now: Schema, cx: Setting, path: seq<Step>, depth: nat, st: State, name: Text)
    requires FirstVisit(was, now, depth, st)
    requires var w, n := Deref(was, cx.from), Deref(now, cx.to);
             w.Object? && n.Object? && Words(w.typ) == Words(n.typ) && Dropped(w, n, name)
    ensures var at := path + [ToProperty(name)];
            (if cx.side == Response then Detail(at, ResponsePropertyRemoved, true) else Detail(at, PropertyGone, false))
            in Compare(was, now, cx, path, depth, st).details
  {
    hide CompareProperties, CompareItems, GoneDetails, TypeKey, EnumLoss;
    var w, n := Deref(was, cx.from), Deref(now, cx.to);
    TypesExact(w, n);
    var k :| 0 <= k < |w.properties| && w.properties[k].name == name;
    GoneListed(cx.side, w, n, 0, k, path);
  }

  /** A property the new revision declares anew, or newly requires: breaking in requests if it must be sent. */
  lemma AdditionReported(was: Schema, now: Schema, cx: Setting, path: seq<Step>, depth: nat, st: State, name: Text)
    requires FirstVisit(was, now, depth, st)
    requires var w, n := Deref(was, cx.from), Deref(now, cx.to);
             w.Object? && n.Object? && Words(w.typ) == Words(n.typ) && Declares(n, name)
    ensures var w, n := Deref(was, cx.from), Deref(now, cx.to);
            var at, ds := path + [ToProperty(name)], Compare(was, now, cx, path, depth, st).details;
            && (cx.side == Request && NewlyRequired(w, n, name) ==> Detail(at, RequiredAdded, true) in ds)
            && (!Declares(w, name) && !(cx.side == Request && name in n.required) ==>
                  Detail(at, PropertyAdded, false) in ds)
  {
    hide CompareProperties, CompareItems, GoneDetails, TypeKey, EnumLoss, Compare;
    var w, n := Deref(was, cx.from), Deref(now, cx.to);
    var at, ds := path + [ToProperty(name)], Compare(was, now, cx, path, depth, st).details;
    var k :| 0 <= k < |n.properties| && n.properties[k].name == name;
    if cx.side == Request && NewlyRequired(w, n, name) {
      PropertyListed(w, n, cx, path, depth, 0, k, Marked(was, now, st), Detail(at, RequiredAdded, true));
      PropertiesReported(was, now, cx, path, depth, st, Detail(at, RequiredAdded, true));
    }
    if !Declares(w, name) && !(cx.side == Request && name in n.required) {
      PropertyListed(w, n, cx, path, depth, 0, k, Marked(was, now, st), Detail(at, PropertyAdded, false));
      PropertiesReported(was, now, cx, path, depth, st, Detail(at, PropertyAdded, false));
    }
  }

  ghost function Marked(was: Schema, now: Schema, st: State): State
    requires st.nodes > 0
  {
    var key := MemoKey(was, now);
    State(st.nodes - 1, st.exhausted, if key.Some? then st.seen + {key.value} else st.seen)
  }

  lemma PropertiesReported(was: Schema, now: Schema, cx: Setting, path: seq<Step>, depth: nat, st: State, d: Detail)
    requires FirstVisit(was, now, depth, st)
    requires var w, n := Deref(was, cx.from), Deref(now, cx.to);
             && w.Object? && n.Object? && Words(w.typ) == Words(n.typ)
             && d in CompareProperties(w, n, cx, path, depth, 0, Marked(was, now, st)).details
    ensures d in Compare(was, now, cx, path, depth, st).details
  {
    hide CompareProperties, CompareItems, GoneDetails, TypeKey, EnumLoss;
    TypesExact(Deref(was, cx.from), Deref(now, cx.to));
  }

  // ----- every detail reported is a change at the place it names

  ghost predicate ChangeHere(d: Detail, side: Side, w: Schema, n: Schema, path: seq<Step>)
    requires w.Object? && n.Object?
  {
    && d.path == path && d.breaking
    && match d.rule
       case TypeChangedRule => side == Request && Words(w.typ) != Words(n.typ)
       case ResponseRetyped => side == Response && Words(w.typ) != Words(n.typ)
       case EnumValueRemoved => side == Request && EnumLost(w, n)
       case _ => false
  }

  predicate ChangeAt(d: Detail, side: Side, w: Schema, n: Schema, path: seq<Step>, name: Text)
    requires w.Object? && n.Object?
  {
    && d.path == path + [ToProperty(name)]
    && match d.rule
       case RequiredAdded => d.breaking && side == Request && NewlyRequired(w, n, name)
       case PropertyAdded =>
         !d.breaking && Declares(n, name) && !Declares(w, name) && !(side == Request && name in n.required)
       case PropertyGone => !d.breaking && side == Request && Dropped(w, n, name)
       case ResponsePropertyRemoved => d.breaking && side == Response && Dropped(w, n, name)
       case _ => false
  }

  /** Following the detail's path from `path` on, through both revisions at once, leads to its change. */
  ghost predicate Explained(d: Detail, was: Schema, now: Schema, cx: Setting, path: seq<Step>)
    decreases |d.path| - |path|
  {
    var w, n := Deref(was, cx.from), Deref(now, cx.to);
    && w.Object? && n.Object?
    && (|| ChangeHere(d, cx.side, w, n, path)
        || (exists name :: ChangeAt(d, cx.side, w, n, path, name))
        || (exists name :: Declares(w, name) && Declares(n, name) && Below(d, path, ToProperty(name))
              && Explained(d, PropertyOf(w, name), PropertyOf(n, name), cx, path + [ToProperty(name)]))
        || (w.items.Some? && n.items.Some? && Below(d, path, ToItems)
              && Explained(d, w.items.value, n.items.value, cx, path + [ToItems])))
  }

  predicate Below(d: Detail, path: seq<Step>, step: Step) { path + [step] <= d.path }

  lemma {:induction false} EveryDetailExplained(was: Schema, now: Schema, cx: Setting, path: seq<Step>, depth: nat,
                                                st: State, d: Detail)
    requires d in Compare(was, now, cx, path, depth, st).details
    ensures Explained(d, was, now, cx, path) && path <= d.path
    decreases st.nodes, 0
  {
    if st.nodes > 0 && depth <= MAX_SCHEMA_DEPTH {
      var key := MemoKey(was, now);
      var spent := st.(nodes := st.nodes - 1);
      if !(key.Some? && key.value in st.seen) {
        var marked := if key.Some? then spent.(seen := st.seen + {key.value}) else spent;
        ShapesExplained(was, now, cx, path, depth, marked, d);
      }
    }
  }

  lemma {:induction false} ShapesExplained(was: Schema, now: Schema, cx: Setting, path: seq<Step>, depth: nat,
                                           st: State, d: Detail)
    requires d in CompareShapes(Deref(was, cx.from), Deref(now, cx.to), cx, path, depth, st).details
    ensures Explained(d, was, now, cx, path) && path <= d.path
    decreases st.nodes, 2
  {
    hide CompareProperties, CompareItems, GoneDetails, TypeKey, EnumLoss, Words, EnumLost, TypeChanged;
    var w, n := Deref(was, cx.from), Deref(now, cx.to);
    assert w.Object? && n.Object?;
    TypesExact(w, n);
    EnumExact(w, n);
    if TypeChanged(w, n) {
      assert ChangeHere(d, cx.side, w, n, path);
    } else {
      var ps := CompareProperties(w, n, cx, path, depth, 0, st);
      var elems := CompareItems(w, n, cx, path, depth, ps.state);
      if d in EnumDetails(cx.side, w, n, path) {
        assert ChangeHere(d, cx.side, w, n, path);
      } else if d in ps.details {
        PropertiesExplained(was, now, cx, path, depth, 0, st, d);
      } else if d in GoneDetails(cx.side, w, n, 0, path) {
        GoneExplained(cx.side, w, n, 0, path, d);
      } else {
        ItemsExplained(was, now, cx, path, depth, ps.state, d);
      }
    }
  }

  lemma {:induction false} GoneExplained(side: Side, w: Schema, n: Schema, i: nat, path: seq<Step>, d: Detail)
    requires w.Object? && n.Object? && i <= |w.properties| && d in GoneDetails(side, w, n, i, path)
    ensures exists name :: ChangeAt(d, side, w, n, path, name)
    decreases |w.properties| - i
  {
    var name := w.properties[i].name;
    assert Declares(w, name);
    if d in GoneDetail(side, n, name, path) {
      assert ChangeAt(d, side, w, n, path, name);
    } else {
      GoneExplained(side, w, n, i + 1, path, d);
    }
  }

  lemma {:induction false} PropertiesExplained(was: Schema, now: Schema, cx: Setting, path: seq<Step>, depth: nat,
                                               i: nat, st: State, d: Detail)
    requires Deref(was, cx.from).Object? && Deref(now, cx.to).Object? && i <= |Deref(now, cx.to).properties|
    requires d in CompareProperties(Deref(was, cx.from), Deref(now, cx.to), cx, path, depth, i, st).details
    ensures Explained(d, was, now, cx, path) && path <= d.path
    decreases st.nodes, 1, |Deref(now, cx.to).properties| - i
  {
    hide Words, EnumLost, Explained;
    var w, n := Deref(was, cx.from), Deref(now, cx.to);
    var name := n.properties[i].name;
    var first := CompareProperty(w, n, cx, path, depth, name, st);
    if d in first.details {
      PropertyExplained(was, now, cx, path, depth, name, st, d);
    } else {
      PropertiesExplained(was, now, cx, path, depth, i + 1, first.state, d);
    }
  }

  lemma {:induction false} PropertyExplained(was: Schema, now: Schema, cx: Setting, path: seq<Step>, depth: nat,
                                             name: Text, st: State, d: Detail)
    requires Deref(was, cx.from).Object? && Deref(now, cx.to).Object? && Declares(Deref(now, cx.to), name)
    requires d in CompareProperty(Deref(was, cx.from), Deref(now, cx.to), cx, path, depth, name, st).details
    ensures Explained(d, was, now, cx, path) && path <= d.path
    decreases st.nodes, 1, 0
  {
    hide Words, EnumLost, Compare;
    var w, n := Deref(was, cx.from), Deref(now, cx.to);
    if !Declares(w, name) || d in RequiredDetails(cx.side, w, n, name, path) {
      assert ChangeAt(d, cx.side, w, n, path, name);
    } else {
      EveryDetailExplained(PropertyOf(w, name), PropertyOf(n, name), cx, path + [ToProperty(name)], depth + 1, st, d);
      assert Below(d, path, ToProperty(name));
    }
  }

  lemma {:induction false} ItemsExplained(was: Schema, now: Schema, cx: Setting, path: seq<Step>, depth: nat,
                                          st: State, d: Detail)
    requires Deref(was, cx.from).Object? && Deref(now, cx.to).Object?
    requires d in CompareItems(Deref(was, cx.from), Deref(now, cx.to), cx, path, depth, st).details
    ensures Explained(d, was, now, cx, path) && path <= d.path
    decreases st.nodes, 1
  {
    hide Words, EnumLost, Compare;
    var w, n := Deref(was, cx.from), Deref(now, cx.to);
    if w.items.Some? && n.items.Some? {
      EveryDetailExplained(w.items.value, n.items.value, cx, path + [ToItems], depth + 1, st, d);
      assert Below(d, path, ToItems);
    } else {
      OneSidedQuiet(ItemsOf(w), ItemsOf(n), cx, path + [ToItems], depth + 1, st);
    }
  }
}

/**
 Around the soundness theorem: a budget that is not exhausted changes nothing, an unchanged
 revision reports nothing, and inputs that show why the hypotheses of the theorem are there.
 */
module SchemaDiffLimits {
  import opened Text
  import opened Json
  import opened Canonical
  import opened SchemaDiff
  import opened SchemaDiffSoundness

  // ----- the budget

  function MoreState(st: State, extra: nat): State { st.(nodes := st.nodes + extra) }

  function MoreNodes(r: Outcome, extra: nat): Outcome { r.(state := MoreState(r.state, extra)) }

  /** A run that did not set `exhausted` is the run any larger budget gives. */
  lemma {:induction false} BudgetIrrelevant(was: Schema, now: Schema, cx: Setting, path: seq<Step>, depth: nat,
                                            st: State, extra: nat)
    requires !Compare(was, now, cx, path, depth, st).state.exhausted
    ensures Compare(was, now, cx, path, depth, MoreState(st, extra))
         == MoreNodes(Compare(was, now, cx, path, depth, st), extra)
    decreases st.nodes, 0
  {
    var key := MemoKey(was, now);
    if key.Some? && key.value in st.seen {
    } else {
      var spent := st.(nodes := st.nodes - 1);
      var marked := if key.Some? then spent.(seen := st.seen + {key.value}) else spent;
      ShapesIrrelevant(Deref(was, cx.from), Deref(now, cx.to), cx, path, depth, marked, extra);
    }
  }

  lemma {:induction false} ShapesIrrelevant(was: Schema, now: Schema, cx: Setting, path: seq<Step>, depth: nat,
                                            st: State, extra: nat)
    requires !CompareShapes(was, now, cx, path, depth, st).state.exhausted
    ensures CompareShapes(was, now, cx, path, depth, MoreState(st, extra))
         == MoreNodes(CompareShapes(was, now, cx, path, depth, st), extra)
    decreases st.nodes, 2
  {
    if was.Object? && now.Object? && !TypeChanged(was, now) {
      PropertiesIrrelevant(was, now, cx, path, depth, 0, st, extra);
      var ps := CompareProperties(was, now, cx, path, depth, 0, st);
      ItemsIrrelevant(was, now, cx, path, depth, ps.state, extra);
    }
  }

  lemma {:induction false} PropertiesIrrelevant(was: Schema, now: Schema, cx: Setting, path: seq<Step>, depth: nat,
                                                i: nat, st: State, extra: nat)
    requires was.Object? && now.Object? && i <= |now.properties|
    requires !CompareProperties(was, now, cx, path, depth, i, st).state.exhausted
    ensures CompareProperties(was, now, cx, path, depth, i, MoreState(st, extra))
         == MoreNodes(CompareProperties(was, now, cx, path, depth, i, st), extra)
    decreases st.nodes, 1, |now.properties| - i
  {
    if i < |now.properties| {
      var name := now.properties[i].name;
      PropertyIrrelevant(was, now, cx, path, depth, name, st, extra);
      var first := CompareProperty(was, now, cx, path, depth, name, st);
      PropertiesIrrelevant(was, now, cx, path, depth, i + 1, first.state, extra);
    }
  }

  lemma {:induction false} PropertyIrrelevant(was: Schema, now: Schema, cx: Setting, path: seq<Step>, depth: nat,
                                              name: Text, st: State, extra: nat)
    requires was.Object? && now.Object?
    requires !CompareProperty(was, now, cx, path, depth, name, st).state.exhausted
    ensures CompareProperty(was, now, cx, path, depth, name, MoreState(st, extra))
         == MoreNodes(CompareProperty(was, now, cx, path, depth, name, st), extra)
    decreases st.nodes, 1, 0
  {
    if Declares(was, name) {
      BudgetIrrelevant(PropertyOf(was, name), PropertyOf(now, name), cx, path + [ToProperty(name)], depth + 1, st,
                       extra);
    }
  }

  lemma {:induction false} ItemsIrrelevant(was: Schema, now: Schema, cx: Setting, path: seq<Step>, depth: nat,
                                           st: State, extra: nat)
    requires was.Object? && now.Object?
    requires !CompareItems(was, now, cx, path, depth, st).state.exhausted
    ensures CompareItems(was, now, cx, path, depth, MoreState(st, extra))
         == MoreNodes(CompareItems(was, now, cx, path, depth, st), extra)
    decreases st.nodes, 1
  {
    if was.items.Some? || now.items.Some? {
      BudgetIrrelevant(ItemsOf(was), ItemsOf(now), cx, path + [ToItems], depth + 1, st, extra);
    }
  }

  // ----- an unchanged revision

  /** A revision compared with itself reports nothing, on either side and whatever the budget. */
  lemma {:induction false} UnchangedReportsNothing(s: Schema, cx: Setting, path: seq<Step>, depth: nat, st: State)
    requires cx.from == cx.to
    ensures Compare(s, s, cx, path, depth, st).details == []
    decreases st.nodes, 0
  {
    if st.nodes > 0 && depth <= MAX_SCHEMA_DEPTH {
      var key := MemoKey(s, s);
      var spent := st.(nodes := st.nodes - 1);
      if !(key.Some? && key.value in st.seen) {
        var marked := if key.Some? then spent.(seen := st.seen + {key.value}) else spent;
        UnchangedShape(Deref(s, cx.from), cx, path, depth, marked);
      }
    }
  }

  lemma {:induction false} UnchangedShape(s: Schema, cx: Setting, path: seq<Step>, depth: nat, st: State)
    requires cx.from == cx.to
    ensures CompareShapes(s, s, cx, path, depth, st).details == []
    decreases st.nodes, 2
  {
    if s.Object? {
      var ps := CompareProperties(s, s, cx, path, depth, 0, st);
      UnchangedProperties(s, cx, path, depth, 0, st);
      if s.items.Some? { UnchangedReportsNothing(s.items.value, cx, path + [ToItems], depth + 1, ps.state); }
      UnchangedGone(s, cx.side, 0, path);
      if s.enum.Some? {
        forall i | 0 <= i < |s.enum.value| ensures Printable(s.enum.value[i], s.enum.value) {
          assert Stringify(s.enum.value[i]) == Stringify(s.enum.value[i]);
        }
      }
    }
  }

  lemma {:induction false} UnchangedProperties(s: Schema, cx: Setting, path: seq<Step>, depth: nat, i: nat, st: State)
    requires s.Object? && cx.from == cx.to && i <= |s.properties|
    ensures CompareProperties(s, s, cx, path, depth, i, st).details == []
    decreases st.nodes, 1, |s.properties| - i
  {
    if i < |s.properties| {
      var name := s.properties[i].name;
      assert Declares(s, name);
      var first := CompareProperty(s, s, cx, path, depth, name, st);
      UnchangedReportsNothing(PropertyOf(s, name), cx, path + [ToProperty(name)], depth + 1, st);
      UnchangedProperties(s, cx, path, depth, i + 1, first.state);
    }
  }

  lemma {:induction false} UnchangedGone(s: Schema, side: Side, i: nat, path: seq<Step>)
    requires s.Object? && i <= |s.properties|
    ensures GoneDetails(side, s, s, i, path) == []
    decreases |s.properties| - i
  {
    if i < |s.properties| {
      assert Declares(s, s.properties[i].name);
      UnchangedGone(s, side, i + 1, path);
    }
  }

  // ----- why each hypothesis is there

  /** The comparison of `was` with `now` is silent and still `v` is accepted by the old side only. */
  ghost predicate Misses(was: Schema, now: Schema, cx: Setting, v: Json, hops: nat, means: Meaning) {
    && cx.side == Request
    && Silent(Compare(was, now, cx, [], 0, State(MAX_SCHEMA_NODES, false, {})))
    && Valid(v, was, cx.from, hops, means)
    && !Valid(v, now, cx.to, hops, means)
  }

  const ANYTHING := Object(None, Untyped, None, [], [], None)
  const ONLY_NULL := Object(None, Untyped, Some([Null]), [], [], None)
  const EMPTY_CX := Setting(Request, map[], map[])

  lemma EnumOnlyOnNewSide(means: Meaning)
    ensures Misses(ANYTHING, ONLY_NULL, EMPTY_CX, Bool(true), 1, means)
  {
    var e := [Null];
    assert !Same(e[0], Bool(true));
    assert Resolve(ONLY_NULL, map[], 1) == ONLY_NULL;
  }

  lemma ItemsOnlyOnNewSide(means: Meaning)
    ensures Misses(ANYTHING, ANYTHING.(items := Some(ONLY_NULL)), EMPTY_CX, Arr([Bool(true)]), 1, means)
  {
    var now := ANYTHING.(items := Some(ONLY_NULL));
    assert Compare(Missing, ONLY_NULL, EMPTY_CX, [ToItems], 1, State(1999, false, {})).details == [];
    assert Resolve(now, map[], 1) == now && Resolve(ONLY_NULL, map[], 1) == ONLY_NULL;
    assert !Valid(Bool(true), ONLY_NULL, map[], 1, means) by { assert !Same(ONLY_NULL.enum.value[0], Bool(true)); }
    assert Arr([Bool(true)]).items[0] == Bool(true);
  }

  lemma RequiredButUndeclared(means: Meaning)
    ensures Misses(ANYTHING, ANYTHING.(required := [[97]]), EMPTY_CX, Obj([]), 1, means)
  {
    var now := ANYTHING.(required := [[97]]);
    assert Resolve(now, map[], 1) == now;
    assert now.required[0] == [97] && !HasKey(Obj([]).members, [97]);
  }

  /** The value uses a property that only the new revision declares. */
  lemma NewPropertyUsed(means: Meaning)
    ensures Misses(ANYTHING, ANYTHING.(properties := [Property([97], ONLY_NULL)]), EMPTY_CX,
                   Obj([Member([97], Bool(true))]), 1, means)
  {
    var now := ANYTHING.(properties := [Property([97], ONLY_NULL)]);
    var v := Obj([Member([97], Bool(true))]);
    assert now.properties[0].name == [97] && Declares(now, [97]) && PropertyOf(now, [97]) == ONLY_NULL;
    assert !Declares(ANYTHING, [97]);
    assert Resolve(now, map[], 1) == now && Resolve(ONLY_NULL, map[], 1) == ONLY_NULL;
    assert !Valid(Bool(true), ONLY_NULL, map[], 1, means) by { assert !Same(ONLY_NULL.enum.value[0], Bool(true)); }
    assert v.members[0].key == [97];
  }

  /** A reference to a reference: one hop is followed, and nothing recurses on the result. */
  lemma ReferenceChain(means: Meaning)
    ensures var r := ANYTHING.(ref := Some([35, 47, 97]));
            var link := ANYTHING.(ref := Some([35, 47, 98]));
            var from := map[[35, 47, 97] := link, [35, 47, 98] := ANYTHING];
            var to := map[[35, 47, 97] := link, [35, 47, 98] := ONLY_NULL];
            Misses(r, r, Setting(Request, from, to), Bool(true), 2, means)
  {
    var a: Text, b: Text := [35, 47, 97], [35, 47, 98];
    assert a[2] == 97 && b[2] == 98;
    var r, link := ANYTHING.(ref := Some(a)), ANYTHING.(ref := Some(b));
    var from, to := map[a := link, b := ANYTHING], map[a := link, b := ONLY_NULL];
    assert Deref(r, from) == link && Deref(r, to) == link && Deref(link, from) == ANYTHING
           && Deref(link, to) == ONLY_NULL;
    assert Resolve(link, from, 1) == Resolve(ANYTHING, from, 0);
    assert Resolve(link, to, 1) == Resolve(ONLY_NULL, to, 0);
    assert Resolve(r, from, 2) == ANYTHING && Resolve(r, to, 2) == ONLY_NULL;
    var e := ONLY_NULL.enum.value;
    assert !Same(e[0], Bool(true));
  }

  /** One-sided references share a memo key: after one comparison, every other is skipped. */
  lemma OneSidedSkipped(r: Schema, n1: Schema, n2: Schema, cx: Setting, p1: seq<Step>, p2: seq<Step>, d1: nat, d2: nat,
                        st: State)
    requires RefOf(r).Some? && RefOf(r).value != [] && RefOf(n1).None? && RefOf(n2).None?
    requires var first := Compare(r, n1, cx, p1, d1, st).state;
             !Compare(r, n2, cx, p2, d2, first).state.exhausted
    ensures Compare(r, n2, cx, p2, d2, Compare(r, n1, cx, p1, d1, st).state).details == []
  {
    assert MemoKey(r, n1) == MemoKey(r, n2);
  }

  function Typed(name: Text): Schema { Object(None, OneType(name), None, [], [], None) }

  function TypedBesideRef(name: Text): Schema { Object(Some(REF), OneType(name), None, [], [], None) }

  const REF: Text := [35, 47, 97]
  const P: Text := [112]
  const Q: Text := [113]

  function Two(p: Schema, q: Schema): Schema { ANYTHING.(properties := [Property(P, p), Property(Q, q)]) }

  lemma TwoProperties(p: Schema, q: Schema)
    ensures Declares(Two(p, q), P) && Declares(Two(p, q), Q) && PropertyOf(Two(p, q), P) == p
            && PropertyOf(Two(p, q), Q) == q
  {
    var s := Two(p, q);
    assert s.properties[0].name == P && s.properties[1].name == Q;
    assert Position(s.properties, Q) == 1;
  }

  /** Two pairs of properties under one memo key: the first agrees, so the second is never looked at. */
  lemma SharedKeyMisses(wp: Schema, wq: Schema, np: Schema, nq: Schema, cx: Setting, means: Meaning)
    requires cx.side == Request && MemoKey(wp, np).Some? && MemoKey(wq, nq) == MemoKey(wp, np)
    requires Plain(Deref(wp, cx.from), [1]) && Plain(Deref(np, cx.to), [1])
    requires Plain(Deref(wq, cx.from), [1]) && Plain(Deref(nq, cx.to), [2])
    requires Deref(Deref(wq, cx.from), cx.from) == Deref(wq, cx.from)
             && Deref(Deref(nq, cx.to), cx.to) == Deref(nq, cx.to)
    requires means(Null, [1]) && !means(Null, [2])
    ensures Misses(Two(wp, wq), Two(np, nq), cx, Obj([Member(Q, Null)]), 1, means)
  {
    SharedKeySilent(wp, wq, np, nq, cx);
    TwoProperties(wp, wq);
    TwoProperties(np, nq);
    var was, now, v := Two(wp, wq), Two(np, nq), Obj([Member(Q, Null)]);
    assert Resolve(wq, cx.from, 1) == Deref(wq, cx.from) && Resolve(nq, cx.to, 1) == Deref(nq, cx.to);
    assert Resolve(was, cx.from, 1) == was && Resolve(now, cx.to, 1) == now;
    assert v.members[0].key == Q;
    PlainValid(Null, wq, cx.from, [1], means);
    PlainValid(Null, nq, cx.to, [2], means);
    assert Valid(v, was, cx.from, 1, means);
    assert !Valid(v, now, cx.to, 1, means);
  }

  /** No keyword but the type. */
  predicate Plain(s: Schema, name: Text) { s.Object? && s == Object(s.ref, OneType(name), None, [], [], None) }

  lemma PlainValid(v: Json, s: Schema, c: Components, name: Text, means: Meaning)
    requires Plain(Deref(s, c), name) && !v.Obj? && !v.Arr?
    ensures Valid(v, s, c, 1, means) <==> means(v, name)
  {
    assert Resolve(s, c, 1) == Deref(s, c);
  }

  lemma SharedKeySilent(wp: Schema, wq: Schema, np: Schema, nq: Schema, cx: Setting)
    requires cx.side == Request && MemoKey(wp, np).Some? && MemoKey(wq, nq) == MemoKey(wp, np)
    requires Plain(Deref(wp, cx.from), [1]) && Plain(Deref(np, cx.to), [1])
    ensures Silent(Compare(Two(wp, wq), Two(np, nq), cx, [], 0, State(MAX_SCHEMA_NODES, false, {})))
  {
    hide CompareProperty, Compare, MemoKey, Plain;
    var key := MemoKey(wp, np).value;
    var s1, s2, s3 := State(1999, false, {}), State(1998, false, {key}), State(1997, false, {key});
    FirstProperty(wp, wq, np, nq, cx, s1);
    SecondProperty(wp, wq, np, nq, cx, s2);
    assert {} + {key} == {key};
    ListProperties(wp, wq, np, nq, cx, s1, s2, s3);
  }

  lemma FirstProperty(wp: Schema, wq: Schema, np: Schema, nq: Schema, cx: Setting, st: State)
    requires cx.side == Request && MemoKey(wp, np).Some? && st == State(1999, false, {})
    requires Plain(Deref(wp, cx.from), [1]) && Plain(Deref(np, cx.to), [1])
    ensures CompareProperty(Two(wp, wq), Two(np, nq), cx, [], 0, P, st)
         == Outcome([], State(1998, false, st.seen + {MemoKey(wp, np).value}))
  {
    TwoProperties(wp, wq);
    TwoProperties(np, nq);
    FirstCompared(wp, np, cx, [] + [ToProperty(P)], st);
  }

  lemma SecondProperty(wp: Schema, wq: Schema, np: Schema, nq: Schema, cx: Setting, st: State)
    requires cx.side == Request && MemoKey(wp, np).Some? && MemoKey(wq, nq) == MemoKey(wp, np)
    requires st == State(1998, false, {MemoKey(wp, np).value})
    ensures CompareProperty(Two(wp, wq), Two(np, nq), cx, [], 0, Q, st) == Outcome([], st.(nodes := 1997))
  {
    TwoProperties(wp, wq);
    TwoProperties(np, nq);
  }

  lemma FirstCompared(wp: Schema, np: Schema, cx: Setting, path: seq<Step>, st: State)
    requires cx.side == Request && st.nodes > 0 && MemoKey(wp, np).Some? && MemoKey(wp, np).value !in st.seen
    requires Plain(Deref(wp, cx.from), [1]) && Plain(Deref(np, cx.to), [1])
    ensures Compare(wp, np, cx, path, 1, st)
         == Outcome([], State(st.nodes - 1, st.exhausted, st.seen + {MemoKey(wp, np).value}))
  {
    var marked := State(st.nodes - 1, st.exhausted, st.seen + {MemoKey(wp, np).value});
    var w, n := Deref(wp, cx.from), Deref(np, cx.to);
    assert CompareShapes(w, n, cx, path, 1, marked) == Outcome([], marked);
  }

  lemma ListProperties(wp: Schema, wq: Schema, np: Schema, nq: Schema, cx: Setting, s1: State, s2: State, s3: State)
    requires cx.side == Request && s1 == State(1999, false, {}) && !s3.exhausted
    requires CompareProperty(Two(wp, wq), Two(np, nq), cx, [], 0, P, s1) == Outcome([], s2)
    requires CompareProperty(Two(wp, wq), Two(np, nq), cx, [], 0, Q, s2) == Outcome([], s3)
    ensures Silent(Compare(Two(wp, wq), Two(np, nq), cx, [], 0, State(MAX_SCHEMA_NODES, false, {})))
  {
    hide CompareProperty;
    var was, now := Two(wp, wq), Two(np, nq);
    assert MemoKey(was, now) == None;
    assert CompareProperties(was, now, cx, [], 0, 2, s3) == Outcome([], s3);
    assert CompareProperties(was, now, cx, [], 0, 1, s2) == Outcome([], s3);
    assert CompareProperties(was, now, cx, [], 0, 0, s1) == Outcome([], s3);
    TwoProperties(wp, wq);
    TwoProperties(np, nq);
    assert GoneDetails(Request, was, now, 2, []) == [];
    assert GoneDetails(Request, was, now, 1, []) == [];
    assert GoneDetails(Request, was, now, 0, []) == [];
    assert EnumDetails(Request, was, now, []) == [];
    assert CompareItems(was, now, cx, [], 0, s3) == Outcome([], s3);
    assert CompareShapes(was, now, cx, [], 0, s1) == Outcome([], s3);
  }

  const ONE: Meaning := (v: Json, name: Text) => name == [1]

  /** A reference on one side only: the second property changed its type, and the shared key hides it. */
  lemma OneSidedReference()
    ensures var refers := ANYTHING.(ref := Some(REF));
            Misses(Two(refers, refers), Two(Typed([1]), Typed([2])), Setting(Request, map[REF := Typed([1])], map[]),
                   Obj([Member(Q, Null)]), 1, ONE)
  {
    var refers, cx := ANYTHING.(ref := Some(REF)), Setting(Request, map[REF := Typed([1])], map[]);
    assert Deref(refers, cx.from) == Typed([1]);
    SharedKeyMisses(refers, refers, Typed([1]), Typed([2]), cx, ONE);
  }

  /** References that hold the bar the key is joined with. */
  lemma BarredReference()
    ensures var a, ab, bc, c := ANYTHING.(ref := Some([35, 47, 97])),
            ANYTHING.(ref := Some([35, 47, 97, 124, 35, 47, 98])),
                                ANYTHING.(ref := Some([35, 47, 98, 124, 35, 47, 99])),
                                    ANYTHING.(ref := Some([35, 47, 99]));
            var from, to := map[a.ref.value := Typed([1]), ab.ref.value := Typed([1])],
                map[bc.ref.value := Typed([1]), c.ref.value := Typed([2])];
            Misses(Two(a, ab), Two(bc, c), Setting(Request, from, to), Obj([Member(Q, Null)]), 1, ONE)
  {
    var a, ab, bc, c := ANYTHING.(ref := Some([35, 47, 97])), ANYTHING.(ref := Some([35, 47, 97, 124, 35, 47, 98])),
                        ANYTHING.(ref := Some([35, 47, 98, 124, 35, 47, 99])), ANYTHING.(ref := Some([35, 47, 99]));
    assert |bc.ref.value| != |c.ref.value| && |a.ref.value| != |ab.ref.value|;
    var from, to := map[a.ref.value := Typed([1]), ab.ref.value := Typed([1])],
        map[bc.ref.value := Typed([1]), c.ref.value := Typed([2])];
    assert a.ref.value + [124] + bc.ref.value == ab.ref.value + [124] + c.ref.value;
    SharedKeyMisses(a, ab, bc, c, Setting(Request, from, to), ONE);
  }

  /** References that do not resolve stand for themselves, and two of them can differ in what is beside them. */
  lemma UnresolvedReference()
    ensures var one, two := TypedBesideRef([1]), TypedBesideRef([2]);
            Misses(Two(one, one), Two(one, two), EMPTY_CX, Obj([Member(Q, Null)]), 1, ONE)
  {
    var one, two := TypedBesideRef([1]), TypedBesideRef([2]);
    SharedKeyMisses(one, one, one, two, EMPTY_CX, ONE);
  }

  /** Boolean schemas are not looked into. */
  lemma BooleanSwapped(v: Json, means: Meaning)
    ensures Misses(Boolean(true), Boolean(false), EMPTY_CX, v, 1, means)
  {
    assert Resolve(Boolean(false), map[], 1) == Boolean(false) && Resolve(Boolean(true), map[], 1) == Boolean(true);
  }

  /** An empty type name, or an empty list of them, counts as no type. */
  lemma EmptyTypeName(v: Json)
    requires !v.Obj? && !v.Arr?
    ensures var means: Meaning := (v: Json, name: Text) => name != [];
            && Misses(ANYTHING, ANYTHING.(typ := OneType([])), EMPTY_CX, v, 1, means)
            && Misses(ANYTHING, ANYTHING.(typ := ManyTypes([])), EMPTY_CX, v, 1, means)
  {
    var means: Meaning := (v: Json, name: Text) => name != [];
    var one, none := ANYTHING.(typ := OneType([])), ANYTHING.(typ := ManyTypes([]));
    assert Resolve(one, map[], 1) == one && Resolve(none, map[], 1) == none && Resolve(ANYTHING, map[], 1) == ANYTHING;
    assert TypeKey(none.typ) == Some([]) by { assert SortTexts([]) == []; }
    var st := State(1999, false, {});
    assert CompareShapes(ANYTHING, one, EMPTY_CX, [], 0, st).details == []
           && !CompareShapes(ANYTHING, one, EMPTY_CX, [], 0, st).state.exhausted;
    assert CompareShapes(ANYTHING, none, EMPTY_CX, [], 0, st).details == []
           && !CompareShapes(ANYTHING, none, EMPTY_CX, [], 0, st).state.exhausted;
  }

  /** Type names that hold the bar names are joined with. */
  lemma BarredTypeName(v: Json)
    requires !v.Obj? && !v.Arr?
    ensures var means: Meaning := (v: Json, name: Text) => |name| == 1;
            Misses(ANYTHING.(typ := ManyTypes([[97], [98]])), ANYTHING.(typ := OneType([97, 124, 98])), EMPTY_CX, v, 1,
                   means)
  {
    var means: Meaning := (v: Json, name: Text) => |name| == 1;
    var was, now := ANYTHING.(typ := ManyTypes([[97], [98]])), ANYTHING.(typ := OneType([97, 124, 98]));
    SortedPair();
    assert Resolve(was, map[], 1) == was && Resolve(now, map[], 1) == now;
    assert was.typ.names[0] == [97];
    assert TypeAccepts(v, was.typ, means) && !TypeAccepts(v, now.typ, means);
    assert Valid(v, was, map[], 1, means) && !Valid(v, now, map[], 1, means);
    var st := State(1999, false, {});
    assert !TypeChanged(was, now);
    assert CompareShapes(was, now, EMPTY_CX, [], 0, st) == Outcome([], st);
    assert Deref(was, map[]) == was && Deref(now, map[]) == now;
    assert Compare(was, now, EMPTY_CX, [], 0, State(MAX_SCHEMA_NODES, false, {})) == Outcome([], st);
  }

  lemma SortedPair()
    ensures TypeKey(ManyTypes([[97], [98]])) == Some([97, 124, 98])
  {
    var names: seq<Text> := [[97], [98]];
    SortIdentity(names);
    assert names[1..] == [[98]];
    assert Join([[98]]) == [98];
    assert Join(names) == [97] + [124] + Join(names[1..]);
    assert [97] + [124] + [98] == [97, 124, 98];
  }
}

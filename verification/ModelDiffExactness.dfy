/**
 What the comparison of two revisions of an API reports, said of the revisions alone: when a head,
 the parameters, a body and a whole operation are breaking, which operations are listed, and what
 is counted.
 */
module ModelDiffExactness {
  import opened Text
  import opened Json
  import opened SchemaDiff
  import opened SchemaDiffSoundness
  import opened SchemaDiffExactness
  import opened RequestDiff
  import opened ModelDiff

  // ----- maps that keep the last entry

  /** The entry of a key is its last one. */
  lemma {:induction false} EntryIsLast<K, T>(xs: seq<T>, key: T -> K, i: nat)
    requires i < |xs| && forall j :: i < j < |xs| ==> key(xs[j]) != key(xs[i])
    ensures HasEntry(xs, key, key(xs[i])) && Entry(xs, key, key(xs[i])) == xs[i]
  {
    var n := |xs| - 1;
    if i < n {
      assert xs[..n][i] == xs[i];
      EntryIsLast(xs[..n], key, i);
    }
  }

  ghost predicate Distinct<T>(xs: seq<T>) { forall i, j :: 0 <= i < j < |xs| ==> xs[i] != xs[j] }

  lemma {:induction false} KeysDistinct<K, T>(xs: seq<T>, key: T -> K)
    ensures Distinct(Keys(xs, key))
  {
    if xs != [] { KeysDistinct(xs[..|xs| - 1], key); }
  }

  // ----- the head

  ghost predicate HeadLost(before: Operation, after: Operation) {
    || before.verb != after.verb || before.path != after.path || before.selector != after.selector
    || before.inputElement != after.inputElement || before.outputElement != after.outputElement
    || (before.soapAction.Some? && before.soapAction != after.soapAction)
  }

  lemma WhenBreaks(differs: bool, rule: Rule, breaking: bool)
    ensures Breaks(When(differs, rule, breaking)) <==> differs && breaking
  {
    OnlyBreaks(differs, Detail([], rule, breaking));
  }

  lemma HeadBreaksExactly(before: Operation, after: Operation)
    ensures Breaks(HeadDetails(before, after)) <==> HeadLost(before, after)
  {
    var a := When(before.verb != after.verb, MethodChanged, true);
    var b := When(before.path != after.path, PathChanged, true);
    var c := When(before.selector != after.selector, SelectorChanged, true);
    var d := When(before.inputElement != after.inputElement, SoapChanged, true);
    var e := When(before.outputElement != after.outputElement, SoapChanged, true);
    var f := When(before.soapAction != after.soapAction, SoapChanged, before.soapAction.Some?);
    WhenBreaks(before.verb != after.verb, MethodChanged, true);
    WhenBreaks(before.path != after.path, PathChanged, true);
    WhenBreaks(before.selector != after.selector, SelectorChanged, true);
    WhenBreaks(before.inputElement != after.inputElement, SoapChanged, true);
    WhenBreaks(before.outputElement != after.outputElement, SoapChanged, true);
    WhenBreaks(before.soapAction != after.soapAction, SoapChanged, before.soapAction.Some?);
    hide When;
    BreaksConcat(a + b + c + d + e, f);
    BreaksConcat(a + b + c + d, e);
    BreaksConcat(a + b + c, d);
    BreaksConcat(a + b, c);
    BreaksConcat(a, b);
  }

  // ----- parameters

  function WordsOf(s: Schema): multiset<Text> { if s.Object? then Words(s.typ) else multiset{} }

  ghost predicate SchemaSane(s: Schema) { s.Object? ==> TypeSane(s.typ) && EnumSane(s.enum) }

  /** A parameter both revisions have: one that must be sent now, is read as another type, or lost a value. */
  ghost predicate ParameterLost(was: Parameter, now: Parameter) {
    || (now.required && !was.required)
    || WordsOf(was.schema) != WordsOf(now.schema)
    || (was.schema.Object? && now.schema.Object? && EnumLost(was.schema, now.schema))
  }

  lemma {:induction false} SaneKey(t: TypeKeyword)
    requires TypeSane(t)
    ensures TypeKey(t).None? <==> Words(t) == multiset{}
    ensures TypeKey(t) != Some([])
  {
    if !t.Untyped? {
      SaneNames(t);
      NamesAreWords(t);
      assert NamesOf(t)[0] in multiset(NamesOf(t));
    }
  }

  lemma TypeOfExact(was: Schema, now: Schema)
    requires SchemaSane(was) && SchemaSane(now)
    ensures TypeOf(was) == TypeOf(now) <==> WordsOf(was) == WordsOf(now)
  {
    hide TypeKey, Words;
    if was.Object? { SaneKey(was.typ); }
    if now.Object? { SaneKey(now.typ); }
    if was.Object? && now.Object? { TypesExact(was, now); }
  }

  lemma KeptBreaksExactly(was: Parameter, now: Parameter)
    requires SchemaSane(was.schema) && SchemaSane(now.schema)
    ensures Breaks(KeptDetails(was, now)) <==> ParameterLost(was, now)
  {
    hide TypeOf, EnumLoss, WordsOf, EnumLost, SchemaSane;
    var path := [ToParameter(was.place, was.name)];
    var a := if !was.required && now.required then [Detail(path, RequiredAdded, true)] else [];
    var b := if TypeOf(was.schema) != TypeOf(now.schema) then [Detail(path, TypeChangedRule, true)] else [];
    var c := if LosesEnum(was.schema, now.schema) then [Detail(path, EnumValueRemoved, true)] else [];
    BreaksConcat(a + b, c);
    BreaksConcat(a, b);
    OnlyBreaks(!was.required && now.required, Detail(path, RequiredAdded, true));
    OnlyBreaks(TypeOf(was.schema) != TypeOf(now.schema), Detail(path, TypeChangedRule, true));
    OnlyBreaks(LosesEnum(was.schema, now.schema), Detail(path, EnumValueRemoved, true));
    TypeOfExact(was.schema, now.schema);
    if was.schema.Object? && now.schema.Object? { EnumKept(was.schema, now.schema); }
  }

  lemma EnumKept(was: Schema, now: Schema)
    requires was.Object? && now.Object? && SchemaSane(was) && SchemaSane(now)
    ensures EnumLoss(was, now) <==> EnumLost(was, now)
  {
    EnumExact(was, now);
  }

  ghost predicate SharedSane(before: seq<Parameter>, after: seq<Parameter>) {
    forall k :: HasEntry(before, KeyOf, k) && HasEntry(after, KeyOf, k) ==>
      SchemaSane(Entry(before, KeyOf, k).schema) && SchemaSane(Entry(after, KeyOf, k).schema)
  }

  /** A parameter that was part of the path is gone, one both have is lost, or a new one must be sent. */
  ghost predicate LostAt(before: seq<Parameter>, after: seq<Parameter>, k: ParameterKey) {
    if HasEntry(before, KeyOf, k) then
      if HasEntry(after, KeyOf, k) then ParameterLost(Entry(before, KeyOf, k), Entry(after, KeyOf, k))
      else k.0 == Ascii("path")
    else HasEntry(after, KeyOf, k) && Entry(after, KeyOf, k).required
  }

  lemma PathIsWritten()
    ensures PATH == Ascii("path")
  {
  }

  lemma OldBreaksExactly(before: seq<Parameter>, after: seq<Parameter>, k: ParameterKey)
    requires HasEntry(before, KeyOf, k) && SharedSane(before, after)
    ensures Breaks(OldParameter(before, after, k)) <==> LostAt(before, after, k)
  {
    hide HasEntry, Entry, KeptDetails, ParameterLost, SchemaSane;
    PathIsWritten();
    EntryFits(before, KeyOf, k);
    var was := Entry(before, KeyOf, k);
    if HasEntry(after, KeyOf, k) {
      KeptBreaksExactly(was, Entry(after, KeyOf, k));
    } else {
      OnlyBreaks(true, Detail([ToParameter(k.0, k.1)], ParameterGone, was.place == PATH));
    }
  }

  lemma NewBreaksExactly(before: seq<Parameter>, after: seq<Parameter>, k: ParameterKey)
    requires HasEntry(after, KeyOf, k) && !HasEntry(before, KeyOf, k)
    ensures Breaks(NewParameter(before, after, k)) <==> LostAt(before, after, k)
  {
    var required := Entry(after, KeyOf, k).required;
    OnlyBreaks(true, Detail([ToParameter(k.0, k.1)], if required then RequiredAdded else ParameterAdded, required));
  }

  lemma {:induction false} OldBreaksFrom(before: seq<Parameter>, after: seq<Parameter>, ks: seq<ParameterKey>)
    returns (k: ParameterKey)
    requires (forall x :: x in ks ==> HasEntry(before, KeyOf, x)) && Breaks(OldDetails(before, after, ks))
    ensures k in ks && Breaks(OldParameter(before, after, k))
  {
    hide OldParameter, HasEntry;
    var n := |ks| - 1;
    BreaksConcat(OldDetails(before, after, ks[..n]), OldParameter(before, after, ks[n]));
    if Breaks(OldParameter(before, after, ks[n])) {
      k := ks[n];
    } else {
      k := OldBreaksFrom(before, after, ks[..n]);
    }
  }

  lemma {:induction false} NewBreaksFrom(before: seq<Parameter>, after: seq<Parameter>, ks: seq<ParameterKey>)
    returns (k: ParameterKey)
    requires (forall x :: x in ks ==> HasEntry(after, KeyOf, x)) && Breaks(NewDetails(before, after, ks))
    ensures k in ks && Breaks(NewParameter(before, after, k))
  {
    hide NewParameter, HasEntry;
    var n := |ks| - 1;
    BreaksConcat(NewDetails(before, after, ks[..n]), NewParameter(before, after, ks[n]));
    if Breaks(NewParameter(before, after, ks[n])) {
      k := ks[n];
    } else {
      k := NewBreaksFrom(before, after, ks[..n]);
    }
  }

  /** The parameters are reported breaking exactly if one of them is lost. */
  lemma ParametersBreakExactly(before: seq<Parameter>, after: seq<Parameter>)
    requires SharedSane(before, after)
    ensures Breaks(ParameterDetails(before, after)) <==> exists k :: LostAt(before, after, k)
  {
    AllKeys(before);
    AllKeys(after);
    var olds, news := Keys(before, KeyOf), Keys(after, KeyOf);
    BreaksConcat(OldDetails(before, after, olds), NewDetails(before, after, news));
    hide HasEntry, Entry, KeptDetails, SharedSane;
    if Breaks(OldDetails(before, after, olds)) {
      var k := OldBreaksFrom(before, after, olds);
      OldBreaksExactly(before, after, k);
    }
    if Breaks(NewDetails(before, after, news)) {
      var k := NewBreaksFrom(before, after, news);
      if !HasEntry(before, KeyOf, k) { NewBreaksExactly(before, after, k); }
    }
    if k :| LostAt(before, after, k) {
      KeysExact(before, KeyOf, k);
      KeysExact(after, KeyOf, k);
      if HasEntry(before, KeyOf, k) {
        OldBreaksExactly(before, after, k);
        OldSilent(before, after, olds, k);
      } else {
        NewBreaksExactly(before, after, k);
        NewSilent(before, after, news, k);
      }
    }
  }

  // ----- bodies

  /** A media type of the old body the new one refuses, or whose schema loses a caller. */
  ghost predicate MediaLost(was: RequestBody, now: RequestBody, cx: Setting, i: nat)
    requires i < |was.content|
  {
    var media := was.content[i].media;
    Offers(now, media) ==> !CallersKept(was.content[i].schema, SchemaFor(now, media), cx)
  }

  ghost predicate BodyLost(was: Option<RequestBody>, now: Option<RequestBody>, cx: Setting) {
    match (was, now)
    case (_, None) => false
    case (None, Some(n)) => n.required
    case (Some(w), Some(n)) => (n.required && !w.required) || exists i :: 0 <= i < |w.content| && MediaLost(w, n, cx, i)
  }

  /** Every media type both bodies offer is compared within the sane pairs. */
  ghost predicate BodiesSane(was: RequestBody, now: RequestBody, cx: Setting, pairs: iset<(Schema, Schema)>) {
    && SanePairs(pairs, cx)
    && forall i :: 0 <= i < |was.content| && Offers(now, was.content[i].media) ==>
         (was.content[i].schema, SchemaFor(now, was.content[i].media)) in pairs
  }

  lemma {:induction false} GoneMediaExactly(was: RequestBody, now: RequestBody, i: nat)
    requires i <= |was.content|
    ensures Breaks(MediaGoneDetails(was, now, i)) <==>
            exists k :: i <= k < |was.content| && !Offers(now, was.content[k].media)
    decreases |was.content| - i
  {
    if i < |was.content| {
      var one := if Offers(now, was.content[i].media) then []
          else [Detail([ToMedia(was.content[i].media)], MediaGone, true)];
      BreaksConcat(one, MediaGoneDetails(was, now, i + 1));
      OnlyBreaks(!Offers(now, was.content[i].media), Detail([ToMedia(was.content[i].media)], MediaGone, true));
      GoneMediaExactly(was, now, i + 1);
    }
  }

  lemma {:induction false} AddedMediaQuiet(was: RequestBody, now: RequestBody, i: nat)
    requires i <= |now.content|
    ensures !Breaks(MediaAddedDetails(was, now, i))
    decreases |now.content| - i
  {
    if i < |now.content| {
      var one := if Offers(was, now.content[i].media) then []
          else [Detail([ToMedia(now.content[i].media)], MediaAdded, false)];
      BreaksConcat(one, MediaAddedDetails(was, now, i + 1));
      AddedMediaQuiet(was, now, i + 1);
    }
  }

  lemma {:induction false} ComparedExactly(was: RequestBody, now: RequestBody, cx: Setting, i: nat, nodes: nat,
                                           pairs: iset<(Schema, Schema)>)
    requires i <= |was.content| && BodiesSane(was, now, cx, pairs)
    requires !MediaCompared(was, now, cx, i, nodes, false).state.exhausted
    ensures Breaks(MediaCompared(was, now, cx, i, nodes, false).details) <==>
            exists k :: i <= k < |was.content| && Offers(now, was.content[k].media) && MediaLost(was, now, cx, k)
    decreases |was.content| - i
  {
    hide Compare, CallersKept, SanePairs;
    if i < |was.content| {
      var media := was.content[i].media;
      if !Offers(now, media) {
        ComparedExactly(was, now, cx, i + 1, nodes, pairs);
      } else {
        var first := Compare(was.content[i].schema, SchemaFor(now, media), cx, MediaPath(media), 0,
                             State(nodes, false, {}));
        var rest := MediaCompared(was, now, cx, i + 1, first.state.nodes, first.state.exhausted);
        BreaksConcat(first.details, rest.details);
        BreaksExactly(was.content[i].schema, SchemaFor(now, media), cx, MediaPath(media), nodes, pairs);
        ComparedExactly(was, now, cx, i + 1, first.state.nodes, pairs);
      }
    }
  }

  /** Within the budget, a body is reported breaking exactly if it is lost. */
  lemma BodyBreaksExactly(was: Option<RequestBody>, now: Option<RequestBody>, cx: Setting, nodes: nat,
                          pairs: iset<(Schema, Schema)>)
    requires was.Some? && now.Some? ==> BodiesSane(was.value, now.value, cx, pairs)
    requires !BodyCompared(was, now, cx, nodes, false).state.exhausted
    ensures Breaks(BodyCompared(was, now, cx, nodes, false).details) <==> BodyLost(was, now, cx)
  {
    hide MediaCompared, MediaGoneDetails, MediaAddedDetails, BodiesSane, CallersKept;
    if was.Some? && now.Some? {
      var w, n := was.value, now.value;
      var req, gone, added := BodyRequiredDetails(w, n), MediaGoneDetails(w, n, 0), MediaAddedDetails(w, n, 0);
      var m := MediaCompared(w, n, cx, 0, nodes, false);
      BreaksConcat(req, gone);
      BreaksConcat(req + gone, added);
      BreaksConcat(req + gone + added, m.details);
      OnlyBreaks(!w.required && n.required, Detail([], RequiredAdded, true));
      GoneMediaExactly(w, n, 0);
      AddedMediaQuiet(w, n, 0);
      ComparedExactly(w, n, cx, 0, nodes, pairs);
      if k :| 0 <= k < |w.content| && !Offers(n, w.content[k].media) { assert MediaLost(w, n, cx, k); }
      if k :| 0 <= k < |w.content| && MediaLost(w, n, cx, k) {
        assert !Offers(n, w.content[k].media) || (Offers(n, w.content[k].media) && MediaLost(w, n, cx, k));
      }
    } else if now.Some? {
      OnlyBreaks(true, Detail([], if now.value.required then RequiredAdded else BodyAdded, now.value.required));
    } else if was.Some? {
      OnlyBreaks(true, Detail([], BodyGone, false));
    }
  }

  // ----- operations

  /**
   An operation compared within its budget of two thousand nodes is reported breaking exactly if its
   head, a parameter or its body loses a caller, or the comparison of the responses says so.
   */
  lemma OperationBreaksExactly(before: Operation, after: Operation, cx: Setting, later: Later,
                               pairs: iset<(Schema, Schema)>)
    requires SharedSane(before.parameters, after.parameters)
    requires before.body.Some? && after.body.Some? ==> BodiesSane(before.body.value, after.body.value, cx, pairs)
    requires var report := OperationReport(before, after, cx, later); report.Some? ==> !report.value.tooLarge
    ensures var report := OperationReport(before, after, cx, later);
            var b := BodyCompared(before.body, after.body, cx, 2000, false).state;
            report.Some? && report.value.breaking <==>
            || HeadLost(before, after)
            || (exists k :: LostAt(before.parameters, after.parameters, k))
            || BodyLost(before.body, after.body, cx)
            || Breaks(later(before, after, b.nodes, b.exhausted).details)
  {
    var b := BodyCompared(before.body, after.body, cx, MAX_SCHEMA_NODES, false);
    var l := later(before, after, b.state.nodes, b.state.exhausted);
    var h, p := HeadDetails(before, after), ParameterDetails(before.parameters, after.parameters);
    hide HeadDetails, ParameterDetails, BodyCompared, HeadLost, BodyLost, SharedSane, BodiesSane, LostAt;
    BreaksConcat(h + p + b.details, l.details);
    BreaksConcat(h + p, b.details);
    BreaksConcat(h, p);
    HeadBreaksExactly(before, after);
    ParametersBreakExactly(before.parameters, after.parameters);
    BodyBreaksExactly(before.body, after.body, cx, MAX_SCHEMA_NODES, pairs);
  }

  // ----- the list

  /** What a report on one operation says of the two revisions. */
  ghost predicate Reported(from: seq<Operation>, to: seq<Operation>, cx: Setting, later: Later, r: Report) {
    match r.change
    case Removed =>
      HasEntry(from, IdOf, r.id) && !HasEntry(to, IdOf, r.id) && r == Report(r.id, Removed, true, false, [])
    case Added =>
      HasEntry(to, IdOf, r.id) && !HasEntry(from, IdOf, r.id) && r == Report(r.id, Added, false, false, [])
    case Changed =>
      && HasEntry(from, IdOf, r.id) && HasEntry(to, IdOf, r.id)
      && OperationReport(Entry(from, IdOf, r.id), Entry(to, IdOf, r.id), cx, later) == Some(r)
  }

  lemma {:induction false} NewExactly(from: seq<Operation>, ids: seq<Text>, r: Report)
    ensures r in NewReports(from, ids) <==>
            r.id in ids && !HasEntry(from, IdOf, r.id) && r == Report(r.id, Added, false, false, [])
    decreases |ids|
  {
    hide HasEntry;
    if ids != [] {
      var n := |ids| - 1;
      NewExactly(from, ids[..n], r);
      assert ids == ids[..n] + [ids[n]];
    }
  }

  lemma OldExactly(from: seq<Operation>, to: seq<Operation>, id: Text, cx: Setting, later: Later, r: Report)
    requires HasEntry(from, IdOf, id)
    ensures r in OldReport(from, to, id, cx, later) <==>
            r.id == id && !r.change.Added? && Reported(from, to, cx, later, r)
  {
    hide HasEntry, Entry, OperationReport;
    if HasEntry(to, IdOf, id) {
      EntryFits(to, IdOf, id);
      ReportNamed(Entry(from, IdOf, id), Entry(to, IdOf, id), cx, later);
    }
  }

  lemma ReportNamed(before: Operation, after: Operation, cx: Setting, later: Later)
    ensures var r := OperationReport(before, after, cx, later);
            r.Some? ==> r.value.id == after.id && r.value.change == Changed
  {
    hide HeadDetails, ParameterDetails, BodyCompared;
  }

  lemma {:induction false} OldsExactly(from: seq<Operation>, to: seq<Operation>, ids: seq<Text>, cx: Setting,
                                       later: Later, r: Report)
    requires forall id :: id in ids ==> HasEntry(from, IdOf, id)
    ensures r in OldReports(from, to, ids, cx, later) <==>
            r.id in ids && !r.change.Added? && Reported(from, to, cx, later, r)
    decreases |ids|
  {
    hide HasEntry, OldReport, Reported;
    if ids != [] {
      var n := |ids| - 1;
      OldExactly(from, to, ids[n], cx, later, r);
      OldsExactly(from, to, ids[..n], cx, later, r);
      assert ids == ids[..n] + [ids[n]];
    }
  }

  /** The report lists exactly the operations removed, changed and added, with what is said of each. */
  lemma ReportsExactly(from: seq<Operation>, to: seq<Operation>, cx: Setting, later: Later, r: Report)
    ensures r in Reports(from, to, cx, later) <==> Reported(from, to, cx, later, r)
  {
    AllIds(from);
    hide Keys, HasEntry, Entry, OperationReport, OldReports, NewReports;
    OldsExactly(from, to, Keys(from, IdOf), cx, later, r);
    NewExactly(from, Keys(to, IdOf), r);
    KeysExact(from, IdOf, r.id);
    KeysExact(to, IdOf, r.id);
  }

  function Ids(rs: seq<Report>): seq<Text> { seq(|rs|, i requires 0 <= i < |rs| => rs[i].id) }

  lemma DistinctConcat<T>(a: seq<T>, b: seq<T>)
    requires Distinct(a) && Distinct(b) && forall x :: x in a ==> x !in b
    ensures Distinct(a + b)
  {
    var ab := a + b;
    forall i, j | 0 <= i < j < |ab| ensures ab[i] != ab[j] {
      if i < |a| <= j { assert ab[i] == a[i] && ab[j] == b[j - |a|] && a[i] in a && b[j - |a|] in b; }
    }
  }

  lemma IdsConcat(a: seq<Report>, b: seq<Report>)
    ensures Ids(a + b) == Ids(a) + Ids(b)
  {
  }

  lemma IdIn(rs: seq<Report>, id: Text) returns (r: Report)
    requires id in Ids(rs)
    ensures r in rs && r.id == id
  {
    var i :| 0 <= i < |Ids(rs)| && Ids(rs)[i] == id;
    r := rs[i];
  }

  lemma {:induction false} OldsDistinct(from: seq<Operation>, to: seq<Operation>, ids: seq<Text>, cx: Setting,
                                        later: Later)
    requires (forall id :: id in ids ==> HasEntry(from, IdOf, id)) && Distinct(ids)
    ensures Distinct(Ids(OldReports(from, to, ids, cx, later)))
    decreases |ids|
  {
    hide HasEntry, OldReport, Reported, Ids, Distinct;
    if ids == [] {
      NoneDistinct();
    } else {
      var n := |ids| - 1;
      var front, last := OldReports(from, to, ids[..n], cx, later), OldReport(from, to, ids[n], cx, later);
      FrontDistinct(ids);
      OldsDistinct(from, to, ids[..n], cx, later);
      SingleReport(from, to, ids[n], cx, later);
      forall x | x in Ids(front) ensures x !in Ids(last) {
        var r := IdIn(front, x);
        OldsExactly(from, to, ids[..n], cx, later, r);
        if x in Ids(last) {
          var q := IdIn(last, x);
          OldExactly(from, to, ids[n], cx, later, q);
        }
      }
      DistinctConcat(Ids(front), Ids(last));
      IdsConcat(front, last);
    }
  }

  lemma NoneDistinct()
    ensures Distinct(Ids([]))
  {
  }

  lemma FrontDistinct<T>(ids: seq<T>)
    requires ids != [] && Distinct(ids)
    ensures Distinct(ids[..|ids| - 1]) && ids[|ids| - 1] !in ids[..|ids| - 1]
  {
  }

  lemma SingleReport(from: seq<Operation>, to: seq<Operation>, id: Text, cx: Setting, later: Later)
    requires HasEntry(from, IdOf, id)
    ensures Distinct(Ids(OldReport(from, to, id, cx, later)))
  {
    hide OperationReport, Entry;
  }

  lemma {:induction false} NewDistinct(from: seq<Operation>, ids: seq<Text>)
    requires Distinct(ids)
    ensures Distinct(Ids(NewReports(from, ids)))
    decreases |ids|
  {
    hide HasEntry, Ids, Distinct;
    if ids == [] {
      NoneDistinct();
    } else {
      var n := |ids| - 1;
      var front := NewReports(from, ids[..n]);
      var last := if HasEntry(from, IdOf, ids[n]) then [] else [Report(ids[n], Added, false, false, [])];
      FrontDistinct(ids);
      NewDistinct(from, ids[..n]);
      forall x | x in Ids(front) ensures x !in Ids(last) {
        var r := IdIn(front, x);
        NewExactly(from, ids[..n], r);
        if x in Ids(last) { var q := IdIn(last, x); }
      }
      assert Distinct(Ids(last)) by { OneDistinct(last); }
      DistinctConcat(Ids(front), Ids(last));
      IdsConcat(front, last);
    }
  }

  lemma OneDistinct(rs: seq<Report>)
    requires |rs| <= 1
    ensures Distinct(Ids(rs))
  {
  }

  /** No operation is reported twice. */
  lemma ReportedOnce(from: seq<Operation>, to: seq<Operation>, cx: Setting, later: Later)
    ensures Distinct(Ids(Reports(from, to, cx, later)))
  {
    AllIds(from);
    KeysDistinct(from, IdOf);
    KeysDistinct(to, IdOf);
    hide Keys, HasEntry, Entry, OldReports, NewReports, Ids, Distinct, OperationReport;
    var olds, news := OldReports(from, to, Keys(from, IdOf), cx, later), NewReports(from, Keys(to, IdOf));
    OldsDistinct(from, to, Keys(from, IdOf), cx, later);
    NewDistinct(from, Keys(to, IdOf));
    forall x | x in Ids(olds) ensures x !in Ids(news) {
      var r := IdIn(olds, x);
      OldsExactly(from, to, Keys(from, IdOf), cx, later, r);
      if x in Ids(news) {
        var q := IdIn(news, x);
        NewExactly(from, Keys(to, IdOf), q);
      }
    }
    DistinctConcat(Ids(olds), Ids(news));
    IdsConcat(olds, news);
  }

  /** Places of breaking reports. */
  function BreakingPlaces(rs: seq<Report>): set<int> { set i | 0 <= i < |rs| && rs[i].breaking }

  lemma {:induction false} CountExactly(rs: seq<Report>)
    ensures BreakingCount(rs) == |BreakingPlaces(rs)|
    decreases |rs|
  {
    if rs != [] {
      var n := |rs| - 1;
      CountExactly(rs[..n]);
      assert BreakingPlaces(rs) == BreakingPlaces(rs[..n]) + (if rs[n].breaking then {n} else {});
    }
  }
}

/**
 The comparison of two revisions of an API: parameters, operations and the model as a whole. If it
 reports nothing breaking, every request the old revision accepts the new one accepts.
 */
module ModelDiff {
  import opened Text
  import opened Json
  import opened SchemaDiff
  import opened SchemaDiffSoundness
  import opened RequestDiff

  // ----- maps that keep the order of insertion

  /** The keys in the order of their first entry. */
  function Keys<K(==), T>(xs: seq<T>, key: T -> K): seq<K> {
    if xs == [] then []
    else
      var front := Keys(xs[..|xs| - 1], key);
      if key(xs[|xs| - 1]) in front then front else front + [key(xs[|xs| - 1])]
  }

  predicate HasEntry<K(==), T>(xs: seq<T>, key: T -> K, k: K) { exists i :: 0 <= i < |xs| && key(xs[i]) == k }

  /** The last entry of a key. */
  function Entry<K(==), T>(xs: seq<T>, key: T -> K, k: K): T
    requires HasEntry(xs, key, k)
  {
    var n := |xs| - 1;
    if key(xs[n]) == k then xs[n]
    else
      EntryEarlier(xs, key, k);
      Entry(xs[..n], key, k)
  }

  lemma EntryEarlier<K, T>(xs: seq<T>, key: T -> K, k: K)
    requires HasEntry(xs, key, k) && key(xs[|xs| - 1]) != k
    ensures HasEntry(xs[..|xs| - 1], key, k)
  {
    var i :| 0 <= i < |xs| && key(xs[i]) == k;
    assert key(xs[..|xs| - 1][i]) == k;
  }

  lemma {:induction false} KeysExact<K, T>(xs: seq<T>, key: T -> K, k: K)
    ensures k in Keys(xs, key) <==> HasEntry(xs, key, k)
  {
    if xs != [] {
      var n := |xs| - 1;
      KeysExact(xs[..n], key, k);
      if HasEntry(xs[..n], key, k) {
        var i :| 0 <= i < n && key(xs[..n][i]) == k;
        assert key(xs[i]) == k;
      }
      if HasEntry(xs, key, k) && key(xs[n]) != k { EntryEarlier(xs, key, k); }
    }
  }

  lemma {:induction false} EntryFits<K, T>(xs: seq<T>, key: T -> K, k: K)
    requires HasEntry(xs, key, k)
    ensures key(Entry(xs, key, k)) == k && Entry(xs, key, k) in xs
  {
    var n := |xs| - 1;
    if key(xs[n]) != k {
      EntryEarlier(xs, key, k);
      EntryFits(xs[..n], key, k);
    }
  }

  method Indexed<K(==), T>(xs: seq<T>, key: T -> K) returns (order: seq<K>, byKey: map<K, T>)
    ensures order == Keys(xs, key)
    ensures forall k :: k in byKey <==> HasEntry(xs, key, k)
    ensures forall k :: k in byKey ==> byKey[k] == Entry(xs, key, k)
  {
    order, byKey := [], map[];
    for i := 0 to |xs|
      invariant order == Keys(xs[..i], key)
      invariant forall k :: k in byKey <==> HasEntry(xs[..i], key, k)
      invariant forall k :: k in byKey ==> byKey[k] == Entry(xs[..i], key, k)
    {
      hide Keys, Entry, HasEntry;
      EntryNext(xs, i, key);
      KeysExact(xs[..i], key, key(xs[i]));
      if key(xs[i]) !in byKey { order := order + [key(xs[i])]; }
      byKey := byKey[key(xs[i]) := xs[i]];
    }
    assert xs[..|xs|] == xs;
  }

  lemma EntryNext<K, T>(xs: seq<T>, i: nat, key: T -> K)
    requires i < |xs|
    ensures forall k :: HasEntry(xs[..i + 1], key, k) <==> HasEntry(xs[..i], key, k) || k == key(xs[i])
    ensures HasEntry(xs[..i + 1], key, key(xs[i])) && Entry(xs[..i + 1], key, key(xs[i])) == xs[i]
    ensures forall k :: HasEntry(xs[..i], key, k) && k != key(xs[i]) ==>
              HasEntry(xs[..i + 1], key, k) && Entry(xs[..i + 1], key, k) == Entry(xs[..i], key, k)
    ensures Keys(xs[..i + 1], key) == Keys(xs[..i], key)
            + (if key(xs[i]) in Keys(xs[..i], key) then [] else [key(xs[i])])
  {
    var more := xs[..i + 1];
    assert more[..i] == xs[..i] && more[i] == xs[i];
    forall k ensures HasEntry(more, key, k) <==> HasEntry(xs[..i], key, k) || k == key(xs[i]) {
      if j :| 0 <= j < i && key(xs[..i][j]) == k { assert key(more[j]) == k; }
      if HasEntry(more, key, k) && k != key(xs[i]) { EntryEarlier(more, key, k); }
    }
  }

  // ----- parameters

  datatype Parameter = Parameter(place: Text, name: Text, required: bool, schema: Schema)

  type ParameterKey = (Text, Text)

  const PATH: Text := [112, 97, 116, 104]

  function KeyOf(p: Parameter): ParameterKey { (p.place, p.name) }

  function TypeOf(s: Schema): Option<Text> { if s.Object? then TypeKey(s.typ) else None }

  predicate LosesEnum(was: Schema, now: Schema) { was.Object? && now.Object? && EnumLoss(was, now) }

  /** What is reported of a parameter the old revision had. */
  function KeptDetails(was: Parameter, now: Parameter): seq<Detail> {
    var path := [ToParameter(was.place, was.name)];
    (if !was.required && now.required then [Detail(path, RequiredAdded, true)] else [])
    + (if TypeOf(was.schema) != TypeOf(now.schema) then [Detail(path, TypeChangedRule, true)] else [])
    + (if LosesEnum(was.schema, now.schema) then [Detail(path, EnumValueRemoved, true)] else [])
  }

  function OldParameter(before: seq<Parameter>, after: seq<Parameter>, k: ParameterKey): seq<Detail>
    requires HasEntry(before, KeyOf, k)
  {
    var was := Entry(before, KeyOf, k);
    if HasEntry(after, KeyOf, k) then KeptDetails(was, Entry(after, KeyOf, k))
    else [Detail([ToParameter(k.0, k.1)], ParameterGone, was.place == PATH)]
  }

  function NewParameter(before: seq<Parameter>, after: seq<Parameter>, k: ParameterKey): seq<Detail>
    requires HasEntry(after, KeyOf, k)
  {
    if HasEntry(before, KeyOf, k) then []
    else
      var required := Entry(after, KeyOf, k).required;
      [Detail([ToParameter(k.0, k.1)], if required then RequiredAdded else ParameterAdded, required)]
  }

  function OldDetails(before: seq<Parameter>, after: seq<Parameter>, ks: seq<ParameterKey>): seq<Detail>
    requires forall k :: k in ks ==> HasEntry(before, KeyOf, k)
  {
    if ks == [] then [] else OldDetails(before, after, ks[..|ks| - 1]) + OldParameter(before, after, ks[|ks| - 1])
  }

  function NewDetails(before: seq<Parameter>, after: seq<Parameter>, ks: seq<ParameterKey>): seq<Detail>
    requires forall k :: k in ks ==> HasEntry(after, KeyOf, k)
  {
    if ks == [] then [] else NewDetails(before, after, ks[..|ks| - 1]) + NewParameter(before, after, ks[|ks| - 1])
  }

  lemma AllKeys(ps: seq<Parameter>)
    ensures forall k :: k in Keys(ps, KeyOf) ==> HasEntry(ps, KeyOf, k)
  {
    forall k | k in Keys(ps, KeyOf) ensures HasEntry(ps, KeyOf, k) { KeysExact(ps, KeyOf, k); }
  }

  function ParameterDetails(before: seq<Parameter>, after: seq<Parameter>): seq<Detail> {
    AllKeys(before);
    AllKeys(after);
    OldDetails(before, after, Keys(before, KeyOf)) + NewDetails(before, after, Keys(after, KeyOf))
  }

  /** A map holds the last entry of every key. */
  ghost predicate Holds(ps: seq<Parameter>, byKey: map<ParameterKey, Parameter>) {
    && (forall k :: k in byKey <==> HasEntry(ps, KeyOf, k))
    && (forall k :: k in byKey ==> byKey[k] == Entry(ps, KeyOf, k))
  }

  method DiffParameters(before: seq<Parameter>, after: seq<Parameter>) returns (details: seq<Detail>)
    ensures details == ParameterDetails(before, after)
  {
    var wasOrder, wasOf := Indexed(before, KeyOf);
    var nowOrder, nowOf := Indexed(after, KeyOf);
    AllKeys(before);
    AllKeys(after);
    assert Holds(before, wasOf) && Holds(after, nowOf);
    hide Keys, HasEntry, Entry, Holds;
    var old' := OldLoop(before, after, wasOrder, wasOf, nowOf);
    var new' := NewLoop(before, after, nowOrder, wasOf, nowOf);
    details := old' + new';
  }

  method OldLoop(ghost before: seq<Parameter>, ghost after: seq<Parameter>, order: seq<ParameterKey>,
                 wasOf: map<ParameterKey, Parameter>, nowOf: map<ParameterKey, Parameter>)
    returns (details: seq<Detail>)
    requires Holds(before, wasOf) && Holds(after, nowOf) && forall k :: k in order ==> HasEntry(before, KeyOf, k)
    ensures details == OldDetails(before, after, order)
  {
    hide Keys, HasEntry, Entry, KeptDetails;
    details := [];
    for i := 0 to |order|
      invariant forall k :: k in order[..i] ==> HasEntry(before, KeyOf, k)
      invariant details == OldDetails(before, after, order[..i])
    {
      var k := order[i];
      assert order[..i + 1][..i] == order[..i];
      if k in nowOf {
        details := details + KeptDetails(wasOf[k], nowOf[k]);
      } else {
        details := details + [Detail([ToParameter(k.0, k.1)], ParameterGone, wasOf[k].place == PATH)];
      }
    }
    assert order[..|order|] == order;
  }

  method NewLoop(ghost before: seq<Parameter>, ghost after: seq<Parameter>, order: seq<ParameterKey>,
                 wasOf: map<ParameterKey, Parameter>, nowOf: map<ParameterKey, Parameter>)
    returns (details: seq<Detail>)
    requires Holds(before, wasOf) && Holds(after, nowOf) && forall k :: k in order ==> HasEntry(after, KeyOf, k)
    ensures details == NewDetails(before, after, order)
  {
    hide Keys, HasEntry, Entry;
    details := [];
    for i := 0 to |order|
      invariant forall k :: k in order[..i] ==> HasEntry(after, KeyOf, k)
      invariant details == NewDetails(before, after, order[..i])
    {
      var k := order[i];
      assert order[..i + 1][..i] == order[..i];
      if k !in wasOf {
        var required := nowOf[k].required;
        var rule := if required then RequiredAdded else ParameterAdded;
        details := details + [Detail([ToParameter(k.0, k.1)], rule, required)];
      }
    }
    assert order[..|order|] == order;
  }

  // ----- operations

  datatype Operation = Operation(
    id: Text, verb: Text, path: Text, selector: Option<Text>,
    inputElement: Option<Text>, outputElement: Option<Text>, soapAction: Option<Text>,
    parameters: seq<Parameter>, body: Option<RequestBody>)

  datatype Change = Removed | Changed | Added

  datatype Report = Report(id: Text, change: Change, breaking: bool, tooLarge: bool, details: seq<Detail>)

  /** The comparison of responses, which nothing here depends on: it goes on with what is left of the budget. */
  type Later = (Operation, Operation, nat, bool) -> Outcome

  function When(differs: bool, rule: Rule, breaking: bool): seq<Detail>
  {
    if differs then [Detail([], rule, breaking)] else []
  }

  /** How an operation is addressed. A SOAP action that was not there before does not count as breaking. */
  function HeadDetails(before: Operation, after: Operation): seq<Detail> {
    When(before.verb != after.verb, MethodChanged, true) + When(before.path != after.path, PathChanged, true)
    + When(before.selector != after.selector, SelectorChanged, true)
    + When(before.inputElement != after.inputElement, SoapChanged, true)
    + When(before.outputElement != after.outputElement, SoapChanged, true)
    + When(before.soapAction != after.soapAction, SoapChanged, before.soapAction.Some?)
  }

  function OperationReport(before: Operation, after: Operation, cx: Setting, later: Later): Option<Report> {
    var b := BodyCompared(before.body, after.body, cx, MAX_SCHEMA_NODES, false);
    var l := later(before, after, b.state.nodes, b.state.exhausted);
    var details := HeadDetails(before, after) + ParameterDetails(before.parameters, after.parameters) + b.details
        + l.details;
    var tooLarge := b.state.exhausted || l.state.exhausted;
    if details == [] && !tooLarge then None else Some(Report(after.id, Changed, Breaks(details), tooLarge, details))
  }

  method DiffOperation(before: Operation, after: Operation, cx: Setting, later: Later) returns (report: Option<Report>)
    ensures report == OperationReport(before, after, cx, later)
  {
    hide ParameterDetails, BodyCompared, HeadDetails;
    var budget := new Budget(MAX_SCHEMA_NODES);
    var head := DiffHead(before, after);
    var parameters := DiffParameters(before.parameters, after.parameters);
    var body := DiffRequestBody(before.body, after.body, cx, budget);
    var responses := later(before, after, budget.nodes, budget.exhausted);
    var details := head + parameters + body + responses.details;
    var tooLarge := budget.exhausted || responses.state.exhausted;
    return if details == [] && !tooLarge then None
        else Some(Report(after.id, Changed, Breaks(details), tooLarge, details));
  }

  method DiffHead(before: Operation, after: Operation) returns (details: seq<Detail>)
    ensures details == HeadDetails(before, after)
  {
    hide When;
    details := When(before.verb != after.verb, MethodChanged, true);
    details := details + When(before.path != after.path, PathChanged, true);
    details := details + When(before.selector != after.selector, SelectorChanged, true);
    details := details + When(before.inputElement != after.inputElement, SoapChanged, true);
    details := details + When(before.outputElement != after.outputElement, SoapChanged, true);
    details := details + When(before.soapAction != after.soapAction, SoapChanged, before.soapAction.Some?);
  }

  // ----- the model

  function IdOf(op: Operation): Text { op.id }

  /** What is reported of an operation the old revision had. */
  function OldReport(from: seq<Operation>, to: seq<Operation>, id: Text, cx: Setting, later: Later): seq<Report>
    requires HasEntry(from, IdOf, id)
  {
    if !HasEntry(to, IdOf, id) then [Report(id, Removed, true, false, [])]
    else
      var r := OperationReport(Entry(from, IdOf, id), Entry(to, IdOf, id), cx, later);
      if r.Some? then [r.value] else []
  }

  function OldReports(from: seq<Operation>, to: seq<Operation>, ids: seq<Text>, cx: Setting, later: Later): seq<Report>
    requires forall id :: id in ids ==> HasEntry(from, IdOf, id)
  {
    if ids == [] then []
    else
      OldReports(from, to, ids[..|ids| - 1], cx, later)
      + OldReport(from, to, ids[|ids| - 1], cx, later)
  }

  function NewReports(from: seq<Operation>, ids: seq<Text>): seq<Report> {
    if ids == [] then []
    else
      NewReports(from, ids[..|ids| - 1]) +
      (if HasEntry(from, IdOf, ids[|ids| - 1]) then [] else [Report(ids[|ids| - 1], Added, false, false, [])])
  }

  lemma AllIds(ops: seq<Operation>)
    ensures forall id :: id in Keys(ops, IdOf) ==> HasEntry(ops, IdOf, id)
  {
    forall id | id in Keys(ops, IdOf) ensures HasEntry(ops, IdOf, id) { KeysExact(ops, IdOf, id); }
  }

  function Reports(from: seq<Operation>, to: seq<Operation>, cx: Setting, later: Later): seq<Report> {
    AllIds(from);
    OldReports(from, to, Keys(from, IdOf), cx, later) + NewReports(from, Keys(to, IdOf))
  }

  function BreakingCount(rs: seq<Report>): nat {
    if rs == [] then 0 else BreakingCount(rs[..|rs| - 1]) + (if rs[|rs| - 1].breaking then 1 else 0)
  }

  method DiffModels(from: seq<Operation>, to: seq<Operation>, cx: Setting, later: Later)
    returns (reports: seq<Report>, breaking: nat)
    ensures reports == Reports(from, to, cx, later) && breaking == BreakingCount(reports)
  {
    var fromOrder, fromOps := Indexed(from, IdOf);
    var toOrder, toOps := Indexed(to, IdOf);
    AllIds(from);
    hide Keys, HasEntry, Entry, OperationReport;
    reports := [];
    for i := 0 to |fromOrder|
      invariant forall id :: id in fromOrder[..i] ==> HasEntry(from, IdOf, id)
      invariant reports == OldReports(from, to, fromOrder[..i], cx, later)
    {
      var id := fromOrder[i];
      assert fromOrder[..i + 1][..i] == fromOrder[..i];
      if id !in toOps {
        reports := reports + [Report(id, Removed, true, false, [])];
      } else {
        var r := DiffOperation(fromOps[id], toOps[id], cx, later);
        if r.Some? { reports := reports + [r.value]; }
      }
    }
    assert fromOrder[..|fromOrder|] == fromOrder;
    ghost var kept := reports;
    for i := 0 to |toOrder|
      invariant reports == kept + NewReports(from, toOrder[..i])
    {
      assert toOrder[..i + 1][..i] == toOrder[..i];
      if toOrder[i] !in fromOps { reports := reports + [Report(toOrder[i], Added, false, false, [])]; }
    }
    assert toOrder[..|toOrder|] == toOrder;
    breaking := Count(reports);
  }

  method Count(rs: seq<Report>) returns (n: nat)
    ensures n == BreakingCount(rs)
  {
    n := 0;
    for i := 0 to |rs|
      invariant n == BreakingCount(rs[..i])
    {
      assert rs[..i + 1][..i] == rs[..i];
      if rs[i].breaking { n := n + 1; }
    }
    assert rs[..|rs|] == rs;
  }

  // ----- what a revision accepts

  /** How a raw value is read, given the declared type. */
  type Coercion = (Text, Option<Text>) -> Json

  datatype Call = Call(
    verb: Text, path: Text, selector: Option<Text>, element: Option<Text>, action: Text,
    values: map<ParameterKey, Text>, body: Sent)

  /** What the values of a request are read and checked against. */
  datatype Reading = Reading(hops: nat, means: Meaning, coerce: Coercion)

  ghost predicate ValueAccepted(p: Parameter, raw: Text, c: Components, rd: Reading) {
    Valid(rd.coerce(raw, TypeOf(p.schema)), p.schema, c, rd.hops, rd.means)
  }

  ghost predicate ParameterAccepts(p: Parameter, values: map<ParameterKey, Text>, c: Components, rd: Reading) {
    if KeyOf(p) in values then ValueAccepted(p, values[KeyOf(p)], c, rd) else !p.required
  }

  ghost predicate ParametersAccept(ps: seq<Parameter>, values: map<ParameterKey, Text>, c: Components, rd: Reading) {
    forall k :: HasEntry(ps, KeyOf, k) ==> ParameterAccepts(Entry(ps, KeyOf, k), values, c, rd)
  }

  /** No action declared and an empty one are the same. */
  function ActionOf(op: Operation): Text { if op.soapAction.Some? then op.soapAction.value else [] }

  predicate Addressed(op: Operation, r: Call) {
    && r.verb == op.verb && r.path == op.path && r.selector == op.selector && r.element == op.inputElement
    && r.action == ActionOf(op)
  }

  ghost predicate OperationAccepts(op: Operation, r: Call, c: Components, rd: Reading) {
    && Addressed(op, r) && ParametersAccept(op.parameters, r.values, c, rd)
    && Accepts(op.body, r.body, c, rd.hops, rd.means)
  }

  // ----- the fragment

  /** A parameter's schema, as far as the comparison looks: a type and an enum. */
  ghost predicate ParameterShape(s: Schema) {
    s.Missing? ||
    (&& s.Object? && s.ref.None? && s.items.None? && s.properties == [] && s.required == []
     && TypeSane(s.typ) && EnumSane(s.enum))
  }

  ghost predicate ParameterComparable(was: Parameter, now: Parameter) {
    && ParameterShape(was.schema) && ParameterShape(now.schema)
    && (now.schema.Object? && now.schema.enum.Some? ==> was.schema.Object? && was.schema.enum.Some?)
  }

  /** Shared parameters are comparable, and no value is sent for one that only the new revision declares. */
  ghost predicate ParametersComparable(before: seq<Parameter>, after: seq<Parameter>, values: map<ParameterKey, Text>) {
    && (forall k :: HasEntry(before, KeyOf, k) && HasEntry(after, KeyOf, k) ==>
          ParameterComparable(Entry(before, KeyOf, k), Entry(after, KeyOf, k)))
    && (forall k :: k in values && HasEntry(after, KeyOf, k) ==> HasEntry(before, KeyOf, k))
  }

  ghost predicate OperationComparable(before: Operation, after: Operation, r: Call, pairs: iset<(Schema, Schema)>,
                                      cx: Setting) {
    && ParametersComparable(before.parameters, after.parameters, r.values)
    && (before.body.Some? && after.body.Some? ==> Comparable(before.body.value, after.body.value, r.body, pairs, cx))
    && (before.body.None? && after.body.Some? ==> r.body.NoBody?)
    && (before.soapAction.None? ==> ActionOf(after) == [])
  }

  // ----- the theorem

  lemma KeptParameterAccepts(was: Parameter, now: Parameter, raw: Text, cx: Setting, rd: Reading)
    requires rd.hops >= 1 && ParameterComparable(was, now) && !Breaks(KeptDetails(was, now))
    requires ValueAccepted(was, raw, cx.from, rd)
    ensures ValueAccepted(now, raw, cx.to, rd) && (now.required ==> was.required)
  {
    KeptSilent(was, now);
    if now.schema.Object? {
      ResolveIsDeref(now.schema, cx.to, rd.hops);
      var v := rd.coerce(raw, TypeOf(now.schema));
      if was.schema.Object? {
        ResolveIsDeref(was.schema, cx.from, rd.hops);
        SameTypes(v, was.schema, now.schema, rd.means);
        KeptEnum(v, was.schema, now.schema);
      }
    } else {
      MissingResolves(cx.to, rd.hops);
    }
  }

  lemma {:induction false} MissingResolves(c: Components, hops: nat)
    ensures Resolve(Missing, c, hops) == Missing
  {
    if hops > 0 { MissingResolves(c, hops - 1); }
  }

  lemma KeptSilent(was: Parameter, now: Parameter)
    requires !Breaks(KeptDetails(was, now))
    ensures (now.required ==> was.required) && TypeOf(was.schema) == TypeOf(now.schema)
            && !LosesEnum(was.schema, now.schema)
    ensures was.schema.Object? && now.schema.Object? ==>
              !TypeChanged(was.schema, now.schema) && !EnumLoss(was.schema, now.schema)
  {
    var path := [ToParameter(was.place, was.name)];
    var a := if !was.required && now.required then [Detail(path, RequiredAdded, true)] else [];
    var b := if TypeOf(was.schema) != TypeOf(now.schema) then [Detail(path, TypeChangedRule, true)] else [];
    var c := if LosesEnum(was.schema, now.schema) then [Detail(path, EnumValueRemoved, true)] else [];
    BreaksConcat(a + b, c);
    BreaksConcat(a, b);
    OnlyBreaks(!was.required && now.required, Detail(path, RequiredAdded, true));
    OnlyBreaks(TypeOf(was.schema) != TypeOf(now.schema), Detail(path, TypeChangedRule, true));
    OnlyBreaks(LosesEnum(was.schema, now.schema), Detail(path, EnumValueRemoved, true));
  }

  lemma OnlyBreaks(listed: bool, d: Detail)
    ensures Breaks(if listed then [d] else []) <==> listed && d.breaking
  {
    if listed { assert [d][0] == d; }
  }

  lemma {:induction false} OldSilent(before: seq<Parameter>, after: seq<Parameter>, ks: seq<ParameterKey>,
                                     k: ParameterKey)
    requires (forall x :: x in ks ==> HasEntry(before, KeyOf, x)) && k in ks
    ensures Breaks(OldParameter(before, after, k)) ==> Breaks(OldDetails(before, after, ks))
  {
    hide OldParameter, HasEntry;
    var n := |ks| - 1;
    BreaksConcat(OldDetails(before, after, ks[..n]), OldParameter(before, after, ks[n]));
    if k != ks[n] { OldSilent(before, after, ks[..n], k); }
  }

  lemma {:induction false} NewSilent(before: seq<Parameter>, after: seq<Parameter>, ks: seq<ParameterKey>,
                                     k: ParameterKey)
    requires (forall x :: x in ks ==> HasEntry(after, KeyOf, x)) && k in ks
    ensures Breaks(NewParameter(before, after, k)) ==> Breaks(NewDetails(before, after, ks))
  {
    hide NewParameter, HasEntry;
    var n := |ks| - 1;
    BreaksConcat(NewDetails(before, after, ks[..n]), NewParameter(before, after, ks[n]));
    if k != ks[n] { NewSilent(before, after, ks[..n], k); }
  }

  lemma ParametersStillAccepted(before: seq<Parameter>, after: seq<Parameter>, values: map<ParameterKey, Text>,
                                cx: Setting, rd: Reading)
    requires rd.hops >= 1 && ParametersComparable(before, after, values) && !Breaks(ParameterDetails(before, after))
    requires ParametersAccept(before, values, cx.from, rd)
    ensures ParametersAccept(after, values, cx.to, rd)
  {
    AllKeys(before);
    AllKeys(after);
    BreaksConcat(OldDetails(before, after, Keys(before, KeyOf)), NewDetails(before, after, Keys(after, KeyOf)));
    forall k | HasEntry(after, KeyOf, k) ensures ParameterAccepts(Entry(after, KeyOf, k), values, cx.to, rd) {
      KeysExact(before, KeyOf, k);
      KeysExact(after, KeyOf, k);
      EntryFits(after, KeyOf, k);
      var now := Entry(after, KeyOf, k);
      hide Keys, HasEntry, Entry, ValueAccepted, ParameterComparable;
      if HasEntry(before, KeyOf, k) {
        EntryFits(before, KeyOf, k);
        OldSilent(before, after, Keys(before, KeyOf), k);
        var was := Entry(before, KeyOf, k);
        KeptSilent(was, now);
        assert ParameterAccepts(was, values, cx.from, rd);
        if k in values { KeptParameterAccepts(was, now, values[k], cx, rd); }
      } else {
        NewSilent(before, after, Keys(after, KeyOf), k);
        if now.required { OneBreaks(NewParameter(before, after, k)[0]); }
      }
    }
  }

  lemma HeadKept(before: Operation, after: Operation)
    requires !Breaks(HeadDetails(before, after))
    ensures before.verb == after.verb && before.path == after.path && before.selector == after.selector
    ensures before.inputElement == after.inputElement
            && (before.soapAction.Some? ==> before.soapAction == after.soapAction)
  {
    var a := When(before.verb != after.verb, MethodChanged, true);
    var b := When(before.path != after.path, PathChanged, true);
    var c := When(before.selector != after.selector, SelectorChanged, true);
    var d := When(before.inputElement != after.inputElement, SoapChanged, true);
    var e := When(before.outputElement != after.outputElement, SoapChanged, true);
    var f := When(before.soapAction != after.soapAction, SoapChanged, before.soapAction.Some?);
    BreaksConcat(a + b + c + d + e, f);
    BreaksConcat(a + b + c + d, e);
    BreaksConcat(a + b + c, d);
    BreaksConcat(a + b, c);
    BreaksConcat(a, b);
    OnlyBreaks(before.verb != after.verb, Detail([], MethodChanged, true));
    OnlyBreaks(before.path != after.path, Detail([], PathChanged, true));
    OnlyBreaks(before.selector != after.selector, Detail([], SelectorChanged, true));
    OnlyBreaks(before.inputElement != after.inputElement, Detail([], SoapChanged, true));
    OnlyBreaks(before.soapAction != after.soapAction, Detail([], SoapChanged, before.soapAction.Some?));
  }

  /** An operation reported without anything breaking still accepts what it did. */
  lemma OperationStillAccepted(before: Operation, after: Operation, r: Call, pairs: iset<(Schema, Schema)>, cx: Setting,
                               later: Later, rd: Reading)
    requires cx.side == Request && rd.hops >= 1 && Fragment(pairs, cx)
             && OperationComparable(before, after, r, pairs, cx)
    requires var report := OperationReport(before, after, cx, later); report.Some? ==>
               !report.value.breaking && !report.value.tooLarge
    requires OperationAccepts(before, r, cx.from, rd)
    ensures OperationAccepts(after, r, cx.to, rd)
  {
    var b := BodyCompared(before.body, after.body, cx, MAX_SCHEMA_NODES, false);
    var l := later(before, after, b.state.nodes, b.state.exhausted);
    var h, p := HeadDetails(before, after), ParameterDetails(before.parameters, after.parameters);
    hide HeadDetails, ParameterDetails, BodyCompared, Fragment, Comparable, ParametersComparable, ParametersAccept,
         Accepts;
    assert !Breaks(h + p + b.details + l.details);
    BreaksConcat(h + p + b.details, l.details);
    BreaksConcat(h + p, b.details);
    BreaksConcat(h, p);
    HeadKept(before, after);
    ParametersStillAccepted(before.parameters, after.parameters, r.values, cx, rd);
    RequestStillAccepted(before.body, after.body, cx, MAX_SCHEMA_NODES, r.body, pairs, rd.hops, rd.means);
  }

  ghost predicate NothingBreaking(rs: seq<Report>) { forall i :: 0 <= i < |rs| ==> !rs[i].breaking && !rs[i].tooLarge }

  lemma {:induction false} OldReported(from: seq<Operation>, to: seq<Operation>, ids: seq<Text>, id: Text, cx: Setting,
                                       later: Later)
    requires (forall x :: x in ids ==> HasEntry(from, IdOf, x)) && id in ids
    ensures forall x :: x in OldReport(from, to, id, cx, later) ==> x in OldReports(from, to, ids, cx, later)
  {
    hide OldReport, HasEntry;
    var n := |ids| - 1;
    if id != ids[n] { OldReported(from, to, ids[..n], id, cx, later); }
  }

  /**
   Nothing breaking in the whole report, and nothing too large to compare: every request every old operation accepts is
   accepted.
   */
  lemma ModelStillAccepted(from: seq<Operation>, to: seq<Operation>, cx: Setting, later: Later, id: Text, r: Call,
                           pairs: iset<(Schema, Schema)>, rd: Reading)
    requires cx.side == Request && rd.hops >= 1 && Fragment(pairs, cx) && NothingBreaking(Reports(from, to, cx, later))
    requires HasEntry(from, IdOf, id) && OperationAccepts(Entry(from, IdOf, id), r, cx.from, rd)
    requires HasEntry(to, IdOf, id) ==> OperationComparable(Entry(from, IdOf, id), Entry(to, IdOf, id), r, pairs, cx)
    ensures HasEntry(to, IdOf, id) && OperationAccepts(Entry(to, IdOf, id), r, cx.to, rd)
  {
    AllIds(from);
    KeysExact(from, IdOf, id);
    hide Keys, HasEntry, Entry, Fragment, OperationComparable, OperationAccepts, OperationReport;
    OldReported(from, to, Keys(from, IdOf), id, cx, later);
    var mine := OldReport(from, to, id, cx, later);
    forall x | x in mine ensures !x.breaking && !x.tooLarge {
      assert x in Reports(from, to, cx, later);
    }
    assert mine != [] ==> mine[0] in mine;
    OperationStillAccepted(Entry(from, IdOf, id), Entry(to, IdOf, id), r, pairs, cx, later, rd);
  }

  /** The one way a silent head loses requests: a SOAP action where none was declared. */
  lemma SoapActionExact(before: Operation, after: Operation)
    requires !Breaks(HeadDetails(before, after))
    ensures (forall r :: Addressed(before, r) ==> Addressed(after, r)) <==>
            before.soapAction.Some? || ActionOf(after) == []
  {
    HeadKept(before, after);
    var r := Call(before.verb, before.path, before.selector, before.inputElement, ActionOf(before), map[], NoBody);
    assert Addressed(before, r);
  }
}

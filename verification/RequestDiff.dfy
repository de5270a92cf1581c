/**
 The comparison as it runs, with the shared node budget and the memo as mutable objects, and the
 request-body comparison built on it: a request the old revision accepts is still accepted.
 */
module RequestDiff {
  import opened Text
  import opened Json
  import opened Canonical
  import opened SchemaDiff
  import opened SchemaDiffSoundness

  // ----- the run of the schema comparison

  class Budget {
    var nodes: nat
    var exhausted: bool

    constructor (nodes: nat)
      ensures this.nodes == nodes && !exhausted
    {
      this.nodes, exhausted := nodes, false;
    }
  }

  class Memo {
    var keys: set<Text>

    constructor ()
      ensures keys == {}
    {
      keys := {};
    }
  }

  ghost function StateOf(budget: Budget, memo: Memo): State
    reads budget, memo
  {
    State(budget.nodes, budget.exhausted, memo.keys)
  }

  method CompareSchemas(was: Schema, now: Schema, cx: Setting, path: seq<Step>, depth: nat, budget: Budget, memo: Memo)
    returns (details: seq<Detail>)
    modifies budget, memo
    ensures Outcome(details, StateOf(budget, memo)) == Compare(was, now, cx, path, depth, old(StateOf(budget, memo)))
    decreases budget.nodes, 0
  {
    hide MemoKey, Deref, TypeChanged, EnumDetails, CompareProperties;
    if budget.nodes == 0 || depth > MAX_SCHEMA_DEPTH {
      budget.exhausted := true;
      return [];
    }
    budget.nodes := budget.nodes - 1;
    var key := MemoKey(was, now);
    if key.Some? {
      if key.value in memo.keys { return []; }
      memo.keys := memo.keys + {key.value};
    }
    var w, n := Deref(was, cx.from), Deref(now, cx.to);
    if !w.Object? || !n.Object? { return []; }
    if TypeChanged(w, n) {
      return [Detail(path, if cx.side == Request then TypeChangedRule else ResponseRetyped, true)];
    }
    ghost var marked := StateOf(budget, memo);
    assert Compare(was, now, cx, path, depth,
                   old(StateOf(budget, memo))) == CompareShapes(w, n, cx, path, depth, marked);
    details := EnumDetails(cx.side, w, n, path);
    var ps := PropertyLoop(w, n, cx, path, depth, budget, memo);
    ghost var listed := StateOf(budget, memo);
    var gone := GoneLoop(cx.side, w, n, path);
    var elems := [];
    if w.items.Some? || n.items.Some? {
      elems := CompareSchemas(ItemsOf(w), ItemsOf(n), cx, path + [ToItems], depth + 1, budget, memo);
    }
    assert CompareItems(w, n, cx, path, depth, listed) == Outcome(elems, StateOf(budget, memo));
    details := details + ps + gone + elems;
  }

  method PropertyLoop(w: Schema, n: Schema, cx: Setting, path: seq<Step>, depth: nat, budget: Budget, memo: Memo)
    returns (details: seq<Detail>)
    requires w.Object? && n.Object?
    modifies budget, memo
    ensures Outcome(details, StateOf(budget, memo))
         == CompareProperties(w, n, cx, path, depth, 0, old(StateOf(budget, memo)))
    decreases budget.nodes, 1
  {
    ghost var want := CompareProperties(w, n, cx, path, depth, 0, StateOf(budget, memo));
    details := [];
    for i := 0 to |n.properties|
      invariant budget.nodes <= old(budget.nodes)
      invariant var rest := CompareProperties(w, n, cx, path, depth, i, StateOf(budget, memo));
                want == Outcome(details + rest.details, rest.state)
    {
      var name := n.properties[i].name;
      var first: seq<Detail>;
      if !Declares(w, name) {
        first := [AddedDetail(cx.side, n, name, path)];
      } else {
        first := CompareSchemas(PropertyOf(w, name), PropertyOf(n, name), cx, path + [ToProperty(name)], depth + 1,
                                budget, memo);
        first := RequiredDetails(cx.side, w, n, name, path) + first;
      }
      ghost var rest := CompareProperties(w, n, cx, path, depth, i + 1, StateOf(budget, memo));
      assert details + (first + rest.details) == (details + first) + rest.details;
      details := details + first;
    }
    assert details + [] == details;
  }

  method GoneLoop(side: Side, w: Schema, n: Schema, path: seq<Step>) returns (details: seq<Detail>)
    requires w.Object? && n.Object?
    ensures details == GoneDetails(side, w, n, 0, path)
  {
    details := [];
    for i := 0 to |w.properties|
      invariant details + GoneDetails(side, w, n, i, path) == GoneDetails(side, w, n, 0, path)
    {
      var one := GoneDetail(side, n, w.properties[i].name, path);
      assert details + (one + GoneDetails(side, w, n, i + 1, path)) == details + one
             + GoneDetails(side, w, n, i + 1, path);
      details := details + one;
    }
    assert details + [] == details;
  }

  // ----- request bodies

  datatype Content = Content(media: Text, schema: Schema)
  datatype RequestBody = RequestBody(required: bool, content: seq<Content>)
  datatype Sent = NoBody | Body(media: Text, value: Json)

  const APPLICATION_JSON: Text := [97, 112, 112, 108, 105, 99, 97, 116, 105, 111, 110, 47, 106, 115, 111, 110]

  predicate Offers(b: RequestBody, media: Text) {
    exists i :: 0 <= i < |b.content| && b.content[i].media == media
  }

  function At(cs: seq<Content>, media: Text): (i: nat)
    ensures i <= |cs| && (i < |cs| ==> cs[i].media == media)
    ensures (exists k :: 0 <= k < |cs| && cs[k].media == media) ==> i < |cs|
  {
    if cs == [] || cs[0].media == media then 0
    else
      assert forall k :: 0 < k < |cs| ==> cs[k] == cs[1..][k - 1];
      1 + At(cs[1..], media)
  }

  function SchemaFor(b: RequestBody, media: Text): Schema
    requires Offers(b, media)
  {
    b.content[At(b.content, media)].schema
  }

  /** What an operation lets through: a declared body constrains, an undeclared one does not. */
  ghost predicate Accepts(b: Option<RequestBody>, sent: Sent, c: Components, hops: nat, means: Meaning) {
    b.Some? ==>
      match sent
      case NoBody => !b.value.required
      case Body(media, value) =>
        Offers(b.value, media) && Valid(value, SchemaFor(b.value, media), c, hops, means)
  }

  function MediaGoneDetails(was: RequestBody, now: RequestBody, i: nat): seq<Detail>
    requires i <= |was.content|
    decreases |was.content| - i
  {
    if i == |was.content| then []
    else
      (if Offers(now, was.content[i].media) then [] else [Detail([ToMedia(was.content[i].media)], MediaGone, true)])
      + MediaGoneDetails(was, now, i + 1)
  }

  function MediaAddedDetails(was: RequestBody, now: RequestBody, i: nat): seq<Detail>
    requires i <= |now.content|
    decreases |now.content| - i
  {
    if i == |now.content| then []
    else
      (if Offers(was, now.content[i].media) then [] else [Detail([ToMedia(now.content[i].media)], MediaAdded, false)])
      + MediaAddedDetails(was, now, i + 1)
  }

  function MediaPath(media: Text): seq<Step> { if media == APPLICATION_JSON then [] else [ToMedia(media)] }

  /** Each media type both revisions accept, compared with a fresh memo and the shared budget. */
  function MediaCompared(was: RequestBody, now: RequestBody, cx: Setting, i: nat, nodes: nat,
                         exhausted: bool): (r: Outcome)
    requires i <= |was.content|
    ensures exhausted ==> r.state.exhausted
    decreases |was.content| - i
  {
    if i == |was.content| then Outcome([], State(nodes, exhausted, {}))
    else
      var media := was.content[i].media;
      if !Offers(now, media) then MediaCompared(was, now, cx, i + 1, nodes, exhausted)
      else
        var first := Compare(was.content[i].schema, SchemaFor(now, media), cx, MediaPath(media), 0,
                             State(nodes, exhausted, {}));
        var rest := MediaCompared(was, now, cx, i + 1, first.state.nodes, first.state.exhausted);
        Outcome(first.details + rest.details, rest.state)
  }

  function BodyRequiredDetails(was: RequestBody, now: RequestBody): seq<Detail> {
    if !was.required && now.required then [Detail([], RequiredAdded, true)] else []
  }

  function BodyCompared(was: Option<RequestBody>, now: Option<RequestBody>, cx: Setting, nodes: nat,
                        exhausted: bool): (r: Outcome)
    ensures exhausted ==> r.state.exhausted
  {
    if was.None? && now.None? then Outcome([], State(nodes, exhausted, {}))
    else if now.None? then Outcome([Detail([], BodyGone, false)], State(nodes, exhausted, {}))
    else if was.None? then
      Outcome([Detail([], if now.value.required then RequiredAdded else BodyAdded, now.value.required)],
              State(nodes, exhausted, {}))
    else
      var m := MediaCompared(was.value, now.value, cx, 0, nodes, exhausted);
      Outcome(BodyRequiredDetails(was.value, now.value) + MediaGoneDetails(was.value, now.value, 0)
              + MediaAddedDetails(was.value, now.value, 0) + m.details, m.state)
  }

  /** The request-body comparison with its three loops over the media types. */
  method DiffRequestBody(was: Option<RequestBody>, now: Option<RequestBody>, cx: Setting, budget: Budget)
    returns (details: seq<Detail>)
    modifies budget
    ensures var r := BodyCompared(was, now, cx, old(budget.nodes), old(budget.exhausted));
            details == r.details && budget.nodes == r.state.nodes && budget.exhausted == r.state.exhausted
  {
    if was.None? && now.None? { return []; }
    if now.None? { return [Detail([], BodyGone, false)]; }
    if was.None? {
      return [Detail([], if now.value.required then RequiredAdded else BodyAdded, now.value.required)];
    }
    var w, n := was.value, now.value;
    var gone := MediaGoneLoop(w, n);
    var added := MediaAddedLoop(w, n);
    var compared := MediaLoop(w, n, cx, budget);
    details := BodyRequiredDetails(w, n) + gone + added + compared;
  }

  method MediaGoneLoop(w: RequestBody, n: RequestBody) returns (gone: seq<Detail>)
    ensures gone == MediaGoneDetails(w, n, 0)
  {
    gone := [];
    for i := 0 to |w.content|
      invariant gone + MediaGoneDetails(w, n, i) == MediaGoneDetails(w, n, 0)
    {
      if !Offers(n, w.content[i].media) {
        gone := gone + [Detail([ToMedia(w.content[i].media)], MediaGone, true)];
      }
    }
    assert gone + [] == gone;
  }

  method MediaAddedLoop(w: RequestBody, n: RequestBody) returns (added: seq<Detail>)
    ensures added == MediaAddedDetails(w, n, 0)
  {
    added := [];
    for i := 0 to |n.content|
      invariant added + MediaAddedDetails(w, n, i) == MediaAddedDetails(w, n, 0)
    {
      if !Offers(w, n.content[i].media) {
        added := added + [Detail([ToMedia(n.content[i].media)], MediaAdded, false)];
      }
    }
    assert added + [] == added;
  }

  method MediaLoop(w: RequestBody, n: RequestBody, cx: Setting, budget: Budget) returns (compared: seq<Detail>)
    modifies budget
    ensures var r := MediaCompared(w, n, cx, 0, old(budget.nodes), old(budget.exhausted));
            compared == r.details && budget.nodes == r.state.nodes && budget.exhausted == r.state.exhausted
  {
    hide Compare;
    ghost var want := MediaCompared(w, n, cx, 0, budget.nodes, budget.exhausted);
    compared := [];
    for i := 0 to |w.content|
      invariant var rest := MediaCompared(w, n, cx, i, budget.nodes, budget.exhausted);
                && want.details == compared + rest.details
                && want.state.nodes == rest.state.nodes && want.state.exhausted == rest.state.exhausted
    {
      var media := w.content[i].media;
      if Offers(n, media) {
        var memo := new Memo();
        var first := CompareSchemas(w.content[i].schema, SchemaFor(n, media), cx, MediaPath(media), 0, budget, memo);
        ghost var rest := MediaCompared(w, n, cx, i + 1, budget.nodes, budget.exhausted);
        assert compared + (first + rest.details) == (compared + first) + rest.details;
        compared := compared + first;
      }
    }
    assert compared + [] == compared;
  }

  // ----- the theorem

  lemma {:induction false} MediaKept(was: RequestBody, now: RequestBody, i: nat, k: nat)
    requires i <= k < |was.content| && !Breaks(MediaGoneDetails(was, now, i))
    ensures Offers(now, was.content[k].media)
    decreases k - i
  {
    var one := if Offers(now, was.content[i].media) then []
        else [Detail([ToMedia(was.content[i].media)], MediaGone, true)];
    BreaksConcat(one, MediaGoneDetails(was, now, i + 1));
    OneBreaks(Detail([ToMedia(was.content[i].media)], MediaGone, true));
    if i < k { MediaKept(was, now, i + 1, k); }
  }

  /** If the whole loop is silent, so was the comparison of each shared media type. */
  lemma {:induction false} MediaSilent(was: RequestBody, now: RequestBody, cx: Setting, i: nat, k: nat, nodes: nat)
    returns (left: nat)
    requires i <= k < |was.content| && Offers(now, was.content[k].media)
    requires Silent(MediaCompared(was, now, cx, i, nodes, false))
    ensures var media := was.content[k].media;
            Silent(Compare(was.content[k].schema, SchemaFor(now, media), cx, MediaPath(media), 0,
                           State(left, false, {})))
    decreases k - i
  {
    var media := was.content[i].media;
    if Offers(now, media) {
      var first := Compare(was.content[i].schema, SchemaFor(now, media), cx, MediaPath(media), 0,
                           State(nodes, false, {}));
      var rest := MediaCompared(was, now, cx, i + 1, first.state.nodes, first.state.exhausted);
      BreaksConcat(first.details, rest.details);
      if i == k {
        left := nodes;
      } else {
        left := MediaSilent(was, now, cx, i + 1, k, first.state.nodes);
      }
    } else {
      left := MediaSilent(was, now, cx, i + 1, k, nodes);
    }
  }

  /** Shared media types are compared within the fragment, on values of the old shape. */
  ghost predicate Comparable(was: RequestBody, now: RequestBody, sent: Sent, pairs: iset<(Schema, Schema)>,
                             cx: Setting) {
    sent.Body? && Offers(was, sent.media) && Offers(now, sent.media) ==>
      && (SchemaFor(was, sent.media), SchemaFor(now, sent.media)) in pairs
      && OldShape(sent.value, SchemaFor(was, sent.media), SchemaFor(now, sent.media), cx)
  }

  /** Nothing breaking in the request body: what the old revision accepted is still accepted. */
  lemma RequestStillAccepted(was: Option<RequestBody>, now: Option<RequestBody>, cx: Setting, nodes: nat, sent: Sent,
                             pairs: iset<(Schema, Schema)>, hops: nat, means: Meaning)
    requires cx.side == Request && hops >= 1 && Fragment(pairs, cx)
    requires Silent(BodyCompared(was, now, cx, nodes, false))
    requires was.Some? && now.Some? ==> Comparable(was.value, now.value, sent, pairs, cx)
    requires was.None? && now.Some? ==> sent.NoBody?
    requires Accepts(was, sent, cx.from, hops, means)
    ensures Accepts(now, sent, cx.to, hops, means)
  {
    var r := BodyCompared(was, now, cx, nodes, false);
    if now.Some? && was.None? {
      assert !r.details[0].breaking;
    } else if now.Some? {
      var w, n := was.value, now.value;
      var req, gone, added := BodyRequiredDetails(w, n), MediaGoneDetails(w, n, 0), MediaAddedDetails(w, n, 0);
      var m := MediaCompared(w, n, cx, 0, nodes, false);
      BreaksConcat(req, gone);
      BreaksConcat(req + gone, added);
      BreaksConcat(req + gone + added, m.details);
      OneBreaks(Detail([], RequiredAdded, true));
      if sent.Body? {
        var k := At(w.content, sent.media);
        MediaKept(w, n, 0, k);
        var left := MediaSilent(w, n, cx, 0, k, nodes);
        NothingBreakingIsSafe(sent.value, SchemaFor(w, sent.media), SchemaFor(n, sent.media), cx,
                              MediaPath(sent.media), left, pairs, hops, means);
      }
    }
  }

  // ----- an operation that declared no body

  /** Some media type a body does not offer. */
  lemma {:induction false} FreshMedia(cs: seq<Content>) returns (media: Text)
    ensures forall i :: 0 <= i < |cs| ==> |cs[i].media| < |media|
  {
    if cs == [] {
      media := [];
    } else {
      var n := |cs| - 1;
      var shorter := FreshMedia(cs[..n]);
      media := if |shorter| > |cs[n].media| then shorter else cs[n].media + [0];
    }
  }

  /**
   Where the old revision declared no body, anything could be sent. The report is then silent on any
   body that is not required, and yet all old requests are still accepted only if none is declared.
   */
  lemma UndeclaredBody(now: Option<RequestBody>, cx: Setting, nodes: nat, hops: nat, means: Meaning)
    ensures Silent(BodyCompared(None, now, cx, nodes, false)) <==> now.None? || !now.value.required
    ensures (forall sent :: Accepts(None, sent, cx.from, hops, means) ==> Accepts(now, sent, cx.to, hops, means)) <==>
            now.None?
  {
    if now.Some? {
      assert BodyCompared(None, now, cx, nodes, false).details[0].breaking == now.value.required;
      var media := FreshMedia(now.value.content);
      assert !Offers(now.value, media);
      assert !Accepts(now, Body(media, Null), cx.to, hops, means);
    }
  }

  /** An optional body declared anew: silent, and a body that was let through no longer is. */
  lemma OptionalBodyAdded(means: Meaning)
    ensures var now := Some(RequestBody(false,
                                        [Content(APPLICATION_JSON,
                                                 Object(None, Untyped, Some([Null]), [], [], None))]));
            var cx, sent := Setting(Request, map[], map[]), Body(APPLICATION_JSON, Bool(true));
            && Silent(BodyCompared(None, now, cx, MAX_SCHEMA_NODES, false))
            && Accepts(None, sent, cx.from, 1, means) && !Accepts(now, sent, cx.to, 1, means)
  {
    var only := Object(None, Untyped, Some([Null]), [], [], None);
    var now := RequestBody(false, [Content(APPLICATION_JSON, only)]);
    assert now.content[0].media == APPLICATION_JSON;
    assert !Same(only.enum.value[0], Bool(true));
    assert Resolve(only, map[], 1) == only;
    assert !Valid(Bool(true), only, map[], 1, means);
  }
}

/**
 The structural comparison of two revisions' schemas: what the comparison decides, as a function
 that threads the node budget and the memo of compared reference pairs.
 */
module SchemaDiff {
  import opened Text
  import opened Json
  import opened Canonical

  // ----- schemas, seen through the keywords the comparison reads

  datatype TypeKeyword = Untyped | OneType(name: Text) | ManyTypes(names: seq<Text>)

  datatype Schema =
    | Missing                       // undefined, or a value that is neither object nor boolean
    | Boolean(accepts: bool)
    | Object(ref: Option<Text>, typ: TypeKeyword, enum: Option<seq<Json>>, required: seq<Text>,
             properties: seq<Property>, items: Option<Schema>)

  datatype Property = Property(name: Text, schema: Schema)

  type Components = map<Text, Schema>

  predicate Declares(s: Schema, name: Text)
    requires s.Object?
  {
    exists i :: 0 <= i < |s.properties| && s.properties[i].name == name
  }

  function Position(ps: seq<Property>, name: Text): (i: nat)
    ensures i <= |ps| && (i < |ps| ==> ps[i].name == name)
    ensures (exists k :: 0 <= k < |ps| && ps[k].name == name) ==> i < |ps|
  {
    if ps == [] || ps[0].name == name then 0
    else
      assert forall k :: 0 < k < |ps| ==> ps[k] == ps[1..][k - 1];
      1 + Position(ps[1..], name)
  }

  function PropertyOf(s: Schema, name: Text): (p: Schema)
    requires s.Object?
    ensures Declares(s, name) ==> p < s
  {
    var i := Position(s.properties, name);
    if i < |s.properties| then s.properties[i].schema else Missing
  }

  // ----- references

  function RefOf(s: Schema): Option<Text> { if s.Object? then s.ref else None }

  /** A reference followed for one hop; anything that does not resolve stays as it is. */
  function Deref(s: Schema, c: Components): Schema {
    var r := RefOf(s);
    if r.Some? && Local(r.value) && r.value in c then c[r.value] else s
  }

  /** The memo key: both references, a missing one written as "-", joined by "|". */
  function MemoKey(was: Schema, now: Schema): Option<Text> {
    var a, b := RefOf(was), RefOf(now);
    if (a.Some? && a.value != []) || (b.Some? && b.value != []) then
      Some((if a.Some? then a.value else [45]) + [124] + (if b.Some? then b.value else [45]))
    else None
  }

  // ----- local rules

  function Join(names: seq<Text>): Text {
    if names == [] then []
    else if |names| == 1 then names[0]
    else names[0] + [124] + Join(names[1..])
  }

  function TypeKey(t: TypeKeyword): Option<Text> {
    match t
    case Untyped => None
    case OneType(name) => Some(name)
    case ManyTypes(names) => Some(Join(SortTexts(names)))
  }

  /** Different keys, at least one of which is neither absent nor empty. */
  predicate TypeChanged(was: Schema, now: Schema)
    requires was.Object? && now.Object?
  {
    var a, b := TypeKey(was.typ), TypeKey(now.typ);
    a != b && ((a.Some? && a.value != []) || (b.Some? && b.value != []))
  }

  predicate Printable(v: Json, allowed: seq<Json>) {
    exists k :: 0 <= k < |allowed| && Stringify(allowed[k]) == Stringify(v)
  }

  /** Whether the old revision accepted a value the new enumeration lacks. */
  predicate EnumLoss(was: Schema, now: Schema)
    requires was.Object? && now.Object?
  {
    && was.enum.Some? && now.enum.Some?
    && exists i :: 0 <= i < |was.enum.value| && !Printable(was.enum.value[i], now.enum.value)
  }

  // ----- details

  datatype Side = Request | Response
  datatype Step = ToProperty(name: Text) | ToItems | ToMedia(media: Text) | ToParameter(place: Text, name: Text)
  datatype Rule =
    | TypeChangedRule | ResponseRetyped | EnumValueRemoved | RequiredAdded | ResponsePropertyRemoved
    | PropertyAdded | PropertyGone | BodyGone | BodyAdded | MediaGone | MediaAdded
    | ParameterGone | ParameterAdded | MethodChanged | PathChanged | SelectorChanged | SoapChanged
  datatype Detail = Detail(path: seq<Step>, rule: Rule, breaking: bool)

  predicate Breaks(ds: seq<Detail>) { exists i :: 0 <= i < |ds| && ds[i].breaking }

  const MAX_SCHEMA_DEPTH: nat := 32
  const MAX_SCHEMA_NODES: nat := 2000

  /** What does not change during one comparison. */
  datatype Setting = Setting(side: Side, from: Components, to: Components)

  /** The shared budget and the memo. */
  datatype State = State(nodes: nat, exhausted: bool, seen: set<Text>)

  datatype Outcome = Outcome(details: seq<Detail>, state: State)

  function RequiredNow(was: Schema, now: Schema, name: Text): bool
    requires was.Object? && now.Object?
  {
    name in now.required && name !in was.required
  }

  function AddedDetail(side: Side, now: Schema, name: Text, path: seq<Step>): Detail
    requires now.Object?
  {
    var breaking := side == Request && name in now.required;
    Detail(path + [ToProperty(name)], if breaking then RequiredAdded else PropertyAdded, breaking)
  }

  function RequiredDetails(side: Side, was: Schema, now: Schema, name: Text, path: seq<Step>): seq<Detail>
    requires was.Object? && now.Object?
  {
    if side == Request && RequiredNow(was, now, name) then
      [Detail(path + [ToProperty(name)], RequiredAdded, true)]
    else []
  }

  function GoneDetail(side: Side, now: Schema, name: Text, path: seq<Step>): seq<Detail>
    requires now.Object?
  {
    if Declares(now, name) then []
    else [Detail(path + [ToProperty(name)],
                 if side == Response then ResponsePropertyRemoved else PropertyGone, side == Response)]
  }

  function GoneDetails(side: Side, was: Schema, now: Schema, i: nat, path: seq<Step>): seq<Detail>
    requires was.Object? && now.Object? && i <= |was.properties|
    decreases |was.properties| - i
  {
    if i == |was.properties| then []
    else GoneDetail(side, now, was.properties[i].name, path) + GoneDetails(side, was, now, i + 1, path)
  }

  function EnumDetails(side: Side, was: Schema, now: Schema, path: seq<Step>): seq<Detail>
    requires was.Object? && now.Object?
  {
    if side == Request && EnumLoss(was, now) then [Detail(path, EnumValueRemoved, true)] else []
  }

  // ----- the comparison

  function Compare(was: Schema, now: Schema, cx: Setting, path: seq<Step>, depth: nat, st: State): (r: Outcome)
    ensures r.state.nodes <= st.nodes
    ensures st.exhausted ==> r.state.exhausted
    ensures st.seen <= r.state.seen
    decreases st.nodes, 0
  {
    if st.nodes == 0 || depth > MAX_SCHEMA_DEPTH then Outcome([], st.(exhausted := true))
    else
      var spent := st.(nodes := st.nodes - 1);
      var key := MemoKey(was, now);
      if key.Some? && key.value in st.seen then Outcome([], spent)
      else
        var marked := if key.Some? then spent.(seen := st.seen + {key.value}) else spent;
        CompareShapes(Deref(was, cx.from), Deref(now, cx.to), cx, path, depth, marked)
  }

  function CompareShapes(was: Schema, now: Schema, cx: Setting, path: seq<Step>, depth: nat, st: State): (r: Outcome)
    ensures r.state.nodes <= st.nodes
    ensures st.exhausted ==> r.state.exhausted
    ensures st.seen <= r.state.seen
    decreases st.nodes, 2
  {
    if !was.Object? || !now.Object? then Outcome([], st)
    else if TypeChanged(was, now) then
      Outcome([Detail(path, if cx.side == Request then TypeChangedRule else ResponseRetyped, true)], st)
    else
      var ps := CompareProperties(was, now, cx, path, depth, 0, st);
      var elems := CompareItems(was, now, cx, path, depth, ps.state);
      Outcome(EnumDetails(cx.side, was, now, path) + ps.details
              + GoneDetails(cx.side, was, now, 0, path) + elems.details, elems.state)
  }

  function CompareProperties(was: Schema, now: Schema, cx: Setting, path: seq<Step>, depth: nat, i: nat, st: State)
    : (r: Outcome)
    requires was.Object? && now.Object? && i <= |now.properties|
    ensures r.state.nodes <= st.nodes
    ensures st.exhausted ==> r.state.exhausted
    ensures st.seen <= r.state.seen
    decreases st.nodes, 1, |now.properties| - i
  {
    if i == |now.properties| then Outcome([], st)
    else
      var first := CompareProperty(was, now, cx, path, depth, now.properties[i].name, st);
      var rest := CompareProperties(was, now, cx, path, depth, i + 1, first.state);
      Outcome(first.details + rest.details, rest.state)
  }

  function CompareProperty(was: Schema, now: Schema, cx: Setting, path: seq<Step>, depth: nat, name: Text, st: State)
    : (r: Outcome)
    requires was.Object? && now.Object?
    ensures r.state.nodes <= st.nodes
    ensures st.exhausted ==> r.state.exhausted
    ensures st.seen <= r.state.seen
    decreases st.nodes, 1, 0
  {
    if !Declares(was, name) then Outcome([AddedDetail(cx.side, now, name, path)], st)
    else
      var inner := Compare(PropertyOf(was, name), PropertyOf(now, name), cx,
                           path + [ToProperty(name)], depth + 1, st);
      Outcome(RequiredDetails(cx.side, was, now, name, path) + inner.details, inner.state)
  }

  function ItemsOf(s: Schema): Schema
    requires s.Object?
  {
    if s.items.Some? then s.items.value else Missing
  }

  function CompareItems(was: Schema, now: Schema, cx: Setting, path: seq<Step>, depth: nat, st: State): (r: Outcome)
    requires was.Object? && now.Object?
    ensures r.state.nodes <= st.nodes
    ensures st.exhausted ==> r.state.exhausted
    ensures st.seen <= r.state.seen
    decreases st.nodes, 1
  {
    if was.items.None? && now.items.None? then Outcome([], st)
    else Compare(ItemsOf(was), ItemsOf(now), cx, path + [ToItems], depth + 1, st)
  }
}

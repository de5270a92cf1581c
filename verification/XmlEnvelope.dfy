/**
 The envelope scan against the tree of the same text: which element it answers with, and when it
 refuses. The scan keeps two marks and no tree; the tree says what those marks amount to.
 */
module XmlEnvelope {
  import opened Text
  import opened XmlTokens
  import opened XmlScan
  import opened XmlTree

  // ----- the shape of a tree in document order

  /** How far below the holder: 1 is a root element. */
  function Level(t: Tree, k: nat): nat
    requires Rooted(t) && k < |t|
  {
    if k == 0 then 0 else 1 + Level(t, t[k].parent)
  }

  /** Whatever stands between an element and its parent is inside the parent. */
  predicate Nested(t: Tree)
    requires Rooted(t)
  {
    forall k, x :: 0 < k < |t| && t[k].parent < x < k ==> Level(t, x) >= Level(t, k)
  }

  /** The open elements by level; all that came after one of them is deeper. */
  predicate Stacked(t: Tree, stack: seq<nat>) {
    && Rooted(t) && stack != []
    && (forall j :: 0 <= j < |stack| ==> stack[j] < |t| && Level(t, stack[j]) == j)
    && (forall j, k :: 0 <= j < |stack| && stack[j] < k < |t| ==> Level(t, k) > j)
  }

  lemma {:induction false} LevelPrefix(t: Tree, f: Tree, k: nat)
    requires Rooted(t) && Rooted(f) && t <= f && k < |t|
    ensures Level(f, k) == Level(t, k)
  {
    if k > 0 { LevelPrefix(t, f, t[k].parent); }
  }

  lemma StartedLevels(t: Tree, stack: seq<nat>, e: Element)
    requires Stacked(t, stack) && e.parent == stack[|stack| - 1] && Rooted(t + [e])
    ensures forall k :: 0 <= k < |t| ==> Level(t + [e], k) == Level(t, k)
    ensures Level(t + [e], |t|) == |stack|
  {
    var f := t + [e];
    forall k | 0 <= k < |t| ensures Level(f, k) == Level(t, k) { LevelPrefix(t, f, k); }
    assert f[|t|] == e;
  }

  lemma StartedNested(t: Tree, stack: seq<nat>, e: Element)
    requires Stacked(t, stack) && Nested(t) && e.parent == stack[|stack| - 1] && Rooted(t + [e])
    ensures Nested(t + [e])
  {
    var f := t + [e];
    StartedLevels(t, stack, e);
    assert f[|t|] == e && forall k :: 0 <= k < |t| ==> f[k] == t[k];
    assert forall x :: e.parent < x < |t| ==> Level(t, x) >= |stack|;
    hide Level, Rooted, Stacked;
  }

  lemma StartedStacked(t: Tree, stack: seq<nat>, e: Element)
    requires Stacked(t, stack) && e.parent == stack[|stack| - 1] && Rooted(t + [e])
    ensures Stacked(t + [e], stack) && Stacked(t + [e], stack + [|t|])
  {
    StartedLevels(t, stack, e);
    hide Level, Rooted;
  }

  lemma PoppedStacked(t: Tree, stack: seq<nat>)
    requires Stacked(t, stack) && |stack| > 1
    ensures Stacked(t, stack[..|stack| - 1])
  {
    hide Rooted, Level;
  }

  lemma GrownStacked(t: Tree, stack: seq<nat>, e: Option<Event>, ns: seq<Declarations>)
    requires Mirrors(t, stack, ns) && Stacked(t, stack) && Nested(t)
    ensures var g := Grown(t, stack, e); Rooted(g.0) && Stacked(g.0, g.1) && Nested(g.0) && t <= g.0
    ensures e.Some? && e.value.Start? ==>
              Level(Grown(t, stack, e).0, |t|) == |stack| && Grown(t, stack, e).0 == t + [Built(stack, e.value)]
  {
    hide Level, Nested, LocalName, Qualified;
    assert stack[|stack| - 1] < |t|;
    hide Stacked;
    if e.Some? && e.value.Start? {
      var b := Built(stack, e.value);
      AddedMirrors(t, stack, ns, b);
      StartedLevels(t, stack, b);
      StartedNested(t, stack, b);
      StartedStacked(t, stack, b);
    } else if e.Some? && |stack| > 1 {
      PoppedStacked(t, stack);
    }
  }

  // ----- the scan walks the tree

  /** The start tag of an element, as far as the scan looks at it. */
  function Tag(t: Tree, k: nat): Event
    requires Rooted(t) && 0 < k < |t|
  {
    Start(t[k].raw, t[k].ns, t[k].decls, false, if Level(t, k) > 0 then Level(t, k) - 1 else 0)
  }

  /** The answer the scan would give if it met the elements from number `k` on, in order. */
  function Walk(t: Tree, k: nat, p: Progress): Envelope
    requires Rooted(t) && 0 < k <= |t|
    decreases |t| - k
  {
    if k == |t| then Answer(p, None)
    else
      match React(p, Tag(t, k))
      case Refuse => Refused
      case Continue(q) => Walk(t, k + 1, q)
      case Stop(child) => Answer(p, Some(child))
  }

  function Wide(lim: Limits): Limits { lim.(allowTruncated := true) }

  lemma WideAgrees(s: Text, st: State, lim: Limits)
    requires !Advance(s, st, lim).Failed?
    ensures Advance(s, st, Wide(lim)) == Advance(s, st, lim)
  {
    hide Find, ReadMark, IsOpening, Lookup, PrefixesKnown, Prefix;
  }

  lemma MirrorsDepth(s: Text, st: State, lim: Limits)
    requires Advance(s, st, lim).Going?
    ensures var e := Advance(s, st, lim).event;
            e.Some? && e.value.Start? ==> e.value.depth == |st.open|
  {
    hide Find, ReadMark, IsOpening, Lookup, PrefixesKnown, Prefix;
  }

  predicate Named(t: Tree) {
    forall k :: 0 < k < |t| ==> t[k].qname == Qualified(t[k].ns, LocalName(t[k].raw))
  }

  lemma GrownNamed(t: Tree, stack: seq<nat>, e: Option<Event>)
    requires stack != [] && Named(t)
    ensures Named(Grown(t, stack, e).0)
  {
    hide LocalName, Qualified;
  }

  function After(p: Progress, e: Option<Event>): Progress {
    if e.Some? && React(p, e.value).Continue? then React(p, e.value).progress else p
  }

  /** Where the tree can be read, the scan is a walk over its elements in document order. */
  lemma {:induction false} ScanIsWalk(s: Text, st: State, t: Tree, stack: seq<nat>, p: Progress, lim: Limits)
    requires Consistent(t, stack, st.ns, |st.open|) && Stacked(t, stack) && Nested(t) && Named(t)
    requires TreeFrom(s, st, t, stack, lim).Some?
    ensures var f := TreeFrom(s, st, t, stack, lim).value;
            Rooted(f) && Nested(f) && Named(f) && t <= f && EnvelopeFrom(s, st, p, Wide(lim)) == Walk(f, |t|, p)
    decreases |s|
  {
    hide Advance, Mirrors, NamesRight, Stacked, Rooted, Nested, TextRefused, Grown, React, Level, Wide,
      Named;
    ConsistentRooted(t, stack, st.ns, |st.open|);
    if s != [] {
      var step := Advance(s, st, lim);
      WideAgrees(s, st, lim);
      if step.Going? {
        TurnMoves(s, st, lim);
        GrownConsistent(t, stack, st, step.state, step.event);
        GrownStacked(t, stack, step.event, st.ns);
        GrownNamed(t, stack, step.event);
        var g := Grown(t, stack, step.event);
        ScanIsWalk(step.rest, step.state, g.0, g.1, After(p, step.event), lim);
        var f := TreeFrom(step.rest, step.state, g.0, g.1, lim).value;
        MirrorsDepth(s, st, lim);
        StepIsTag(t, stack, step.event, f, p, |st.open|);
      }
    }
  }

  lemma ConsistentRooted(t: Tree, stack: seq<nat>, ns: seq<Declarations>, depth: nat)
    requires Consistent(t, stack, ns, depth)
    ensures Rooted(t) && t != [] && |stack| == depth + 1
  {
  }

  /** The event of one turn and the element it leaves in the tree are one to the scan. */
  lemma StepIsTag(t: Tree, stack: seq<nat>, e: Option<Event>, f: Tree, p: Progress, depth: nat)
    requires Rooted(t) && Rooted(f) && |stack| == depth + 1 && Rooted(Grown(t, stack, e).0)
    requires Grown(t, stack, e).0 <= f
    requires e.Some? && e.value.Start? ==> e.value.depth == depth && Grown(t, stack, e).0 == t + [Built(stack, e.value)]
                                           && Level(Grown(t, stack, e).0, |t|) == |stack|
    ensures |Grown(t, stack, e).0| == if e.Some? && e.value.Start? then |t| + 1 else |t|
    ensures e.Some? && e.value.End? ==> React(p, e.value) == Continue(p)
    ensures e.Some? && e.value.Start? ==> |t| < |f| && React(p, e.value) == React(p, Tag(f, |t|))
  {
    if e.Some? && e.value.Start? {
      LevelPrefix(Grown(t, stack, e).0, f, |t|);
      assert f[|t|] == Built(stack, e.value);
    }
  }

  // ----- what the answer is, told by the tree

  /** The two SOAP namespaces. */
  predicate Speaks(ns: Text, v: Version) {
    match v
    case Soap11 => ns == Ascii("http://schemas.xmlsoap.org/soap/envelope/")
    case Soap12 => ns == Ascii("http://www.w3.org/2003/05/soap-envelope")
  }

  predicate IsEnvelope(t: Tree, k: nat)
    requires k < |t|
  {
    LocalName(t[k].raw) == Ascii("Envelope") && (Speaks(t[k].ns, Soap11) || Speaks(t[k].ns, Soap12))
  }

  /** A root element before number `k` that is no SOAP envelope. */
  ghost predicate ForeignBefore(t: Tree, k: nat)
    requires Rooted(t) && k <= |t|
  {
    exists x :: 0 < x < k && Level(t, x) == 1 && !IsEnvelope(t, x)
  }

  /** A child of a root element, named `Body` in that element's own namespace. */
  predicate IsBody(t: Tree, b: nat)
    requires Rooted(t) && b < |t|
  {
    Level(t, b) == 2 && LocalName(t[b].raw) == Ascii("Body") && t[b].ns == t[t[b].parent].ns
  }

  ghost predicate BodyBefore(t: Tree, k: nat)
    requires Rooted(t) && k <= |t|
  {
    exists b :: 0 < b < k && IsBody(t, b)
  }

  /** The first grandchild of a root element that starts after a body has started. */
  ghost predicate IsAnswer(t: Tree, c: nat)
    requires Rooted(t) && c <= |t|
  {
    && c < |t| && Level(t, c) == 3 && BodyBefore(t, c)
    && forall x :: 0 < x < c && Level(t, x) == 3 ==> !BodyBefore(t, x)
  }

  /** The last root element before number `k`, or the holder. */
  function LatestRoot(t: Tree, k: nat): (r: nat)
    requires Rooted(t) && k <= |t|
    ensures r < |t|
  {
    if k <= 1 then 0 else if Level(t, k - 1) == 1 then k - 1 else LatestRoot(t, k - 1)
  }

  lemma {:induction false} LatestIs(t: Tree, r: nat, k: nat)
    requires Rooted(t) && 0 < r < k <= |t| && Level(t, r) == 1 && forall x :: r < x < k ==> Level(t, x) != 1
    ensures LatestRoot(t, k) == r
  {
    if r < k - 1 { LatestIs(t, r, k - 1); }
  }

  lemma ParentLevel(t: Tree, k: nat)
    requires Rooted(t) && 0 < k < |t|
    ensures t[k].parent < k && Level(t, k) == 1 + Level(t, t[k].parent)
  {
  }

  /** Inside a root element, that one is the latest. */
  lemma {:induction false} LatestAbove(t: Tree, k: nat)
    requires Rooted(t) && Nested(t) && 0 < k < |t| && Level(t, k) >= 2
    ensures 0 < LatestRoot(t, k) < k && Level(t, LatestRoot(t, k)) == 1
    ensures Level(t, k) == 2 ==> LatestRoot(t, k) == t[k].parent
    ensures Level(t, k) == 3 ==> LatestRoot(t, k) == t[t[k].parent].parent
  {
    var p := t[k].parent;
    ParentLevel(t, k);
    assert p != 0;
    if Level(t, k) == 2 {
      LatestIs(t, p, k);
    } else {
      LatestAbove(t, p);
      var r := LatestRoot(t, p);
      LatestBetween(t, p, k);
    }
  }

  lemma {:induction false} LatestBetween(t: Tree, p: nat, k: nat)
    requires Rooted(t) && 0 < p <= k <= |t| && forall x :: p <= x < k ==> Level(t, x) != 1
    ensures LatestRoot(t, k) == LatestRoot(t, p)
  {
    if p < k { LatestBetween(t, p, k - 1); }
  }

  /** The marks the scan holds when it comes to element `k`, having refused and found nothing. */
  ghost predicate Marked(t: Tree, k: nat, p: Progress)
    requires Rooted(t) && 0 < k <= |t|
  {
    && !ForeignBefore(t, k) && (p.inBody <==> BodyBefore(t, k))
    && (forall x :: 0 < x < k && Level(t, x) == 3 ==> !BodyBefore(t, x))
    && p.version == if LatestRoot(t, k) == 0 then None else VersionOf(t[LatestRoot(t, k)].ns)
  }

  /** A refusal, or the element and the version of the root element around it or before it. */
  ghost predicate Told(t: Tree, r: Envelope)
    requires Rooted(t)
  {
    && (forall c :: 0 < c < |t| && IsAnswer(t, c) ==>
          if ForeignBefore(t, c) then r == Refused
          else r.Scanned? && r.child == Some(t[c].qname) && Speaks(t[LatestRoot(t, c)].ns, r.version))
    && ((forall c :: 0 < c < |t| ==> !IsAnswer(t, c)) ==>
          if ForeignBefore(t, |t|) || LatestRoot(t, |t|) == 0 then r == Refused
          else r.Scanned? && r.child == None && Speaks(t[LatestRoot(t, |t|)].ns, r.version))
  }

  lemma LatestLevel(t: Tree, k: nat)
    requires Rooted(t) && k <= |t| && LatestRoot(t, k) > 0
    ensures LatestRoot(t, k) < k && Level(t, LatestRoot(t, k)) == 1
  {
  }

  /** While nothing was refused, the latest root element is an envelope of the version held. */
  lemma MarkedSpeaks(t: Tree, k: nat, p: Progress)
    requires Rooted(t) && 0 < k <= |t| && Marked(t, k, p) && LatestRoot(t, k) > 0
    ensures p.version.Some? && Speaks(t[LatestRoot(t, k)].ns, p.version.value)
    ensures Namespace(p.version) == t[LatestRoot(t, k)].ns
  {
    LatestLevel(t, k);
    assert IsEnvelope(t, LatestRoot(t, k));
  }

  lemma BodyNext(t: Tree, k: nat)
    requires Rooted(t) && 0 < k < |t|
    ensures BodyBefore(t, k + 1) <==> BodyBefore(t, k) || IsBody(t, k)
    ensures ForeignBefore(t, k + 1) <==> ForeignBefore(t, k) || (Level(t, k) == 1 && !IsEnvelope(t, k))
    ensures LatestRoot(t, k + 1) == if Level(t, k) == 1 then k else LatestRoot(t, k)
  {
    hide IsBody, IsEnvelope, Rooted;
    if k == 1 { ParentLevel(t, k); }
  }

  /** One element: a refusal is a foreign root, a stop the answer, and otherwise the marks go on. */
  ghost predicate Met(t: Tree, k: nat, p: Progress)
    requires Rooted(t) && 0 < k < |t|
  {
    match React(p, Tag(t, k))
    case Refuse => Level(t, k) == 1 && !IsEnvelope(t, k)
    case Continue(q) => Marked(t, k + 1, q)
    case Stop(child) => IsAnswer(t, k) && child == t[k].qname
  }

  lemma NoBodyHere(t: Tree, k: nat)
    requires Rooted(t) && 0 < k < |t| && Level(t, k) != 2
    ensures !IsBody(t, k)
  {
  }

  lemma RootMet(t: Tree, k: nat, p: Progress)
    requires Rooted(t) && 0 < k < |t| && Marked(t, k, p) && Level(t, k) == 1
    ensures Met(t, k, p)
  {
    hide Rooted, BodyBefore, ForeignBefore, LatestRoot, LocalName, Qualified, Level, IsBody, IsAnswer, Nested;
    BodyNext(t, k);
    NoBodyHere(t, k);
  }

  lemma BodySeen(t: Tree, k: nat, p: Progress)
    requires Rooted(t) && Nested(t) && 0 < k < |t| && Marked(t, k, p) && Level(t, k) == 2
    ensures IsBody(t, k) <==> LocalName(t[k].raw) == BODY && t[k].ns == Namespace(p.version)
  {
    LatestAbove(t, k);
    MarkedSpeaks(t, k, p);
    hide Marked, LatestRoot, LocalName, Namespace, Speaks, Nested;
  }

  lemma ChildMet(t: Tree, k: nat, p: Progress)
    requires Rooted(t) && Nested(t) && 0 < k < |t| && Marked(t, k, p) && Level(t, k) == 2
    ensures Met(t, k, p)
  {
    BodySeen(t, k, p);
    ChildOnward(t, k, p);
    hide Rooted, Nested, Marked, LocalName, Qualified, Level, IsAnswer, Namespace, IsBody, VersionOf;
    assert Continue(p) == Continue(p.(inBody := p.inBody));
  }

  lemma ChildOnward(t: Tree, k: nat, p: Progress)
    requires Rooted(t) && 0 < k < |t| && Marked(t, k, p) && Level(t, k) == 2
    ensures Marked(t, k + 1, p.(inBody := p.inBody || IsBody(t, k)))
  {
    hide Rooted, BodyBefore, ForeignBefore, LatestRoot, Level, IsEnvelope, IsBody, VersionOf;
    BodyNext(t, k);
  }

  lemma DeepMet(t: Tree, k: nat, p: Progress)
    requires Rooted(t) && Named(t) && 0 < k < |t| && Marked(t, k, p) && Level(t, k) >= 3
    ensures Met(t, k, p)
  {
    hide Rooted, BodyBefore, ForeignBefore, LatestRoot, LocalName, Qualified, Level, Namespace, IsEnvelope, IsBody,
      VersionOf;
    BodyNext(t, k);
    NoBodyHere(t, k);
  }

  lemma StepMet(t: Tree, k: nat, p: Progress)
    requires Rooted(t) && Nested(t) && Named(t) && 0 < k < |t| && Marked(t, k, p)
    ensures Met(t, k, p)
  {
    ParentLevel(t, k);
    if Level(t, k) == 1 { RootMet(t, k, p); } else if Level(t, k) == 2 { ChildMet(t, k, p); } else { DeepMet(t, k, p); }
  }

  lemma {:induction false} WalkTold(t: Tree, k: nat, p: Progress)
    requires Rooted(t) && Nested(t) && Named(t) && 0 < k <= |t| && Marked(t, k, p)
    ensures Told(t, Walk(t, k, p))
    decreases |t| - k
  {
    if k == |t| {
      EndTold(t, p);
    } else {
      StepMet(t, k, p);
      match React(p, Tag(t, k)) {
        case Refuse => RefusedTold(t, k, p);
        case Continue(q) => WalkTold(t, k + 1, q);
        case Stop(child) => StopTold(t, k, p);
      }
    }
  }

  lemma EndTold(t: Tree, p: Progress)
    requires Rooted(t) && t != [] && Marked(t, |t|, p)
    ensures Told(t, Answer(p, None))
  {
    if LatestRoot(t, |t|) > 0 { MarkedSpeaks(t, |t|, p); }
  }

  lemma RefusedTold(t: Tree, k: nat, p: Progress)
    requires Rooted(t) && 0 < k < |t| && Marked(t, k, p) && Level(t, k) == 1 && !IsEnvelope(t, k)
    ensures Told(t, Refused)
  {
    hide IsEnvelope, LatestRoot, Rooted, Level, IsBody;
    forall c: nat | k < c <= |t| ensures ForeignBefore(t, c) {}
    forall c: nat | 0 < c <= k && IsAnswer(t, c) ensures false {}
  }

  lemma StopTold(t: Tree, k: nat, p: Progress)
    requires Rooted(t) && Nested(t) && 0 < k < |t| && Marked(t, k, p) && IsAnswer(t, k)
    ensures Told(t, Answer(p, Some(t[k].qname)))
  {
    LatestAbove(t, k);
    MarkedSpeaks(t, k, p);
    forall c: nat | 0 < c < |t| && IsAnswer(t, c) ensures c == k {}
  }

  /** The scan of a document whose tree can be built, answered by the tree alone. */
  lemma EnvelopeExact(input: Text, lim: Limits)
    requires DocumentOf(input, lim).Some?
    ensures var t := DocumentOf(input, lim).value; Rooted(t) && Nested(t) && Told(t, ScanOf(input, lim))
  {
    var t: Tree := [HOLDER];
    var p := Progress(None, false);
    ScanIsWalk(input, INITIAL, t, [0], p, lim);
    var f := DocumentOf(input, lim).value;
    WalkTold(f, 1, p);
  }

  // ----- one root element, as a document has

  predicate OneRoot(t: Tree) {
    Rooted(t) && |t| > 1 && forall k :: 1 < k < |t| ==> t[k].parent != 0
  }

  /** A child of the root element, named `Body` in the root's namespace. */
  predicate BodyChild(t: Tree, b: nat) {
    1 < b < |t| && t[b].parent == 1 && t[b].ns == t[1].ns && LocalName(t[b].raw) == Ascii("Body")
  }

  predicate FirstBody(t: Tree, b: nat) { BodyChild(t, b) && forall x :: 1 < x < b ==> !BodyChild(t, x) }

  predicate ChildOf(t: Tree, d: nat, k: nat) { 1 < d < |t| && t[d].parent == k }

  predicate FirstChild(t: Tree, d: nat, k: nat) { ChildOf(t, d, k) && forall x :: 1 < x < d ==> !ChildOf(t, x, k) }

  /** A child of a child of the root that comes after `b`. */
  predicate Grandchild(t: Tree, d: nat, b: nat) {
    1 < b < d < |t| && t[d].parent < |t| && t[t[d].parent].parent == 1
  }

  lemma OneRootLevels(t: Tree, k: nat)
    requires OneRoot(t) && 0 < k < |t|
    ensures Level(t, k) == 1 <==> k == 1
    ensures Level(t, k) == 2 <==> t[k].parent == 1
    ensures Level(t, k) == 3 <==> t[t[k].parent].parent == 1
  {
    ParentLevel(t, 1);
    ParentLevel(t, k);
    var p := t[k].parent;
    if p > 0 {
      ParentLevel(t, p);
      var q := t[p].parent;
      if q > 0 { ParentLevel(t, q); }
    }
  }

  lemma OneRootBody(t: Tree, b: nat)
    requires OneRoot(t) && 0 < b < |t|
    ensures IsBody(t, b) <==> BodyChild(t, b)
  {
    OneRootLevels(t, b);
    hide Level;
  }

  lemma OneRootLatest(t: Tree, k: nat)
    requires OneRoot(t) && 1 < k <= |t|
    ensures LatestRoot(t, k) == 1
    ensures ForeignBefore(t, k) <==> !IsEnvelope(t, 1)
  {
    forall x | 0 < x < |t| ensures Level(t, x) == 1 <==> x == 1 { OneRootLevels(t, x); }
    LatestIs(t, 1, k);
  }

  lemma OneRootBefore(t: Tree, k: nat)
    requires OneRoot(t) && k <= |t|
    ensures BodyBefore(t, k) <==> exists b :: 1 < b < k && BodyChild(t, b)
  {
    hide IsBody;
    forall b | 0 < b < k ensures IsBody(t, b) <==> BodyChild(t, b) { OneRootBody(t, b); }
    if BodyBefore(t, k) {
      var b :| 0 < b < k && IsBody(t, b);
      assert BodyChild(t, b);
    }
  }

  /** With a first body, the answer is the first grandchild of the root after it. */
  lemma OneRootAnswer(t: Tree, b: nat, c: nat)
    requires OneRoot(t) && FirstBody(t, b) && c < |t|
    ensures IsAnswer(t, c) <==> Grandchild(t, c, b) && forall x :: b < x < c ==> !Grandchild(t, x, b)
  {
    forall x: nat | 0 < x <= c
      ensures (Level(t, x) == 3 && BodyBefore(t, x)) <==> Grandchild(t, x, b)
    {
      OneRootLevels(t, x);
      OneRootBefore(t, x);
    }
  }

  lemma NestedAt(t: Tree, k: nat, x: nat)
    requires Rooted(t) && Nested(t) && 0 < k < |t|
    ensures t[k].parent < x < k ==> Level(t, x) >= Level(t, k)
  {
  }

  /** The first child of an element is the first one of its level after it. */
  lemma FirstInside(t: Tree, b: nat, d: nat)
    requires OneRoot(t) && Nested(t) && BodyChild(t, b) && FirstChild(t, d, b)
    ensures Grandchild(t, d, b) && forall x :: b < x < d ==> !Grandchild(t, x, b)
  {
    OneRootLevels(t, b);
    OneRootLevels(t, d);
    forall x: nat | b < x < d ensures !Grandchild(t, x, b) {
      OneRootLevels(t, x);
      ParentLevel(t, x);
      var p := t[x].parent;
      NestedAt(t, d, p);
      NestedAt(t, d, x);
      NestedAt(t, x, b);
      assert p == b ==> ChildOf(t, x, b);
    }
  }

  /**
   With one root: refused exactly if it is no SOAP envelope, and otherwise the version of its
   namespace. With no body there is no child to tell; a first body with a child is answered by its
   first child; and one without by the first grandchild of the root after it, if there is one.
   */
  lemma OneRootExact(input: Text, lim: Limits)
    requires DocumentOf(input, lim).Some? && OneRoot(DocumentOf(input, lim).value)
    ensures var t, r := DocumentOf(input, lim).value, ScanOf(input, lim);
            && (r == Refused <==> !IsEnvelope(t, 1))
            && (r.Scanned? ==> Speaks(t[1].ns, r.version) && RightChild(t, r.child))
  {
    var t, r := DocumentOf(input, lim).value, ScanOf(input, lim);
    EnvelopeExact(input, lim);
    hide ScanOf, DocumentOf, Told, Nested, RightChild, IsEnvelope, Speaks, OneRoot;
    OneRootTold(t, r);
  }

  ghost predicate RightChild(t: Tree, child: Option<Text>) {
    && ((forall b: nat :: !BodyChild(t, b)) ==> child == None)
    && (forall b: nat, d: nat :: FirstBody(t, b) && FirstChild(t, d, b) ==> child == Some(t[d].qname))
    && (forall b: nat :: FirstBody(t, b) && (forall d: nat :: !ChildOf(t, d, b)) ==>
          && (child.None? <==> forall x: nat :: !Grandchild(t, x, b))
          && (forall x: nat :: Grandchild(t, x, b) && (forall y: nat :: b < y < x ==> !Grandchild(t, y, b)) ==>
                child == Some(t[x].qname)))
  }

  lemma OneRootTold(t: Tree, r: Envelope)
    requires OneRoot(t) && Nested(t) && Told(t, r)
    ensures (r == Refused <==> !IsEnvelope(t, 1))
    ensures r.Scanned? ==> Speaks(t[1].ns, r.version) && RightChild(t, r.child)
  {
    if c: nat :| c < |t| && IsAnswer(t, c) {
      assert c > 1 by { ParentLevel(t, 1); }
      OneRootLatest(t, c);
      SomeRight(t, c);
    } else {
      OneRootLatest(t, |t|);
      NoneRight(t);
    }
  }

  lemma SomeRight(t: Tree, c: nat)
    requires OneRoot(t) && Nested(t) && c < |t| && IsAnswer(t, c)
    ensures RightChild(t, Some(t[c].qname))
  {
    OneRootBefore(t, c);
    forall b: nat | FirstBody(t, b)
      ensures Grandchild(t, c, b) && forall x :: b < x < c ==> !Grandchild(t, x, b)
    {
      OneRootAnswer(t, b, c);
    }
    forall b: nat, d: nat | FirstBody(t, b) && FirstChild(t, d, b) ensures d == c { FirstInside(t, b, d); }
    hide OneRoot, Nested, IsAnswer, BodyChild;
  }

  lemma NoneRight(t: Tree)
    requires OneRoot(t) && Nested(t) && forall c: nat :: c < |t| ==> !IsAnswer(t, c)
    ensures RightChild(t, None)
  {
    forall b: nat, x: nat | FirstBody(t, b) ensures !Grandchild(t, x, b) {
      if Grandchild(t, x, b) {
        var c := Least(t, x, b);
        OneRootAnswer(t, b, c);
      }
    }
    forall b: nat, d: nat | FirstBody(t, b) && FirstChild(t, d, b) ensures Grandchild(t, d, b) {
      FirstInside(t, b, d);
    }
    hide OneRoot, Nested, IsAnswer, BodyChild, Grandchild;
  }

  lemma {:induction false} Least(t: Tree, x: nat, b: nat) returns (c: nat)
    requires Grandchild(t, x, b)
    ensures Grandchild(t, c, b) && forall y :: b < y < c ==> !Grandchild(t, y, b)
  {
    if y :| b < y < x && Grandchild(t, y, b) { c := Least(t, y, b); } else { c := x; }
  }
}

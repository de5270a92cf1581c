/**
 The control plane's tree: elements with a link to their parent, names resolved by walking up. The
 walk finds what the scanner found on its namespace stack.
 */
module XmlTree {
  import opened Text
  import opened XmlTokens
  import opened XmlScan
  import opened XmlScanner

  /** The names are the scanner's; number 0 is the holder of the document element and its own parent. */
  datatype Element = Element(parent: nat, raw: Text, ns: Text, qname: Text, decls: Declarations)

  type Tree = seq<Element>

  const HOLDER := Element(0, [], [], [], map[])

  predicate Rooted(t: Tree) { t != [] && t[0] == HOLDER && forall k :: 0 < k < |t| ==> t[k].parent < k }

  /** The nearest declaration on the way up. */
  function ResolveUp(t: Tree, k: nat, prefix: Text): Option<Text>
    requires Rooted(t) && k < |t|
  {
    if prefix in t[k].decls then Some(t[k].decls[prefix])
    else if k == 0 then None
    else ResolveUp(t, t[k].parent, prefix)
  }

  function Uri(found: Option<Text>, prefix: Text): Text {
    if found.Some? then found.value else if prefix == XML then XML_NAMESPACE else []
  }

  function NameAt(t: Tree, k: nat, value: Text): Text
    requires Rooted(t) && k < |t|
  {
    Qualified(Uri(ResolveUp(t, k, Prefix(value)), Prefix(value)), LocalName(value))
  }

  /** Walking up gives every element the name the scanner gave it. */
  predicate NamesRight(t: Tree)
    requires Rooted(t)
  {
    forall k :: 0 < k < |t| ==> NameAt(t, k, t[k].raw) == t[k].qname
  }

  method ResolveQName(t: Tree, k: nat, value: Text) returns (name: Text)
    requires Rooted(t) && k < |t|
    ensures name == NameAt(t, k, value)
  {
    var prefix := Prefix(value);
    var current: nat := k;
    while true
      invariant current < |t| && ResolveUp(t, k, prefix) == ResolveUp(t, current, prefix)
      decreases current
    {
      if prefix in t[current].decls { return Qualified(t[current].decls[prefix], LocalName(value)); }
      if current == 0 { break; }
      current := t[current].parent;
    }
    return Qualified(if prefix == XML then XML_NAMESPACE else [], LocalName(value));
  }

  // ----- the tree and the scanner's stack

  /** The open elements, outermost first, and the declarations the scanner holds for them. */
  predicate Mirrors(t: Tree, stack: seq<nat>, ns: seq<Declarations>) {
    && Rooted(t) && stack != [] && stack[0] == 0 && |ns| == |stack| && ns[0] == INITIAL.ns[0]
    && (forall j :: 0 <= j < |stack| ==> stack[j] < |t|)
    && (forall j :: 0 < j < |stack| ==>
          0 < stack[j] && t[stack[j]].parent == stack[j - 1] && t[stack[j]].decls == ns[j])
  }

  lemma {:induction false} AppendKeeps(t: Tree, e: Element, k: nat, prefix: Text)
    requires Rooted(t) && Rooted(t + [e]) && k < |t|
    ensures ResolveUp(t + [e], k, prefix) == ResolveUp(t, k, prefix)
  {
    if k > 0 { AppendKeeps(t, e, t[k].parent, prefix); }
  }

  /** What the stack says of a prefix, the walk up says too. */
  lemma {:induction false} WalkIsLookup(t: Tree, stack: seq<nat>, ns: seq<Declarations>, n: nat, prefix: Text)
    requires Mirrors(t, stack, ns) && n < |stack| && Lookup(ns[..n + 1], prefix).Some?
    ensures Uri(ResolveUp(t, stack[n], prefix), prefix) == Lookup(ns[..n + 1], prefix).value
  {
    assert ns[..n + 1][..n] == ns[..n];
    if n > 0 {
      if prefix !in ns[n] { WalkIsLookup(t, stack, ns, n - 1, prefix); }
    } else {
      assert ns[..0] == [] && ns[0] == map[XML := XML_NAMESPACE];
    }
  }

  lemma StartedMirrors(t: Tree, stack: seq<nat>, ns: seq<Declarations>, e: Element)
    requires Mirrors(t, stack, ns) && e.parent == stack[|stack| - 1]
    ensures Rooted(t + [e]) && Mirrors(t + [e], stack, ns) && Mirrors(t + [e], stack + [|t|], ns + [e.decls])
  {
    AddedMirrors(t, stack, ns, e);
    PushedMirrors(t, stack, ns, e);
  }

  lemma AddedMirrors(t: Tree, stack: seq<nat>, ns: seq<Declarations>, e: Element)
    requires Mirrors(t, stack, ns) && e.parent < |t|
    ensures Mirrors(t + [e], stack, ns)
  {
    assert forall k :: 0 <= k < |t| ==> (t + [e])[k] == t[k];
    assert Rooted(t + [e]);
  }

  lemma PushedMirrors(t: Tree, stack: seq<nat>, ns: seq<Declarations>, e: Element)
    requires Mirrors(t + [e], stack, ns) && t != [] && e.parent == stack[|stack| - 1]
    ensures Mirrors(t + [e], stack + [|t|], ns + [e.decls])
  {
    hide Rooted;
    assert (t + [e])[|t|] == e;
  }

  lemma PoppedMirrors(t: Tree, stack: seq<nat>, ns: seq<Declarations>)
    requires Mirrors(t, stack, ns) && |stack| > 1
    ensures Mirrors(t, stack[..|stack| - 1], ns[..|ns| - 1])
  {
    hide Rooted;
  }

  /** A started element, linked to the innermost open one, has the right name there. */
  lemma StartedRight(t: Tree, stack: seq<nat>, ns: seq<Declarations>, e: Element, uri: Text)
    requires Mirrors(t, stack, ns) && NamesRight(t) && e.parent == stack[|stack| - 1]
    requires Lookup(ns + [e.decls], Prefix(e.raw)) == Some(uri) && e.qname == Qualified(uri, LocalName(e.raw))
    ensures Rooted(t + [e]) && NamesRight(t + [e])
  {
    hide Lookup, Prefix, LocalName, Qualified;
    StartedMirrors(t, stack, ns, e);
    NewNameRight(t, stack, ns, e, uri);
    hide Rooted, Mirrors;
    var t' := t + [e];
    forall k | 0 < k < |t'| ensures NameAt(t', k, t'[k].raw) == t'[k].qname {
      if k < |t| { AppendKeeps(t, e, k, Prefix(t[k].raw)); }
    }
  }

  lemma NewNameRight(t: Tree, stack: seq<nat>, ns: seq<Declarations>, e: Element, uri: Text)
    requires Mirrors(t, stack, ns) && e.parent == stack[|stack| - 1]
             && Lookup(ns + [e.decls], Prefix(e.raw)) == Some(uri)
    requires e.qname == Qualified(uri, LocalName(e.raw)) && Rooted(t + [e])
    ensures NameAt(t + [e], |t|, e.raw) == e.qname
  {
    hide Prefix, LocalName, Qualified;
    var prefix, n := Prefix(e.raw), |stack| - 1;
    assert (ns + [e.decls])[..|ns|] == ns;
    AppendKeeps(t, e, stack[n], prefix);
    if prefix !in e.decls {
      assert ns[..n + 1] == ns;
      WalkIsLookup(t, stack, ns, n, prefix);
    }
  }

  // ----- building

  function Built(stack: seq<nat>, e: Event): Element
    requires stack != [] && e.Start?
  {
    Element(stack[|stack| - 1], e.raw, e.ns, Qualified(e.ns, LocalName(e.raw)), e.decls)
  }

  /** What the handlers make of an event. */
  function Grown(t: Tree, stack: seq<nat>, e: Option<Event>): (g: (Tree, seq<nat>))
    requires stack != []
    ensures g.1 != []
  {
    if e.None? then (t, stack)
    else if e.value.Start? then (t + [Built(stack, e.value)], if e.value.selfClosing then stack else stack + [|t|])
    else (t, if |stack| > 1 then stack[..|stack| - 1] else stack)
  }

  /** How a turn moves the scanner's stacks, by its event. */
  predicate Moves(st: State, next: State, e: Option<Event>) {
    if e.None? then next.ns == st.ns && next.open == st.open
    else if e.value.End? then
      st.open != [] && st.ns != [] && next.open == st.open[..|st.open| - 1] && next.ns == st.ns[..|st.ns| - 1]
    else
      && Lookup(st.ns + [e.value.decls], Prefix(e.value.raw)) == Some(e.value.ns)
      && next.ns == (if e.value.selfClosing then st.ns else st.ns + [e.value.decls])
      && next.open == (if e.value.selfClosing then st.open else st.open + [e.value.raw])
  }

  lemma TurnMoves(s: Text, st: State, lim: Limits)
    requires Advance(s, st, lim).Going?
    ensures Moves(st, Advance(s, st, lim).state, Advance(s, st, lim).event)
  {
    hide Find, ReadMark, IsOpening, Lookup, PrefixesKnown, Prefix;
  }

  /** The tree under construction: it mirrors the stacks and its names are right. */
  predicate Consistent(t: Tree, stack: seq<nat>, ns: seq<Declarations>, depth: nat) {
    Mirrors(t, stack, ns) && NamesRight(t) && |stack| == depth + 1 && (|t| == 1 ==> stack == [0])
        && (|t| > 1 ==> t[1].parent == 0)
  }

  lemma GrownConsistent(t: Tree, stack: seq<nat>, st: State, next: State, e: Option<Event>)
    requires Consistent(t, stack, st.ns, |st.open|) && Moves(st, next, e)
    ensures var g := Grown(t, stack, e); Consistent(g.0, g.1, next.ns, |next.open|)
  {
    hide Lookup, Prefix, LocalName, Qualified, NamesRight;
    if e.Some? && e.value.End? {
      assert |stack| > 1;
      PoppedMirrors(t, stack, st.ns);
    } else if e.Some? {
      StartedMirrors(t, stack, st.ns, Built(stack, e.value));
      StartedRight(t, stack, st.ns, Built(stack, e.value), e.value.ns);
    }
  }

  /** The tree the rest of the text gives; none stands for the error it throws. */
  function TreeFrom(s: Text, st: State, t: Tree, stack: seq<nat>, lim: Limits): Option<Tree>
    requires stack != []
    decreases |s|
  {
    if s == [] then (if st.open != [] && !lim.allowTruncated then None else Found(t))
    else if TextRefused(s, lim) then None
    else
      match Advance(s, st, lim)
      case Failed => None
      case Over => Found(t)
      case Going(next, event, rest) => TreeFrom(rest, next, Grown(t, stack, event).0, Grown(t, stack, event).1, lim)
  }

  /** A document has an element. */
  function Found(t: Tree): Option<Tree> { if |t| > 1 then Some(t) else None }

  function DocumentOf(input: Text, lim: Limits): Option<Tree> {
    if |input| > lim.maxBytes then None else TreeFrom(input, INITIAL, [HOLDER], [0], lim)
  }

  lemma {:induction false} TreeFromRight(s: Text, st: State, t: Tree, stack: seq<nat>, lim: Limits)
    requires Consistent(t, stack, st.ns, |st.open|)
    ensures var r := TreeFrom(s, st, t, stack, lim);
            r.Some? ==> Rooted(r.value) && NamesRight(r.value) && |r.value| > 1 && r.value[1].parent == 0
    decreases |s|
  {
    hide Advance, Mirrors, NamesRight, Grown, TextRefused;
    if s != [] && Advance(s, st, lim).Going? {
      var step := Advance(s, st, lim);
      TurnMoves(s, st, lim);
      GrownConsistent(t, stack, st, step.state, step.event);
      TreeFromRight(step.rest, step.state, Grown(t, stack, step.event).0, Grown(t, stack, step.event).1, lim);
    }
    MirrorsRooted(t, stack, st.ns);
  }

  lemma MirrorsRooted(t: Tree, stack: seq<nat>, ns: seq<Declarations>)
    requires Mirrors(t, stack, ns)
    ensures Rooted(t)
  {
  }

  /** In every document's tree, walking up gives each element the name the scanner gave it. */
  lemma DocumentNamesRight(input: Text, lim: Limits)
    ensures var r := DocumentOf(input, lim);
            r.Some? ==> Rooted(r.value) && NamesRight(r.value) && |r.value| > 1 && r.value[1].parent == 0
  {
    if |input| <= lim.maxBytes { TreeFromRight(input, INITIAL, [HOLDER], [0], lim); }
  }

  /** Reads a document into its tree. */
  method ParseDocument(input: Text, lim: Limits) returns (r: Option<Tree>)
    ensures r == DocumentOf(input, lim)
    ensures r.Some? ==> Rooted(r.value) && NamesRight(r.value) && |r.value| > 1 && r.value[1].parent == 0
  {
    DocumentNamesRight(input, lim);
    if |input| > lim.maxBytes { return None; }
    var scanner := new Scanner(input, lim);
    var t: Tree, stack: seq<nat> := [HOLDER], [0];
    assert input[0..] == input;
    while scanner.i < |input|
      invariant scanner.input == input && scanner.lim == lim && scanner.i <= |input| && stack != []
      invariant DocumentOf(input, lim) == TreeFrom(input[scanner.i..], scanner.Now(), t, stack, lim)
    {
      hide Advance, Rooted, NamesRight, TextRefused;
      var refused := scanner.ReadText();
      if refused { return None; }
      var step := scanner.Turn();
      if step.Failed? { return None; }
      if step.Over? { return if |t| > 1 then Some(t) else None; }
      if step.event.Some? {
        var e := step.event.value;
        match e {
          case Start(_, _, _, selfClosing, _) =>
            var at := |t|;
            t := t + [Built(stack, e)];
            if !selfClosing { stack := stack + [at]; }
          case End => if |stack| > 1 { stack := stack[..|stack| - 1]; }
        }
      }
    }
    if scanner.openTags != [] && !lim.allowTruncated { return None; }
    return if |t| > 1 then Some(t) else None;
  }
}

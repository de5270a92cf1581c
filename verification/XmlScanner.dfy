/**
 The scanner as it runs: one cursor over the input, advanced by loops, with a stack of namespace
 declarations and one of open tags. Each step is proved to be the step of the scan's definition.
 */
module XmlScanner {
  import opened Text
  import opened XmlTokens
  import opened XmlScan

  method IndexOf(input: Text, p: Text, i: nat) returns (at: int)
    requires i <= |input| && p != []
    ensures Find(input[i..], p) == if at < 0 then None else Some(at - i)
    ensures at >= 0 ==> i <= at && at + |p| <= |input|
    ensures -1 <= at
  {
    for k := i to |input|
      invariant Shifted(Find(input[i..], p), 0) == Shifted(Find(input[k..], p), k - i)
    {
      if StartsWith(input[k..], p) { return k; }
      assert input[k..][1..] == input[k + 1..];
    }
    return -1;
  }

  function Shifted(r: Option<nat>, n: nat): Option<nat> { if r.Some? then Some(r.value + n) else None }

  method SkipSpaces(input: Text, i: nat) returns (j: nat)
    requires i <= |input|
    ensures i <= j <= |input| && j - i == Spaces(input[i..]) && input[j..] == TrimStart(input[i..])
  {
    j := i;
    while j < |input| && IsSpace(input[j])
      invariant i <= j <= |input| && Spaces(input[i..]) == j - i + Spaces(input[j..])
    {
      assert input[j..][1..] == input[j + 1..];
      j := j + 1;
    }
  }

  method SkipName(input: Text, i: nat) returns (j: nat)
    requires i <= |input|
    ensures i <= j <= |input| && j - i == NameLength(input[i..])
    ensures input[i..j] == input[i..][..NameLength(input[i..])] && input[j..] == input[i..][NameLength(input[i..])..]
  {
    j := i;
    while j < |input| && IsNameChar(input[j])
      invariant i <= j <= |input| && NameLength(input[i..]) == j - i + NameLength(input[j..])
    {
      assert input[j..][1..] == input[j + 1..];
      j := j + 1;
    }
  }

  /** One attribute from its name on; `j` is the position after it. */
  method AttributeAt(input: Text, i: nat, decode: Decoder) returns (a: OneAttribute, j: nat)
    requires i <= |input|
    ensures a == ReadAttribute(input[i..], decode)
    ensures a.Read? ==> i < j <= |input| && a.after == input[j..]
  {
    hide ReadAssigned, TrimStart, NameLength, Spaces;
    j := SkipName(input, i);
    if j == i { return Wrong, j; }
    var name := input[i..j];
    j := SkipSpaces(input, j);
    a, j := AssignedAt(input, name, j, decode);
  }

  method AssignedAt(input: Text, name: Text, i: nat, decode: Decoder) returns (a: OneAttribute, j: nat)
    requires i <= |input|
    ensures a == ReadAssigned(name, input[i..], decode)
    ensures a.Read? ==> i < j <= |input| && a.after == input[j..]
  {
    hide ReadValue, TrimStart, Spaces;
    if i >= |input| || input[i] != 61 { return Wrong, i; }
    assert input[i..][1..] == input[i + 1..];
    j := SkipSpaces(input, i + 1);
    if j >= |input| || (input[j] != 34 && input[j] != 39) { return Wrong, j; }
    a, j := ValueAt(input, name, j, decode);
  }

  method ValueAt(input: Text, name: Text, i: nat, decode: Decoder) returns (a: OneAttribute, j: nat)
    requires i < |input|
    ensures a == ReadValue(name, input[i..], decode)
    ensures a.Read? ==> i < j <= |input| && a.after == input[j..]
  {
    var start := i + 1;
    var end := IndexOf(input, [input[i]], start);
    assert input[i..][1..] == input[start..];
    if end < 0 { return Lacking, start; }
    assert input[start..][..end - start] == input[start..end] && input[start..][end - start + 1..] == input[end + 1..];
    var value := decode(input[start..end]);
    if value.None? { return Wrong, start; }
    return Read(name, value.value, input[end + 1..]), end + 1;
  }

  method AttributesAt(input: Text, raw: Text, i: nat, decode: Decoder) returns (mark: Mark, j: nat)
    requires i <= |input|
    ensures mark == ReadAttributes(raw, input[i..], map[], [], decode)
    ensures Whole(mark) ==> i < j <= |input| && mark.after == input[j..]
  {
    j := i;
    var decls: Declarations := map[];
    var pending: seq<Attribute> := [];
    while j < |input|
      invariant i <= j <= |input|
      invariant ReadAttributes(raw, input[i..], map[], [],
                               decode) == ReadAttributes(raw, input[j..], decls, pending, decode)
    {
      hide ReadAttribute, TrimStart, Spaces;
      j := SkipSpaces(input, j);
      if j >= |input| { break; }
      if input[j] == 62 { return Opening(raw, decls, pending, false, input[j + 1..]), j + 1; }
      if StartsWith(input[j..], EMPTY_END) { return Opening(raw, decls, pending, true, input[j + 2..]), j + 2; }
      var a, after := AttributeAt(input, j, decode);
      if a.Wrong? { return Bad, j; }
      if a.Lacking? { return Cut, j; }
      decls, pending := Declared(decls, a.name, a.value), Listed(pending, a.name, a.value);
      j := after;
    }
    return Cut, j;
  }

  method OpeningAt(input: Text, i: nat, decode: Decoder) returns (mark: Mark, j: nat)
    requires i < |input|
    ensures mark == ReadOpening(input[i..], decode)
    ensures Whole(mark) ==> i < j <= |input| && mark.after == input[j..]
  {
    hide ReadAttributes;
    j := i + 1;
    if j >= |input| { return Cut, j; }
    if !IsNameStart(input[j]) { return Bad, j; }
    assert input[i..][1..] == input[j..];
    j := SkipName(input, j);
    if j >= |input| { return Cut, j; }
    assert input[i..][1..j - i] == input[i + 1..j] && input[i..][j - i..] == input[j..];
    mark, j := AttributesAt(input, input[i + 1..j], j, decode);
  }

  method MarkAt(input: Text, i: nat, decode: Decoder) returns (mark: Mark, j: nat)
    requires i < |input|
    ensures mark == ReadMark(input[i..], decode)
    ensures Whole(mark) ==> i < j <= |input| && mark.after == input[j..]
  {
    hide ReadOpening, Find, TrimStart, TrimEnd, StartsWith, AfterFirst;
    var s := input[i..];
    if StartsWith(s, INSTRUCTION) {
      StartLength(s, INSTRUCTION);
      var inside, end := InsideOf(input, INSTRUCTION_END, i);
      return if end < 0 then Cut else Instruction(StartsWith(TrimStart(inside), XML), input[end..]), if end < 0 then i
          else end;
    }
    if StartsWith(s, COMMENT) {
      var end := PastFirst(input, COMMENT_END, i);
      return if end < 0 then Cut else Skipped(input[end..]), if end < 0 then i else end;
    }
    if StartsWith(s, CDATA) {
      var end := PastFirst(input, CDATA_END, i);
      return if end < 0 then Cut else Skipped(input[end..]), if end < 0 then i else end;
    }
    if StartsWith(s, BANG) { return Bad, i; }
    if StartsWith(s, CLOSING) {
      StartLength(s, CLOSING);
      var inside, end := InsideOf(input, TAG_END, i);
      return if end < 0 then Cut else Close(TrimStart(TrimEnd(inside)), input[end..]), if end < 0 then i else end;
    }
    mark, j := OpeningAt(input, i, decode);
  }

  /** The position after the first `p`, or -1. */
  method PastFirst(input: Text, p: Text, i: nat) returns (end: int)
    requires i < |input| && p != []
    ensures -1 <= end && (end >= 0 ==> i < end <= |input|)
    ensures AfterFirst(input[i..], p) == if end < 0 then None else Some(input[end..])
  {
    hide Find;
    end := IndexOf(input, p, i);
    if end >= 0 {
      assert input[i..][end - i + |p|..] == input[end + |p|..];
      end := end + |p|;
    }
  }

  /** The same, with what stands between the mark's first two characters and `p`. */
  method InsideOf(input: Text, p: Text, i: nat) returns (inside: Text, end: int)
    requires i + 2 <= |input| && p != []
    ensures -1 <= end && (end >= 0 ==> i < end <= |input|)
    ensures Find(input[i..], p).None? <==> end < 0
    ensures end >= 0 ==> var e := Find(input[i..], p).value;
            inside == input[i..][2..Max(2, e)] && input[end..] == input[i..][e + |p|..]
  {
    hide Find;
    inside := [];
    end := IndexOf(input, p, i);
    if end >= 0 {
      Slices(input, i, end, |p|);
      if end > i + 2 { inside := input[i + 2..end]; }
      end := end + |p|;
    }
  }

  lemma StartLength(s: Text, p: Text)
    requires StartsWith(s, p)
    ensures |p| <= |s|
  {
  }

  /** Positions in the input and in the text ahead. */
  lemma Slices(input: Text, i: nat, end: nat, n: nat)
    requires i <= end && i + 2 <= |input| && end + n <= |input|
    ensures input[i..][2..Max(2, end - i)] == if end <= i + 2 then [] else input[i + 2..end]
    ensures input[i..][end - i + n..] == input[end + n..]
  {
  }

  class Scanner {
    const input: Text
    const lim: Limits
    var i: nat
    var nsStack: seq<Declarations>
    var openTags: seq<Text>
    var elements: nat
    var sawDeclaration: bool
    var sawRoot: bool

    constructor (input: Text, lim: Limits)
      ensures this.input == input && this.lim == lim && i == 0 && Now() == INITIAL
    {
      this.input, this.lim, i := input, lim, 0;
      nsStack, openTags, elements := [map[XML := XML_NAMESPACE]], [], 0;
      sawDeclaration, sawRoot := false, false;
    }

    function Now(): State
      reads this
    {
      State(nsStack, openTags, elements, sawDeclaration, sawRoot)
    }

    method Resolve(prefix: Text) returns (uri: Option<Text>)
      ensures uri == Lookup(nsStack, prefix)
    {
      var s := |nsStack|;
      assert nsStack[..s] == nsStack;
      while s > 0
        invariant 0 <= s <= |nsStack| && Lookup(nsStack, prefix) == Lookup(nsStack[..s], prefix)
      {
        if prefix in nsStack[s - 1] { return Some(nsStack[s - 1][prefix]); }
        assert nsStack[..s][..s - 1] == nsStack[..s - 1];
        s := s - 1;
      }
      return if prefix == [] then Some([]) else None;
    }

    method AttributesResolve(attributes: seq<Attribute>) returns (ok: bool)
      ensures ok == PrefixesKnown(nsStack, attributes)
    {
      for k := 0 to |attributes|
        invariant PrefixesKnown(nsStack, attributes[..k])
      {
        if attributes[k].prefix != [] {
          var uri := Resolve(attributes[k].prefix);
          if uri.None? { return false; }
        }
      }
      assert attributes[..|attributes|] == attributes;
      return true;
    }

    method ReadText() returns (refused: bool)
      requires i < |input|
      ensures refused == TextRefused(input[i..], lim)
    {
      hide Find, TrimStart;
      var lt := IndexOf(input, TAG_START, i);
      var text := if lt < 0 then input[i..] else input[i..lt];
      assert lt >= 0 ==> input[i..][..lt - i] == input[i..lt];
      return TrimStart(text) != [] && lim.decode(text).None?;
    }

    /** One turn of the scan; the text ahead and the stacks move as its definition says. */
    method Turn() returns (step: Step)
      requires i < |input|
      modifies this
      ensures step == Advance(old(input[i..]), old(Now()), lim)
      ensures step.Going? ==> old(i) < i <= |input| && input[i..] == step.rest && Now() == step.state
    {
      hide ReadMark, Find, IsOpening, Take;
      var lt := IndexOf(input, TAG_START, i);
      if lt < 0 { return Over; }
      assert input[i..][lt - i..] == input[lt..];
      if IsOpening(input[lt..]) {
        elements := elements + 1;
        if elements > lim.maxElements { return Failed; }
      }
      var mark, j := MarkAt(input, lt, lim.decode);
      step := Obey(mark);
      if step.Going? { i := j; }
    }

    /** What a mark does to the stacks. */
    method Obey(mark: Mark) returns (step: Step)
      modifies this`nsStack, this`openTags, this`sawDeclaration, this`sawRoot
      ensures step == Take(mark, old(Now()), lim)
      ensures step.Going? ==> Now() == step.state
    {
      hide Enter;
      match mark {
        case Cut => return Truncated(lim);
        case Bad => return Failed;
        case Instruction(isXml, after) =>
          if !isXml || sawDeclaration || sawRoot { return Failed; }
          sawDeclaration := true;
          return Going(Now(), None, after);
        case Skipped(after) => return Going(Now(), None, after);
        case Close(raw, after) =>
          if openTags == [] || nsStack == [] { return Failed; }
          var expected := openTags[|openTags| - 1];
          if expected != raw { return Failed; }
          openTags := openTags[..|openTags| - 1];
          nsStack := nsStack[..|nsStack| - 1];
          return Going(Now(), Some(End), after);
        case Opening(raw, decls, attributes, selfClosing, after) =>
          step := OpenElement(raw, decls, attributes, selfClosing, after);
      }
    }

    /** Pushes the declarations, resolves, and takes them off again for an element that closes itself. */
    method OpenElement(raw: Text, decls: Declarations, attributes: seq<Attribute>, selfClosing: bool, after: Text)
      returns (step: Step)
      modifies this`nsStack, this`openTags, this`sawRoot
      ensures step == Enter(raw, decls, attributes, selfClosing, after, old(Now()), lim)
      ensures step.Going? ==> Now() == step.state
    {
      hide Lookup, PrefixesKnown, Prefix;
      nsStack := nsStack + [decls];
      if |nsStack| - 1 > lim.maxDepth { return Failed; }
      var ns := Resolve(Prefix(raw));
      if ns.None? { return Failed; }
      var ok := AttributesResolve(attributes);
      if !ok { return Failed; }
      sawRoot := true;
      var event := Start(raw, ns.value, decls, selfClosing, |openTags|);
      if selfClosing {
        nsStack := nsStack[..|nsStack| - 1];
        assert nsStack == old(nsStack);
      } else {
        openTags := openTags + [raw];
      }
      return Going(Now(), Some(event), after);
    }
  }

  /** The data plane's scan: it stops at the first child of the body. */
  method ScanEnvelope(input: Text, lim: Limits) returns (r: Envelope)
    ensures r == ScanOf(input, lim)
    ensures Conclusive(r) ==> forall more: Text :: |input + more| <= lim.maxBytes ==> ScanOf(input + more, lim) == r
  {
    r := ScanPrefix(input, lim);
    if Conclusive(r) {
      forall more: Text | |input + more| <= lim.maxBytes
        ensures ScanOf(input + more, lim) == r { PrefixDecides(input, more, lim); }
    }
  }

  method ScanPrefix(input: Text, lim: Limits) returns (r: Envelope)
    ensures r == ScanOf(input, lim)
  {
    if |input| > lim.maxBytes { return Refused; }
    var bounds := lim.(allowTruncated := true);
    var scanner := new Scanner(input, bounds);
    var progress := Progress(None, false);
    assert input[0..] == input;
    while scanner.i < |input|
      invariant scanner.input == input && scanner.lim == bounds && scanner.i <= |input|
      invariant ScanOf(input, lim) == EnvelopeFrom(input[scanner.i..], scanner.Now(), progress, bounds)
    {
      hide Advance, React;
      var step := scanner.Turn();
      if step.Failed? { return Refused; }
      if step.Over? { return Answer(progress, None); }
      if step.event.Some? {
        var reaction := React(progress, step.event.value);
        if reaction.Refuse? { return Refused; }
        if reaction.Stop? { return Answer(progress, Some(reaction.child)); }
        progress := reaction.progress;
      }
    }
    return Answer(progress, None);
  }
}

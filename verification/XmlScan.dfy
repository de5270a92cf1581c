/**
 The scan as a run of steps over the text still ahead, the SOAP envelope scan on top of it, and
 the promise the data plane relies on: once a prefix has shown the first child of the body, the
 whole message shows the same one.
 */
module XmlScan {
  import opened Text
  import opened XmlTokens

  datatype Limits = Limits(maxBytes: nat, maxDepth: nat, maxElements: nat, allowTruncated: bool, decode: Decoder)

  const XML_NAMESPACE := Ascii("http://www.w3.org/XML/1998/namespace")

  /** `ns` is innermost last; below every element is the scope that binds `xml`. */
  datatype State = State(ns: seq<Declarations>, open: seq<Text>, elements: nat, sawDeclaration: bool, sawRoot: bool)

  const INITIAL := State([map[XML := XML_NAMESPACE]], [], 0, false, false)

  /** An element that closes itself starts and never ends. */
  datatype Event = Start(raw: Text, ns: Text, decls: Declarations, selfClosing: bool, depth: nat) | End

  function Qualified(ns: Text, local: Text): Text { if ns == [] then local else [123] + ns + [125] + local }

  /** The innermost declaration of a prefix; an undeclared default is no namespace. */
  function Lookup(ns: seq<Declarations>, prefix: Text): Option<Text> {
    if ns == [] then (if prefix == [] then Some([]) else None)
    else if prefix in ns[|ns| - 1] then Some(ns[|ns| - 1][prefix])
    else Lookup(ns[..|ns| - 1], prefix)
  }

  predicate PrefixesKnown(ns: seq<Declarations>, attributes: seq<Attribute>) {
    forall k :: 0 <= k < |attributes| ==> attributes[k].prefix == [] || Lookup(ns, attributes[k].prefix).Some?
  }

  datatype Step = Failed | Over | Going(state: State, event: Option<Event>, rest: Text)

  function Truncated(lim: Limits): Step { if lim.allowTruncated then Over else Failed }

  /** The text up to the next mark, or all of it. */
  function TextAhead(s: Text): Text { var k := Find(s, TAG_START); if k.Some? then s[..k.value] else s }

  /** Text that is not blank is decoded for a handler that wants it, which may refuse it. */
  predicate TextRefused(s: Text, lim: Limits) { TrimStart(TextAhead(s)) != [] && lim.decode(TextAhead(s)).None? }

  /** One turn of the scan. With no further `<` it is over, whatever is open. */
  function Advance(s: Text, st: State, lim: Limits): (r: Step)
    ensures r.Going? ==> |r.rest| < |s|
  {
    var k := Find(s, TAG_START);
    if k.None? then Over
    else
      var m := s[k.value..];
      var counted := if IsOpening(m) then st.(elements := st.elements + 1) else st;
      if counted.elements > lim.maxElements && IsOpening(m) then Failed
      else Take(ReadMark(m, lim.decode), counted, lim)
  }

  function Take(mark: Mark, st: State, lim: Limits): (r: Step)
    ensures r.Going? ==> Whole(mark) && r.rest == mark.after
  {
    match mark
    case Cut => Truncated(lim)
    case Bad => Failed
    case Instruction(isXml, after) =>
      if !isXml || st.sawDeclaration || st.sawRoot then Failed else Going(st.(sawDeclaration := true), None, after)
    case Skipped(after) => Going(st, None, after)
    case Close(raw, after) =>
      if st.open == [] || st.ns == [] || st.open[|st.open| - 1] != raw then Failed
      else Going(st.(open := st.open[..|st.open| - 1], ns := st.ns[..|st.ns| - 1]), Some(End), after)
    case Opening(raw, decls, attributes, selfClosing,
                 after) => Enter(raw, decls, attributes, selfClosing, after, st, lim)
  }

  /** The element's own declarations count for its name and attributes, and for its content. */
  function Enter(raw: Text, decls: Declarations, attributes: seq<Attribute>, selfClosing: bool, after: Text, st: State,
                 lim: Limits): Step {
    var inner := st.ns + [decls];
    var ns := Lookup(inner, Prefix(raw));
    if |inner| - 1 > lim.maxDepth || ns.None? || !PrefixesKnown(inner, attributes) then Failed
    else
      var next := if selfClosing then st else st.(ns := inner, open := st.open + [raw]);
      Going(next.(sawRoot := true), Some(Start(raw, ns.value, decls, selfClosing, |st.open|)), after)
  }

  /** A turn that was made whole is made the same however the text goes on. */
  lemma AdvanceStable(s: Text, st: State, lim: Limits, more: Text)
    requires Advance(s, st, lim).Going?
    ensures Advance(s + more, st, lim) == Advance(s, st, lim).(rest := Advance(s, st, lim).rest + more)
  {
    hide Find, ReadMark, IsOpening, Enter;
    FindStable(s, TAG_START, more);
    var k := Find(s, TAG_START).value;
    assert (s + more)[k..] == s[k..] + more;
    MarkStable(s[k..], more, lim.decode);
    var st' := if IsOpening(s[k..]) then st.(elements := st.elements + 1) else st;
    TakeStable(ReadMark(s[k..], lim.decode), st', lim, more);
  }

  lemma TakeStable(mark: Mark, st: State, lim: Limits, more: Text)
    requires Take(mark, st, lim).Going?
    ensures Take(mark.(after := mark.after + more), st, lim) == Take(mark, st, lim).(rest := mark.after + more)
  {
  }

  // ----- the envelope

  datatype Version = Soap11 | Soap12

  const ENVELOPE: Text := Ascii("Envelope")
  const BODY: Text := Ascii("Body")

  const SOAP_11 := Ascii("http://schemas.xmlsoap.org/soap/envelope/")
  const SOAP_12 := Ascii("http://www.w3.org/2003/05/soap-envelope")

  function VersionOf(ns: Text): Option<Version> {
    if ns == SOAP_11 then Some(Soap11) else if ns == SOAP_12 then Some(Soap12) else None
  }

  function Namespace(v: Option<Version>): Text { if v == Some(Soap12) then SOAP_12 else SOAP_11 }

  datatype Progress = Progress(version: Option<Version>, inBody: bool)

  datatype Reaction = Refuse | Continue(progress: Progress) | Stop(child: Text)

  /** What the envelope scan makes of a start tag. */
  function React(p: Progress, e: Event): Reaction {
    if e.End? then Continue(p)
    else if e.depth == 0 then
      if VersionOf(e.ns).None? || LocalName(e.raw) != ENVELOPE then Refuse
      else Continue(p.(version := VersionOf(e.ns)))
    else if !p.inBody && e.depth == 1 && LocalName(e.raw) == BODY && e.ns == Namespace(p.version) then
      Continue(p.(inBody := true))
    else if p.inBody && e.depth == 2 then Stop(Qualified(e.ns, LocalName(e.raw)))
    else Continue(p)
  }

  /** The answer: refused, or the version and, if it was reached, the body's first child. */
  datatype Envelope = Refused | Scanned(version: Version, child: Option<Text>)

  function Answer(p: Progress, child: Option<Text>): Envelope {
    if p.version.None? then Refused else Scanned(p.version.value, child)
  }

  function EnvelopeFrom(s: Text, st: State, p: Progress, lim: Limits): Envelope
    decreases |s|
  {
    if s == [] then Answer(p, None)
    else
      match Advance(s, st, lim)
      case Failed => Refused
      case Over => Answer(p, None)
      case Going(next, event, rest) =>
        if event.None? then EnvelopeFrom(rest, next, p, lim)
        else
          match React(p, event.value)
          case Refuse => Refused
          case Continue(q) => EnvelopeFrom(rest, next, q, lim)
          case Stop(child) => Answer(p, Some(child))
  }

  /** Scanning a message, or a prefix of one. */
  function ScanOf(input: Text, lim: Limits): Envelope {
    if |input| > lim.maxBytes then Refused
    else EnvelopeFrom(input, INITIAL, Progress(None, false), lim.(allowTruncated := true))
  }

  predicate Conclusive(e: Envelope) { e.Scanned? && e.child.Some? }

  lemma {:induction false} EnvelopeStable(s: Text, st: State, p: Progress, lim: Limits, more: Text)
    requires Conclusive(EnvelopeFrom(s, st, p, lim))
    ensures EnvelopeFrom(s + more, st, p, lim) == EnvelopeFrom(s, st, p, lim)
    decreases |s|
  {
    hide Advance, React;
    AdvanceStable(s, st, lim, more);
    var step := Advance(s, st, lim);
    if step.event.None? {
      EnvelopeStable(step.rest, step.state, p, lim, more);
    } else {
      var r := React(p, step.event.value);
      if r.Continue? { EnvelopeStable(step.rest, step.state, r.progress, lim, more); }
    }
  }

  /** What a prefix shows of the body, every longer prefix and the whole message show too. */
  lemma PrefixDecides(prefix: Text, more: Text, lim: Limits)
    requires Conclusive(ScanOf(prefix, lim)) && |prefix + more| <= lim.maxBytes
    ensures ScanOf(prefix + more, lim) == ScanOf(prefix, lim)
  {
    hide EnvelopeFrom;
    EnvelopeStable(prefix, INITIAL, Progress(None, false), lim.(allowTruncated := true), more);
  }
}

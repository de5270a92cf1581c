/**
 The marks of an XML text as the scanner reads them, each from the text still ahead. A mark that
 was read whole is read the same however the text goes on; only a mark cut off by the end may not be.
 */
module XmlTokens {
  import opened Text

  /** Entity references in attribute values; none means the value is refused. */
  type Decoder = Text -> Option<Text>

  datatype Attribute = Attribute(prefix: Text, local: Text, value: Text)

  type Declarations = map<Text, Text>

  datatype Mark =
    | Cut
    | Bad
    | Instruction(isXml: bool, after: Text)
    | Skipped(after: Text)
    | Close(raw: Text, after: Text)
    | Opening(raw: Text, decls: Declarations, attributes: seq<Attribute>, selfClosing: bool, after: Text)

  predicate Whole(m: Mark) { !m.Cut? && !m.Bad? }

  // ----- characters

  const TAG_START: Text := [60]                                       // <
  const TAG_END: Text := [62]                                         // >
  const EMPTY_END: Text := [47, 62]                                   // />
  const CLOSING: Text := [60, 47]                                     // </
  const INSTRUCTION: Text := [60, 63]                                 // <?
  const INSTRUCTION_END: Text := [63, 62]                             // ?>
  const BANG: Text := [60, 33]                                        // <!
  const COMMENT: Text := [60, 33, 45, 45]                             // <!--
  const COMMENT_END: Text := [45, 45, 62]                             // -->
  const CDATA: Text := [60, 33, 91, 67, 68, 65, 84, 65, 91]           // <![CDATA[
  const CDATA_END: Text := [93, 93, 62]                               // ]]>
  const COLON: Text := [58]
  const XML: Text := [120, 109, 108]                                  // xml
  const XMLNS: Text := [120, 109, 108, 110, 115]                      // xmlns
  const XMLNS_PREFIX: Text := [120, 109, 108, 110, 115, 58]           // xmlns:

  predicate IsSpace(c: Unit) {
    || 9 <= c <= 13 || c == 32 || c == 0xA0 || c == 0x1680 || 0x2000 <= c <= 0x200A
    || c == 0x2028 || c == 0x2029 || c == 0x202F || c == 0x205F || c == 0x3000 || c == 0xFEFF
  }

  predicate IsNameStart(c: Unit) { 97 <= c <= 122 || 65 <= c <= 90 || c == 95 }

  predicate IsNameChar(c: Unit) { IsNameStart(c) || 48 <= c <= 57 || c == 46 || c == 58 || c == 45 }

  predicate StartsWith(s: Text, p: Text) { |p| <= |s| && s[..|p|] == p }

  /** The first place where `p` stands. */
  function Find(s: Text, p: Text): (r: Option<nat>)
    ensures r.Some? ==> r.value + |p| <= |s|
  {
    if StartsWith(s, p) then Some(0)
    else if s == [] then None
    else var r := Find(s[1..], p); if r.Some? then Some(r.value + 1) else None
  }

  function Spaces(s: Text): (n: nat)
    ensures n <= |s|
  {
    if s == [] || !IsSpace(s[0]) then 0 else 1 + Spaces(s[1..])
  }

  function NameLength(s: Text): (n: nat)
    ensures n <= |s|
  {
    if s == [] || !IsNameChar(s[0]) then 0 else 1 + NameLength(s[1..])
  }

  function TrimEnd(s: Text): Text { if s != [] && IsSpace(s[|s| - 1]) then TrimEnd(s[..|s| - 1]) else s }

  function TrimStart(s: Text): (r: Text)
    ensures |r| <= |s|
  {
    s[Spaces(s)..]
  }

  function Prefix(raw: Text): Text { var c := Find(raw, COLON); if c.Some? then raw[..c.value] else [] }

  function LocalName(raw: Text): Text { var c := Find(raw, COLON); if c.Some? then raw[c.value + 1..] else raw }

  // ----- marks

  /** Where `p` ends the mark: what is left after it. */
  function AfterFirst(s: Text, p: Text): (r: Option<Text>)
    ensures r.Some? && p != [] ==> |r.value| < |s|
  {
    var e := Find(s, p);
    if e.Some? then Some(s[e.value + |p|..]) else None
  }

  /** A mark that is an element's start tag, as far as its first characters tell. */
  predicate IsOpening(s: Text) { !StartsWith(s, INSTRUCTION) && !StartsWith(s, BANG) && !StartsWith(s, CLOSING) }

  function ReadMark(s: Text, decode: Decoder): (m: Mark)
    ensures Whole(m) ==> |m.after| < |s|
  {
    if StartsWith(s, INSTRUCTION) then
      var e := Find(s, INSTRUCTION_END);
      if e.None? then Cut
      else Instruction(StartsWith(TrimStart(s[2..Max(2, e.value)]), XML), s[e.value + 2..])
    else if StartsWith(s, COMMENT) then
      var after := AfterFirst(s, COMMENT_END);
      if after.None? then Cut else Skipped(after.value)
    else if StartsWith(s, CDATA) then
      var after := AfterFirst(s, CDATA_END);
      if after.None? then Cut else Skipped(after.value)
    else if StartsWith(s, BANG) then Bad
    else if StartsWith(s, CLOSING) then
      var e := Find(s, TAG_END);
      if e.None? then Cut else Close(TrimStart(TrimEnd(s[2..Max(2, e.value)])), s[e.value + 1..])
    else ReadOpening(s, decode)
  }

  function Max(a: nat, b: nat): nat { if a < b then b else a }

  function ReadOpening(s: Text, decode: Decoder): (m: Mark)
    ensures Whole(m) ==> m.Opening? && |m.after| < |s|
  {
    if |s| < 2 then Cut
    else if !IsNameStart(s[1]) then Bad
    else
      var n := 1 + NameLength(s[1..]);
      if n == |s| then Cut else ReadAttributes(s[1..n], s[n..], map[], [], decode)
  }

  function ReadAttributes(raw: Text, s: Text, decls: Declarations, attributes: seq<Attribute>,
                          decode: Decoder): (m: Mark)
    ensures Whole(m) ==> m.Opening? && |m.after| < |s|
    decreases |s|
  {
    var t := TrimStart(s);
    if t == [] then Cut
    else if t[0] == 62 then Opening(raw, decls, attributes, false, t[1..])
    else if StartsWith(t, EMPTY_END) then Opening(raw, decls, attributes, true, t[2..])
    else
      match ReadAttribute(t, decode)
      case Lacking => Cut
      case Wrong => Bad
      case Read(name, value, after) =>
        ReadAttributes(raw, after, Declared(decls, name, value), Listed(attributes, name, value), decode)
  }

  datatype OneAttribute = Lacking | Wrong | Read(name: Text, value: Text, after: Text)

  /** A name, an equals sign and a quoted value. */
  function ReadAttribute(t: Text, decode: Decoder): (a: OneAttribute)
    ensures a.Read? ==> |a.after| < |t|
  {
    var n := NameLength(t);
    if n == 0 then Wrong else ReadAssigned(t[..n], TrimStart(t[n..]), decode)
  }

  function ReadAssigned(name: Text, u: Text, decode: Decoder): (a: OneAttribute)
    ensures a.Read? ==> |a.after| < |u|
  {
    if u == [] || u[0] != 61 then Wrong
    else
      var v := TrimStart(u[1..]);
      if v == [] || (v[0] != 34 && v[0] != 39) then Wrong else ReadValue(name, v, decode)
  }

  function ReadValue(name: Text, v: Text, decode: Decoder): (a: OneAttribute)
    requires v != []
    ensures a.Read? ==> |a.after| < |v|
  {
    var e := Find(v[1..], [v[0]]);
    if e.None? then Lacking
    else
      var value := decode(v[1..][..e.value]);
      if value.None? then Wrong else Read(name, value.value, v[1..][e.value + 1..])
  }

  function Declared(decls: Declarations, name: Text, value: Text): Declarations {
    if name == XMLNS then decls[[] := value]
    else if StartsWith(name, XMLNS_PREFIX) then decls[name[6..] := value]
    else decls
  }

  function Listed(attributes: seq<Attribute>, name: Text, value: Text): seq<Attribute> {
    if name == XMLNS || StartsWith(name, XMLNS_PREFIX) then attributes
    else attributes + [Attribute(Prefix(name), LocalName(name), value)]
  }

  // ----- a whole mark stays what it is

  lemma StartsStable(s: Text, p: Text, more: Text)
    ensures StartsWith(s, p) ==> StartsWith(s + more, p)
    ensures |p| <= |s| ==> (StartsWith(s + more, p) <==> StartsWith(s, p))
  {
    if |p| <= |s| { assert (s + more)[..|p|] == s[..|p|]; }
  }

  lemma {:induction false} FindStable(s: Text, p: Text, more: Text)
    requires Find(s, p).Some?
    ensures Find(s + more, p) == Find(s, p)
  {
    FindFits(s, p);
    StartsStable(s, p, more);
    if !StartsWith(s, p) {
      FindStable(s[1..], p, more);
      assert (s + more)[1..] == s[1..] + more;
    }
  }

  lemma FindFits(s: Text, p: Text)
    requires Find(s, p).Some?
    ensures |p| <= |s|
  {
  }

  lemma AfterStable(s: Text, p: Text, more: Text)
    requires AfterFirst(s, p).Some?
    ensures AfterFirst(s + more, p) == Some(AfterFirst(s, p).value + more)
  {
    FindStable(s, p, more);
    var e := Find(s, p).value;
    assert (s + more)[e + |p|..] == s[e + |p|..] + more;
  }

  lemma {:induction false} SpacesStable(s: Text, more: Text)
    requires TrimStart(s) != []
    ensures Spaces(s + more) == Spaces(s) && TrimStart(s + more) == TrimStart(s) + more
  {
    if IsSpace(s[0]) {
      assert (s + more)[1..] == s[1..] + more;
      SpacesStable(s[1..], more);
    }
  }

  lemma {:induction false} NameStable(s: Text, more: Text)
    requires NameLength(s) < |s|
    ensures NameLength(s + more) == NameLength(s)
    ensures (s + more)[NameLength(s)..] == s[NameLength(s)..] + more
            && (s + more)[..NameLength(s)] == s[..NameLength(s)]
  {
    if IsNameChar(s[0]) {
      assert (s + more)[1..] == s[1..] + more;
      NameStable(s[1..], more);
    }
  }

  lemma ValueStable(name: Text, v: Text, more: Text, decode: Decoder)
    requires v != [] && ReadValue(name, v, decode).Read?
    ensures var a := ReadValue(name, v, decode);
            ReadValue(name, v + more, decode) == a.(after := a.after + more)
  {
    var w := v[1..];
    assert (v + more)[1..] == w + more;
    FindStable(w, [v[0]], more);
    var e := Find(w, [v[0]]).value;
    assert (w + more)[..e] == w[..e] && (w + more)[e + 1..] == w[e + 1..] + more;
  }

  lemma AssignedStable(name: Text, u: Text, more: Text, decode: Decoder)
    requires ReadAssigned(name, u, decode).Read?
    ensures var a := ReadAssigned(name, u, decode);
            ReadAssigned(name, u + more, decode) == a.(after := a.after + more)
  {
    hide ReadValue, TrimStart;
    assert (u + more)[1..] == u[1..] + more;
    SpacesStable(u[1..], more);
    ValueStable(name, TrimStart(u[1..]), more, decode);
  }

  lemma AttributeStable(t: Text, more: Text, decode: Decoder)
    requires ReadAttribute(t, decode).Read?
    ensures ReadAttribute(t + more, decode) == ReadAttribute(t, decode).(after := ReadAttribute(t, decode).after + more)
  {
    hide ReadAssigned, TrimStart;
    var n := NameLength(t);
    AssignedNeeds(t[..n], TrimStart(t[n..]), decode);
    TrimNeeds(t[n..]);
    NameStable(t, more);
    SpacesStable(t[n..], more);
    AssignedStable(t[..n], TrimStart(t[n..]), more, decode);
  }

  lemma AssignedNeeds(name: Text, u: Text, decode: Decoder)
    requires ReadAssigned(name, u, decode).Read?
    ensures u != []
  {
  }

  lemma TrimNeeds(s: Text)
    requires TrimStart(s) != []
    ensures s != []
  {
  }

  lemma {:induction false} AttributesStable(raw: Text, s: Text, decls: Declarations, attributes: seq<Attribute>,
                                            more: Text, decode: Decoder)
    requires Whole(ReadAttributes(raw, s, decls, attributes, decode))
    ensures var m := ReadAttributes(raw, s, decls, attributes, decode);
            ReadAttributes(raw, s + more, decls, attributes, decode) == m.(after := m.after + more)
    decreases |s|
  {
    hide ReadAttribute, Declared, Listed;
    var t := TrimStart(s);
    SpacesStable(s, more);
    assert t[0] == (t + more)[0];
    if t[0] == 62 {
      assert (t + more)[1..] == t[1..] + more;
    } else {
      SlashStable(t, more);
      if !StartsWith(t, EMPTY_END) {
        AttributeStable(t, more, decode);
        var a := ReadAttribute(t, decode);
        AttributesStable(raw, a.after, Declared(decls, a.name, a.value), Listed(attributes, a.name, a.value), more,
                         decode);
      }
    }
  }

  /** A tag that is complete either closes here or goes on with a name. */
  lemma SlashStable(t: Text, more: Text)
    requires t != []
    ensures StartsWith(t, EMPTY_END) ==> StartsWith(t + more, EMPTY_END) && (t + more)[2..] == t[2..] + more
    ensures !StartsWith(t, EMPTY_END) && NameLength(t) > 0 ==> !StartsWith(t + more, EMPTY_END)
  {
    StartsStable(t, EMPTY_END, more);
    if StartsWith(t + more, EMPTY_END) { assert (t + more)[..2][0] == 47 == t[0]; }
  }

  lemma OpeningStable(s: Text, more: Text, decode: Decoder)
    requires Whole(ReadOpening(s, decode))
    ensures ReadOpening(s + more, decode) == ReadOpening(s, decode).(after := ReadOpening(s, decode).after + more)
  {
    var t := s[1..];
    assert (s + more)[1..] == t + more;
    NameStable(t, more);
    var n := 1 + NameLength(t);
    assert (s + more)[1..n] == s[1..n] && (s + more)[n..] == s[n..] + more;
    AttributesStable(s[1..n], s[n..], map[], [], more, decode);
  }

  lemma MarkStable(s: Text, more: Text, decode: Decoder)
    requires Whole(ReadMark(s, decode))
    ensures ReadMark(s + more, decode) == ReadMark(s, decode).(after := ReadMark(s, decode).after + more)
    ensures IsOpening(s + more) == IsOpening(s)
  {
    hide ReadOpening, AfterFirst, TrimStart, TrimEnd, Find, StartsWith;
    HeadsStable(s, more, decode);
    if StartsWith(s, INSTRUCTION) {
      InsideStable(s, INSTRUCTION_END, more);
    } else if StartsWith(s, COMMENT) {
      AfterStable(s, COMMENT_END, more);
    } else if StartsWith(s, CDATA) {
      AfterStable(s, CDATA_END, more);
    } else if StartsWith(s, CLOSING) {
      InsideStable(s, TAG_END, more);
    } else {
      OpeningStable(s, more, decode);
    }
  }

  /** A mark that ends in `p`: its end and its inside. */
  lemma InsideStable(s: Text, p: Text, more: Text)
    requires Find(s, p).Some? && |s| >= 2
    ensures Find(s + more, p) == Find(s, p)
    ensures var e := Find(s, p).value;
            (s + more)[2..Max(2, e)] == s[2..Max(2, e)] && (s + more)[e + |p|..] == s[e + |p|..] + more
  {
    FindStable(s, p, more);
  }

  /** The first characters already tell which kind of mark it is. */
  lemma HeadsStable(s: Text, more: Text, decode: Decoder)
    requires Whole(ReadMark(s, decode))
    ensures |s| >= 2
    ensures StartsWith(s + more, INSTRUCTION) == StartsWith(s, INSTRUCTION)
            && StartsWith(s + more, BANG) == StartsWith(s, BANG)
    ensures StartsWith(s + more, CLOSING) == StartsWith(s, CLOSING)
            && StartsWith(s + more, COMMENT) == StartsWith(s, COMMENT)
    ensures !StartsWith(s, COMMENT) ==> StartsWith(s + more, CDATA) == StartsWith(s, CDATA)
  {
    assert Whole(ReadOpening(s, decode)) ==> |s| >= 2;
    hide ReadOpening, AfterFirst, TrimStart, TrimEnd, Find;
    StartsStable(s, INSTRUCTION, more);
    StartsStable(s, BANG, more);
    StartsStable(s, CLOSING, more);
    StartsStable(s, COMMENT, more);
    StartsStable(s, CDATA, more);
    Deeper(s, BANG, [45, 45]);
    Deeper(s, BANG, [91, 67, 68, 65, 84, 65, 91]);
    Deeper(s + more, BANG, [45, 45]);
    Deeper(s + more, BANG, [91, 67, 68, 65, 84, 65, 91]);
  }

  lemma Deeper(s: Text, p: Text, q: Text)
    ensures StartsWith(s, p + q) ==> StartsWith(s, p)
  {
    if StartsWith(s, p + q) { assert s[..|p|] == s[..|p + q|][..|p|]; }
  }
}

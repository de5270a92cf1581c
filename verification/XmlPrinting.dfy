/**
 Written documents read back: elements with their prefixed names, attributes, namespace
 declarations and the text between them, printed in order, give the tree they were written from.
 */
module XmlPrinting {
  import opened Text
  import opened XmlTokens
  import opened XmlScan
  import opened XmlTree

  datatype QName = QName(prefix: Text, local: Text)

  /** An attribute and the value between its quotes, of either kind, as it is written. */
  datatype Written = Written(name: QName, value: Text, quote: Unit)

  /** An element, the text before its start tag and the text before its end tag. */
  datatype Node = Node(lead: Text, name: QName, attributes: seq<Written>, children: seq<Node>, trail: Text)

  function Raw(q: QName): Text { if q.prefix == [] then q.local else q.prefix + Ascii(":") + q.local }

  function PrintAttributes(attributes: seq<Written>): Text {
    if attributes == [] then []
    else
      Ascii(" ") + Raw(attributes[0].name) + Ascii("=") + [attributes[0].quote] + attributes[0].value
      + [attributes[0].quote] + PrintAttributes(attributes[1..])
  }

  predicate Closed(n: Node) { n.children == [] && n.trail == [] }

  function TagEnd(closed: bool): Text { if closed then Ascii("/>") else Ascii(">") }

  function StartTag(n: Node): Text { Ascii("<") + Raw(n.name) + PrintAttributes(n.attributes) + TagEnd(Closed(n)) }

  function EndTag(q: QName): Text { Ascii("</") + Raw(q) + Ascii(">") }

  function Print(n: Node): Text {
    n.lead + (StartTag(n) + if Closed(n) then [] else PrintAll(n.children) + (n.trail + EndTag(n.name)))
  }

  function PrintAll(nodes: seq<Node>): Text { if nodes == [] then [] else Print(nodes[0]) + PrintAll(nodes[1..]) }

  // ----- what may be written

  predicate StartChar(c: Unit) { 'a' as int <= c <= 'z' as int || 'A' as int <= c <= 'Z' as int || c == '_' as int }

  predicate PartChar(c: Unit) { StartChar(c) || '0' as int <= c <= '9' as int || c == '.' as int || c == '-' as int }

  predicate Plain(s: Text) { s != [] && StartChar(s[0]) && forall c :: c in s ==> PartChar(c) }

  predicate GoodName(q: QName) { Plain(q.local) && (q.prefix == [] || Plain(q.prefix)) }

  predicate GoodAttribute(a: Written, decode: Decoder) {
    GoodName(a.name) && a.quote in Ascii("\"'") && a.quote !in a.value && decode(a.value).Some?
  }

  predicate GoodText(s: Text, decode: Decoder) { '<' as int !in s && (TrimStart(s) == [] || decode(s).Some?) }

  /** The prefix an attribute declares: the empty one for `xmlns` alone. */
  function Declares(q: QName): Option<Text> {
    if q.prefix == [] && q.local == Ascii("xmlns") then Some([])
    else if q.prefix == Ascii("xmlns") then Some(q.local)
    else None
  }

  /** Prefixes and their namespaces; a later attribute wins. */
  function OwnScope(attributes: seq<Written>, decode: Decoder): (m: Declarations) {
    if attributes == [] then map[]
    else
      var a, later := attributes[0], OwnScope(attributes[1..], decode);
      if Declares(a.name).Some? && decode(a.value).Some? then
        map[Declares(a.name).value := decode(a.value).value] + later
      else later
  }

  /** No prefix and no default declared is no namespace. */
  function NamespaceOf(scope: Declarations, prefix: Text): Option<Text> {
    if prefix in scope then Some(scope[prefix]) else if prefix == [] then Some([]) else None
  }

  predicate Fits(n: Node, depth: nat, scope: Declarations, lim: Limits) {
    && GoodText(n.lead, lim.decode) && GoodText(n.trail, lim.decode) && GoodName(n.name) && depth < lim.maxDepth
    && (forall a :: a in n.attributes ==> GoodAttribute(a, lim.decode))
    && var inner := scope + OwnScope(n.attributes, lim.decode);
    && NamespaceOf(inner, n.name.prefix).Some?
    && (forall a :: a in n.attributes && Declares(a.name).None? ==>
          a.name.prefix == [] || NamespaceOf(inner, a.name.prefix).Some?)
    && forall c :: c in n.children ==> Fits(c, depth + 1, inner, lim)
  }

  function Count(n: Node): nat { 1 + CountAll(n.children) }

  function CountAll(nodes: seq<Node>): nat { if nodes == [] then 0 else Count(nodes[0]) + CountAll(nodes[1..]) }

  // ----- the tree it stands for

  /** The elements of `n` in document order, the first of them number `at`. */
  function Flat(n: Node, parent: nat, at: nat, scope: Declarations, decode: Decoder): (t: Tree)
    decreases n, 0
  {
    [Head(n, parent, scope, decode)]
    + FlatAll(n.children, at, at + 1, scope + OwnScope(n.attributes, decode), decode)
  }

  function OwnNamespace(n: Node, scope: Declarations, decode: Decoder): Text {
    var ns := NamespaceOf(scope + OwnScope(n.attributes, decode), n.name.prefix);
    if ns.Some? then ns.value else []
  }

  /** The namespace in braces, unless there is none, and the local name. */
  function InBraces(ns: Text, local: Text): Text { if ns == [] then local else Ascii("{") + ns + Ascii("}") + local }

  function Head(n: Node, parent: nat, scope: Declarations, decode: Decoder): Element {
    var ns := OwnNamespace(n, scope, decode);
    Element(parent, Raw(n.name), ns, InBraces(ns, n.name.local), OwnScope(n.attributes, decode))
  }

  function FlatAll(nodes: seq<Node>, parent: nat, at: nat, scope: Declarations, decode: Decoder): (t: Tree)
    decreases nodes, |nodes|
  {
    if nodes == [] then []
    else
      var first := Flat(nodes[0], parent, at, scope, decode);
      first + FlatAll(nodes[1..], parent, at + |first|, scope, decode)
  }

  // ----- characters and names

  lemma StartHead(s: Text, p: Text)
    requires s != [] && p != []
    ensures StartsWith(s, p) ==> s[0] == p[0]
  {
    if StartsWith(s, p) { assert s[..|p|][0] == s[0]; }
  }

  lemma {:induction false} FindSkips(s: Text, p: Text, more: Text)
    requires |p| >= 1 && p[0] !in s && StartsWith(more, p)
    ensures Find(s + more, p) == Some(|s|)
  {
    if s == [] {
      assert s + more == more;
    } else {
      assert (s + more)[0] == s[0] && (s + more)[1..] == s[1..] + more;
      StartHead(s + more, p);
      FindSkips(s[1..], p, more);
    }
  }

  lemma {:induction false} FindNone(s: Text, p: Text)
    requires |p| >= 1 && p[0] !in s
    ensures Find(s, p) == None
  {
    if s != [] {
      StartHead(s, p);
      FindNone(s[1..], p);
    }
  }

  lemma {:induction false} NameRuns(name: Text, more: Text)
    requires (forall c :: c in name ==> IsNameChar(c)) && more != [] && !IsNameChar(more[0])
    ensures NameLength(name + more) == |name|
  {
    if name == [] {
      assert name + more == more;
    } else {
      assert (name + more)[0] == name[0] && (name + more)[1..] == name[1..] + more;
      NameRuns(name[1..], more);
    }
  }

  lemma NameParts(q: QName)
    requires GoodName(q)
    ensures Prefix(Raw(q)) == q.prefix && LocalName(Raw(q)) == q.local
  {
    assert Ascii(":") == COLON;
    if q.prefix == [] {
      FindNone(q.local, COLON);
    } else {
      assert Raw(q) == q.prefix + (COLON + q.local);
      FindSkips(q.prefix, COLON, COLON + q.local);
    }
  }

  lemma RawChars(q: QName)
    requires GoodName(q)
    ensures var r := Raw(q);
            r != [] && IsNameStart(r[0]) && forall c :: c in r ==> IsNameChar(c)
  {
    assert Ascii(":") == [58];
  }

  // ----- attributes

  lemma RawIs(q: QName)
    requires GoodName(q)
    ensures Raw(q) == XMLNS <==> q.prefix == [] && q.local == XMLNS
    ensures StartsWith(Raw(q), XMLNS_PREFIX) <==> q.prefix == XMLNS
    ensures q.prefix == XMLNS ==> Raw(q)[6..] == q.local
  {
    var r := Raw(q);
    assert Ascii(":") == COLON;
    NameParts(q);
    if r == XMLNS { FindNone(XMLNS, COLON); }
    hide Find;
    if StartsWith(r, XMLNS_PREFIX) {
      assert r[..6] == XMLNS + COLON && r == r[..6] + r[6..];
      assert r == XMLNS + (COLON + r[6..]);
      FindSkips(XMLNS, COLON, COLON + r[6..]);
      assert r[..5] == XMLNS;
    }
    if q.prefix == XMLNS { assert r[..6] == XMLNS + COLON == XMLNS_PREFIX && r[6..] == q.local; }
  }

  /** What reading one more attribute does to the declarations and the list. */
  lemma AttributeDeclares(decls: Declarations, attributes: seq<Attribute>, q: QName, value: Text)
    requires GoodName(q)
    ensures Declared(decls, Raw(q), value)
            == if Declares(q).Some? then decls[Declares(q).value := value] else decls
    ensures Listed(attributes, Raw(q), value)
            == if Declares(q).Some? then attributes else attributes + [Attribute(q.prefix, q.local, value)]
  {
    RawDeclares(q);
    NameParts(q);
    hide Raw, Prefix, LocalName, GoodName, StartsWith, Find;
  }

  lemma RawDeclares(q: QName)
    requires GoodName(q)
    ensures Raw(q) == XMLNS <==> Declares(q) == Some([])
    ensures StartsWith(Raw(q), XMLNS_PREFIX) <==> Declares(q).Some? && Declares(q) != Some([])
    ensures StartsWith(Raw(q), XMLNS_PREFIX) ==> Declares(q) == Some(Raw(q)[6..])
  {
    RawIs(q);
    assert Ascii("xmlns") == XMLNS;
    hide Raw, StartsWith, Ascii;
  }

  function AttributeText(a: Written): Text { Raw(a.name) + (Ascii("=") + ([a.quote] + (a.value + [a.quote]))) }

  lemma ValueRead(name: Text, value: Text, q: Unit, more: Text, decode: Decoder)
    requires (q == 34 || q == 39) && q !in value && decode(value).Some?
    ensures ReadAssigned(name, [61, q] + (value + ([q] + more)), decode) == Read(name, decode(value).value, more)
  {
    var w := value + ([q] + more);
    var u, v := [61, q] + w, [q] + w;
    assert u[1..] == v && v[1..] == w;
    NotTrimmed(v);
    assert ([q] + more)[..1] == [q];
    FindSkips(value, [q], [q] + more);
    assert w[..|value|] == value && w[|value| + 1..] == more;
    hide Find, TrimStart;
  }

  lemma AttributeShape(a: Written, more: Text)
    ensures AttributeText(a) + more == Raw(a.name) + ([61, a.quote] + (a.value + ([a.quote] + more)))
  {
    assert Ascii("=") == [61];
    hide Raw, Ascii;
  }

  lemma NameStartIs(c: Unit)
    requires IsNameStart(c)
    ensures IsNameChar(c) && !IsSpace(c) && c != 62 && c != 47
  {
  }

  lemma OneRead(a: Written, more: Text, decode: Decoder)
    requires GoodAttribute(a, decode)
    ensures ReadAttribute(AttributeText(a) + more, decode) == Read(Raw(a.name), decode(a.value).value, more)
    ensures var t := AttributeText(a) + more;
            TrimStart(Ascii(" ") + t) == t && t != [] && t[0] != 62 && !StartsWith(t, EMPTY_END)
  {
    var r, t := Raw(a.name), AttributeText(a) + more;
    var u := [61, a.quote] + (a.value + ([a.quote] + more));
    assert Ascii("\"'") == [34, 39];
    AttributeShape(a, more);
    RawChars(a.name);
    assert !IsNameChar(u[0]) && !IsSpace(u[0]);
    hide Raw, AttributeText, TrimStart, ReadAssigned, NameLength, GoodName, IsNameChar, IsSpace, StartsWith, Ascii;
    assert t == r + u && t[0] == r[0];
    NameStartIs(t[0]);
    NameRuns(r, u);
    assert t[..|r|] == r && t[|r|..] == u;
    NotTrimmed(u);
    ValueRead(r, a.value, a.quote, more, decode);
    Trimmed(t);
    StartHead(t, EMPTY_END);
  }

  lemma NotTrimmed(s: Text)
    requires s != [] && !IsSpace(s[0])
    ensures TrimStart(s) == s
  {
  }

  lemma Trimmed(s: Text)
    requires s != [] && !IsSpace(s[0])
    ensures TrimStart(Ascii(" ") + s) == s
  {
    assert Ascii(" ") == [32] && ([32] + s)[1..] == s;
    assert Spaces([32] + s) == 1;
  }

  /** The attributes that declare nothing, with their values decoded. */
  function Others(attributes: seq<Written>, decode: Decoder): seq<Attribute> {
    if attributes == [] then []
    else
      var a, later := attributes[0], Others(attributes[1..], decode);
      if Declares(a.name).None? && decode(a.value).Some? then
        [Attribute(a.name.prefix, a.name.local, decode(a.value).value)] + later
      else later
  }

  lemma {:induction false} AttributesRead(raw: Text, attributes: seq<Written>, closed: bool, rest: Text,
                                          decls: Declarations, list: seq<Attribute>, decode: Decoder)
    requires forall a :: a in attributes ==> GoodAttribute(a, decode)
    ensures ReadAttributes(raw, PrintAttributes(attributes) + (TagEnd(closed) + rest), decls, list, decode)
            == Opening(raw, decls + OwnScope(attributes, decode), list + Others(attributes, decode), closed, rest)
  {
    var end := TagEnd(closed) + rest;
    if attributes == [] {
      TagEnds(raw, closed, rest, decls, list, decode);
      assert PrintAttributes(attributes) + end == end && list + [] == list;
    } else {
      var a, tail := attributes[0], attributes[1..];
      var more := PrintAttributes(tail) + end;
      PrintShape(attributes, end);
      assert GoodAttribute(a, decode);
      var value := decode(a.value).value;
      AttributesStep(raw, a, more, decls, list, decode);
      AttributeDeclares(decls, list, a.name, value);
      var decls', list' := Declared(decls, Raw(a.name), value), Listed(list, Raw(a.name), value);
      AttributesRead(raw, tail, closed, rest, decls', list', decode);
      hide ReadAttributes, Declared, Listed, Raw, AttributeText, PrintAttributes, GoodAttribute, Ascii, TagEnd;
      Regroup(attributes, decls, list, decode);
    }
  }

  lemma PrintShape(attributes: seq<Written>, end: Text)
    requires attributes != []
    ensures PrintAttributes(attributes) + end
            == Ascii(" ") + (AttributeText(attributes[0]) + (PrintAttributes(attributes[1..]) + end))
  {
    hide Raw, Ascii;
  }

  lemma Regroup(attributes: seq<Written>, decls: Declarations, list: seq<Attribute>, decode: Decoder)
    requires attributes != [] && GoodAttribute(attributes[0], decode)
    ensures var a, tail := attributes[0], attributes[1..];
            var p, value := Declares(a.name), decode(a.value).value;
            && decls + OwnScope(attributes, decode)
               == (if p.Some? then decls[p.value := value] else decls) + OwnScope(tail, decode)
            && list + Others(attributes, decode)
               == (if p.Some? then list else list + [Attribute(a.name.prefix, a.name.local, value)])
                  + Others(tail, decode)
  {
    hide Declares;
  }

  lemma AttributesStep(raw: Text, a: Written, more: Text, decls: Declarations, list: seq<Attribute>, decode: Decoder)
    requires GoodAttribute(a, decode)
    ensures var value := decode(a.value).value;
            ReadAttributes(raw, Ascii(" ") + (AttributeText(a) + more), decls, list, decode)
            == ReadAttributes(raw, more, Declared(decls, Raw(a.name), value), Listed(list, Raw(a.name), value), decode)
  {
    OneRead(a, more, decode);
    hide ReadAttribute, TrimStart, Declared, Listed, Raw, AttributeText, StartsWith, Ascii;
  }

  lemma TagEnds(raw: Text, closed: bool, rest: Text, decls: Declarations, list: seq<Attribute>, decode: Decoder)
    ensures ReadAttributes(raw, TagEnd(closed) + rest, decls, list, decode) == Opening(raw, decls, list, closed, rest)
  {
    var s := TagEnd(closed) + rest;
    assert Ascii(">") == [62] && Ascii("/>") == [47, 62];
    NotTrimmed(s);
    if closed { assert s[..2] == EMPTY_END && s[2..] == rest; } else { assert s[1..] == rest; }
  }

  // ----- tags

  lemma StartRead(n: Node, rest: Text, decode: Decoder)
    requires GoodName(n.name) && forall a :: a in n.attributes ==> GoodAttribute(a, decode)
    ensures var s := StartTag(n) + rest;
            && s != [] && s[0] == 60 && IsOpening(s)
            && ReadMark(s, decode)
               == Opening(Raw(n.name), OwnScope(n.attributes, decode), Others(n.attributes, decode), Closed(n), rest)
  {
    var s, r := StartTag(n) + rest, Raw(n.name);
    var tail := PrintAttributes(n.attributes) + (TagEnd(Closed(n)) + rest);
    RawChars(n.name);
    assert Ascii("<") == [60];
    StartShape(n, rest);
    TailHead(n.attributes, Closed(n), rest);
    hide Raw, PrintAttributes, TagEnd, ReadAttributes, ReadOpening, StartTag, Closed, GoodName, StartsWith, IsNameStart,
      Ascii;
    OpeningRead(r, tail, decode);
    AttributesRead(r, n.attributes, Closed(n), rest, map[], [], decode);
    assert map[] + OwnScope(n.attributes, decode) == OwnScope(n.attributes, decode);
    assert [] + Others(n.attributes, decode) == Others(n.attributes, decode);
    NotSpecial(s);
  }

  lemma StartShape(n: Node, rest: Text)
    ensures StartTag(n) + rest
            == [60] + (Raw(n.name) + (PrintAttributes(n.attributes) + (TagEnd(Closed(n)) + rest)))
  {
    assert Ascii("<") == [60];
    hide Raw, Ascii, TagEnd, PrintAttributes;
  }

  lemma OpeningRead(r: Text, tail: Text, decode: Decoder)
    requires r != [] && IsNameStart(r[0]) && (forall c :: c in r ==> IsNameChar(c))
    requires tail != [] && !IsNameChar(tail[0])
    ensures ReadOpening([60] + (r + tail), decode) == ReadAttributes(r, tail, map[], [], decode)
  {
    hide NameLength, ReadAttributes, IsNameStart, IsNameChar;
    var s := [60] + (r + tail);
    assert s[1..] == r + tail && s[1] == r[0];
    NameRuns(r, tail);
    assert s[1..1 + |r|] == r && s[1 + |r|..] == tail;
  }

  lemma TailHead(attributes: seq<Written>, closed: bool, rest: Text)
    ensures var tail := PrintAttributes(attributes) + (TagEnd(closed) + rest); tail != [] && !IsNameChar(tail[0])
  {
    assert Ascii(">") == [62] && Ascii("/>") == [47, 62] && Ascii(" ") == [32];
  }

  lemma NotSpecial(s: Text)
    requires |s| >= 2 && IsNameStart(s[1])
    ensures !StartsWith(s, INSTRUCTION) && !StartsWith(s, BANG) && !StartsWith(s, CLOSING)
    ensures !StartsWith(s, COMMENT) && !StartsWith(s, CDATA)
  {
    if |s| >= 4 { assert s[..4][1] == s[1]; }
    if |s| >= 9 { assert s[..9][1] == s[1]; }
    assert s[..2][1] == s[1];
  }

  lemma EndRead(q: QName, rest: Text, decode: Decoder)
    requires GoodName(q)
    ensures var s := EndTag(q) + rest;
            s != [] && s[0] == 60 && !IsOpening(s) && ReadMark(s, decode) == Close(Raw(q), rest)
  {
    var s, r := EndTag(q) + rest, Raw(q);
    RawChars(q);
    EndShape(q, rest);
    NotTrimmedEnd(r);
    NotTrimmed(r);
    hide Raw, Find, TrimStart, TrimEnd, EndTag, GoodName, Ascii;
    FindSkips([60, 47] + r, TAG_END, [62] + rest);
    NoOther(s);
  }

  lemma EndShape(q: QName, rest: Text)
    ensures var s, r := EndTag(q) + rest, Raw(q);
            && s == ([60, 47] + r) + ([62] + rest) && StartsWith([62] + rest, TAG_END) && StartsWith(s, CLOSING)
            && s[2..2 + |r|] == r && s[|r| + 3..] == rest
  {
    assert Ascii("</") == [60, 47] && Ascii(">") == [62];
    hide Raw, Ascii;
    var s, r := EndTag(q) + rest, Raw(q);
    assert s == ([60, 47] + r) + ([62] + rest);
    assert s[..2] == CLOSING && ([62] + rest)[..1] == [62];
  }

  lemma NoOther(s: Text)
    requires |s| >= 2 && s[1] == 47
    ensures !StartsWith(s, INSTRUCTION) && !StartsWith(s, BANG) && !StartsWith(s, COMMENT) && !StartsWith(s, CDATA)
  {
    if |s| >= 4 { assert s[..4][1] == s[1]; }
    if |s| >= 9 { assert s[..9][1] == s[1]; }
    assert s[..2][1] == s[1];
  }

  lemma NotTrimmedEnd(s: Text)
    requires s != [] && forall c :: c in s ==> IsNameChar(c)
    ensures TrimEnd(s) == s
  {
    assert s[|s| - 1] in s;
  }

  // ----- one turn of the scan

  /** All the declarations in force, the innermost last. */
  function Merged(ns: seq<Declarations>): Declarations {
    if ns == [] then map[] else Merged(ns[..|ns| - 1]) + ns[|ns| - 1]
  }

  lemma {:induction false} LookupMerged(ns: seq<Declarations>, prefix: Text)
    ensures Lookup(ns, prefix) == NamespaceOf(Merged(ns), prefix)
  {
    if ns != [] && prefix !in ns[|ns| - 1] { LookupMerged(ns[..|ns| - 1], prefix); }
  }

  predicate Ready(st: State, scope: Declarations, depth: nat) {
    |st.open| == depth && |st.ns| == depth + 1 && Merged(st.ns) == scope
  }

  lemma AheadIs(lead: Text, rest: Text, lim: Limits)
    requires GoodText(lead, lim.decode) && rest != [] && rest[0] == 60
    ensures Find(lead + rest, TAG_START) == Some(|lead|) && (lead + rest)[|lead|..] == rest
    ensures !TextRefused(lead + rest, lim)
  {
    assert rest[..1] == [60];
    FindSkips(lead, TAG_START, rest);
    assert (lead + rest)[..|lead|] == lead;
    hide Find, TrimStart;
  }

  /** What the start tag of `n` makes of the scan's state. */
  function Opened(n: Node, st: State, decode: Decoder): State {
    var counted := st.(elements := st.elements + 1, sawRoot := true);
    if Closed(n) then counted
    else counted.(ns := st.ns + [OwnScope(n.attributes, decode)], open := st.open + [Raw(n.name)])
  }

  lemma {:induction false} OthersKnown(attributes: seq<Written>, ns: seq<Declarations>, decode: Decoder)
    requires forall a :: a in attributes && Declares(a.name).None? ==>
                           a.name.prefix == [] || NamespaceOf(Merged(ns), a.name.prefix).Some?
    ensures PrefixesKnown(ns, Others(attributes, decode))
  {
    if attributes != [] {
      OthersKnown(attributes[1..], ns, decode);
      var a := attributes[0];
      assert a in attributes;
      LookupMerged(ns, a.name.prefix);
      hide Lookup, NamespaceOf, Declares, Merged;
    }
  }

  lemma FitsHead(n: Node, ns: seq<Declarations>, depth: nat, scope: Declarations, lim: Limits)
    requires Fits(n, depth, scope, lim) && Merged(ns) == scope + OwnScope(n.attributes, lim.decode)
    ensures depth < lim.maxDepth && GoodName(n.name) && GoodText(n.lead, lim.decode)
    ensures Lookup(ns, n.name.prefix) == Some(OwnNamespace(n, scope, lim.decode))
    ensures PrefixesKnown(ns, Others(n.attributes, lim.decode))
    ensures forall a :: a in n.attributes ==> GoodAttribute(a, lim.decode)
  {
    hide Lookup, PrefixesKnown, OwnScope, Others, Merged, GoodText, GoodName, GoodAttribute;
    LookupMerged(ns, n.name.prefix);
    OthersKnown(n.attributes, ns, lim.decode);
  }

  lemma Entered(n: Node, rest: Text, st: State, scope: Declarations, lim: Limits)
    requires Fits(n, |st.open|, scope, lim) && Ready(st, scope, |st.open|)
    ensures var own := OwnScope(n.attributes, lim.decode);
            Enter(Raw(n.name), own, Others(n.attributes, lim.decode), Closed(n), rest,
                  st.(elements := st.elements + 1), lim)
            == Going(Opened(n, st, lim.decode),
                     Some(Start(Raw(n.name), OwnNamespace(n, scope, lim.decode), own, Closed(n), |st.open|)), rest)
  {
    hide *;
    var own := OwnScope(n.attributes, lim.decode);
    MergedNext(st, scope, own);
    FitsHead(n, st.ns + [own], |st.open|, scope, lim);
    NameParts(n.name);
    EnterIs(Raw(n.name), own, Others(n.attributes, lim.decode), Closed(n), rest, st.(elements := st.elements + 1), lim,
            OwnNamespace(n, scope, lim.decode));
    OpenedIs(n, st, lim.decode);
  }

  lemma MergedNext(st: State, scope: Declarations, own: Declarations)
    requires Ready(st, scope, |st.open|)
    ensures Merged(st.ns + [own]) == scope + own && |st.ns| == |st.open| + 1
  {
    assert (st.ns + [own])[..|st.ns|] == st.ns;
  }

  lemma EnterIs(raw: Text, own: Declarations, others: seq<Attribute>, closed: bool, rest: Text, st: State, lim: Limits,
                ns: Text)
    requires |st.ns| <= lim.maxDepth && Lookup(st.ns + [own], Prefix(raw)) == Some(ns)
    requires PrefixesKnown(st.ns + [own], others)
    ensures var next := if closed then st else st.(ns := st.ns + [own], open := st.open + [raw]);
            Enter(raw, own, others, closed, rest, st, lim)
            == Going(next.(sawRoot := true), Some(Start(raw, ns, own, closed, |st.open|)), rest)
  {
    hide Lookup, PrefixesKnown, Prefix;
  }

  lemma OpenedIs(n: Node, st: State, decode: Decoder)
    ensures var counted := st.(elements := st.elements + 1);
            var next := if Closed(n) then counted
                        else counted.(ns := st.ns + [OwnScope(n.attributes, decode)], open := st.open + [Raw(n.name)]);
            Opened(n, st, decode) == next.(sawRoot := true)
  {
    hide Closed, OwnScope, Raw;
  }

  /** After the text before it, a mark is read where it stands. */
  lemma TurnAt(lead: Text, s: Text, st: State, lim: Limits)
    requires GoodText(lead, lim.decode) && s != [] && s[0] == 60
    ensures !TextRefused(lead + s, lim)
    ensures IsOpening(s) && st.elements < lim.maxElements ==>
              Advance(lead + s, st, lim) == Take(ReadMark(s, lim.decode), st.(elements := st.elements + 1), lim)
    ensures !IsOpening(s) ==> Advance(lead + s, st, lim) == Take(ReadMark(s, lim.decode), st, lim)
  {
    hide Find, ReadMark, IsOpening, TextRefused, GoodText, Take, TrimStart;
    AheadIs(lead, s, lim);
  }

  lemma OpenTurn(n: Node, rest: Text, st: State, scope: Declarations, lim: Limits)
    requires Fits(n, |st.open|, scope, lim) && Ready(st, scope, |st.open|) && st.elements < lim.maxElements
    ensures var s := n.lead + (StartTag(n) + rest);
            && !TextRefused(s, lim)
            && Advance(s, st, lim)
               == Going(Opened(n, st, lim.decode),
                        Some(Start(Raw(n.name), OwnNamespace(n, scope, lim.decode), OwnScope(n.attributes, lim.decode),
                                   Closed(n), |st.open|)),
                        rest)
  {
    hide *;
    var own := OwnScope(n.attributes, lim.decode);
    MergedNext(st, scope, own);
    FitsHead(n, st.ns + [own], |st.open|, scope, lim);
    Entered(n, rest, st, scope, lim);
    StartRead(n, rest, lim.decode);
    TurnAt(n.lead, StartTag(n) + rest, st, lim);
    TakeOpening(Raw(n.name), own, Others(n.attributes, lim.decode), Closed(n), rest,
                st.(elements := st.elements + 1), lim);
  }

  lemma TakeOpening(raw: Text, own: Declarations, others: seq<Attribute>, closed: bool, rest: Text, st: State,
                    lim: Limits)
    ensures Take(Opening(raw, own, others, closed, rest), st, lim) == Enter(raw, own, others, closed, rest, st, lim)
  {
    hide Enter;
  }

  lemma CloseTurn(trail: Text, q: QName, rest: Text, st: State, lim: Limits)
    requires GoodText(trail, lim.decode) && GoodName(q) && |st.ns| == |st.open| + 1
    requires st.open != [] && st.open[|st.open| - 1] == Raw(q)
    ensures var s := trail + (EndTag(q) + rest);
            && !TextRefused(s, lim)
            && Advance(s, st, lim)
               == Going(st.(open := st.open[..|st.open| - 1], ns := st.ns[..|st.ns| - 1]), Some(End), rest)
  {
    hide *;
    EndRead(q, rest, lim.decode);
    TurnAt(trail, EndTag(q) + rest, st, lim);
    TakeClose(Raw(q), rest, st, lim);
  }

  lemma TakeClose(raw: Text, rest: Text, st: State, lim: Limits)
    requires st.open != [] && st.ns != [] && st.open[|st.open| - 1] == raw
    ensures Take(Close(raw, rest), st, lim)
            == Going(st.(open := st.open[..|st.open| - 1], ns := st.ns[..|st.ns| - 1]), Some(End), rest)
  {
    hide Enter;
  }

  // ----- whole documents

  lemma PrintShapes(n: Node, rest: Text)
    ensures Print(n) + rest == n.lead + (StartTag(n) + if Closed(n) then rest else Inside(n, rest))
  {
    hide PrintAll, StartTag, EndTag, Closed;
  }

  function Inside(n: Node, rest: Text): Text { PrintAll(n.children) + (n.trail + (EndTag(n.name) + rest)) }

  lemma OpenGrown(n: Node, t: Tree, stack: seq<nat>, scope: Declarations, depth: nat, lim: Limits)
    requires GoodName(n.name) && stack != []
    ensures var e := Start(Raw(n.name), OwnNamespace(n, scope, lim.decode), OwnScope(n.attributes, lim.decode),
                           Closed(n), depth);
            Grown(t, stack, Some(e))
            == (t + [Head(n, stack[|stack| - 1], scope, lim.decode)], if Closed(n) then stack else stack + [|t|])
  {
    NameParts(n.name);
    assert Ascii("{") == [123] && Ascii("}") == [125];
    hide Raw, LocalName, OwnScope, OwnNamespace;
  }

  /** The state after an element that was opened and closed again. */
  function Past(st: State, count: nat): State { st.(elements := st.elements + count, sawRoot := true) }

  lemma TreeStep(s: Text, st: State, t: Tree, stack: seq<nat>, lim: Limits)
    requires s != [] && !TextRefused(s, lim) && Advance(s, st, lim).Going? && stack != []
    ensures var step := Advance(s, st, lim);
            var g := Grown(t, stack, step.event);
            TreeFrom(s, st, t, stack, lim) == TreeFrom(step.rest, step.state, g.0, g.1, lim)
  {
    hide Advance, TextRefused, Grown;
  }

  /** The tag is read, and then all that is left is what it opens. */
  lemma OpenStep(n: Node, rest: Text, st: State, scope: Declarations, t: Tree, stack: seq<nat>, lim: Limits)
    requires Fits(n, |st.open|, scope, lim) && Ready(st, scope, |st.open|) && st.elements < lim.maxElements
    requires |stack| == |st.open| + 1
    ensures var head := Head(n, stack[|stack| - 1], scope, lim.decode);
            TreeFrom(n.lead + (StartTag(n) + rest), st, t, stack, lim)
            == TreeFrom(rest, Opened(n, st, lim.decode), t + [head], if Closed(n) then stack else stack + [|t|], lim)
  {
    OpenTurn(n, rest, st, scope, lim);
    OpenGrown(n, t, stack, scope, |st.open|, lim);
    StartRead(n, rest, lim.decode);
    hide *;
    TreeStep(n.lead + (StartTag(n) + rest), st, t, stack, lim);
  }

  lemma CloseStep(trail: Text, q: QName, rest: Text, st: State, t: Tree, stack: seq<nat>, lim: Limits)
    requires GoodText(trail, lim.decode) && GoodName(q) && |st.ns| == |st.open| + 1 == |stack|
    requires st.open != [] && st.open[|st.open| - 1] == Raw(q)
    ensures TreeFrom(trail + (EndTag(q) + rest), st, t, stack, lim)
            == TreeFrom(rest, st.(open := st.open[..|st.open| - 1], ns := st.ns[..|st.ns| - 1]), t,
                        stack[..|stack| - 1], lim)
  {
    CloseTurn(trail, q, rest, st, lim);
    EndRead(q, rest, lim.decode);
    hide Advance, TextRefused, EndTag, Raw, ReadMark, IsOpening, TreeFrom, GoodText, GoodName;
    TreeStep(trail + (EndTag(q) + rest), st, t, stack, lim);
  }

  /** One element of the text is its part of the tree, and the scan stands as before. */
  lemma {:induction false} NodeRead(n: Node, rest: Text, st: State, scope: Declarations, t: Tree, stack: seq<nat>,
                                    lim: Limits)
    requires Fits(n, |st.open|, scope, lim) && Ready(st, scope, |st.open|) && |stack| == |st.open| + 1
    requires st.elements + Count(n) <= lim.maxElements
    ensures TreeFrom(Print(n) + rest, st, t, stack, lim)
            == TreeFrom(rest, Past(st, Count(n)), t + Flat(n, stack[|stack| - 1], |t|, scope, lim.decode), stack, lim)
    decreases n, 0
  {
    hide TreeFrom, Print, Flat, FlatAll, Inside, StartTag, Opened, Merged, OwnScope, OwnNamespace, Raw, GoodText;
    var own, parent := OwnScope(n.attributes, lim.decode), stack[|stack| - 1];
    var head := Head(n, parent, scope, lim.decode);
    PrintShapes(n, rest);
    OpenStep(n, if Closed(n) then rest else Inside(n, rest), st, scope, t, stack, lim);
    FlatShape(n, t, parent, scope, lim.decode);
    OpenedReady(n, st, scope, lim);
    if !Closed(n) {
      FitsInside(n, |st.open|, scope, lim);
      hide *;
      var next := Opened(n, st, lim.decode);
      InsideRead(n, rest, next, scope + own, t + [head], stack + [|t|], lim);
      assert (stack + [|t|])[..|stack|] == stack;
    }
  }

  lemma FitsInside(n: Node, depth: nat, scope: Declarations, lim: Limits)
    requires Fits(n, depth, scope, lim)
    ensures GoodText(n.trail, lim.decode) && GoodName(n.name) && Count(n) == 1 + CountAll(n.children)
    ensures forall c :: c in n.children ==> Fits(c, depth + 1, scope + OwnScope(n.attributes, lim.decode), lim)
  {
    hide OwnScope;
  }

  lemma Assoc(t: Tree, x: Tree, y: Tree)
    ensures t + (x + y) == (t + x) + y
  {
  }

  lemma FlatShape(n: Node, t: Tree, parent: nat, scope: Declarations, decode: Decoder)
    ensures var head, inner := Head(n, parent, scope, decode), scope + OwnScope(n.attributes, decode);
            t + Flat(n, parent, |t|, scope, decode)
            == (t + [head]) + FlatAll(n.children, |t|, |t| + 1, inner, decode)
    ensures Closed(n) ==> t + Flat(n, parent, |t|, scope, decode) == t + [Head(n, parent, scope, decode)]
    ensures Closed(n) ==> Count(n) == 1
  {
    var head, inner := Head(n, parent, scope, decode), scope + OwnScope(n.attributes, decode);
    var under := FlatAll(n.children, |t|, |t| + 1, inner, decode);
    assert Flat(n, parent, |t|, scope, decode) == [head] + under;
    assert Closed(n) ==> under == [];
    hide *;
    Assoc(t, [head], under);
  }

  lemma OpenedReady(n: Node, st: State, scope: Declarations, lim: Limits)
    requires Ready(st, scope, |st.open|)
    ensures var own, next := OwnScope(n.attributes, lim.decode), Opened(n, st, lim.decode);
            if Closed(n) then next == Past(st, 1)
            else
              && next == State(st.ns + [own], st.open + [Raw(n.name)], st.elements + 1, st.sawDeclaration, true)
              && Ready(next, scope + own, |next.open|)
              && (st.ns + [own])[..|st.ns|] == st.ns && (st.open + [Raw(n.name)])[..|st.open|] == st.open
  {
    hide OwnScope, Raw;
    assert (st.ns + [OwnScope(n.attributes, lim.decode)])[..|st.ns|] == st.ns;
  }

  lemma {:induction false} InsideRead(n: Node, rest: Text, st: State, scope: Declarations, t: Tree, stack: seq<nat>,
                                      lim: Limits)
    requires Ready(st, scope, |st.open|) && |stack| == |st.open| + 1 && st.sawRoot
    requires st.open != [] && st.open[|st.open| - 1] == Raw(n.name)
    requires GoodText(n.trail, lim.decode) && GoodName(n.name)
    requires forall c :: c in n.children ==> Fits(c, |st.open|, scope, lim)
    requires st.elements + CountAll(n.children) <= lim.maxElements
    ensures var counted := st.(elements := st.elements + CountAll(n.children));
            TreeFrom(Inside(n, rest), st, t, stack, lim)
            == TreeFrom(rest, counted.(open := st.open[..|st.open| - 1], ns := st.ns[..|st.ns| - 1]),
                        t + FlatAll(n.children, stack[|stack| - 1], |t|, scope, lim.decode), stack[..|stack| - 1], lim)
    decreases n.children, |n.children| + 1
  {
    hide TreeFrom, PrintAll, FlatAll, CountAll, EndTag, Fits, GoodText, GoodName, Raw, Merged;
    var after := n.trail + (EndTag(n.name) + rest);
    var counted := st.(elements := st.elements + CountAll(n.children));
    var t' := t + FlatAll(n.children, stack[|stack| - 1], |t|, scope, lim.decode);
    assert Inside(n, rest) == PrintAll(n.children) + after;
    assert |st.ns| == |st.open| + 1;
    hide *;
    AllRead(n.children, after, st, scope, t, stack, lim);
    CloseStep(n.trail, n.name, rest, counted, t', stack, lim);
  }

  lemma {:induction false} AllRead(nodes: seq<Node>, rest: Text, st: State, scope: Declarations, t: Tree,
                                   stack: seq<nat>, lim: Limits)
    requires Ready(st, scope, |st.open|) && |stack| == |st.open| + 1 && st.sawRoot
    requires forall c :: c in nodes ==> Fits(c, |st.open|, scope, lim)
    requires st.elements + CountAll(nodes) <= lim.maxElements
    ensures TreeFrom(PrintAll(nodes) + rest, st, t, stack, lim)
            == TreeFrom(rest, st.(elements := st.elements + CountAll(nodes)),
                        t + FlatAll(nodes, stack[|stack| - 1], |t|, scope, lim.decode), stack, lim)
    decreases nodes, |nodes|
  {
    hide TreeFrom, Fits, Print, Flat, Count;
    var parent := stack[|stack| - 1];
    if nodes == [] {
      assert PrintAll(nodes) + rest == rest && t + [] == t;
    } else {
      var n, tail := nodes[0], nodes[1..];
      var first := Flat(n, parent, |t|, scope, lim.decode);
      var more := PrintAll(tail) + rest;
      assert PrintAll(nodes) + rest == Print(n) + more;
      assert n in nodes;
      NodeRead(n, more, st, scope, t, stack, lim);
      AllRead(tail, rest, Past(st, Count(n)), scope, t + first, stack, lim);
      assert (t + first) + FlatAll(tail, parent, |t| + |first|, scope, lim.decode)
          == t + FlatAll(nodes, parent, |t|, scope, lim.decode);
    }
  }

  /** The one prefix that is known from the start. */
  const TOP: Declarations := map[Ascii("xml") := Ascii("http://www.w3.org/XML/1998/namespace")]

  /** What was written is read back: every element in order, under its parent, in its namespace. */
  lemma PrintThenParse(n: Node, lim: Limits)
    requires Fits(n, 0, TOP, lim) && Count(n) <= lim.maxElements && |Print(n)| <= lim.maxBytes
    ensures DocumentOf(Print(n), lim) == Some([HOLDER] + Flat(n, 0, 1, TOP, lim.decode))
  {
    assert Merged(INITIAL.ns) == TOP by {
      assert Ascii("xml") == XML && INITIAL.ns[..0] == [] && INITIAL.ns[0] == TOP;
    }
    assert Print(n) + [] == Print(n);
    NodeRead(n, [], INITIAL, TOP, [HOLDER], [0], lim);
  }

  // ----- marks that are no elements

  /** The first place where `p` stands, and none only where it stands nowhere. */
  lemma {:induction false} FindExact(s: Text, p: Text)
    ensures match Find(s, p)
            case Some(k) => StartsWith(s[k..], p) && forall j :: 0 <= j < k ==> !StartsWith(s[j..], p)
            case None => forall j :: 0 <= j <= |s| ==> !StartsWith(s[j..], p)
  {
    if !StartsWith(s, p) && s != [] {
      FindExact(s[1..], p);
      forall j | 0 < j <= |s| ensures s[j..] == s[1..][j - 1..] {}
    }
  }

  /** A comment ends at the first `-->`, and character data at the first `]]>`. */
  lemma MarkupRead(s: Text, decode: Decoder)
    ensures StartsWith(s, Ascii("<!--")) ==> ReadMark(s, decode) == SkippedTo(Find(s, Ascii("-->")), s)
    ensures StartsWith(s, Ascii("<![CDATA[")) ==> ReadMark(s, decode) == SkippedTo(Find(s, Ascii("]]>")), s)
  {
    assert Ascii("<!--") == COMMENT && Ascii("-->") == COMMENT_END;
    assert Ascii("<![CDATA[") == CDATA && Ascii("]]>") == CDATA_END;
    KindsApart(s);
    hide Find, Ascii, StartsWith, ReadOpening, TrimStart, TrimEnd;
  }

  /** An instruction ends at the first `?>`; any other declaration, a document type among them, is an error. */
  lemma InstructionRead(s: Text, decode: Decoder)
    ensures StartsWith(s, Ascii("<!")) && !StartsWith(s, Ascii("<!--")) && !StartsWith(s, Ascii("<![CDATA[")) ==>
              ReadMark(s, decode).Bad?
    ensures StartsWith(s, Ascii("<?")) ==>
              var e := Find(s, Ascii("?>"));
              if e.None? then ReadMark(s, decode).Cut?
              else
                ReadMark(s, decode)
                == Instruction(StartsWith(TrimStart(s[2..Max(2, e.value)]), Ascii("xml")), s[e.value + 2..])
  {
    assert Ascii("<!--") == COMMENT && Ascii("<![CDATA[") == CDATA && Ascii("<!") == BANG;
    assert Ascii("<?") == INSTRUCTION && Ascii("?>") == INSTRUCTION_END && Ascii("xml") == XML;
    KindsApart(s);
    hide Find, Ascii, StartsWith, ReadOpening, TrimStart, TrimEnd;
  }

  function SkippedTo(end: Option<nat>, s: Text): Mark {
    if end.Some? && end.value + 3 <= |s| then Skipped(s[end.value + 3..]) else Cut
  }

  lemma KindsApart(s: Text)
    ensures StartsWith(s, BANG) ==> !StartsWith(s, INSTRUCTION)
    ensures StartsWith(s, COMMENT) ==> StartsWith(s, BANG) && !StartsWith(s, CDATA)
    ensures StartsWith(s, CDATA) ==> StartsWith(s, BANG)
  {
    if StartsWith(s, COMMENT) { assert s[..2] == s[..4][..2] && s[2] == s[..4][2]; }
    if StartsWith(s, CDATA) { assert s[..2] == s[..9][..2] && s[2] == s[..9][2]; }
    if StartsWith(s, BANG) { assert s[..2][1] == 33; }
  }

  /** The XML declaration may stand once, before the root element; every other instruction is refused. */
  lemma InstructionTurn(lead: Text, rest: Text, st: State, lim: Limits)
    requires GoodText(lead, lim.decode) && StartsWith(rest, Ascii("<?")) && Find(rest, Ascii("?>")).Some?
    ensures var e := Find(rest, Ascii("?>")).value;
            Advance(lead + rest, st, lim)
            == if StartsWith(TrimStart(rest[2..Max(2, e)]), Ascii("xml")) && !st.sawDeclaration && !st.sawRoot then
                 Going(st.(sawDeclaration := true), None, rest[e + 2..])
               else Failed
  {
    assert Ascii("<?") == INSTRUCTION;
    assert rest[..2][0] == 60;
    TurnAt(lead, rest, st, lim);
    InstructionRead(rest, lim.decode);
    assert !IsOpening(rest);
    hide Find, Ascii, ReadMark, TrimStart, GoodText, Advance, IsOpening;
  }

  /** A document type is refused wherever it stands, so no entity is ever declared. */
  lemma DoctypeRefused(lead: Text, rest: Text, st: State, lim: Limits)
    requires GoodText(lead, lim.decode) && StartsWith(rest, Ascii("<!DOCTYPE"))
    ensures Advance(lead + rest, st, lim) == Failed
  {
    assert Ascii("<!DOCTYPE")[..2] == Ascii("<!") == BANG && Ascii("<!DOCTYPE")[2] == 68;
    assert rest[..2] == rest[..9][..2] && rest[2] == rest[..9][2];
    NotOther(rest);
    TurnAt(lead, rest, st, lim);
    InstructionRead(rest, lim.decode);
    assert !IsOpening(rest);
    hide Find, Ascii, ReadMark, GoodText, Advance, IsOpening;
  }

  lemma NotOther(s: Text)
    requires |s| >= 3 && s[2] == 68
    ensures !StartsWith(s, Ascii("<!--")) && !StartsWith(s, Ascii("<![CDATA["))
  {
    if |s| >= 4 { assert s[..4][2] == 68; }
    if |s| >= 9 { assert s[..9][2] == 68; }
  }
}

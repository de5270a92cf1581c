/** Written messages through the envelope scan: what the answer may be when the body is empty. */
module XmlMessages {
  import opened Text
  import opened XmlTokens
  import opened XmlScan
  import opened XmlTree
  import opened XmlEnvelope
  import opened XmlPrinting

  function Local(local: string): QName { QName([], Ascii(local)) }

  function Bare(local: string, children: seq<Node>): Node { Node([], Local(local), [], children, []) }

  const X := Bare("X", [])
  const OTHER := Bare("Other", [X])
  const EMPTY_BODY := Bare("Body", [])

  /** An envelope whose body is empty, and an element after it that is not. */
  const MESSAGE :=
    Node([], Local("Envelope"), [Written(Local("xmlns"), SOAP_11, '"' as int)], [EMPTY_BODY, OTHER], [])

  predicate Roomy(lim: Limits) {
    lim.maxDepth >= 3 && lim.maxElements >= 4 && lim.maxBytes >= |Print(MESSAGE)|
    && lim.decode(SOAP_11) == Some(SOAP_11)
  }

  function Scope(): Declarations { TOP + map[[] := SOAP_11] }

  function Soap(parent: nat, local: string, decls: Declarations): XmlTree.Element {
    XmlTree.Element(parent, Ascii(local), SOAP_11, InBraces(SOAP_11, Ascii(local)), decls)
  }

  /** The tree of that message. */
  function Parsed(): Tree {
    [HOLDER, Soap(0, "Envelope", map[[] := SOAP_11]), Soap(1, "Body", map[]), Soap(1, "Other", map[]),
     Soap(3, "X", map[])]
  }

  lemma LeafFlat(n: Node, parent: nat, at: nat, scope: Declarations, decode: Decoder)
    requires n.children == [] && n.attributes == [] && n.name.prefix == [] && [] in scope
    ensures Flat(n, parent, at, scope, decode)
            == [XmlTree.Element(parent, n.name.local, scope[[]], InBraces(scope[[]], n.name.local), map[])]
    ensures FlatAll([n], parent, at, scope, decode) == Flat(n, parent, at, scope, decode)
  {
    assert scope + map[] == scope;
    assert [n][1..] == [];
    hide InBraces;
  }

  lemma MessageFlat(lim: Limits)
    requires lim.decode(SOAP_11) == Some(SOAP_11)
    ensures [HOLDER] + Flat(MESSAGE, 0, 1, TOP, lim.decode) == Parsed()
  {
    var d := lim.decode;
    assert Ascii("xmlns") == XMLNS;
    assert OwnScope(MESSAGE.attributes, d) == map[[] := SOAP_11];
    assert Scope() + map[] == Scope();
    hide InBraces, Ascii;
    LeafFlat(EMPTY_BODY, 1, 2, Scope(), d);
    LeafFlat(X, 3, 4, Scope(), d);
    assert Flat(OTHER, 1, 3, Scope(), d) == [Soap(1, "Other", map[])] + Flat(X, 3, 4, Scope(), d);
    assert [EMPTY_BODY, OTHER][1..] == [OTHER] && [OTHER][1..] == [];
    assert FlatAll([OTHER], 1, 3, Scope(), d) == Flat(OTHER, 1, 3, Scope(), d) + [];
    assert FlatAll([EMPTY_BODY, OTHER], 1, 2, Scope(), d)
        == Flat(EMPTY_BODY, 1, 2, Scope(), d) + FlatAll([OTHER], 1, 3, Scope(), d);
  }

  lemma AsciiIn(s: string, c: char)
    requires c as int < 0xFFFD && c !in s
    ensures c as int !in Ascii(s)
  {
    var a := Ascii(s);
    forall i | 0 <= i < |a| ensures a[i] != c as int { assert s[i] != c; }
  }

  lemma PlainElements()
    ensures GoodName(Local("Envelope")) && GoodName(Local("Body")) && GoodName(Local("Other")) && GoodName(Local("X"))
    ensures GoodName(Local("xmlns")) && '"' as int !in SOAP_11 && '"' as int in Ascii("\"'")
  {
    assert Ascii("\"'")[0] == '"' as int;
    AsciiIn("http://schemas.xmlsoap.org/soap/envelope/", '"');
  }

  lemma LeafFits(n: Node, depth: nat, scope: Declarations, lim: Limits)
    requires n == Node([], n.name, [], n.children, []) && GoodName(n.name) && n.name.prefix == []
    requires depth < lim.maxDepth
    requires forall c :: c in n.children ==> Fits(c, depth + 1, scope, lim)
    ensures Fits(n, depth, scope, lim)
  {
    assert scope + map[] == scope;
    hide GoodName;
  }

  lemma MessageFits(lim: Limits)
    requires Roomy(lim)
    ensures Fits(MESSAGE, 0, TOP, lim) && Count(MESSAGE) == 4
  {
    PlainElements();
    assert Ascii("xmlns") == XMLNS;
    hide GoodName, Print;
    LeafFits(X, 2, Scope(), lim);
    LeafFits(OTHER, 1, Scope(), lim);
    LeafFits(EMPTY_BODY, 1, Scope(), lim);
    assert OwnScope(MESSAGE.attributes, lim.decode) == map[[] := SOAP_11];
    assert GoodText([], lim.decode) && GoodAttribute(MESSAGE.attributes[0], lim.decode);
    assert [EMPTY_BODY, OTHER][1..] == [OTHER] && [OTHER][1..] == [] && [X][1..] == [];
    assert CountAll([X]) == 1 && CountAll([OTHER]) == 2 && CountAll([EMPTY_BODY, OTHER]) == 3;
  }

  /**
   The scan marks that a body has begun and never that it has ended: with an empty body, a child of
   the element after it is told as the body's.
   */
  lemma EmptyBodyOverlooked(lim: Limits)
    requires Roomy(lim)
    ensures var t := Parsed();
            && DocumentOf(Print(MESSAGE), lim) == Some(t) && OneRoot(t) && FirstBody(t, 2)
            && (forall d: nat :: !ChildOf(t, d, 2)) && ChildOf(t, 4, 3)
            && ScanOf(Print(MESSAGE), lim) == Scanned(Soap11, Some(t[4].qname))
  {
    var t := Parsed();
    MessageFits(lim);
    MessageFlat(lim);
    PrintThenParse(MESSAGE, lim);
    ShapeOfParsed();
    hide Print, ScanOf, DocumentOf, Parsed, Roomy;
    OneRootExact(Print(MESSAGE), lim);
    assert Grandchild(t, 4, 2) && forall y: nat :: 2 < y < 4 ==> !Grandchild(t, y, 2);
  }

  lemma ShapeOfParsed()
    ensures var t := Parsed();
            && OneRoot(t) && IsEnvelope(t, 1) && FirstBody(t, 2)
            && (forall d: nat :: !ChildOf(t, d, 2)) && ChildOf(t, 4, 3)
            && Grandchild(t, 4, 2) && (forall y: nat :: 2 < y < 4 ==> !Grandchild(t, y, 2))
            && !Speaks(t[1].ns, Soap12)
  {
    var t := Parsed();
    FindNone(Ascii("Envelope"), COLON);
    FindNone(Ascii("Body"), COLON);
    hide Find;
    assert |SOAP_11| != |SOAP_12|;
    assert t[1].raw == Ascii("Envelope") && t[2].raw == Ascii("Body");
  }
}

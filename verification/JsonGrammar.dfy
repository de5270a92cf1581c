/**
 The JSON grammar of RFC 8259 as concrete syntax trees: a tree says exactly where white space,
 escapes and number parts stand, `TreeText` writes it out, and `TreeValue` is the value it
 denotes. "The text is a rendering of the value" means that some well-formed tree has both.
 */
module JsonGrammar {
  import opened Text
  import opened Json

  // ----- section 7: strings

  datatype Piece =
    | Raw(u: Unit)
    | Esc(letter: Unit)
    | Hex(h3: Unit, h2: Unit, h1: Unit, h0: Unit)

  predicate IsDigit(u: Unit) { 48 <= u <= 57 }

  predicate IsHex(u: Unit) { IsDigit(u) || 65 <= u <= 70 || 97 <= u <= 102 }

  /** The digit's value; 0 for a character that is no digit. */
  function HexDigit(u: Unit): (d: int)
    ensures 0 <= d < 16
  {
    if IsDigit(u) then u - 48 else if 65 <= u <= 70 then u - 55 else if IsHex(u) then u - 87 else 0
  }

  function Hex4(a: Unit, b: Unit, c: Unit, d: Unit): Unit {
    4096 * HexDigit(a) + 256 * HexDigit(b) + 16 * HexDigit(c) + HexDigit(d)
  }

  /** The two-character escapes: quote, backslash, slash, b, f, n, r, t. */
  function EscapeValue(letter: Unit): Option<Unit> {
    if letter == 34 || letter == 92 || letter == 47 then Some(letter)
    else if letter == 98 then Some(8)
    else if letter == 102 then Some(12)
    else if letter == 110 then Some(10)
    else if letter == 114 then Some(13)
    else if letter == 116 then Some(9)
    else None
  }

  predicate PieceOk(p: Piece) {
    match p
    case Raw(u) => u >= 0x20 && u != 34 && u != 92
    case Esc(letter) => EscapeValue(letter).Some?
    case Hex(a, b, c, d) => IsHex(a) && IsHex(b) && IsHex(c) && IsHex(d)
  }

  function PieceText(p: Piece): Text {
    match p
    case Raw(u) => [u]
    case Esc(letter) => [92, letter]
    case Hex(a, b, c, d) => [92, 117, a, b, c, d]
  }

  function PieceUnit(p: Piece): Unit {
    match p
    case Raw(u) => u
    case Esc(letter) => if EscapeValue(letter).Some? then EscapeValue(letter).value else letter
    case Hex(a, b, c, d) => Hex4(a, b, c, d)
  }

  predicate PiecesOk(ps: seq<Piece>) { forall i :: 0 <= i < |ps| ==> PieceOk(ps[i]) }

  /** The pieces written out, the closing quote, and what follows. */
  function PiecesText(ps: seq<Piece>, rest: Text): Text {
    if ps == [] then [34] + rest else PieceText(ps[0]) + PiecesText(ps[1..], rest)
  }

  function Decoded(ps: seq<Piece>): Text {
    if ps == [] then [] else [PieceUnit(ps[0])] + Decoded(ps[1..])
  }

  // ----- section 6: numbers

  datatype Exponent = Exponent(mark: Unit, sign: Option<Unit>, digits: Text)
  datatype Number = Number(minus: bool, whole: Text, frac: Option<Text>, exp: Option<Exponent>)

  predicate Digits(s: Text) { s != [] && forall i :: 0 <= i < |s| ==> IsDigit(s[i]) }

  predicate NumberOk(n: Number) {
    && Digits(n.whole) && (n.whole[0] == 48 ==> |n.whole| == 1)
    && (n.frac.Some? ==> Digits(n.frac.value))
    && (n.exp.Some? ==>
          && (n.exp.value.mark == 101 || n.exp.value.mark == 69)
          && (n.exp.value.sign.Some? ==> n.exp.value.sign.value == 43 || n.exp.value.sign.value == 45)
          && Digits(n.exp.value.digits))
  }

  function MinusText(minus: bool): Text { if minus then [45] else [] }

  function FracText(frac: Option<Text>): Text {
    if frac.Some? then [46] + frac.value else []
  }

  function ExpText(exp: Option<Exponent>, rest: Text): Text {
    if exp.None? then rest
    else
      var tail := exp.value.digits + rest;
      [exp.value.mark] + (if exp.value.sign.Some? then [exp.value.sign.value] + tail else tail)
  }

  function NumberText(n: Number, rest: Text): Text {
    MinusText(n.minus) + (n.whole + (FracText(n.frac) + ExpText(n.exp, rest)))
  }

  // ----- sections 2 to 5: white space, values, objects, arrays

  predicate IsWs(u: Unit) { u == 32 || u == 9 || u == 10 || u == 13 }

  predicate Ws(s: Text) { forall i :: 0 <= i < |s| ==> IsWs(s[i]) }

  const TRUE_TEXT: Text := [116, 114, 117, 101]
  const FALSE_TEXT: Text := [102, 97, 108, 115, 101]
  const NULL_TEXT: Text := [110, 117, 108, 108]

  datatype Tree =
    | TNull
    | TBool(b: bool)
    | TNum(number: Number)
    | TStr(pieces: seq<Piece>)
    | TArr(gap: Text, elems: seq<Elem>)   // `gap` is the inside of an empty array
    | TObj(gap: Text, fields: seq<Field>)

  datatype Elem = Elem(pre: Text, tree: Tree, post: Text)
  datatype Field = Field(pre: Text, key: seq<Piece>, mid: Text, elem: Elem)

  /** The text of the tree, followed by `rest`. */
  function TreeText(t: Tree, rest: Text): Text
    decreases t
  {
    match t
    case TNull => NULL_TEXT + rest
    case TBool(b) => (if b then TRUE_TEXT else FALSE_TEXT) + rest
    case TNum(n) => NumberText(n, rest)
    case TStr(ps) => [34] + PiecesText(ps, rest)
    case TArr(gap, es) => [91] + (if es == [] then gap + ([93] + rest) else ElemsText(es, rest))
    case TObj(gap, fs) => [123] + (if fs == [] then gap + ([125] + rest) else FieldsText(fs, rest))
  }

  function ElemText(e: Elem, rest: Text): Text
    decreases e
  {
    e.pre + TreeText(e.tree, e.post + rest)
  }

  function ElemsText(es: seq<Elem>, rest: Text): Text
    requires es != []
    decreases es
  {
    ElemText(es[0], if |es| == 1 then [93] + rest else [44] + ElemsText(es[1..], rest))
  }

  function FieldText(f: Field, rest: Text): Text
    decreases f
  {
    f.pre + ([34] + PiecesText(f.key, f.mid + ([58] + ElemText(f.elem, rest))))
  }

  function FieldsText(fs: seq<Field>, rest: Text): Text
    requires fs != []
    decreases fs
  {
    FieldText(fs[0], if |fs| == 1 then [125] + rest else [44] + FieldsText(fs[1..], rest))
  }

  predicate TreeOk(t: Tree)
    decreases t
  {
    match t
    case TNull => true
    case TBool(_) => true
    case TNum(n) => NumberOk(n)
    case TStr(ps) => PiecesOk(ps)
    case TArr(gap, es) => Ws(gap) && forall i :: 0 <= i < |es| ==> ElemOk(es[i])
    case TObj(gap, fs) => Ws(gap) && forall i :: 0 <= i < |fs| ==> FieldOk(fs[i])
  }

  predicate ElemOk(e: Elem)
    decreases e
  {
    Ws(e.pre) && TreeOk(e.tree) && Ws(e.post)
  }

  predicate FieldOk(f: Field)
    decreases f
  {
    Ws(f.pre) && PiecesOk(f.key) && Ws(f.mid) && ElemOk(f.elem)
  }

  function TreeValue(t: Tree): Json
    decreases t
  {
    match t
    case TNull => Null
    case TBool(b) => Bool(b)
    case TNum(n) => Num(NumberText(n, []))
    case TStr(ps) => Str(Decoded(ps))
    case TArr(_, es) => Arr(ElemValues(es))
    case TObj(_, fs) => Obj(FieldValues([], fs))
  }

  function ElemValues(es: seq<Elem>): (vs: seq<Json>)
    ensures |vs| == |es|
    decreases es
  {
    if es == [] then [] else [TreeValue(es[0].tree)] + ElemValues(es[1..])
  }

  /** Members assigned one after the other; a repeated key overwrites. */
  function FieldValues(got: seq<Member>, fs: seq<Field>): seq<Member>
    decreases fs
  {
    if fs == [] then got
    else FieldValues(Put(got, Decoded(fs[0].key), TreeValue(fs[0].elem.tree)), fs[1..])
  }

  // ----- the bounds a reader may impose

  datatype Limits = Limits(maxDepth: nat, maxArrayLength: nat, maxObjectKeys: nat, rejectDuplicates: bool)

  /** Nesting, lengths and (when duplicates are refused) key distinctness, at every level. */
  ghost predicate Within(t: Tree, depth: nat, l: Limits)
    decreases t
  {
    && depth <= l.maxDepth
    && match t
       case TArr(_, es) =>
         |es| <= l.maxArrayLength && forall i :: 0 <= i < |es| ==> Within(es[i].tree, depth + 1, l)
       case TObj(_, fs) =>
         && |fs| <= l.maxObjectKeys
         && (l.rejectDuplicates ==> KeysDistinct(fs))
         && forall i :: 0 <= i < |fs| ==> Within(fs[i].elem.tree, depth + 1, l)
       case _ => true
  }

  ghost predicate KeysDistinct(fs: seq<Field>)
  {
    forall i, j :: 0 <= i < j < |fs| ==> Decoded(fs[i].key) != Decoded(fs[j].key)
  }

  /** Section 2: a JSON text is a value with white space around it. */
  ghost predicate RendersAs(text: Text, pre: Text, t: Tree, post: Text, v: Json, l: Limits) {
    && Ws(pre) && TreeOk(t) && Ws(post)
    && text == pre + TreeText(t, post)
    && Within(t, 1, l)
    && TreeValue(t) == v
  }

  ghost predicate Renders(text: Text, v: Json, l: Limits) {
    exists pre, t, post :: RendersAs(text, pre, t, post, v, l)
  }
}

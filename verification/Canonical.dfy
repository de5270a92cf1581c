/**
 Canonical JSON: keys sorted at every level, then printed. Reading the canonical text back gives
 the canonical value, so equal canonical texts mean equal values up to key order, and the equality
 that `enum`, `const` and `uniqueItems` use decides exactly that.
 */
module Canonical {
  import opened Text
  import opened Json
  import opened JsonGrammar
  import opened JsonReading

  // ----- values as the gateway holds them

  /** Numbers are JSON numbers and no object repeats a key, at every level. */
  ghost predicate WellFormed(v: Json)
    decreases v
  {
    match v
    case Num(lexeme) => AfterNumber(lexeme) == Some([])
    case Arr(items) => forall i :: 0 <= i < |items| ==> WellFormed(items[i])
    case Obj(ms) => DistinctKeys(ms) && forall i :: 0 <= i < |ms| ==> WellFormed(ms[i].value)
    case _ => true
  }

  /** Deep equality, indifferent to the order of object members. */
  ghost predicate Same(a: Json, b: Json)
    decreases a
  {
    match (a, b)
    case (Arr(xs), Arr(ys)) =>
      |xs| == |ys| && forall i :: 0 <= i < |xs| ==> Same(xs[i], ys[i])
    case (Obj(ms), Obj(ns)) =>
      && (forall j :: 0 <= j < |ns| ==> HasKey(ms, ns[j].key))
      && (forall i :: 0 <= i < |ms| ==> HasKey(ns, ms[i].key) && Same(ms[i].value, ns[IndexOf(ns, ms[i].key)].value))
    case _ => a == b
  }

  function IndexOf(ms: seq<Member>, key: Text): (i: nat)
    requires HasKey(ms, key)
    ensures i < |ms| && ms[i].key == key
  {
    if ms[0].key == key then 0
    else
      assert HasKey(ms[1..], key) by {
        var j :| 0 <= j < |ms| && ms[j].key == key;
        assert ms[1..][j - 1].key == key;
      }
      1 + IndexOf(ms[1..], key)
  }

  lemma IndexOfUnique(ms: seq<Member>, i: nat)
    requires i < |ms| && DistinctKeys(ms)
    ensures HasKey(ms, ms[i].key) && IndexOf(ms, ms[i].key) == i
  {
    assert HasKey(ms, ms[i].key);
  }

  // ----- sorting keys

  function KeysOf(ms: seq<Member>): seq<Text> {
    seq(|ms|, i requires 0 <= i < |ms| => ms[i].key)
  }

  function Insert(k: Text, ks: seq<Text>): seq<Text> {
    if ks == [] || !TextLess(ks[0], k) then [k] + ks else [ks[0]] + Insert(k, ks[1..])
  }

  function SortTexts(ks: seq<Text>): seq<Text> {
    if ks == [] then [] else Insert(ks[0], SortTexts(ks[1..]))
  }

  predicate Ascending(ks: seq<Text>) {
    forall i, j :: 0 <= i < j < |ks| ==> TextLess(ks[i], ks[j])
  }

  lemma {:induction false} InsertIn(k: Text, ks: seq<Text>, x: Text)
    ensures x in Insert(k, ks) <==> x == k || x in ks
    decreases |ks|
  {
    if ks == [] || !TextLess(ks[0], k) {
    } else {
      InsertIn(k, ks[1..], x);
      assert ks == [ks[0]] + ks[1..];
    }
  }

  lemma {:induction false} InsertAscending(k: Text, ks: seq<Text>)
    requires Ascending(ks) && k !in ks
    ensures Ascending(Insert(k, ks))
    decreases |ks|
  {
    if ks == [] {
    } else if !TextLess(ks[0], k) {
      TextLessTotal(k, ks[0]);
      forall j | 0 <= j < |ks| ensures TextLess(k, ks[j]) {
        if j > 0 { TextLessTransitive(k, ks[0], ks[j]); }
      }
    } else {
      InsertAscending(k, ks[1..]);
      var r := Insert(k, ks[1..]);
      forall j | 0 <= j < |r| ensures TextLess(ks[0], r[j]) {
        InsertIn(k, ks[1..], r[j]);
        if r[j] != k {
          var m :| 0 <= m < |ks[1..]| && ks[1..][m] == r[j];
          assert ks[m + 1] == r[j];
        }
      }
    }
  }

  lemma {:induction false} SortIn(ks: seq<Text>, x: Text)
    ensures x in SortTexts(ks) <==> x in ks
    decreases |ks|
  {
    if ks != [] {
      SortIn(ks[1..], x);
      InsertIn(ks[0], SortTexts(ks[1..]), x);
      assert ks == [ks[0]] + ks[1..];
    }
  }

  lemma {:induction false} SortAscending(ks: seq<Text>)
    requires forall i, j :: 0 <= i < j < |ks| ==> ks[i] != ks[j]
    ensures Ascending(SortTexts(ks))
    decreases |ks|
  {
    if ks != [] {
      SortAscending(ks[1..]);
      SortIn(ks[1..], ks[0]);
      InsertAscending(ks[0], SortTexts(ks[1..]));
    }
  }

  lemma {:induction false} SortIdentity(ks: seq<Text>)
    requires Ascending(ks)
    ensures SortTexts(ks) == ks
    decreases |ks|
  {
    if ks != [] {
      SortIdentity(ks[1..]);
      if |ks| > 1 {
        assert TextLess(ks[0], ks[1]);
        if TextLess(ks[1], ks[0]) {
          TextLessTransitive(ks[0], ks[1], ks[0]);
          TextLessIrreflexive(ks[0]);
        }
      }
    }
  }

  /** A set of keys has one ascending listing. */
  lemma {:induction false} AscendingUnique(a: seq<Text>, b: seq<Text>)
    requires Ascending(a) && Ascending(b) && forall x :: x in a <==> x in b
    ensures a == b
    decreases |a|
  {
    assert a != [] ==> a[0] in a;
    assert b != [] ==> b[0] in b;
    if a != [] {
      var j :| 0 <= j < |b| && b[j] == a[0];
      var i :| 0 <= i < |a| && a[i] == b[0];
      if j > 0 && i > 0 {
        TextLessTransitive(a[0], b[0], a[0]);
        TextLessIrreflexive(a[0]);
      }
      assert a[0] == b[0];
      assert a == [a[0]] + a[1..] && b == [b[0]] + b[1..];
      forall x ensures x in a[1..] <==> x in b[1..] {
        if x in a[1..] { TailWithin(a, b, x); }
        if x in b[1..] { TailWithin(b, a, x); }
      }
      AscendingUnique(a[1..], b[1..]);
    }
  }

  /** The tail keeps every key but the head. */
  lemma TailWithin(a: seq<Text>, b: seq<Text>, x: Text)
    requires Ascending(a) && a != [] && b != [] && a[0] == b[0] && x in a[1..] && x in b
    ensures x in b[1..]
  {
    TextLessIrreflexive(a[0]);
    assert b == [b[0]] + b[1..];
    assert x != a[0];
  }

  // ----- the canonical form and its text

  function Canonicalize(v: Json): Json
    decreases v
  {
    match v
    case Arr(items) => Arr(seq(|items|, i requires 0 <= i < |items| => Canonicalize(items[i])))
    case Obj(ms) => Obj(Rebuilt(v, SortTexts(KeysOf(ms))))
    case _ => v
  }

  /** A fresh object filled key by key; the members come from the object `v`. */
  function Rebuilt(v: Json, keys: seq<Text>): (r: seq<Member>)
    requires v.Obj?
    decreases v, |keys|
  {
    if keys == [] then []
    else if !HasKey(v.members, keys[0]) then Rebuilt(v, keys[1..])
    else
      [Member(keys[0], Canonicalize(v.members[IndexOf(v.members, keys[0])].value))] + Rebuilt(v, keys[1..])
  }

  predicate High(u: Unit) { 0xD800 <= u <= 0xDBFF }
  predicate Low(u: Unit) { 0xDC00 <= u <= 0xDFFF }

  /** Hexadecimal digits are printed in lower case. */
  function HexUnit(d: int): Unit
    requires 0 <= d < 16
  {
    if d < 10 then d + 48 else d + 87
  }

  function Escaped(u: Unit): Piece {
    Hex(HexUnit(u / 4096), HexUnit(u / 256 % 16), HexUnit(u / 16 % 16), HexUnit(u % 16))
  }

  /** How one code unit that is not half of a pair is printed inside a string. */
  function Printed(u: Unit): Piece {
    if u == 34 || u == 92 then Esc(u)
    else if u == 8 then Esc(98)
    else if u == 12 then Esc(102)
    else if u == 10 then Esc(110)
    else if u == 13 then Esc(114)
    else if u == 9 then Esc(116)
    else if u < 0x20 || High(u) || Low(u) then Escaped(u)
    else Raw(u)
  }

  /** Surrogate pairs stay as they are; a lone surrogate is escaped. */
  function Pieces(s: Text): seq<Piece>
    decreases |s|
  {
    if s == [] then []
    else if |s| >= 2 && High(s[0]) && Low(s[1]) then [Raw(s[0]), Raw(s[1])] + Pieces(s[2..])
    else [Printed(s[0])] + Pieces(s[1..])
  }

  /** The printed value, followed by `rest`. */
  function Show(v: Json, rest: Text): Text
    decreases v
  {
    match v
    case Null => NULL_TEXT + rest
    case Bool(b) => (if b then TRUE_TEXT else FALSE_TEXT) + rest
    case Num(lexeme) => lexeme + rest
    case Str(s) => [34] + PiecesText(Pieces(s), rest)
    case Arr(items) => [91] + (if items == [] then [93] + rest else ShowItems(items, rest))
    case Obj(ms) => [123] + (if ms == [] then [125] + rest else ShowMembers(ms, rest))
  }

  function ShowItems(items: seq<Json>, rest: Text): Text
    requires items != []
    decreases items
  {
    Show(items[0], if |items| == 1 then [93] + rest else [44] + ShowItems(items[1..], rest))
  }

  function ShowMembers(ms: seq<Member>, rest: Text): Text
    requires ms != []
    decreases ms
  {
    var tail := if |ms| == 1 then [125] + rest else [44] + ShowMembers(ms[1..], rest);
    [34] + PiecesText(Pieces(ms[0].key), [58] + Show(ms[0].value, tail))
  }

  function Stringify(v: Json): Text { Show(v, []) }

  function CanonicalJson(v: Json): Text { Stringify(Canonicalize(v)) }

  // ----- the printed text is a rendering

  lemma {:induction false} PiecesRight(s: Text)
    ensures PiecesOk(Pieces(s)) && Decoded(Pieces(s)) == s
    decreases |s|
  {
    hide PiecesOk, Decoded, Printed;
    if s == [] {
      NoPieces();
    } else if |s| >= 2 && High(s[0]) && Low(s[1]) {
      PiecesRight(s[2..]);
      OnePiece(Raw(s[1]), Pieces(s[2..]));
      OnePiece(Raw(s[0]), [Raw(s[1])] + Pieces(s[2..]));
      assert Pieces(s) == [Raw(s[0])] + ([Raw(s[1])] + Pieces(s[2..]));
      assert s == [s[0]] + ([s[1]] + s[2..]);
    } else {
      PiecesRight(s[1..]);
      PrintedRight(s[0]);
      OnePiece(Printed(s[0]), Pieces(s[1..]));
      assert s == [s[0]] + s[1..];
    }
  }

  lemma NoPieces()
    ensures PiecesOk([]) && Decoded([]) == []
  {
  }

  lemma OnePiece(p: Piece, ps: seq<Piece>)
    requires PieceOk(p) && PiecesOk(ps)
    ensures PiecesOk([p] + ps) && Decoded([p] + ps) == [PieceUnit(p)] + Decoded(ps)
  {
    hide PieceOk, PieceUnit;
    assert ([p] + ps)[1..] == ps;
  }

  lemma PrintedRight(u: Unit)
    ensures PieceOk(Printed(u)) && PieceUnit(Printed(u)) == u
  {
    HexRight(u / 4096);
    HexRight(u / 256 % 16);
    HexRight(u / 16 % 16);
    HexRight(u % 16);
    HexSum(u);
  }

  lemma HexRight(d: int)
    requires 0 <= d < 16
    ensures IsHex(HexUnit(d)) && HexDigit(HexUnit(d)) == d
  {
  }

  lemma HexSum(u: Unit)
    ensures u == 4096 * (u / 4096) + 256 * (u / 256 % 16) + 16 * (u / 16 % 16) + u % 16
  {
    assert u / 256 / 16 == u / 4096 && u / 16 / 16 == u / 256;
  }

  ghost function NumberOf(lexeme: Text): (n: Number)
    requires AfterNumber(lexeme) == Some([])
    ensures NumberOk(n) && NumberText(n, []) == lexeme
  {
    NumberExists(lexeme);
    var n :| NumberOk(n) && NumberText(n, []) == lexeme;
    n
  }

  lemma NumberExists(lexeme: Text)
    requires AfterNumber(lexeme) == Some([])
    ensures exists n :: NumberOk(n) && NumberText(n, []) == lexeme
  {
    var n := NumberSound(lexeme);
  }

  /** The syntax tree whose text is the printed value. */
  ghost function TreeOf(v: Json): Tree
    requires WellFormed(v)
    decreases v
  {
    match v
    case Null => TNull
    case Bool(b) => TBool(b)
    case Num(lexeme) => TNum(NumberOf(lexeme))
    case Str(s) => TStr(Pieces(s))
    case Arr(items) =>
      TArr([], seq(|items|, i requires 0 <= i < |items| => Elem([], TreeOf(items[i]), [])))
    case Obj(ms) =>
      TObj([], seq(|ms|, i requires 0 <= i < |ms| =>
        Field([], Pieces(ms[i].key), [], Elem([], TreeOf(ms[i].value), []))))
  }

  /** How deep and how wide the value is, against the reader's limits. */
  ghost predicate Fits(v: Json, depth: nat, l: Limits)
    decreases v
  {
    && depth <= l.maxDepth
    && match v
       case Arr(items) =>
         |items| <= l.maxArrayLength && forall i :: 0 <= i < |items| ==> Fits(items[i], depth + 1, l)
       case Obj(ms) =>
         |ms| <= l.maxObjectKeys && forall i :: 0 <= i < |ms| ==> Fits(ms[i].value, depth + 1, l)
       case _ => true
  }

  // ----- what the tree says about the value

  lemma {:induction false} TreeOfRight(v: Json, l: Limits, depth: nat)
    requires WellFormed(v)
    ensures TreeOk(TreeOf(v)) && TreeValue(TreeOf(v)) == v
    ensures Fits(v, depth, l) ==> Within(TreeOf(v), depth, l)
    decreases v
  {
    match v {
      case Str(s) => PiecesRight(s);
      case Arr(items) =>
        forall i | 0 <= i < |items| { TreeOfRight(items[i], l, depth + 1); }
        ArrayTreeRight(items, l, depth);
      case Obj(ms) =>
        forall i | 0 <= i < |ms| { TreeOfRight(ms[i].value, l, depth + 1); }
        ObjectTreeRight(ms, l, depth);
      case _ =>
    }
  }

  lemma ArrayTreeRight(items: seq<Json>, l: Limits, depth: nat)
    requires WellFormed(Arr(items))
    requires forall i :: 0 <= i < |items| ==> TreeOk(TreeOf(items[i])) && TreeValue(TreeOf(items[i])) == items[i]
    requires forall i :: 0 <= i < |items| && Fits(items[i], depth + 1, l) ==> Within(TreeOf(items[i]), depth + 1, l)
    ensures var t := TreeOf(Arr(items));
            && TreeOk(t) && TreeValue(t) == Arr(items)
            && (Fits(Arr(items), depth, l) ==> Within(t, depth, l))
  {
    var es := TreeOf(Arr(items)).elems;
    assert forall i :: 0 <= i < |es| ==> es[i] == Elem([], TreeOf(items[i]), []);
    ElemValuesOf(es, items);
  }

  lemma ObjectTreeRight(ms: seq<Member>, l: Limits, depth: nat)
    requires WellFormed(Obj(ms))
    requires forall i :: 0 <= i < |ms| ==>
               TreeOk(TreeOf(ms[i].value)) && TreeValue(TreeOf(ms[i].value)) == ms[i].value
    requires forall i :: 0 <= i < |ms| && Fits(ms[i].value, depth + 1, l) ==>
               Within(TreeOf(ms[i].value), depth + 1, l)
    ensures var t := TreeOf(Obj(ms));
            && TreeOk(t) && TreeValue(t) == Obj(ms)
            && (Fits(Obj(ms), depth, l) ==> Within(t, depth, l))
  {
    hide TreeOk, TreeValue, Within, Fits, WellFormed, KeysDistinct;
    var t := TreeOf(Obj(ms));
    FieldsRight(ms);
    ObjectOk(t, ms);
    if Fits(Obj(ms), depth, l) { ObjectWithin(t, ms, l, depth); }
  }

  /** The field says what the member is. */
  ghost predicate Says(f: Field, m: Member)
    requires WellFormed(m.value)
  {
    FieldOk(f) && Decoded(f.key) == m.key && TreeValue(f.elem.tree) == m.value && f.elem.tree == TreeOf(m.value)
  }

  lemma FieldsRight(ms: seq<Member>)
    requires WellFormed(Obj(ms))
    requires forall i :: 0 <= i < |ms| ==> TreeOk(TreeOf(ms[i].value)) && TreeValue(TreeOf(ms[i].value)) == ms[i].value
    ensures var t := TreeOf(Obj(ms));
            t.TObj? && t.gap == [] && |t.fields| == |ms| && forall i :: 0 <= i < |ms| ==> Says(t.fields[i], ms[i])
  {
    hide Pieces, Decoded, PiecesOk, TreeOk, TreeValue, DistinctKeys;
    var fs := TreeOf(Obj(ms)).fields;
    forall i | 0 <= i < |ms| ensures Says(fs[i], ms[i]) {
      PiecesRight(ms[i].key);
      assert fs[i] == Field([], Pieces(ms[i].key), [], Elem([], TreeOf(ms[i].value), []));
      assert ElemOk(fs[i].elem);
    }
  }

  lemma ObjectOk(t: Tree, ms: seq<Member>)
    requires WellFormed(Obj(ms)) && t.TObj? && t.gap == [] && |t.fields| == |ms|
    requires forall i :: 0 <= i < |ms| ==> Says(t.fields[i], ms[i])
    ensures TreeOk(t) && TreeValue(t) == Obj(ms)
  {
    hide Decoded, PiecesOk, FieldOk, TreeOf, FieldValues, DistinctKeys;
    assert [] + ms == ms;
    FieldValuesOf([], t.fields, ms);
  }

  lemma ObjectWithin(t: Tree, ms: seq<Member>, l: Limits, depth: nat)
    requires WellFormed(Obj(ms)) && t.TObj? && |t.fields| == |ms| && Fits(Obj(ms), depth, l)
    requires forall i :: 0 <= i < |ms| ==> Says(t.fields[i], ms[i])
    requires forall i :: 0 <= i < |ms| && Fits(ms[i].value, depth + 1, l) ==> Within(TreeOf(ms[i].value), depth + 1, l)
    ensures Within(t, depth, l)
  {
    hide Decoded, PiecesOk, FieldOk, TreeOf, FieldValues, TreeValue, TreeOk;
    forall i | 0 <= i < |ms| ensures Within(t.fields[i].elem.tree, depth + 1, l) { assert Says(t.fields[i], ms[i]); }
    assert KeysDistinct(t.fields);
  }

  lemma {:induction false} ElemValuesOf(es: seq<Elem>, items: seq<Json>)
    requires |es| == |items| && forall i :: 0 <= i < |es| ==> TreeValue(es[i].tree) == items[i]
    ensures ElemValues(es) == items
    decreases |es|
  {
    if es != [] {
      ElemValuesOf(es[1..], items[1..]);
      assert items == [items[0]] + items[1..];
    }
  }

  lemma {:induction false} FieldValuesOf(got: seq<Member>, fs: seq<Field>, ms: seq<Member>)
    requires |fs| == |ms| && DistinctKeys(got + ms)
    requires forall i :: 0 <= i < |fs| ==> Member(Decoded(fs[i].key), TreeValue(fs[i].elem.tree)) == ms[i]
    ensures FieldValues(got, fs) == got + ms
    decreases |fs|
  {
    if fs == [] {
      assert got + ms == got;
    } else {
      assert (got + ms)[|got|] == ms[0];
      assert forall i :: 0 <= i < |got| ==> (got + ms)[i] == got[i];
      assert !HasKey(got, ms[0].key);
      var now := got + [ms[0]];
      assert now + ms[1..] == got + ms;
      FieldValuesOf(now, fs[1..], ms[1..]);
    }
  }

  lemma {:induction false} ShowIsTree(v: Json, rest: Text)
    requires WellFormed(v)
    ensures Show(v, rest) == TreeText(TreeOf(v), rest)
    decreases v
  {
    match v {
      case Num(lexeme) => NumberPrefix(NumberOf(lexeme), rest);
      case Arr(items) =>
        if items != [] { ShowItemsIsElems(v, TreeOf(v).elems, items, rest); }
      case Obj(ms) =>
        if ms != [] { ShowMembersIsFields(v, TreeOf(v).fields, ms, rest); }
      case _ =>
    }
  }

  lemma {:induction false} ShowItemsIsElems(v: Json, es: seq<Elem>, items: seq<Json>, rest: Text)
    requires |es| == |items| > 0
    requires forall i :: 0 <= i < |items| ==> items[i] < v && WellFormed(items[i])
    requires forall i :: 0 <= i < |items| ==> es[i] == Elem([], TreeOf(items[i]), [])
    ensures ShowItems(items, rest) == ElemsText(es, rest)
    decreases v, |items|
  {
    var tail := if |items| == 1 then [93] + rest else [44] + ShowItems(items[1..], rest);
    if |items| > 1 { ShowItemsIsElems(v, es[1..], items[1..], rest); }
    ShowIsTree(items[0], tail);
    assert [] + tail == tail;
    assert [] + TreeText(es[0].tree, tail) == TreeText(es[0].tree, tail);
  }

  lemma {:induction false} ShowMembersIsFields(v: Json, fs: seq<Field>, ms: seq<Member>, rest: Text)
    requires |fs| == |ms| > 0
    requires forall i :: 0 <= i < |ms| ==> ms[i].value < v && WellFormed(ms[i].value)
    requires forall i :: 0 <= i < |ms| ==> fs[i] == Field([], Pieces(ms[i].key), [], Elem([], TreeOf(ms[i].value), []))
    ensures ShowMembers(ms, rest) == FieldsText(fs, rest)
    decreases v, |ms|
  {
    var tail := if |ms| == 1 then [125] + rest else [44] + ShowMembers(ms[1..], rest);
    if |ms| > 1 { ShowMembersIsFields(v, fs[1..], ms[1..], rest); }
    ShowIsTree(ms[0].value, tail);
    BareField(Pieces(ms[0].key), TreeOf(ms[0].value), tail);
  }

  lemma BareField(ps: seq<Piece>, t: Tree, tail: Text)
    ensures FieldText(Field([], ps, [], Elem([], t, [])), tail) == [34] + PiecesText(ps, [58] + TreeText(t, tail))
  {
    var shown := TreeText(t, tail);
    assert [] + tail == tail && [] + shown == shown && [] + ([58] + shown) == [58] + shown;
    var quoted := [34] + PiecesText(ps, [58] + shown);
    assert [] + quoted == quoted;
  }

  /** Printing then reading gives the value back, whatever mode the reader is in. */
  lemma PrintThenRead(v: Json, l: Limits)
    requires WellFormed(v) && Fits(v, 1, l)
    ensures Read(Stringify(v), l) == Some(v)
  {
    var t := TreeOf(v);
    TreeOfRight(v, l, 1);
    ShowIsTree(v, []);
    assert [] + TreeText(t, []) == TreeText(t, []);
    assert RendersAs(Stringify(v), [], t, [], v, l);
    ReaderExact(Stringify(v), v, l);
  }

  /** The number of values inside the value, itself included: limits this wide admit it. */
  ghost function Size(v: Json): (n: nat)
    ensures n >= 1
    decreases v
  {
    match v
    case Arr(items) => 1 + ItemsSize(items)
    case Obj(ms) => 1 + MembersSize(ms)
    case _ => 1
  }

  ghost function ItemsSize(items: seq<Json>): (n: nat)
    ensures |items| <= n && forall i :: 0 <= i < |items| ==> Size(items[i]) <= n
    decreases items
  {
    if items == [] then 0
    else
      assert forall i :: 0 < i < |items| ==> items[i] == items[1..][i - 1];
      Size(items[0]) + ItemsSize(items[1..])
  }

  ghost function MembersSize(ms: seq<Member>): (n: nat)
    ensures |ms| <= n && forall i :: 0 <= i < |ms| ==> Size(ms[i].value) <= n
    decreases ms
  {
    if ms == [] then 0
    else
      assert forall i :: 0 < i < |ms| ==> ms[i] == ms[1..][i - 1];
      Size(ms[0].value) + MembersSize(ms[1..])
  }

  lemma {:induction false} SizeFits(v: Json, depth: nat, l: Limits)
    requires depth + Size(v) <= l.maxDepth && Size(v) <= l.maxArrayLength && Size(v) <= l.maxObjectKeys
    ensures Fits(v, depth, l)
    decreases v
  {
    match v {
      case Arr(items) => forall i | 0 <= i < |items| { SizeFits(items[i], depth + 1, l); }
      case Obj(ms) => forall i | 0 <= i < |ms| { SizeFits(ms[i].value, depth + 1, l); }
      case _ =>
    }
  }

  /** Printing loses nothing: the comparison by printed text is equality. */
  lemma StringifyInjective(a: Json, b: Json)
    requires WellFormed(a) && WellFormed(b)
    ensures Stringify(a) == Stringify(b) <==> a == b
  {
    var n := Size(a) + Size(b);
    var l := Limits(n + 1, n, n, true);
    SizeFits(a, 1, l);
    SizeFits(b, 1, l);
    PrintThenRead(a, l);
    PrintThenRead(b, l);
  }

  // ----- canonicalisation and equality up to key order

  lemma KeysSorted(ms: seq<Member>)
    requires DistinctKeys(ms)
    ensures Ascending(SortTexts(KeysOf(ms)))
    ensures forall x :: x in SortTexts(KeysOf(ms)) <==> HasKey(ms, x)
  {
    var ks := KeysOf(ms);
    SortAscending(ks);
    forall x ensures x in SortTexts(ks) <==> HasKey(ms, x) {
      SortIn(ks, x);
      if HasKey(ms, x) {
        var i :| 0 <= i < |ms| && ms[i].key == x;
        assert ks[i] == x;
      }
      if x in ks {
        var i :| 0 <= i < |ks| && ks[i] == x;
        assert ms[i].key == x;
      }
    }
  }

  /** The members of the rebuilt object, one by one. */
  lemma {:induction false} RebuiltAt(v: Json, keys: seq<Text>)
    requires v.Obj? && forall i :: 0 <= i < |keys| ==> HasKey(v.members, keys[i])
    ensures |Rebuilt(v, keys)| == |keys|
    ensures forall i :: 0 <= i < |keys| ==>
              Rebuilt(v, keys)[i] == Member(keys[i], Canonicalize(v.members[IndexOf(v.members, keys[i])].value))
    decreases |keys|
  {
    if keys != [] {
      assert HasKey(v.members, keys[0]);
      RebuiltAt(v, keys[1..]);
    }
  }

  /** Canonicalize on an object, in terms of positions. */
  lemma CanonicalObject(ms: seq<Member>)
    requires DistinctKeys(ms)
    ensures var ks := SortTexts(KeysOf(ms));
            var c := Canonicalize(Obj(ms));
            && c.Obj? && |c.members| == |ks| && Ascending(ks) && (forall x :: x in ks <==> HasKey(ms, x))
            && (forall i :: 0 <= i < |ks| ==> c.members[i].key == ks[i])
            && (forall i :: 0 <= i < |ks| ==>
                  HasKey(ms, ks[i]) && c.members[i].value == Canonicalize(ms[IndexOf(ms, ks[i])].value))
  {
    KeysSorted(ms);
    var ks := SortTexts(KeysOf(ms));
    forall i | 0 <= i < |ks| ensures HasKey(ms, ks[i]) { assert ks[i] in ks; }
    RebuiltAt(Obj(ms), ks);
  }

  lemma {:induction false} CanonicalWellFormed(v: Json)
    requires WellFormed(v)
    ensures WellFormed(Canonicalize(v))
    decreases v
  {
    match v {
      case Arr(items) => forall i | 0 <= i < |items| { CanonicalWellFormed(items[i]); }
      case Obj(ms) =>
        CanonicalObject(ms);
        forall i | 0 <= i < |ms| { CanonicalWellFormed(ms[i].value); }
        AscendingDistinct(SortTexts(KeysOf(ms)));
      case _ =>
    }
  }

  lemma AscendingDistinct(ks: seq<Text>)
    requires Ascending(ks)
    ensures forall i, j :: 0 <= i < j < |ks| ==> ks[i] != ks[j]
  {
    forall i, j | 0 <= i < j < |ks| ensures ks[i] != ks[j] { TextLessIrreflexive(ks[i]); }
  }

  /** Values equal up to key order have one canonical form, and only they share it. */
  lemma {:induction false} CanonicalExact(a: Json, b: Json)
    requires WellFormed(a) && WellFormed(b)
    ensures Canonicalize(a) == Canonicalize(b) <==> Same(a, b)
    decreases a
  {
    match (a, b) {
      case (Arr(xs), Arr(ys)) =>
        forall i | 0 <= i < |xs| && i < |ys| { CanonicalExact(xs[i], ys[i]); }
        ArraysExact(xs, ys);
      case (Obj(ms), Obj(ns)) =>
        forall i, j | 0 <= i < |ms| && 0 <= j < |ns| { CanonicalExact(ms[i].value, ns[j].value); }
        ObjectsExact(ms, ns);
      case _ =>
    }
  }

  lemma ArraysExact(xs: seq<Json>, ys: seq<Json>)
    requires forall i :: 0 <= i < |xs| && i < |ys| ==>
               (Canonicalize(xs[i]) == Canonicalize(ys[i]) <==> Same(xs[i], ys[i]))
    ensures Canonicalize(Arr(xs)) == Canonicalize(Arr(ys)) <==> Same(Arr(xs), Arr(ys))
  {
    var c, d := Canonicalize(Arr(xs)).items, Canonicalize(Arr(ys)).items;
    assert |c| == |xs| && |d| == |ys|;
    assert forall i :: 0 <= i < |xs| ==> c[i] == Canonicalize(xs[i]);
    assert forall i :: 0 <= i < |ys| ==> d[i] == Canonicalize(ys[i]);
    if Same(Arr(xs), Arr(ys)) { assert c == d; }
    if c == d {
      forall i | 0 <= i < |xs| ensures Same(xs[i], ys[i]) { assert c[i] == d[i]; }
    }
  }

  lemma ObjectsExact(ms: seq<Member>, ns: seq<Member>)
    requires DistinctKeys(ms) && DistinctKeys(ns)
    requires forall i, j :: 0 <= i < |ms| && 0 <= j < |ns| ==>
               (Canonicalize(ms[i].value) == Canonicalize(ns[j].value) <==> Same(ms[i].value, ns[j].value))
    ensures Canonicalize(Obj(ms)) == Canonicalize(Obj(ns)) <==> Same(Obj(ms), Obj(ns))
  {
    if Same(Obj(ms), Obj(ns)) { ObjectsForward(ms, ns); }
    if Canonicalize(Obj(ms)) == Canonicalize(Obj(ns)) { ObjectsBackward(ms, ns); }
  }

  lemma ObjectsForward(ms: seq<Member>, ns: seq<Member>)
    requires DistinctKeys(ms) && DistinctKeys(ns) && Same(Obj(ms), Obj(ns))
    requires forall i, j :: 0 <= i < |ms| && 0 <= j < |ns| ==>
               (Canonicalize(ms[i].value) == Canonicalize(ns[j].value) <==> Same(ms[i].value, ns[j].value))
    ensures Canonicalize(Obj(ms)) == Canonicalize(Obj(ns))
  {
    CanonicalObject(ms);
    CanonicalObject(ns);
    var ks, ls := SortTexts(KeysOf(ms)), SortTexts(KeysOf(ns));
    forall x ensures x in ks <==> x in ls {
      if i :| 0 <= i < |ms| && ms[i].key == x { assert HasKey(ns, ms[i].key); }
      if j :| 0 <= j < |ns| && ns[j].key == x { assert HasKey(ms, ns[j].key); }
    }
    AscendingUnique(ks, ls);
    var c, d := Canonicalize(Obj(ms)).members, Canonicalize(Obj(ns)).members;
    forall i | 0 <= i < |ks| ensures c[i] == d[i] {
      var p := IndexOf(ms, ks[i]);
      assert ms[p].key == ks[i];
      assert Same(ms[p].value, ns[IndexOf(ns, ks[i])].value);
    }
    assert c == d;
  }

  lemma ObjectsBackward(ms: seq<Member>, ns: seq<Member>)
    requires DistinctKeys(ms) && DistinctKeys(ns) && Canonicalize(Obj(ms)) == Canonicalize(Obj(ns))
    requires forall i, j :: 0 <= i < |ms| && 0 <= j < |ns| ==>
               (Canonicalize(ms[i].value) == Canonicalize(ns[j].value) <==> Same(ms[i].value, ns[j].value))
    ensures Same(Obj(ms), Obj(ns))
  {
    hide SortTexts, KeysOf, Canonicalize, IndexOf, DistinctKeys, Ascending, TextLess;
    CanonicalObject(ms);
    CanonicalObject(ns);
    var ks, ls := SortTexts(KeysOf(ms)), SortTexts(KeysOf(ns));
    assert ks == ls;
    forall j | 0 <= j < |ns| ensures HasKey(ms, ns[j].key) {
      assert HasKey(ns, ns[j].key);
      assert ns[j].key in ls;
    }
    forall i | 0 <= i < |ms|
      ensures HasKey(ns, ms[i].key) && Same(ms[i].value, ns[IndexOf(ns, ms[i].key)].value)
    {
      IndexOfUnique(ms, i);
      var k := KeyAt(ks, ms[i].key);
      assert HasKey(ns, ls[k]);
    }
  }

  lemma KeyAt(ks: seq<Text>, x: Text) returns (k: nat)
    requires x in ks
    ensures k < |ks| && ks[k] == x
  {
    k :| 0 <= k < |ks| && ks[k] == x;
  }

  lemma {:induction false} CanonicalIdempotent(v: Json)
    requires WellFormed(v)
    ensures Canonicalize(Canonicalize(v)) == Canonicalize(v)
    decreases v
  {
    match v {
      case Arr(items) =>
        forall i | 0 <= i < |items| { CanonicalIdempotent(items[i]); }
        assert Canonicalize(Canonicalize(v)).items == Canonicalize(v).items;
      case Obj(ms) =>
        forall i | 0 <= i < |ms| { CanonicalIdempotent(ms[i].value); }
        IdempotentObject(ms);
      case _ =>
    }
  }

  lemma IdempotentObject(ms: seq<Member>)
    requires DistinctKeys(ms)
    requires forall i :: 0 <= i < |ms| ==> Canonicalize(Canonicalize(ms[i].value)) == Canonicalize(ms[i].value)
    ensures Canonicalize(Canonicalize(Obj(ms))) == Canonicalize(Obj(ms))
  {
    CanonicalObject(ms);
    var ks := SortTexts(KeysOf(ms));
    var c := Canonicalize(Obj(ms)).members;
    assert KeysOf(c) == ks;
    AscendingDistinct(ks);
    CanonicalObject(c);
    SortIdentity(ks);
    var d := Canonicalize(Obj(c)).members;
    forall i | 0 <= i < |ks| ensures d[i] == c[i] {
      IndexOfUnique(c, i);
    }
    assert d == c;
  }

  // ----- the theorems

  /** Reading the canonical text back gives the canonical form of the value. */
  lemma CanonicalRoundTrip(v: Json, l: Limits)
    requires WellFormed(v) && Fits(Canonicalize(v), 1, l)
    ensures Read(CanonicalJson(v), l) == Some(Canonicalize(v))
  {
    CanonicalWellFormed(v);
    PrintThenRead(Canonicalize(v), l);
  }

  /** Canonical texts are equal exactly for values equal up to key order. */
  lemma CanonicalTextExact(a: Json, b: Json)
    requires WellFormed(a) && WellFormed(b)
    ensures CanonicalJson(a) == CanonicalJson(b) <==> Same(a, b)
  {
    CanonicalWellFormed(a);
    CanonicalWellFormed(b);
    StringifyInjective(Canonicalize(a), Canonicalize(b));
    CanonicalExact(a, b);
  }

  // ----- the code that rests on it

  /** The loop that fills a fresh object in key order. */
  method CanonicalValue(v: Json) returns (r: Json)
    requires WellFormed(v)
    ensures r == Canonicalize(v)
    decreases v
  {
    match v {
      case Arr(items) =>
        var out := [];
        for i := 0 to |items|
          invariant |out| == i && forall j :: 0 <= j < i ==> out[j] == Canonicalize(items[j])
        {
          var c := CanonicalValue(items[i]);
          out := out + [c];
        }
        r := Arr(out);
        assert out == Canonicalize(v).items;
      case Obj(ms) =>
        var out := CanonicalMembers(v);
        r := Obj(out);
      case _ => r := v;
    }
  }

  method CanonicalMembers(v: Json) returns (out: seq<Member>)
    requires v.Obj? && WellFormed(v)
    ensures Obj(out) == Canonicalize(v)
    decreases v, 0
  {
    hide SortTexts, KeysOf, Canonicalize, TextLess, IndexOf;
    var keys := SortTexts(KeysOf(v.members));
    CanonicalObject(v.members);
    AscendingDistinct(keys);
    ghost var want := Canonicalize(v).members;
    out := [];
    for i := 0 to |keys|
      invariant out == want[..i]
    {
      var at := IndexOf(v.members, keys[i]);
      var c := CanonicalValue(v.members[at].value);
      assert !HasKey(out, keys[i]);
      out := Put(out, keys[i], c);
      assert want[..i + 1] == want[..i] + [want[i]];
    }
  }

  datatype RuntimeType = BooleanType | NumberType | StringType | ObjectType

  /** The runtime's own type test, for which null, arrays and objects are all objects. */
  function TypeTag(v: Json): RuntimeType {
    match v
    case Bool(_) => BooleanType
    case Num(_) => NumberType
    case Str(_) => StringType
    case _ => ObjectType
  }

  /** Equality as the validator computes it. */
  function SameValue(a: Json, b: Json): bool {
    if a == b then true
    else if TypeTag(a) != TypeTag(b) then false
    else if a.Null? || b.Null? then false
    else if TypeTag(a) != ObjectType then false
    else CanonicalJson(a) == CanonicalJson(b)
  }

  lemma SameValueExact(a: Json, b: Json)
    requires WellFormed(a) && WellFormed(b)
    ensures SameValue(a, b) <==> Same(a, b)
  {
    CanonicalTextExact(a, b);
  }

  /** No two of the first n items are the same value. */
  ghost predicate DistinctUpTo(items: seq<Json>, n: nat)
    requires n <= |items|
  {
    forall i, j :: 0 <= i < j < n ==> !Same(items[i], items[j])
  }

  ghost predicate RepeatsEarlier(items: seq<Json>, i: nat)
    requires i < |items|
  {
    exists j :: 0 <= j < i && Same(items[j], items[i])
  }

  /** An item's canonical text stands earlier exactly if the item equals an earlier one. */
  lemma TextRepeats(items: seq<Json>, i: nat)
    requires WellFormed(Arr(items)) && i < |items|
    ensures (exists j :: 0 <= j < i && CanonicalJson(items[j]) == CanonicalJson(items[i])) <==> RepeatsEarlier(items, i)
  {
    forall j | 0 <= j < i ensures CanonicalJson(items[j]) == CanonicalJson(items[i]) <==> Same(items[j], items[i]) {
      CanonicalTextExact(items[j], items[i]);
    }
    hide CanonicalJson, Same, WellFormed;
  }

  // ----- the printed characters, written out

  /** The two-letter escapes, lower-case hexadecimal for other control characters and lone surrogates, or itself. */
  lemma PrintedIs(u: Unit)
    ensures PieceText(Printed(u))
            == if u == 0x22 then Ascii("\\\"")
               else if u == 0x5C then Ascii("\\\\")
               else if u == 0x08 then Ascii("\\b")
               else if u == 0x0C then Ascii("\\f")
               else if u == 0x0A then Ascii("\\n")
               else if u == 0x0D then Ascii("\\r")
               else if u == 0x09 then Ascii("\\t")
               else if u < 0x20 || 0xD800 <= u <= 0xDFFF then
                 Ascii("\\u") + [LOWER[u / 4096] as int, LOWER[u / 256 % 16] as int, LOWER[u / 16 % 16] as int,
                                 LOWER[u % 16] as int]
               else [u]
  {
    LowerIs(u / 4096);
    LowerIs(u / 256 % 16);
    LowerIs(u / 16 % 16);
    LowerIs(u % 16);
  }

  lemma LowerIs(d: int)
    requires 0 <= d < 16
    ensures HexUnit(d) == LOWER[d] as int
  {
  }

  /** The keys of a canonical object come in the order of their code units. */
  lemma KeysInOrder(ms: seq<Member>)
    requires DistinctKeys(ms)
    ensures var c := Canonicalize(Obj(ms));
            && c.Obj? && |c.members| == |ms|
            && forall i, j :: 0 <= i < j < |c.members| ==> KeyBefore(c.members[i].key, c.members[j].key)
  {
    CanonicalObject(ms);
    var ks := SortTexts(KeysOf(ms));
    SortSize(KeysOf(ms));
    hide TextLess, SortTexts, Canonicalize;
    forall i, j | 0 <= i < j < |ks| ensures KeyBefore(ks[i], ks[j]) {
      assert TextLess(ks[i], ks[j]);
      TextLessIs(ks[i], ks[j]);
    }
  }

  lemma {:induction false} SortSize(ks: seq<Text>)
    ensures |SortTexts(ks)| == |ks|
  {
    if ks != [] {
      SortSize(ks[1..]);
      InsertSize(ks[0], SortTexts(ks[1..]));
    }
  }

  lemma {:induction false} InsertSize(k: Text, ks: seq<Text>)
    ensures |Insert(k, ks)| == |ks| + 1
  {
    hide TextLess;
    if ks != [] { InsertSize(k, ks[1..]); }
  }

  ghost predicate KeyBefore(a: Text, b: Text) { exists k: nat :: PartAt(a, b, k) && (k < |a| ==> a[k] < b[k]) }
}

/**
 What the bounded reader computes, as functions over the text still to be read, and the theorem
 that it accepts exactly the renderings of a value within the limits.
 */
module JsonReading {
  import opened Text
  import opened Json
  import opened JsonGrammar

  // ----- the reader's decisions

  function SkipWs(s: Text): (r: Text)
    ensures |r| <= |s|
    ensures r != [] ==> !IsWs(r[0])
  {
    if s == [] || !IsWs(s[0]) then s else SkipWs(s[1..])
  }

  /** The rest of a string, after its opening quote. */
  function ReadChars(s: Text, got: Text): (r: Option<(Text, Text)>)
    ensures r.Some? ==> |r.value.1| < |s|
    decreases |s|
  {
    if s == [] then None
    else if s[0] == 34 then Some((got, s[1..]))
    else if s[0] == 92 then
      if |s| < 2 then None
      else if s[1] == 117 then
        if |s| < 6 || !(IsHex(s[2]) && IsHex(s[3]) && IsHex(s[4]) && IsHex(s[5])) then None
        else ReadChars(s[6..], got + [Hex4(s[2], s[3], s[4], s[5])])
      else if EscapeValue(s[1]).None? then None
      else ReadChars(s[2..], got + [EscapeValue(s[1]).value])
    else if s[0] < 0x20 then None
    else ReadChars(s[1..], got + [s[0]])
  }

  /** What is left after the longest run of digits. */
  function SkipDigits(s: Text): (r: Text)
    ensures |r| <= |s|
  {
    if s == [] || !IsDigit(s[0]) then s else SkipDigits(s[1..])
  }

  function AfterMinus(s: Text): Text {
    if s != [] && s[0] == 45 then s[1..] else s
  }

  function AfterWhole(s: Text): Option<Text> {
    if s == [] then None
    else if s[0] == 48 then Some(s[1..])
    else if !IsDigit(s[0]) then None
    else Some(SkipDigits(s))
  }

  function AfterFrac(s: Text): Option<Text> {
    if s != [] && s[0] == 46 then
      if SkipDigits(s[1..]) == s[1..] then None else Some(SkipDigits(s[1..]))
    else Some(s)
  }

  function AfterSign(s: Text): Text {
    if s != [] && (s[0] == 43 || s[0] == 45) then s[1..] else s
  }

  function AfterExp(s: Text): Option<Text> {
    if s != [] && (s[0] == 101 || s[0] == 69) then
      var d := AfterSign(s[1..]);
      if SkipDigits(d) == d then None else Some(SkipDigits(d))
    else Some(s)
  }

  /** What is left after the number at the start of `s`. */
  function AfterNumber(s: Text): (r: Option<Text>)
    ensures r.Some? ==> |r.value| < |s|
  {
    var w := AfterWhole(AfterMinus(s));
    if w.None? then None
    else
      var f := AfterFrac(w.value);
      if f.None? then None else AfterExp(f.value)
  }

  function ReadLiteral(s: Text, word: Text, v: Json): (r: Option<(Json, Text)>)
    requires word != []
    ensures r.Some? ==> |r.value.1| < |s|
  {
    if word <= s then Some((v, s[|word|..])) else None
  }

  function ReadScalar(t: Text): (r: Option<(Json, Text)>)
    requires t != []
    ensures r.Some? ==> |r.value.1| < |t|
  {
    if t[0] == 34 then
      var c := ReadChars(t[1..], []);
      if c.None? then None else Some((Str(c.value.0), c.value.1))
    else if t[0] == 45 || IsDigit(t[0]) then
      var e := AfterNumber(t);
      if e.None? then None else Some((Num(t[..|t| - |e.value|]), e.value))
    else if t[0] == 116 then ReadLiteral(t, TRUE_TEXT, Bool(true))
    else if t[0] == 102 then ReadLiteral(t, FALSE_TEXT, Bool(false))
    else if t[0] == 110 then ReadLiteral(t, NULL_TEXT, Null)
    else None
  }

  function ReadValue(s: Text, depth: nat, l: Limits): (r: Option<(Json, Text)>)
    ensures r.Some? ==> |r.value.1| < |s|
    decreases |s|, 0
  {
    var t := SkipWs(s);
    if depth > l.maxDepth || t == [] then None
    else if t[0] == 91 then ReadArray(t[1..], depth, l)
    else if t[0] == 123 then ReadObject(t[1..], depth, l)
    else ReadScalar(t)
  }

  function ReadArray(s: Text, depth: nat, l: Limits): (r: Option<(Json, Text)>)
    ensures r.Some? ==> |r.value.1| < |s|
    decreases |s|, 2
  {
    var u := SkipWs(s);
    if u != [] && u[0] == 93 then Some((Arr([]), u[1..]))
    else
      var e := ReadElems(s, [], depth, l);
      if e.None? then None else Some((Arr(e.value.0), e.value.1))
  }

  function ReadElems(s: Text, got: seq<Json>, depth: nat, l: Limits): (r: Option<(seq<Json>, Text)>)
    ensures r.Some? ==> |r.value.1| < |s|
    decreases |s|, 1
  {
    if |got| >= l.maxArrayLength then None
    else
      var v := ReadValue(s, depth + 1, l);
      if v.None? then None
      else
        var t := SkipWs(v.value.1);
        if t == [] then None
        else if t[0] == 44 then ReadElems(t[1..], got + [v.value.0], depth, l)
        else if t[0] == 93 then Some((got + [v.value.0], t[1..]))
        else None
  }

  function ReadObject(s: Text, depth: nat, l: Limits): (r: Option<(Json, Text)>)
    ensures r.Some? ==> |r.value.1| < |s|
    decreases |s|, 2
  {
    var u := SkipWs(s);
    if u != [] && u[0] == 125 then Some((Obj([]), u[1..]))
    else
      var f := ReadFields(s, 0, [], depth, l);
      if f.None? then None else Some((Obj(f.value.0), f.value.1))
  }

  /** A key and its colon: the decoded key and the text after the colon. */
  function ReadKey(s: Text): (r: Option<(Text, Text)>)
    ensures r.Some? ==> |r.value.1| < |s|
  {
    var t := SkipWs(s);
    if t == [] || t[0] != 34 then None
    else
      var k := ReadChars(t[1..], []);
      if k.None? then None
      else
        var u := SkipWs(k.value.1);
        if u == [] || u[0] != 58 then None else Some((k.value.0, u[1..]))
  }

  function ReadFields(s: Text, keys: nat, got: seq<Member>, depth: nat, l: Limits)
    : (r: Option<(seq<Member>, Text)>)
    ensures r.Some? ==> |r.value.1| < |s|
    decreases |s|, 1
  {
    var k := ReadKey(s);
    if k.None? || keys + 1 > l.maxObjectKeys then None
    else if l.rejectDuplicates && HasKey(got, k.value.0) then None
    else
      var v := ReadValue(k.value.1, depth + 1, l);
      if v.None? then None
      else
        var w := SkipWs(v.value.1);
        var now := Put(got, k.value.0, v.value.0);
        if w == [] then None
        else if w[0] == 44 then ReadFields(w[1..], keys + 1, now, depth, l)
        else if w[0] == 125 then Some((now, w[1..]))
        else None
  }

  function Read(text: Text, l: Limits): Option<Json> {
    var v := ReadValue(text, 1, l);
    if v.None? || SkipWs(v.value.1) != [] then None else Some(v.value.0)
  }

  // ----- completeness: every rendering is accepted, with the value it denotes

  lemma {:induction false} SkipWsOver(w: Text, s: Text)
    requires Ws(w)
    ensures SkipWs(w + s) == SkipWs(s)
    decreases |w|
  {
    if w == [] {
      assert w + s == s;
    } else {
      assert (w + s)[1..] == w[1..] + s;
      SkipWsOver(w[1..], s);
    }
  }

  lemma {:induction false} CharsComplete(ps: seq<Piece>, rest: Text, got: Text)
    requires PiecesOk(ps)
    ensures ReadChars(PiecesText(ps, rest), got) == Some((got + Decoded(ps), rest))
    decreases |ps|
  {
    if ps == [] {
      assert ([34] + rest)[1..] == rest;
      assert got + Decoded(ps) == got;
    } else {
      PieceComplete(ps[0], PiecesText(ps[1..], rest), got);
      CharsComplete(ps[1..], rest, got + [PieceUnit(ps[0])]);
      assert ps == [ps[0]] + ps[1..];
      DecodedCons(got, ps[0], ps[1..]);
    }
  }

  lemma PieceComplete(p: Piece, tail: Text, got: Text)
    requires PieceOk(p)
    ensures ReadChars(PieceText(p) + tail, got) == ReadChars(tail, got + [PieceUnit(p)])
  {
    assert (PieceText(p) + tail)[|PieceText(p)|..] == tail;
  }

  lemma DecodedCons(got: Text, p: Piece, ps: seq<Piece>)
    ensures got + [PieceUnit(p)] + Decoded(ps) == got + Decoded([p] + ps)
  {
    assert ([p] + ps)[1..] == ps;
  }

  /** What may follow a number without being taken into it. */
  predicate Stops(rest: Text) {
    rest == [] || !(IsDigit(rest[0]) || rest[0] == 46 || rest[0] == 101 || rest[0] == 69)
  }

  lemma {:induction false} SkipDigitsOver(d: Text, s: Text)
    requires forall i :: 0 <= i < |d| ==> IsDigit(d[i])
    requires s == [] || !IsDigit(s[0])
    ensures SkipDigits(d + s) == s
    decreases |d|
  {
    if d == [] {
      assert d + s == s;
    } else {
      assert (d + s)[1..] == d[1..] + s;
      SkipDigitsOver(d[1..], s);
    }
  }

  lemma ExpComplete(exp: Option<Exponent>, n: Number, rest: Text)
    requires NumberOk(n) && n.exp == exp && Stops(rest)
    ensures AfterExp(ExpText(exp, rest)) == Some(rest)
  {
    if exp.Some? {
      var x := exp.value;
      var tail := x.digits + rest;
      assert IsDigit(x.digits[0]);
      assert ExpText(exp, rest)[1..] == if x.sign.Some? then [x.sign.value] + tail else tail;
      assert x.sign.Some? ==> ([x.sign.value] + tail)[1..] == tail;
      assert AfterSign(ExpText(exp, rest)[1..]) == tail;
      SkipDigitsOver(x.digits, rest);
    }
  }

  lemma FracComplete(n: Number, after: Text)
    requires NumberOk(n) && (after == [] || !(IsDigit(after[0]) || after[0] == 46))
    ensures AfterFrac(FracText(n.frac) + after) == Some(after)
  {
    if n.frac.Some? {
      var f := n.frac.value;
      assert (FracText(n.frac) + after)[1..] == f + after;
      SkipDigitsOver(f, after);
    } else {
      assert FracText(n.frac) + after == after;
    }
  }

  lemma WholeComplete(n: Number, after: Text)
    requires NumberOk(n) && (after == [] || !IsDigit(after[0]))
    ensures AfterWhole(n.whole + after) == Some(after)
  {
    assert IsDigit(n.whole[0]);
    if n.whole[0] == 48 {
      assert (n.whole + after)[1..] == after;
    } else {
      SkipDigitsOver(n.whole, after);
    }
  }

  lemma NumberComplete(n: Number, rest: Text)
    requires NumberOk(n) && Stops(rest)
    ensures AfterNumber(NumberText(n, rest)) == Some(rest)
  {
    var x := ExpText(n.exp, rest);
    var f := FracText(n.frac) + x;
    var w := n.whole + f;
    assert IsDigit(n.whole[0]);
    assert AfterMinus(NumberText(n, rest)) == w by {
      assert n.minus ==> ([45] + w)[1..] == w;
      assert !n.minus ==> [] + w == w;
    }
    WholeComplete(n, f);
    FracComplete(n, x);
    ExpComplete(n.exp, n, rest);
  }

  lemma NumberPrefix(n: Number, rest: Text)
    ensures NumberText(n, rest) == NumberText(n, []) + rest
  {
    assert ExpText(n.exp, rest) == ExpText(n.exp, []) + rest;
    assert FracText(n.frac) + ExpText(n.exp, rest) == FracText(n.frac) + ExpText(n.exp, []) + rest;
  }

  /** The first character of a value's text decides which branch reads it. */
  lemma TreeStart(t: Tree, rest: Text)
    requires TreeOk(t)
    ensures var s := TreeText(t, rest);
            && s != [] && !IsWs(s[0]) && s[0] != 93 && s[0] != 125
            && (s[0] == 91 <==> t.TArr?) && (s[0] == 123 <==> t.TObj?)
            && (t.TNum? ==> s[0] == 45 || IsDigit(s[0]))
  {
    if t.TNum? { assert IsDigit(t.number.whole[0]); }
  }

  lemma ScalarComplete(t: Tree, rest: Text)
    requires TreeOk(t) && !t.TArr? && !t.TObj? && Stops(rest)
    requires TreeText(t, rest) != []
    ensures ReadScalar(TreeText(t, rest)) == Some((TreeValue(t), rest))
  {
    var u := TreeText(t, rest);
    match t {
      case TNull => assert u[4..] == rest;
      case TBool(b) => assert u[if b then 4 else 5..] == rest;
      case TNum(n) =>
        TreeStart(t, rest);
        NumberComplete(n, rest);
        NumberPrefix(n, rest);
      case TStr(ps) =>
        CharsComplete(ps, rest, []);
        assert u[1..] == PiecesText(ps, rest);
        assert [] + Decoded(ps) == Decoded(ps);
    }
  }

  lemma {:induction false} ValueComplete(pre: Text, t: Tree, rest: Text, depth: nat, l: Limits)
    requires Ws(pre) && TreeOk(t) && Within(t, depth, l) && Stops(rest)
    ensures ReadValue(pre + TreeText(t, rest), depth, l) == Some((TreeValue(t), rest))
    decreases t, 0
  {
    var u := TreeText(t, rest);
    TreeStart(t, rest);
    SkipWsOver(pre, u);
    assert SkipWs(u) == u;
    if t.TArr? {
      ArrayComplete(t, rest, depth, l);
    } else if t.TObj? {
      ObjectComplete(t, rest, depth, l);
    } else {
      ScalarComplete(t, rest);
    }
  }

  lemma {:induction false} ArrayComplete(t: Tree, rest: Text, depth: nat, l: Limits)
    requires t.TArr? && TreeOk(t) && Within(t, depth, l)
    ensures ReadArray(TreeText(t, rest)[1..], depth, l) == Some((TreeValue(t), rest))
    decreases t, 0, 0
  {
    var es := t.elems;
    if es == [] {
      assert TreeText(t, rest)[1..] == t.gap + ([93] + rest);
      SkipWsOver(t.gap, [93] + rest);
      assert ([93] + rest)[1..] == rest;
    } else {
      assert TreeText(t, rest)[1..] == ElemsText(es, rest);
      ElemsStart(es, rest);
      ElemsComplete(es, rest, [], depth, l);
      assert [] + ElemValues(es) == ElemValues(es);
    }
  }

  lemma ElemsStart(es: seq<Elem>, rest: Text)
    requires es != [] && ElemOk(es[0])
    ensures var u := SkipWs(ElemsText(es, rest)); u != [] && u[0] != 93
  {
    var tail := if |es| == 1 then [93] + rest else [44] + ElemsText(es[1..], rest);
    TreeStart(es[0].tree, es[0].post + tail);
    SkipWsOver(es[0].pre, TreeText(es[0].tree, es[0].post + tail));
  }

  lemma StopsAfter(w: Text, tail: Text)
    requires Ws(w) && Stops(tail)
    ensures Stops(w + tail)
  {
    assert w == [] ==> w + tail == tail;
  }

  ghost predicate ElemsOk(es: seq<Elem>, depth: nat, l: Limits) {
    forall i :: 0 <= i < |es| ==> ElemOk(es[i]) && Within(es[i].tree, depth, l)
  }

  lemma {:induction false} ElemsComplete(es: seq<Elem>, rest: Text, got: seq<Json>, depth: nat, l: Limits)
    requires es != [] && ElemsOk(es, depth + 1, l) && |got| + |es| <= l.maxArrayLength
    ensures ReadElems(ElemsText(es, rest), got, depth, l) == Some((got + ElemValues(es), rest))
    decreases es, 1
  {
    hide ReadValue, TreeText, TreeValue, TreeOk, Within;
    var e := es[0];
    var tail := if |es| == 1 then [93] + rest else [44] + ElemsText(es[1..], rest);
    ElemComplete(e, tail, depth, l);
    if |es| == 1 {
      assert tail[1..] == rest;
      assert ElemValues(es) == [TreeValue(e.tree)];
    } else {
      assert tail[1..] == ElemsText(es[1..], rest);
      ElemsOkTail(es, depth + 1, l);
      ElemsComplete(es[1..], rest, got + [TreeValue(e.tree)], depth, l);
      assert es == [e] + es[1..];
      ElemValuesCons(got, e, es[1..]);
    }
  }

  lemma ElemsOkTail(es: seq<Elem>, depth: nat, l: Limits)
    requires es != [] && ElemsOk(es, depth, l)
    ensures ElemsOk(es[1..], depth, l)
  {
  }

  /** One element or member value, up to the separator after it. */
  lemma {:induction false} ElemComplete(e: Elem, tail: Text, depth: nat, l: Limits)
    requires ElemOk(e) && Within(e.tree, depth + 1, l)
    requires tail != [] && Stops(tail) && !IsWs(tail[0])
    ensures var v := ReadValue(ElemText(e, tail), depth + 1, l);
            v.Some? && v.value.0 == TreeValue(e.tree) && SkipWs(v.value.1) == tail
    decreases e, 0
  {
    StopsAfter(e.post, tail);
    ValueComplete(e.pre, e.tree, e.post + tail, depth + 1, l);
    SkipWsOver(e.post, tail);
  }

  lemma {:induction false} ObjectComplete(t: Tree, rest: Text, depth: nat, l: Limits)
    requires t.TObj? && TreeOk(t) && Within(t, depth, l)
    ensures ReadObject(TreeText(t, rest)[1..], depth, l) == Some((TreeValue(t), rest))
    decreases t, 0, 0
  {
    var fs := t.fields;
    if fs == [] {
      assert TreeText(t, rest)[1..] == t.gap + ([125] + rest);
      SkipWsOver(t.gap, [125] + rest);
      assert ([125] + rest)[1..] == rest;
    } else {
      assert TreeText(t, rest)[1..] == FieldsText(fs, rest);
      FieldsStart(fs, rest);
      FieldsComplete(fs, rest, 0, [], depth, l);
    }
  }

  lemma FieldsStart(fs: seq<Field>, rest: Text)
    requires fs != [] && FieldOk(fs[0])
    ensures var u := SkipWs(FieldsText(fs, rest)); u != [] && u[0] != 125
  {
    var f := fs[0];
    var tail := if |fs| == 1 then [125] + rest else [44] + FieldsText(fs[1..], rest);
    SkipWsOver(f.pre, [34] + PiecesText(f.key, f.mid + ([58] + ElemText(f.elem, tail))));
  }

  ghost predicate FieldsOk(fs: seq<Field>, depth: nat, l: Limits) {
    forall i :: 0 <= i < |fs| ==> FieldOk(fs[i]) && Within(fs[i].elem.tree, depth, l)
  }

  ghost predicate Fresh(got: seq<Member>, fs: seq<Field>) {
    forall i :: 0 <= i < |fs| ==> !HasKey(got, Decoded(fs[i].key))
  }

  lemma KeyComplete(f: Field, rest: Text)
    requires FieldOk(f)
    ensures ReadKey(FieldText(f, rest)) == Some((Decoded(f.key), ElemText(f.elem, rest)))
  {
    var value := ElemText(f.elem, rest);
    var colon := [58] + value;
    var quoted := [34] + PiecesText(f.key, f.mid + colon);
    SkipWsOver(f.pre, quoted);
    assert SkipWs(quoted) == quoted;
    assert quoted[1..] == PiecesText(f.key, f.mid + colon);
    CharsComplete(f.key, f.mid + colon, []);
    assert [] + Decoded(f.key) == Decoded(f.key);
    SkipWsOver(f.mid, colon);
    assert SkipWs(colon) == colon && colon[1..] == value;
  }

  lemma FreshAfter(fs: seq<Field>, got: seq<Member>, v: Json)
    requires fs != [] && KeysDistinct(fs) && Fresh(got, fs)
    ensures KeysDistinct(fs[1..]) && Fresh(Put(got, Decoded(fs[0].key), v), fs[1..])
    ensures !HasKey(got, Decoded(fs[0].key))
  {
    var key := Decoded(fs[0].key);
    assert !HasKey(got, key);
    var now := Put(got, key, v);
    forall i | 0 <= i < |fs[1..]| ensures !HasKey(now, Decoded(fs[1..][i].key)) {
      assert fs[1..][i] == fs[i + 1];
      assert !HasKey(got, Decoded(fs[i + 1].key));
    }
  }

  lemma {:induction false} FieldsComplete(fs: seq<Field>, rest: Text, keys: nat, got: seq<Member>, depth: nat,
                                          l: Limits)
    requires fs != [] && FieldsOk(fs, depth + 1, l) && keys + |fs| <= l.maxObjectKeys
    requires l.rejectDuplicates ==> KeysDistinct(fs) && Fresh(got, fs)
    ensures ReadFields(FieldsText(fs, rest), keys, got, depth, l) == Some((FieldValues(got, fs), rest))
    decreases fs, 1
  {
    hide ReadFields, TreeText, TreeValue, TreeOk, Within, Put, KeysDistinct, Fresh, HasKey;
    var f := fs[0];
    assert FieldOk(f);
    var v := TreeValue(f.elem.tree);
    var tail := if |fs| == 1 then [125] + rest else [44] + FieldsText(fs[1..], rest);
    if l.rejectDuplicates { FreshAfter(fs, got, v); }
    FieldComplete(f, tail, keys, got, depth, l);
    var now := Put(got, Decoded(f.key), v);
    if |fs| == 1 {
      assert tail[1..] == rest;
      assert FieldValues(got, fs) == now;
    } else {
      assert tail[1..] == FieldsText(fs[1..], rest);
      FieldsOkTail(fs, depth + 1, l);
      FieldsComplete(fs[1..], rest, keys + 1, now, depth, l);
    }
  }

  lemma FieldsOkTail(fs: seq<Field>, depth: nat, l: Limits)
    requires fs != [] && FieldsOk(fs, depth, l)
    ensures FieldsOk(fs[1..], depth, l)
  {
  }

  lemma {:induction false} FieldComplete(f: Field, tail: Text, keys: nat, got: seq<Member>, depth: nat, l: Limits)
    requires FieldOk(f) && Within(f.elem.tree, depth + 1, l) && keys < l.maxObjectKeys
    requires l.rejectDuplicates ==> !HasKey(got, Decoded(f.key))
    requires tail != [] && (tail[0] == 44 || tail[0] == 125)
    ensures var now := Put(got, Decoded(f.key), TreeValue(f.elem.tree));
            ReadFields(FieldText(f, tail), keys, got, depth, l)
            == if tail[0] == 44 then ReadFields(tail[1..], keys + 1, now, depth, l) else Some((now, tail[1..]))
    decreases f, 0
  {
    KeyComplete(f, tail);
    assert ElemOk(f.elem);
    ElemComplete(f.elem, tail, depth, l);
  }

  // ----- soundness: what is accepted is a rendering

  lemma {:induction false} SkipWsSound(s: Text) returns (pre: Text)
    ensures Ws(pre) && s == pre + SkipWs(s)
  {
    if s == [] || !IsWs(s[0]) {
      pre := [];
    } else {
      pre := SkipWsSound(s[1..]);
      pre := [s[0]] + pre;
    }
  }

  lemma {:induction false} CharsSound(s: Text, got: Text) returns (ps: seq<Piece>)
    requires ReadChars(s, got).Some?
    ensures PiecesOk(ps)
    ensures ReadChars(s, got).value.0 == got + Decoded(ps)
    ensures s == PiecesText(ps, ReadChars(s, got).value.1)
    decreases |s|
  {
    if s[0] == 34 {
      ps := [];
    } else {
      var p := PieceAt(s, got);
      var n := |PieceText(p)|;
      var qs := CharsSound(s[n..], got + [PieceUnit(p)]);
      ps := [p] + qs;
      assert ps[1..] == qs;
      DecodedCons(got, p, qs);
      assert s == PieceText(p) + s[n..];
    }
  }

  lemma PieceAt(s: Text, got: Text) returns (p: Piece)
    requires s != [] && s[0] != 34 && ReadChars(s, got).Some?
    ensures PieceOk(p) && PieceText(p) <= s
    ensures ReadChars(s, got) == ReadChars(s[|PieceText(p)|..], got + [PieceUnit(p)])
  {
    if s[0] != 92 {
      p := Raw(s[0]);
    } else if s[1] == 117 {
      p := Hex(s[2], s[3], s[4], s[5]);
    } else {
      p := Esc(s[1]);
    }
  }

  lemma {:induction false} SkipDigitsSound(s: Text) returns (d: Text)
    ensures (forall i :: 0 <= i < |d| ==> IsDigit(d[i])) && s == d + SkipDigits(s)
  {
    if s == [] || !IsDigit(s[0]) {
      d := [];
    } else {
      d := SkipDigitsSound(s[1..]);
      d := [s[0]] + d;
    }
  }

  lemma ExpSound(s: Text) returns (exp: Option<Exponent>)
    requires AfterExp(s).Some?
    ensures s == ExpText(exp, AfterExp(s).value)
    ensures exp.Some? ==>
              && (exp.value.mark == 101 || exp.value.mark == 69)
              && (exp.value.sign.Some? ==> exp.value.sign.value == 43 || exp.value.sign.value == 45)
              && Digits(exp.value.digits)
  {
    if s != [] && (s[0] == 101 || s[0] == 69) {
      var t := AfterSign(s[1..]);
      var d := SkipDigitsSound(t);
      var sign := if t == s[1..] then None else Some(s[1]);
      assert sign.Some? ==> s[1..] == [s[1]] + t;
      assert s == [s[0]] + s[1..];
      exp := Some(Exponent(s[0], sign, d));
    } else {
      exp := None;
    }
  }

  lemma WholeSound(s: Text) returns (whole: Text)
    requires AfterWhole(s).Some?
    ensures Digits(whole) && (whole[0] == 48 ==> |whole| == 1) && s == whole + AfterWhole(s).value
  {
    if s[0] == 48 {
      whole := [48];
    } else {
      whole := SkipDigitsSound(s);
    }
  }

  lemma FracSound(s: Text) returns (frac: Option<Text>)
    requires AfterFrac(s).Some?
    ensures frac.Some? ==> Digits(frac.value)
    ensures s == FracText(frac) + AfterFrac(s).value
  {
    if s != [] && s[0] == 46 {
      var d := SkipDigitsSound(s[1..]);
      assert s == [46] + s[1..];
      frac := Some(d);
    } else {
      frac := None;
    }
  }

  lemma NumberSound(s: Text) returns (n: Number)
    requires AfterNumber(s).Some?
    ensures NumberOk(n) && s == NumberText(n, AfterNumber(s).value)
  {
    var m := AfterMinus(s);
    var w := AfterWhole(m).value;
    var whole := WholeSound(m);
    var frac := FracSound(w);
    var exp := ExpSound(AfterFrac(w).value);
    n := Number(m != s, whole, frac, exp);
    assert s == MinusText(n.minus) + m;
  }

  lemma ScalarSound(u: Text) returns (t: Tree)
    requires u != [] && ReadScalar(u).Some?
    ensures TreeOk(t) && !t.TArr? && !t.TObj?
    ensures TreeValue(t) == ReadScalar(u).value.0 && u == TreeText(t, ReadScalar(u).value.1)
  {
    var rest := ReadScalar(u).value.1;
    if u[0] == 34 {
      var ps := CharsSound(u[1..], []);
      t := TStr(ps);
      assert [] + Decoded(ps) == Decoded(ps);
      assert u == [34] + u[1..];
    } else if u[0] == 45 || IsDigit(u[0]) {
      var n := NumberSound(u);
      t := TNum(n);
      NumberPrefix(n, rest);
      assert u[..|u| - |rest|] == NumberText(n, []);
    } else if u[0] == 116 {
      t := TBool(true);
    } else if u[0] == 102 {
      t := TBool(false);
    } else {
      t := TNull;
    }
  }

  lemma {:induction false} ValueSound(s: Text, depth: nat, l: Limits) returns (pre: Text, t: Tree)
    requires ReadValue(s, depth, l).Some?
    ensures Ws(pre) && TreeOk(t) && Within(t, depth, l)
    ensures var (v, rest) := ReadValue(s, depth, l).value;
            TreeValue(t) == v && s == pre + TreeText(t, rest)
    decreases |s|, 0, 0
  {
    pre := SkipWsSound(s);
    var u := SkipWs(s);
    assert u == [u[0]] + u[1..];
    if u[0] == 91 {
      t := ArraySound(u[1..], depth, l);
    } else if u[0] == 123 {
      t := ObjectSound(u[1..], depth, l);
    } else {
      t := ScalarSound(u);
    }
  }

  lemma {:induction false} ArraySound(s: Text, depth: nat, l: Limits) returns (t: Tree)
    requires depth <= l.maxDepth && ReadArray(s, depth, l).Some?
    ensures TreeOk(t) && Within(t, depth, l)
    ensures var (v, rest) := ReadArray(s, depth, l).value; TreeValue(t) == v && [91] + s == TreeText(t, rest)
    decreases |s|, 2
  {
    hide SkipWs, ReadElems, ElemText, ElemOk;
    var gap := SkipWsSound(s);
    var u := SkipWs(s);
    if u != [] && u[0] == 93 {
      t := TArr(gap, []);
      assert u == [93] + u[1..];
    } else {
      var es := ElemsSound(s, [], depth, l);
      t := TArr([], es);
      assert [] + ElemValues(es) == ElemValues(es);
    }
  }

  lemma {:induction false} ElemSound(s: Text, depth: nat, l: Limits) returns (e: Elem)
    requires ReadValue(s, depth, l).Some?
    ensures var v := ReadValue(s, depth, l).value;
            && ElemOk(e) && Within(e.tree, depth, l)
            && TreeValue(e.tree) == v.0 && s == ElemText(e, SkipWs(v.1))
    decreases |s|, 0, 1
  {
    var pre, t := ValueSound(s, depth, l);
    var post := SkipWsSound(ReadValue(s, depth, l).value.1);
    e := Elem(pre, t, post);
  }

  lemma {:induction false} ElemsSound(s: Text, got: seq<Json>, depth: nat, l: Limits) returns (es: seq<Elem>)
    requires ReadElems(s, got, depth, l).Some?
    ensures es != [] && |got| + |es| <= l.maxArrayLength && ElemsOk(es, depth + 1, l)
    ensures var r := ReadElems(s, got, depth, l).value;
            r.0 == got + ElemValues(es) && s == ElemsText(es, r.1)
    decreases |s|, 1
  {
    var v := ReadValue(s, depth + 1, l).value;
    var e := ElemSound(s, depth + 1, l);
    var w := SkipWs(v.1);
    assert w == [w[0]] + w[1..];
    if w[0] == 44 {
      var more := ElemsSound(w[1..], got + [v.0], depth, l);
      es := [e] + more;
      ElemValuesCons(got, e, more);
      ElemsTextCons(e, more, ReadElems(s, got, depth, l).value.1);
    } else {
      es := [e];
      assert ElemValues(es) == [v.0];
    }
  }

  lemma ElemValuesCons(got: seq<Json>, e: Elem, more: seq<Elem>)
    ensures got + [TreeValue(e.tree)] + ElemValues(more) == got + ElemValues([e] + more)
  {
    assert ([e] + more)[1..] == more;
  }

  lemma ElemsTextCons(e: Elem, more: seq<Elem>, rest: Text)
    requires more != []
    ensures ElemsText([e] + more, rest) == ElemText(e, [44] + ElemsText(more, rest))
  {
    assert ([e] + more)[1..] == more;
  }

  lemma {:induction false} ObjectSound(s: Text, depth: nat, l: Limits) returns (t: Tree)
    requires depth <= l.maxDepth && ReadObject(s, depth, l).Some?
    ensures TreeOk(t) && Within(t, depth, l)
    ensures var (v, rest) := ReadObject(s, depth, l).value; TreeValue(t) == v && [123] + s == TreeText(t, rest)
    decreases |s|, 2
  {
    var gap := SkipWsSound(s);
    var u := SkipWs(s);
    if u != [] && u[0] == 125 {
      t := TObj(gap, []);
      assert u == [125] + u[1..];
    } else {
      var fs := FieldsSound(s, 0, [], depth, l);
      t := TObj([], fs);
    }
  }

  lemma KeySound(s: Text) returns (pre: Text, ps: seq<Piece>, mid: Text)
    requires ReadKey(s).Some?
    ensures Ws(pre) && PiecesOk(ps) && Ws(mid) && Decoded(ps) == ReadKey(s).value.0
    ensures s == pre + ([34] + PiecesText(ps, mid + ([58] + ReadKey(s).value.1)))
  {
    hide ReadChars, PiecesText, PiecesOk, Decoded, IsWs, SkipWs;
    pre := SkipWsSound(s);
    var a := SkipWs(s);
    assert a == [34] + a[1..];
    ps := CharsSound(a[1..], []);
    assert [] + Decoded(ps) == Decoded(ps);
    var r := ReadChars(a[1..], []).value.1;
    mid := SkipWsSound(r);
    assert SkipWs(r) == [58] + SkipWs(r)[1..];
  }

  lemma {:induction false} FieldsSound(s: Text, keys: nat, got: seq<Member>, depth: nat, l: Limits)
    returns (fs: seq<Field>)
    requires ReadFields(s, keys, got, depth, l).Some?
    ensures fs != [] && FieldsOk(fs, depth + 1, l) && keys + |fs| <= l.maxObjectKeys
    ensures l.rejectDuplicates ==> KeysDistinct(fs) && Fresh(got, fs)
    ensures var (ms, rest) := ReadFields(s, keys, got, depth, l).value;
            ms == FieldValues(got, fs) && s == FieldsText(fs, rest)
    decreases |s|, 1
  {
    hide ReadFields, Put, Within, TreeOk;
    var f, key, v, w := FieldSound(s, keys, got, depth, l);
    if w[0] == 44 {
      var now := Put(got, key, v);
      var more := FieldsSound(w[1..], keys + 1, now, depth, l);
      fs := [f] + more;
      FieldsCons(got, f, more, ReadFields(s, keys, got, depth, l).value.1, depth + 1, l);
      if l.rejectDuplicates { FreshBefore(got, key, v, f, more); }
    } else {
      fs := [f];
      assert FieldValues(got, fs) == Put(got, key, v);
    }
  }

  lemma {:induction false} FieldSound(s: Text, keys: nat, got: seq<Member>, depth: nat, l: Limits)
    returns (f: Field, key: Text, v: Json, w: Text)
    requires ReadFields(s, keys, got, depth, l).Some?
    ensures FieldOk(f) && Within(f.elem.tree, depth + 1, l) && keys < l.maxObjectKeys
    ensures key == Decoded(f.key) && v == TreeValue(f.elem.tree) && s == FieldText(f, w)
    ensures l.rejectDuplicates ==> !HasKey(got, key)
    ensures 0 < |w| < |s| && w == [w[0]] + w[1..] && (w[0] == 44 || w[0] == 125)
    ensures ReadFields(s, keys, got, depth, l)
         == if w[0] == 44 then ReadFields(w[1..], keys + 1, Put(got, key, v), depth, l)
            else Some((Put(got, key, v), w[1..]))
    decreases |s|, 0, 2
  {
    var k := ReadKey(s).value;
    var pre, ps, mid := KeySound(s);
    var r := ReadValue(k.1, depth + 1, l).value;
    var e := ElemSound(k.1, depth + 1, l);
    key, v, w := k.0, r.0, SkipWs(r.1);
    f := Field(pre, ps, mid, e);
    assert w == [w[0]] + w[1..];
  }

  lemma FieldsCons(got: seq<Member>, f: Field, more: seq<Field>, rest: Text, depth: nat, l: Limits)
    requires more != [] && FieldOk(f) && Within(f.elem.tree, depth, l) && FieldsOk(more, depth, l)
    ensures FieldsOk([f] + more, depth, l)
    ensures FieldsText([f] + more, rest) == FieldText(f, [44] + FieldsText(more, rest))
    ensures FieldValues(got, [f] + more) == FieldValues(Put(got, Decoded(f.key), TreeValue(f.elem.tree)), more)
  {
    assert ([f] + more)[1..] == more;
  }

  lemma FreshBefore(got: seq<Member>, key: Text, v: Json, f: Field, more: seq<Field>)
    requires !HasKey(got, key) && Decoded(f.key) == key
    requires KeysDistinct(more) && Fresh(Put(got, key, v), more)
    ensures KeysDistinct([f] + more) && Fresh(got, [f] + more)
  {
    forall i | 0 <= i < |more| ensures Decoded(more[i].key) != key && !HasKey(got, Decoded(more[i].key)) {
      PutKeeps(got, key, v, Decoded(more[i].key));
    }
  }

  lemma PutKeeps(got: seq<Member>, key: Text, v: Json, x: Text)
    requires !HasKey(got, key)
    ensures HasKey(got, x) || x == key ==> HasKey(Put(got, key, v), x)
  {
    var now := Put(got, key, v);
    assert now[|got|].key == key;
    if k :| 0 <= k < |got| && got[k].key == x { assert now[k].key == x; }
  }

  // ----- the theorem

  /** The reader returns `v` exactly when the text renders `v` within the limits. */
  lemma ReaderExact(text: Text, v: Json, l: Limits)
    ensures Read(text, l) == Some(v) <==> Renders(text, v, l)
  {
    if Read(text, l) == Some(v) {
      var pre, t := ValueSound(text, 1, l);
      var post := ReadValue(text, 1, l).value.1;
      var w := SkipWsSound(post);
      assert w + [] == w;
      assert RendersAs(text, pre, t, post, v, l);
    }
    if Renders(text, v, l) {
      var pre, t, post :| RendersAs(text, pre, t, post, v, l);
      ValueComplete(pre, t, post, 1, l);
      SkipWsOver(post, []);
      assert post + [] == post;
    }
  }

  // ----- the characters, written out

  const LOWER := "0123456789abcdef"
  const UPPER := "0123456789ABCDEF"

  /** The sixteen digits in either case, each worth its place, and no other character. */
  lemma HexDigitsAre(u: Unit)
    ensures forall k :: 0 <= k < 16 ==> HexDigit(LOWER[k] as int) == k && HexDigit(UPPER[k] as int) == k
    ensures IsHex(u) <==> exists k :: 0 <= k < 16 && (u == LOWER[k] as int || u == UPPER[k] as int)
  {
    if IsHex(u) {
      var k := HexDigit(u);
      assert u == LOWER[k] as int || u == UPPER[k] as int;
    }
  }

  /** The letters an escape may have, and what each stands for. */
  lemma EscapesAre(u: Unit)
    ensures EscapeValue(u)
            == if u == '"' as int then Some(0x22)
               else if u == '\\' as int then Some(0x5C)
               else if u == '/' as int then Some(0x2F)
               else if u == 'b' as int then Some(0x08)
               else if u == 'f' as int then Some(0x0C)
               else if u == 'n' as int then Some(0x0A)
               else if u == 'r' as int then Some(0x0D)
               else if u == 't' as int then Some(0x09)
               else None
    ensures IsWs(u) <==> u == ' ' as int || u == '\t' as int || u == '\n' as int || u == '\r' as int
    ensures IsDigit(u) <==> '0' as int <= u <= '9' as int
  {
  }

  /** A four-digit escape, in any mixture of cases, is read as the unit its digits spell in base sixteen. */
  lemma HexRead(a: nat, b: nat, c: nat, d: nat, t: seq<string>, rest: Text)
    requires a < 16 && b < 16 && c < 16 && d < 16
    requires |t| == 4 && forall k :: 0 <= k < 4 ==> t[k] == LOWER || t[k] == UPPER
    ensures ReadChars([92, 117, t[0][a] as int, t[1][b] as int, t[2][c] as int, t[3][d] as int, 34] + rest, [])
            == Some(([((a * 16 + b) * 16 + c) * 16 + d], rest))
  {
    HexDigitsAre(0);
    var s := [92, 117, t[0][a] as int, t[1][b] as int, t[2][c] as int, t[3][d] as int, 34] + rest;
    assert IsHex(s[2]) && IsHex(s[3]) && IsHex(s[4]) && IsHex(s[5]);
    hide HexDigit, IsHex;
    assert s[6..] == [34] + rest && s[6..][1..] == rest;
    assert [] + [Hex4(s[2], s[3], s[4], s[5])] == [((a * 16 + b) * 16 + c) * 16 + d];
  }
}

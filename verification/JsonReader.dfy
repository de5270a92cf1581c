/**
 The bounded reader as it runs: one cursor moved forward over the text by mutually recursive
 procedures. `None` stands for the thrown error. Every procedure is proved to return what the
 reading functions say about the text from the old cursor on.
 */
module JsonReader {
  import opened Text
  import opened Json
  import opened JsonGrammar
  import opened JsonReading

  /** The outcome `r` and the text left agree with what the reading function answers. */
  ghost predicate Agrees<T>(r: Option<T>, rest: Text, spec: Option<(T, Text)>) {
    spec == if r.None? then None else Some((r.value, rest))
  }

  lemma DropOne(text: Text, i: nat)
    requires i < |text|
    ensures text[i..][1..] == text[i + 1..] && text[i..][0] == text[i]
  {
  }

  /** How a string goes on, away from escapes. */
  lemma PlainStep(s: Text, got: Text)
    ensures s == [] ==> ReadChars(s, got) == None
    ensures s != [] && s[0] == 34 ==> ReadChars(s, got) == Some((got, s[1..]))
    ensures s != [] && s[0] < 0x20 ==> ReadChars(s, got) == None
    ensures s != [] && s[0] != 34 && s[0] != 92 && s[0] >= 0x20 ==>
              ReadChars(s, got) == ReadChars(s[1..], got + [s[0]])
  {
  }

  class Reader {
    const text: Text
    const limits: Limits
    var i: nat

    constructor (text: Text, limits: Limits)
      ensures this.text == text && this.limits == limits && i == 0
    {
      this.text, this.limits, i := text, limits, 0;
    }

    method SkipSpace()
      requires i <= |text|
      modifies this`i
      ensures i <= |text| && text[i..] == SkipWs(text[old(i)..])
    {
      while i < |text| && IsWs(text[i])
        invariant i <= |text|
        invariant SkipWs(text[i..]) == SkipWs(text[old(i)..])
      {
        DropOne(text, i);
        i := i + 1;
      }
    }

    /** Whether the next character is `u`; if so it is consumed. */
    method Accept(u: Unit) returns (took: bool)
      requires i <= |text|
      modifies this`i
      ensures i <= |text|
      ensures took == (text[old(i)..] != [] && text[old(i)..][0] == u)
      ensures took ==> text[i..] == text[old(i)..][1..]
      ensures !took ==> i == old(i)
    {
      took := i < |text| && text[i] == u;
      if took {
        DropOne(text, i);
        i := i + 1;
      }
    }

    method ReadWord(word: Text, v: Json) returns (r: Option<Json>)
      requires i <= |text| && word != []
      modifies this`i
      ensures i <= |text| && Agrees(r, text[i..], ReadLiteral(text[old(i)..], word, v))
    {
      if word <= text[i..] {
        assert text[i..][|word|..] == text[i + |word|..];
        i := i + |word|;
        r := Some(v);
      } else {
        r := None;
      }
    }

    /** Consumes the opening quote too. Unescaped stretches are copied a chunk at a time. */
    method ReadString() returns (r: Option<Text>)
      requires i < |text|
      modifies this`i
      ensures old(i) < i <= |text| && Agrees(r, text[i..], ReadChars(text[old(i) + 1..], []))
    {
      hide ReadChars;
      i := i + 1;
      ghost var start := i;
      var out, chunkStart := [], i;
      assert out + text[i..i] == [];
      while true
        invariant start <= chunkStart <= i <= |text|
        invariant ReadChars(text[i..], out + text[chunkStart..i]) == ReadChars(text[start..], [])
        decreases |text| - i
      {
        PlainStep(text[i..], out + text[chunkStart..i]);
        if i >= |text| { return None; }
        DropOne(text, i);
        var c := text[i];
        if c == 34 {
          out := out + text[chunkStart..i];
          i := i + 1;
          return Some(out);
        } else if c == 92 {
          var step := EscapeAt();
          if step.None? { return None; }
          ghost var was := i;
          out := out + text[chunkStart..i] + [step.value.0];
          i := i + step.value.1;
          chunkStart := i;
          assert out + text[i..i] == out;
          assert text[was..][step.value.1..] == text[i..];
        } else {
          if c < 0x20 { return None; }
          assert out + text[chunkStart..i + 1] == out + text[chunkStart..i] + [c];
          i := i + 1;
        }
      }
    }

    /** The unit an escape at the cursor denotes, and how many characters it takes. */
    method EscapeAt() returns (r: Option<(Unit, nat)>)
      requires i < |text| && text[i] == 92
      ensures r.None? ==> forall got {:trigger ReadChars(text[i..], got)} :: ReadChars(text[i..], got) == None
      ensures r.Some? ==>
                && 0 < r.value.1 <= |text| - i
                && forall got {:trigger ReadChars(text[i..], got)} ::
                     ReadChars(text[i..], got) == ReadChars(text[i..][r.value.1..], got + [r.value.0])
    {
      var s := text[i..];
      if |s| < 2 { return None; }
      if s[1] == 117 {
        if |s| < 6 || !(IsHex(s[2]) && IsHex(s[3]) && IsHex(s[4]) && IsHex(s[5])) { return None; }
        return Some((Hex4(s[2], s[3], s[4], s[5]), 6));
      }
      var e := EscapeValue(s[1]);
      if e.None? { return None; }
      return Some((e.value, 2));
    }

    method SkipDigitRun()
      requires i <= |text|
      modifies this`i
      ensures old(i) <= i <= |text| && text[i..] == SkipDigits(text[old(i)..])
      ensures i == old(i) <==> SkipDigits(text[old(i)..]) == text[old(i)..]
    {
      while i < |text| && IsDigit(text[i])
        invariant old(i) <= i <= |text|
        invariant SkipDigits(text[i..]) == SkipDigits(text[old(i)..])
      {
        DropOne(text, i);
        i := i + 1;
      }
      assert i != old(i) ==> |text[i..]| < |text[old(i)..]|;
    }

    /** The outcome of one part of a number: whether it is well formed. */
    method ReadWhole() returns (ok: bool)
      requires i <= |text|
      modifies this`i
      ensures i <= |text|
      ensures AfterWhole(text[old(i)..]) == if ok then Some(text[i..]) else None
    {
      if i >= |text| { return false; }
      var zero := Accept(48);
      if zero { return true; }
      if !IsDigit(text[i]) { return false; }
      SkipDigitRun();
      return true;
    }

    method ReadFrac() returns (ok: bool)
      requires i <= |text|
      modifies this`i
      ensures i <= |text|
      ensures AfterFrac(text[old(i)..]) == if ok then Some(text[i..]) else None
    {
      var dot := Accept(46);
      if !dot { return true; }
      var fracStart := i;
      SkipDigitRun();
      return i != fracStart;
    }

    method ReadExp() returns (ok: bool)
      requires i <= |text|
      modifies this`i
      ensures i <= |text|
      ensures AfterExp(text[old(i)..]) == if ok then Some(text[i..]) else None
    {
      var mark := Accept(101);
      if !mark { mark := Accept(69); }
      if !mark { return true; }
      var sign := Accept(43);
      if !sign { sign := Accept(45); }
      var expStart := i;
      SkipDigitRun();
      return i != expStart;
    }

    method ReadNumber() returns (r: Option<Json>)
      requires i < |text|
      modifies this`i
      ensures i <= |text|
      ensures var e := AfterNumber(text[old(i)..]);
              var s := text[old(i)..];
              Agrees(r, text[i..], if e.None? then None else Some((Num(s[..|s| - |e.value|]), e.value)))
    {
      hide AfterWhole, AfterFrac, AfterExp;
      var start := i;
      var _ := Accept(45);
      var ok := ReadWhole();
      if ok { ok := ReadFrac(); }
      if ok { ok := ReadExp(); }
      if !ok { return None; }
      assert AfterNumber(text[start..]) == Some(text[i..]);
      assert text[start..][..|text[start..]| - |text[i..]|] == text[start..i];
      return Some(Num(text[start..i]));
    }

    method ReadScalarValue() returns (r: Option<Json>)
      requires i < |text|
      modifies this`i
      ensures i <= |text| && Agrees(r, text[i..], ReadScalar(text[old(i)..]))
    {
      DropOne(text, i);
      var c := text[i];
      if c == 34 {
        var s := ReadString();
        r := if s.None? then None else Some(Str(s.value));
      } else if c == 45 || IsDigit(c) {
        r := ReadNumber();
      } else if c == 116 {
        r := ReadWord(TRUE_TEXT, Bool(true));
      } else if c == 102 {
        r := ReadWord(FALSE_TEXT, Bool(false));
      } else if c == 110 {
        r := ReadWord(NULL_TEXT, Null);
      } else {
        r := None;
      }
    }

    method ReadNext(depth: nat) returns (r: Option<Json>)
      requires i <= |text|
      modifies this`i
      ensures i <= |text| && Agrees(r, text[i..], ReadValue(text[old(i)..], depth, limits))
      decreases |text| - i, 0
    {
      if depth > limits.maxDepth { return None; }
      SkipSpace();
      if i >= |text| { return None; }
      if text[i] == 91 {
        DropOne(text, i);
        i := i + 1;
        r := ReadItems(depth);
      } else if text[i] == 123 {
        DropOne(text, i);
        i := i + 1;
        r := ReadMembers(depth);
      } else {
        r := ReadScalarValue();
      }
    }

    method ReadItems(depth: nat) returns (r: Option<Json>)
      requires i <= |text|
      modifies this`i
      ensures i <= |text| && Agrees(r, text[i..], ReadArray(text[old(i)..], depth, limits))
      decreases |text| - i, 2
    {
      hide ReadValue, ReadElems;
      ghost var start := i;
      SkipSpace();
      var empty := Accept(93);
      if empty { return Some(Arr([])); }
      ElemsSkip(text[start..], [], depth, limits);
      var out := [];
      while true
        invariant start <= i <= |text|
        invariant ReadElems(text[i..], out, depth, limits) == ReadElems(text[start..], [], depth, limits)
        decreases |text| - i
      {
        ghost var before := text[i..];
        ElemsUnfold(before, out, depth, limits);
        if |out| >= limits.maxArrayLength { return None; }
        var v := ReadNext(depth + 1);
        if v.None? { return None; }
        out := out + [v.value];
        SkipSpace();
        if i >= |text| { return None; }
        var comma := Accept(44);
        if !comma {
          var close := Accept(93);
          if close { return Some(Arr(out)); } else { return None; }
        }
      }
    }

    method ReadMembers(depth: nat) returns (r: Option<Json>)
      requires i <= |text|
      modifies this`i
      ensures i <= |text| && Agrees(r, text[i..], ReadObject(text[old(i)..], depth, limits))
      decreases |text| - i, 2
    {
      hide ReadValue, ReadFields, ReadKey, Put;
      ghost var start := i;
      SkipSpace();
      var empty := Accept(125);
      if empty { return Some(Obj([])); }
      FieldsSkip(text[start..], depth, limits);
      var out, keys := [], 0;
      while true
        invariant start <= i <= |text|
        invariant ReadFields(text[i..], keys, out, depth, limits) == ReadFields(text[start..], 0, [], depth, limits)
        decreases |text| - i
      {
        ghost var before := text[i..];
        FieldsUnfold(before, keys, out, depth, limits);
        var key := ReadName();
        keys := keys + 1;
        if key.None? || keys > limits.maxObjectKeys { return None; }
        if HasKey(out, key.value) && limits.rejectDuplicates { return None; }
        var v := ReadNext(depth + 1);
        if v.None? { return None; }
        out := Put(out, key.value, v.value);
        SkipSpace();
        if i >= |text| { return None; }
        var comma := Accept(44);
        if !comma {
          var close := Accept(125);
          if close { return Some(Obj(out)); } else { return None; }
        }
      }
    }

    /** An object key and the colon after it. */
    method ReadName() returns (r: Option<Text>)
      requires i <= |text|
      modifies this`i
      ensures old(i) <= i <= |text| && Agrees(r, text[i..], ReadKey(text[old(i)..]))
      ensures r.Some? ==> old(i) < i
    {
      hide ReadChars;
      SkipSpace();
      if i >= |text| || text[i] != 34 { return None; }
      assert text[i..][1..] == text[i + 1..];
      var key := ReadString();
      if key.None? { return None; }
      SkipSpace();
      var colon := Accept(58);
      r := if colon then key else None;
    }
  }

  // ----- one unfolding of the reading loops, and their indifference to leading white space

  lemma ElemsUnfold(s: Text, got: seq<Json>, depth: nat, l: Limits)
    ensures ReadElems(s, got, depth, l)
         == if |got| >= l.maxArrayLength then None
            else
              var v := ReadValue(s, depth + 1, l);
              if v.None? then None
              else
                var t := SkipWs(v.value.1);
                if t == [] then None
                else if t[0] == 44 then ReadElems(t[1..], got + [v.value.0], depth, l)
                else if t[0] == 93 then Some((got + [v.value.0], t[1..]))
                else None
  {
  }

  lemma FieldsUnfold(s: Text, keys: nat, got: seq<Member>, depth: nat, l: Limits)
    ensures ReadFields(s, keys, got, depth, l)
         == var k := ReadKey(s);
            if k.None? || keys + 1 > l.maxObjectKeys then None
            else if l.rejectDuplicates && HasKey(got, k.value.0) then None
            else
              var v := ReadValue(k.value.1, depth + 1, l);
              if v.None? then None
              else
                var w := SkipWs(v.value.1);
                var now := Put(got, k.value.0, v.value.0);
                if w == [] then None
                else if w[0] == 44 then ReadFields(w[1..], keys + 1, now, depth, l)
                else if w[0] == 125 then Some((now, w[1..]))
                else None
  {
  }

  lemma ElemsSkip(s: Text, got: seq<Json>, depth: nat, l: Limits)
    ensures ReadElems(SkipWs(s), got, depth, l) == ReadElems(s, got, depth, l)
  {
    assert SkipWs(SkipWs(s)) == SkipWs(s);
    assert ReadValue(SkipWs(s), depth + 1, l) == ReadValue(s, depth + 1, l);
  }

  lemma FieldsSkip(s: Text, depth: nat, l: Limits)
    ensures ReadFields(SkipWs(s), 0, [], depth, l) == ReadFields(s, 0, [], depth, l)
  {
    assert SkipWs(SkipWs(s)) == SkipWs(s);
    assert ReadKey(SkipWs(s)) == ReadKey(s);
  }

  /** The entry point: one value, then nothing but white space. */
  method ReadJsonBounded(text: Text, limits: Limits) returns (r: Option<Json>)
    ensures r == Read(text, limits)
    ensures forall v :: r == Some(v) <==> Renders(text, v, limits)
  {
    var reader := new Reader(text, limits);
    assert text[0..] == text;
    r := reader.ReadNext(1);
    if r.Some? {
      reader.SkipSpace();
      if reader.i < |text| { r := None; }
    }
    forall v ensures Read(text, limits) == Some(v) <==> Renders(text, v, limits) {
      ReaderExact(text, v, limits);
    }
  }
}

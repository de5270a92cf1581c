/**
 Text as the gateway's runtime holds it: sequences of UTF-16 code units, so that a lone
 surrogate written as an escape is a value like any other.
 */
module Text {

  datatype Option<+T> = None | Some(value: T)

  type Unit = u: int | 0 <= u < 0x1_0000
  type Text = seq<Unit>

  /** A literal of characters below U+10000, each of which is one code unit. */
  function Ascii(s: string): Text
  {
    seq(|s|, i requires 0 <= i < |s| => if s[i] as int < 0x1_0000 then s[i] as int else 0xFFFD)
  }

  /** Lexicographic order by code unit, the order of the runtime's default sort. */
  predicate TextLess(a: Text, b: Text)
    decreases |a|
  {
    if b == [] then false
    else if a == [] then true
    else if a[0] != b[0] then a[0] < b[0]
    else TextLess(a[1..], b[1..])
  }

  lemma {:induction false} TextLessIrreflexive(a: Text)
    ensures !TextLess(a, a)
    decreases |a|
  {
    if a != [] { TextLessIrreflexive(a[1..]); }
  }

  lemma {:induction false} TextLessTransitive(a: Text, b: Text, c: Text)
    requires TextLess(a, b) && TextLess(b, c)
    ensures TextLess(a, c)
    decreases |a|
  {
    if a != [] && a[0] == b[0] == c[0] { TextLessTransitive(a[1..], b[1..], c[1..]); }
  }

  lemma {:induction false} TextLessTotal(a: Text, b: Text)
    ensures a == b || TextLess(a, b) || TextLess(b, a)
    decreases |a|
  {
    if a != [] && b != [] && a[0] == b[0] {
      TextLessTotal(a[1..], b[1..]);
      assert a == [a[0]] + a[1..] && b == [b[0]] + b[1..];
    }
  }

  /** The shorter text where one begins the other, and otherwise the one with the smaller unit where they part. */
  lemma {:induction false} TextLessIs(a: Text, b: Text)
    ensures TextLess(a, b) <==> exists k: nat :: PartAt(a, b, k) && (k < |a| ==> a[k] < b[k])
    decreases |a|
  {
    if a == [] {
      assert b != [] ==> PartAt(a, b, 0);
    } else if b == [] || a[0] != b[0] {
      assert b != [] ==> PartAt(a, b, 0);
      forall k: nat ensures PartAt(a, b, k) ==> k == 0 {
        if 0 < k <= |a| && k <= |b| { assert a[..k][0] == a[0] && b[..k][0] == b[0]; }
      }
    } else {
      TextLessIs(a[1..], b[1..]);
      forall k: nat ensures PartAt(a, b, k + 1) <==> PartAt(a[1..], b[1..], k) { PartNext(a, b, k); }
      forall k: nat | PartAt(a, b, k) ensures k > 0 {}
      if k: nat :| PartAt(a, b, k) && (k < |a| ==> a[k] < b[k]) {
        assert PartAt(a[1..], b[1..], k - 1);
      }
    }
  }

  lemma PartNext(a: Text, b: Text, k: nat)
    requires a != [] && b != [] && a[0] == b[0]
    ensures PartAt(a, b, k + 1) <==> PartAt(a[1..], b[1..], k)
  {
    if k <= |a[1..]| && k <= |b[1..]| {
      assert a[..k + 1] == [a[0]] + a[1..][..k] && b[..k + 1] == [b[0]] + b[1..][..k];
      if a[..k + 1] == b[..k + 1] { assert a[..k + 1][1..] == b[..k + 1][1..]; }
    }
  }

  /** `b` goes on at `k`, up to which both are the same, and `a` ends there or goes on differently. */
  predicate PartAt(a: Text, b: Text, k: nat) {
    k <= |a| && k < |b| && a[..k] == b[..k] && (k < |a| ==> a[k] != b[k])
  }
}

/** Text as JavaScript holds it, and its UTF-8 bytes. */
module Utf8Text {

  newtype Byte = b: int | 0 <= b < 0x100

  /** One 16-bit unit of a JavaScript string. */
  newtype Unit = u: int | 0 <= u < 0x1_0000

  type Text = seq<Unit>

  type Bytes = seq<Byte>

  predicate IsHigh(u: Unit) {
    0xD800 <= u < 0xDC00
  }

  predicate IsLow(u: Unit) {
    0xDC00 <= u < 0xE000
  }

  predicate IsScalar(p: int) {
    0 <= p < 0xD800 || 0xE000 <= p < 0x11_0000
  }

  predicate StartsPair(s: Text) {
    |s| > 1 && IsHigh(s[0]) && IsLow(s[1])
  }

  function PairValue(high: Unit, low: Unit): int {
    0x1_0000 + (high as int - 0xD800) * 0x400 + (low as int - 0xDC00)
  }

  /** The characters of a text; a surrogate without its partner is read as U+FFFD. */
  function Points(s: Text): (ps: seq<int>)
    ensures forall i :: 0 <= i < |ps| ==> IsScalar(ps[i])
  {
    if s == [] then []
    else if StartsPair(s) then [PairValue(s[0], s[1])] + Points(s[2..])
    else if IsHigh(s[0]) || IsLow(s[0]) then [0xFFFD] + Points(s[1..])
    else [s[0] as int] + Points(s[1..])
  }

  function Tail(n: int): Byte {
    (0x80 + n % 0x40) as Byte
  }

  function Enc(p: int): (bytes: Bytes)
    requires IsScalar(p)
    ensures 1 <= |bytes| <= 4
    ensures p != 0 ==> 0 !in bytes
  {
    if p < 0x80 then [p as Byte]
    else if p < 0x800 then [(0xC0 + p / 0x40) as Byte, Tail(p)]
    else if p < 0x1_0000 then [(0xE0 + p / 0x1000) as Byte, Tail(p / 0x40), Tail(p)]
    else [(0xF0 + p / 0x4_0000) as Byte, Tail(p / 0x1000), Tail(p / 0x40), Tail(p)]
  }

  function EncodeAll(ps: seq<int>): Bytes
    requires forall i :: 0 <= i < |ps| ==> IsScalar(ps[i])
  {
    if ps == [] then [] else Enc(ps[0]) + EncodeAll(ps[1..])
  }

  function Utf8(s: Text): Bytes {
    EncodeAll(Points(s))
  }

  // ---------------------------------------------------------------------------
  // The bytes determine the characters
  // ---------------------------------------------------------------------------

  /** The first byte tells how many bytes a character takes. */
  function Width(first: Byte): nat {
    if first < 0x80 then 1 else if first < 0xE0 then 2 else if first < 0xF0 then 3 else 4
  }

  lemma WidthOfEnc(p: int)
    requires IsScalar(p)
    ensures |Enc(p)| == Width(Enc(p)[0])
  {
  }

  lemma SameTail(a: int, b: int)
    requires Tail(a) == Tail(b) && a / 0x40 == b / 0x40
    ensures a == b
  {
  }

  lemma DivDiv(p: int)
    requires p >= 0
    ensures p / 0x1000 == (p / 0x40) / 0x40
    ensures p / 0x4_0000 == (p / 0x1000) / 0x40
  {
  }

  lemma EncInjective(p: int, q: int)
    requires IsScalar(p) && IsScalar(q) && Enc(p) == Enc(q)
    ensures p == q
  {
    hide Tail;
    var e, f := Enc(p), Enc(q);
    DivDiv(p);
    DivDiv(q);
    if |e| == 2 {
      assert e[1] == f[1];
      SameTail(p, q);
    } else if |e| == 3 {
      assert e[0] == f[0] && e[1] == f[1] && e[2] == f[2];
      SameTail(p / 0x40, q / 0x40);
      SameTail(p, q);
    } else if |e| == 4 {
      assert e[0] == f[0] && e[1] == f[1] && e[2] == f[2] && e[3] == f[3];
      SameTail(p / 0x1000, q / 0x1000);
      SameTail(p / 0x40, q / 0x40);
      SameTail(p, q);
    } else {
      assert e[0] == f[0];
    }
  }

  lemma PrefixFree(p: int, q: int, x: Bytes, y: Bytes)
    requires IsScalar(p) && IsScalar(q) && Enc(p) + x == Enc(q) + y
    ensures p == q && x == y
  {
    hide Enc;
    var all := Enc(p) + x;
    assert all[0] == Enc(p)[0] == Enc(q)[0];
    WidthOfEnc(p);
    WidthOfEnc(q);
    var n := |Enc(p)|;
    assert all[..n] == Enc(p) && all[..n] == Enc(q);
    assert all[n..] == x && all[n..] == y;
    EncInjective(p, q);
  }

  lemma {:induction false} EncodeAllInjective(ps: seq<int>, qs: seq<int>)
    requires forall i :: 0 <= i < |ps| ==> IsScalar(ps[i])
    requires forall i :: 0 <= i < |qs| ==> IsScalar(qs[i])
    requires EncodeAll(ps) == EncodeAll(qs)
    ensures ps == qs
  {
    hide Enc;
    if ps != [] && qs != [] {
      PrefixFree(ps[0], qs[0], EncodeAll(ps[1..]), EncodeAll(qs[1..]));
      EncodeAllInjective(ps[1..], qs[1..]);
      assert ps == [ps[0]] + ps[1..] && qs == [qs[0]] + qs[1..];
    }
  }

  /** Two texts have the same bytes exactly when they have the same characters. */
  lemma Utf8Determines(a: Text, b: Text)
    ensures Utf8(a) == Utf8(b) <==> Points(a) == Points(b)
  {
    if Utf8(a) == Utf8(b) {
      EncodeAllInjective(Points(a), Points(b));
    }
  }

  /** Every surrogate stands beside its partner. */
  predicate WellFormed(s: Text) {
    if s == [] then true
    else if StartsPair(s) then WellFormed(s[2..])
    else !IsHigh(s[0]) && !IsLow(s[0]) && WellFormed(s[1..])
  }

  /** Of texts without stray surrogates, the characters determine the text. */
  lemma {:induction false} PointsInjective(a: Text, b: Text)
    requires WellFormed(a) && WellFormed(b) && Points(a) == Points(b)
    ensures a == b
  {
    if a != [] && b != [] {
      var m, n := if StartsPair(a) then 2 else 1, if StartsPair(b) then 2 else 1;
      assert Points(a)[0] == Points(b)[0];
      assert Points(a)[1..] == Points(a[m..]) && Points(b)[1..] == Points(b[n..]);
      FirstPoint(a, b);
      PointsInjective(a[m..], b[n..]);
      assert a == a[..m] + a[m..] && b == b[..n] + b[n..];
    }
  }

  lemma FirstPoint(a: Text, b: Text)
    requires a != [] && b != [] && WellFormed(a) && WellFormed(b) && Points(a)[0] == Points(b)[0]
    ensures StartsPair(a) == StartsPair(b) && a[0] == b[0] && (StartsPair(a) ==> a[1] == b[1])
  {
    assert StartsPair(a) == (Points(a)[0] >= 0x1_0000);
    assert StartsPair(b) == (Points(b)[0] >= 0x1_0000);
    if StartsPair(a) {
      PairInjective(a[0], a[1], b[0], b[1]);
    }
  }

  lemma PairInjective(a: Unit, b: Unit, c: Unit, d: Unit)
    requires IsHigh(a) && IsLow(b) && IsHigh(c) && IsLow(d) && PairValue(a, b) == PairValue(c, d)
    ensures a == c && b == d
  {
  }

  // ---------------------------------------------------------------------------
  // NUL as a separator
  // ---------------------------------------------------------------------------

  lemma {:induction false} PointsOfJoin(a: Text, b: Text)
    ensures Points(a + [0] + b) == Points(a) + [0] + Points(b)
    decreases |a|
  {
    var all := a + [0] + b;
    if a == [] {
      assert all == [0] + b && all[1..] == b;
      assert [] + [0] + Points(b) == [0] + Points(b);
    } else {
      var n := if StartsPair(a) then 2 else 1;
      assert all[n..] == a[n..] + [0] + b;
      assert |a| == 1 ==> all[1] == 0;
      assert StartsPair(all) == StartsPair(a);
      PointsOfJoin(a[n..], b);
      assert Points(all) == [Points(a)[0]] + (Points(a[n..]) + [0] + Points(b));
    }
  }

  lemma {:induction false} EncodeAllJoin(ps: seq<int>, qs: seq<int>)
    requires forall i :: 0 <= i < |ps| ==> IsScalar(ps[i])
    requires forall i :: 0 <= i < |qs| ==> IsScalar(qs[i])
    ensures EncodeAll(ps + qs) == EncodeAll(ps) + EncodeAll(qs)
  {
    hide Enc;
    if ps == [] {
      assert ps + qs == qs;
    } else {
      assert (ps + qs)[1..] == ps[1..] + qs;
      EncodeAllJoin(ps[1..], qs);
    }
  }

  lemma Utf8OfJoin(a: Text, b: Text)
    ensures Utf8(a + [0] + b) == Utf8(a) + [0] + Utf8(b)
  {
    hide Points, EncodeAll;
    PointsOfJoin(a, b);
    EncodeAllJoin(Points(a) + [0], Points(b));
    EncodeAllJoin(Points(a), [0]);
    assert EncodeAll([0]) == [0] by { EncodeNul(); }
  }

  lemma EncodeNul()
    ensures EncodeAll([0]) == [0]
  {
    assert [0][1..] == [];
    assert Enc(0) == [0];
  }

  lemma {:induction false} NoNul(s: Text)
    requires 0 !in s
    ensures 0 !in Points(s) && 0 !in Utf8(s)
  {
    hide Enc;
    if s != [] {
      NoNul(s[if StartsPair(s) then 2 else 1..]);
      assert Points(s)[0] != 0;
      assert Utf8(s) == Enc(Points(s)[0]) + EncodeAll(Points(s)[1..]);
    }
  }

  /** What stands before the first NUL can be told from what follows it. */
  lemma SplitAtNul(a: Bytes, x: Bytes, b: Bytes, y: Bytes)
    requires 0 !in a && 0 !in b && a + [0] + x == b + [0] + y
    ensures a == b && x == y
  {
    var all := a + [0] + x;
    assert all[|a|] == 0 && all[|b|] == 0;
    assert forall i :: 0 <= i < |a| ==> all[i] == a[i];
    assert forall i :: 0 <= i < |b| ==> all[i] == b[i];
    assert |a| == |b|;
    assert all[..|a|] == a && all[..|b|] == b;
    assert all[|a| + 1..] == x && all[|b| + 1..] == y;
  }
}

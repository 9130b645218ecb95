/** Signed integers of 2, 4 and 8 bytes in memory, least significant byte first. */
module IntCoding {
  import opened Bytes

  const INT16: nat := 2
  const INT32: nat := 4
  const INT64: nat := 8

  predicate IsEncoding(e: nat) { e == INT16 || e == INT32 || e == INT64 }

  /** 256^n / 2 */
  function Half(e: nat): (h: nat)
    requires IsEncoding(e)
    ensures h > 0
  {
    if e == INT16 then 0x8000 else if e == INT32 then 0x8000_0000 else 0x8000_0000_0000_0000
  }

  predicate InRange(v: int, e: nat)
    requires IsEncoding(e)
  {
    0 - Half(e) <= v < Half(e)
  }

  /** _intsetValueEncoding */
  function ValueEncoding(v: int): (e: nat)
    requires InRange(v, INT64)
    ensures IsEncoding(e) && InRange(v, e)
    ensures forall e' :: IsEncoding(e') && InRange(v, e') ==> e <= e'
  {
    if v < -0x8000_0000 || v > 0x7fff_ffff then INT64
    else if v < -0x8000 || v > 0x7fff then INT32
    else INT16
  }

  function Unsigned(s: seq<Byte>): nat {
    if s == [] then 0 else s[0] + 256 * Unsigned(s[1..])
  }

  function Digits(u: nat, n: nat): (s: seq<Byte>)
    ensures |s| == n
    decreases n
  {
    if n == 0 then [] else [u % 256] + Digits(u / 256, n - 1)
  }

  function Pow256(n: nat): (p: nat)
    ensures p > 0
  {
    if n == 0 then 1 else 256 * Pow256(n - 1)
  }

  lemma {:induction false} Powers()
    ensures Pow256(2) == 0x1_0000 && Pow256(4) == 0x1_0000_0000 && Pow256(8) == 0x1_0000_0000_0000_0000
  {
    assert Pow256(6) == 0x1_0000_0000_0000;
  }

  lemma {:induction false} DigitsBack(u: nat, n: nat)
    requires u < Pow256(n)
    ensures Unsigned(Digits(u, n)) == u
    decreases n
  {
    if n > 0 {
      Quotient(u, Pow256(n - 1));
      DigitsBack(u / 256, n - 1);
      assert Digits(u, n)[1..] == Digits(u / 256, n - 1);
    }
  }

  lemma {:induction false} Quotient(u: nat, p: nat)
    requires u < 256 * p
    ensures u / 256 < p
  {
  }

  /** The bytes of v in e bytes. */
  function Encoded(v: int, e: nat): (s: seq<Byte>)
    requires IsEncoding(e) && InRange(v, e)
    ensures |s| == e
  {
    Digits(if v < 0 then v + 2 * Half(e) else v, e)
  }

  function Decoded(s: seq<Byte>): int
    requires IsEncoding(|s|)
  {
    var u := Unsigned(s);
    if u >= Half(|s|) then u - 2 * Half(|s|) else u
  }

  lemma {:induction false} DecodedEncoded(v: int, e: nat)
    requires IsEncoding(e) && InRange(v, e)
    ensures Decoded(Encoded(v, e)) == v
  {
    Powers();
    DigitsBack(if v < 0 then v + 2 * Half(e) else v, e);
    hide Digits, Unsigned;
  }

  lemma {:induction false} UnsignedBound(s: seq<Byte>)
    ensures Unsigned(s) < Pow256(|s|)
    decreases |s|
  {
    if s != [] {
      UnsignedBound(s[1..]);
    }
  }

  lemma {:induction false} DecodedInRange(s: seq<Byte>)
    requires IsEncoding(|s|)
    ensures InRange(Decoded(s), |s|)
  {
    Powers();
    UnsignedBound(s);
    hide Unsigned;
  }

  lemma {:induction false} Wider(v: int, e: nat, f: nat)
    requires IsEncoding(e) && IsEncoding(f) && e <= f && InRange(v, e)
    ensures InRange(v, f)
  {
  }

  // ----- slots of a byte string -----

  function Slot(s: seq<Byte>, e: nat, i: nat): (t: seq<Byte>)
    requires e * (i + 1) <= |s|
    ensures |t| == e
  {
    SlotBounds(e, i);
    s[e * i..e * (i + 1)]
  }

  lemma {:induction false} SlotBounds(e: nat, i: nat)
    ensures 0 <= e * i && e * (i + 1) == e * i + e
  {
  }

  lemma {:induction false} SlotOrder(e: nat, i: nat, j: nat)
    requires i < j
    ensures e * (i + 1) <= e * j
  {
    if i + 1 < j {
      assert e * j == e * (i + 1) + e * (j - i - 1);
      Product(e, j - i - 1);
    }
  }

  lemma {:induction false} Product(a: nat, b: nat)
    ensures a * b >= 0
  {
  }

  /** The values in the slots of a string of n slots. */
  function Values(s: seq<Byte>, e: nat, n: nat): (vs: seq<int>)
    requires IsEncoding(e) && |s| >= e * n
    ensures |vs| == n
    decreases n
  {
    if n == 0 then [] else
    SlotBounds(e, n - 1);
    Values(s, e, n - 1) + [Decoded(Slot(s, e, n - 1))]
  }

  lemma {:induction false} ValueAt(s: seq<Byte>, e: nat, n: nat, i: nat)
    requires IsEncoding(e) && |s| >= e * n && i < n
    ensures e * (i + 1) <= |s| && Values(s, e, n)[i] == Decoded(Slot(s, e, i))
    decreases n
  {
    hide Decoded;
    SlotBounds(e, n - 1);
    if i < n - 1 { ValueAt(s, e, n - 1, i); }
  }

  lemma {:induction false} ValuesInRange(s: seq<Byte>, e: nat, n: nat, i: nat)
    requires IsEncoding(e) && |s| >= e * n && i < n
    ensures InRange(Values(s, e, n)[i], e)
  {
    ValueAt(s, e, n, i);
    DecodedInRange(Slot(s, e, i));
  }

  /** The bytes of an encoding: the least significant first, negative numbers in two's complement. */
  lemma {:induction false} DigitAt(u: nat, n: nat, i: nat)
    requires i < n
    ensures Digits(u, n)[i] == u / Pow256(i) % 256
    decreases n
  {
    if i > 0 {
      DigitAt(u / 256, n - 1, i - 1);
      DivideTwice(u, Pow256(i - 1));
    }
  }

  lemma {:induction false} DivideTwice(u: nat, p: nat)
    requires p > 0
    ensures u / 256 / p == u / (256 * p)
  {
    var q := u / 256 / p;
    var r, t := u / 256 % p, u % 256;
    assert u == 256 * (q * p + r) + t;
    assert u == q * (256 * p) + (256 * r + t);
    Quotient2(u, 256 * p, q, 256 * r + t);
  }

  lemma {:induction false} Quotient2(u: nat, d: nat, q: nat, r: nat)
    requires d > 0 && r < d && u == q * d + r
    ensures u / d == q
  {
    var k := u / d - q;
    assert u == (u / d) * d + u % d;
    assert k * d == r - u % d;
    Multiples(k, d);
  }

  lemma {:induction false} Multiples(k: int, d: nat)
    ensures k >= 1 ==> k * d >= d
    ensures k <= -1 ==> k * d <= 0 - d
  {
  }

  lemma {:induction false} EncodedByte(v: int, e: nat, i: nat)
    requires IsEncoding(e) && InRange(v, e) && i < e
    ensures Encoded(v, e)[i] == (if v < 0 then v + Pow256(e) else v) / Pow256(i) % 256
  {
    Powers();
    DigitAt(if v < 0 then v + 2 * Half(e) else v, e, i);
  }
}

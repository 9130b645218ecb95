/** The unsigned longs of the hash table code, as 64 booleans with the least significant first.
    Bitwise operations keep the length, so they are defined on sequences of any length. */
module Words {

  const WIDTH: nat := 64

  type Bits = seq<bool>
  type Word = w: Bits | |w| == WIDTH witness seq(WIDTH, _ => false)

  /** n copies of b. */
  function Fill(b: bool, n: nat): (r: Bits)
    ensures |r| == n && forall i :: 0 <= i < n ==> r[i] == b
  {
    seq(n, _ => b)
  }

  function And(a: Bits, b: Bits): (r: Bits)
    requires |a| == |b|
    ensures |r| == |a| && forall i :: 0 <= i < |a| ==> r[i] == (a[i] && b[i])
  {
    seq(|a|, i requires 0 <= i < |a| => a[i] && b[i])
  }

  function Or(a: Bits, b: Bits): (r: Bits)
    requires |a| == |b|
    ensures |r| == |a| && forall i :: 0 <= i < |a| ==> r[i] == (a[i] || b[i])
  {
    seq(|a|, i requires 0 <= i < |a| => a[i] || b[i])
  }

  function Xor(a: Bits, b: Bits): (r: Bits)
    requires |a| == |b|
    ensures |r| == |a| && forall i :: 0 <= i < |a| ==> r[i] == (a[i] != b[i])
  {
    seq(|a|, i requires 0 <= i < |a| => a[i] != b[i])
  }

  function Not(a: Bits): (r: Bits)
    ensures |r| == |a| && forall i :: 0 <= i < |a| ==> r[i] == !a[i]
  {
    seq(|a|, i requires 0 <= i < |a| => !a[i])
  }

  /** a << n: towards the higher indices. */
  function Shl(a: Bits, n: nat): (r: Bits)
    requires n <= |a|
    ensures |r| == |a| && forall i :: 0 <= i < |a| ==> r[i] == (i >= n && a[i - n])
  {
    Fill(false, n) + a[..|a| - n]
  }

  /** a >> n: towards index 0. */
  function Shr(a: Bits, n: nat): (r: Bits)
    requires n <= |a|
    ensures |r| == |a| && forall i :: 0 <= i < |a| ==> r[i] == (i + n < |a| && a[i + n])
  {
    a[n..] + Fill(false, n)
  }

  /** a + 1, wrapping around. */
  function Inc(a: Bits): (r: Bits)
    ensures |r| == |a|
  {
    if a == [] then [] else if a[0] then [false] + Inc(a[1..]) else [true] + a[1..]
  }

  function Reverse(a: Bits): (r: Bits)
    ensures |r| == |a| && forall i :: 0 <= i < |a| ==> r[i] == a[|a| - 1 - i]
  {
    seq(|a|, i requires 0 <= i < |a| => a[|a| - 1 - i])
  }

  function Value(a: Bits): nat {
    if a == [] then 0 else (if a[0] then 1 else 0) + 2 * Value(a[1..])
  }

  /** The n low binary digits of v. */
  function Digits(v: nat, n: nat): (r: Bits)
    ensures |r| == n
  {
    if n == 0 then [] else [v % 2 == 1] + Digits(v / 2, n - 1)
  }

  function Pow2(k: nat): nat {
    if k == 0 then 1 else 2 * Pow2(k - 1)
  }

  /** The word 2^k - 1. */
  function Mask(k: nat): Word
    requires k <= WIDTH
  {
    Fill(true, k) + Fill(false, WIDTH - k)
  }

  /** a comes before b when the first bit (from index 0) in which they differ is set in b only;
      on the reversed words this is the unsigned comparison. */
  predicate Before(a: Bits, b: Bits)
    requires |a| == |b|
  {
    a != [] && if a[0] == b[0] then Before(a[1..], b[1..]) else b[0]
  }

  lemma {:induction false} ValueBound(a: Bits)
    ensures Value(a) < Pow2(|a|)
  {
    if a != [] { ValueBound(a[1..]); }
  }

  lemma {:induction false} ValueInjective(a: Bits, b: Bits)
    requires |a| == |b| && Value(a) == Value(b)
    ensures a == b
  {
    if a != [] {
      ValueInjective(a[1..], b[1..]);
      assert a == [a[0]] + a[1..] && b == [b[0]] + b[1..];
    }
  }

  lemma {:induction false} DoubleProduct(p: int, x: int)
    ensures (2 * p) * x == 2 * (p * x)
  {
  }

  lemma {:induction false} ValueAppend(a: Bits, b: Bits)
    ensures Value(a + b) == Value(a) + Pow2(|a|) * Value(b)
  {
    if a == [] {
      assert a + b == b;
    } else {
      ValueAppend(a[1..], b);
      assert (a + b)[1..] == a[1..] + b;
      DoubleProduct(Pow2(|a| - 1), Value(b));
    }
  }

  lemma {:induction false} ValueZero(n: nat)
    ensures Value(Fill(false, n)) == 0
  {
    if n > 0 {
      ValueZero(n - 1);
      assert Fill(false, n)[1..] == Fill(false, n - 1);
    }
  }

  lemma {:induction false} IncValue(a: Bits)
    ensures a != Fill(true, |a|) ==> Value(Inc(a)) == Value(a) + 1
    ensures a == Fill(true, |a|) ==> Inc(a) == Fill(false, |a|)
  {
    if a != [] {
      if a[0] {
        IncValue(a[1..]);
        assert a == [true] + a[1..];
        assert a == Fill(true, |a|) <==> a[1..] == Fill(true, |a| - 1);
        assert Fill(false, |a|) == [false] + Fill(false, |a| - 1);
        assert Inc(a)[1..] == Inc(a[1..]);
      } else {
        assert Inc(a)[1..] == a[1..];
      }
    } else {
      assert a == Fill(true, 0) == Fill(false, 0);
    }
  }

  /** The mask the code computes as size - 1. */
  lemma {:induction false} DigitsMask(k: nat, n: nat)
    requires k <= n
    ensures Pow2(k) >= 1 && Digits(Pow2(k) - 1, n) == Fill(true, k) + Fill(false, n - k)
  {
    if k == 0 {
      DigitsZero(n);
      assert Fill(true, 0) + Fill(false, n) == Fill(false, n);
    } else {
      DigitsMask(k - 1, n - 1);
      assert (Pow2(k) - 1) / 2 == Pow2(k - 1) - 1;
      assert [true] + (Fill(true, k - 1) + Fill(false, n - k)) == Fill(true, k) + Fill(false, n - k);
    }
  }

  lemma {:induction false} DigitsZero(n: nat)
    ensures Digits(0, n) == Fill(false, n)
  {
    if n > 0 {
      DigitsZero(n - 1);
      assert [false] + Fill(false, n - 1) == Fill(false, n);
    }
  }
}

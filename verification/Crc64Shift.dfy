/** The bit-wise step of the CRC: a linear, injective map of 64-bit words. */
module Crc64Shift {
  /** The reflected polynomial. */
  const POLY: bv64 := 0x95ac_9329_ac4b_c9b5

  function Half(c: bv64): bv64 { c >> 1 }

  /** What the bit that is shifted out feeds back. */
  function Feedback(c: bv64): bv64 {
    if c & 1 == 1 then POLY else 0
  }

  function Xor(a: bv64, b: bv64): bv64 { a ^ b }

  /** One bit shifted through the polynomial. */
  function Shift(c: bv64): bv64 {
    Xor(Half(c), Feedback(c))
  }

  function Shift2(c: bv64): bv64 { Shift(Shift(c)) }
  function Shift4(c: bv64): bv64 { Shift2(Shift2(c)) }
  function Shift8(c: bv64): bv64 { Shift4(Shift4(c)) }

  // ----- linear -----

  lemma {:induction false} HalfFact(a: bv64, b: bv64)
    ensures (a ^ b) >> 1 == (a >> 1) ^ (b >> 1)
  {
  }

  lemma {:induction false} BitFacts(a: bv64, b: bv64)
    ensures (a ^ b) & 1 == (a & 1) ^ (b & 1) && (a & 1 == 0 || a & 1 == 1) && (b & 1 == 0 || b & 1 == 1)
  {
  }

  lemma {:induction false} HalfXor(a: bv64, b: bv64)
    ensures Half(Xor(a, b)) == Xor(Half(a), Half(b))
  {
    HalfFact(a, b);
  }

  lemma {:induction false} FeedbackXor(a: bv64, b: bv64)
    ensures Feedback(Xor(a, b)) == Xor(Feedback(a), Feedback(b))
  {
    BitFacts(a, b);
  }

  lemma {:induction false} XorComm(a: bv64, b: bv64)
    ensures Xor(a, b) == Xor(b, a)
  {
  }

  lemma {:induction false} XorAssoc(a: bv64, b: bv64, c: bv64)
    ensures Xor(Xor(a, b), c) == Xor(a, Xor(b, c))
  {
  }

  lemma {:induction false} XorFour(x: bv64, y: bv64, m: bv64, n: bv64)
    ensures Xor(Xor(x, y), Xor(m, n)) == Xor(Xor(x, m), Xor(y, n))
  {
    hide Xor;
    XorAssoc(x, y, Xor(m, n));
    XorAssoc(y, m, n);
    XorComm(y, m);
    XorAssoc(m, y, n);
    XorAssoc(x, m, Xor(y, n));
  }

  lemma {:induction false} ShiftXor(a: bv64, b: bv64)
    ensures Shift(Xor(a, b)) == Xor(Shift(a), Shift(b))
  {
    hide Half, Feedback, Xor;
    HalfXor(a, b);
    FeedbackXor(a, b);
    XorFour(Half(a), Half(b), Feedback(a), Feedback(b));
  }

  lemma {:induction false} Shift2Xor(a: bv64, b: bv64)
    ensures Shift2(Xor(a, b)) == Xor(Shift2(a), Shift2(b))
  {
    hide Xor, Shift;
    ShiftXor(a, b);
    ShiftXor(Shift(a), Shift(b));
  }

  lemma {:induction false} Shift4Xor(a: bv64, b: bv64)
    ensures Shift4(Xor(a, b)) == Xor(Shift4(a), Shift4(b))
  {
    hide Xor, Shift2;
    Shift2Xor(a, b);
    Shift2Xor(Shift2(a), Shift2(b));
  }

  lemma {:induction false} Shift8Xor(a: bv64, b: bv64)
    ensures Shift8(Xor(a, b)) == Xor(Shift8(a), Shift8(b))
  {
    hide Xor, Shift4;
    Shift4Xor(a, b);
    Shift4Xor(Shift4(a), Shift4(b));
  }

  // ----- injective -----

  function Unshift(c: bv64): bv64 {
    if c >> 63 == 1 then ((c ^ POLY) << 1) | 1 else c << 1
  }

  lemma {:induction false} UnshiftShift(c: bv64)
    ensures Unshift(Shift(c)) == c
  {
  }

  lemma {:induction false} ShiftInjective(a: bv64, b: bv64)
    requires Shift(a) == Shift(b)
    ensures a == b
  {
    hide Shift, Unshift;
    UnshiftShift(a);
    UnshiftShift(b);
  }

  lemma {:induction false} Shift2Injective(a: bv64, b: bv64)
    requires Shift2(a) == Shift2(b)
    ensures a == b
  {
    hide Shift;
    ShiftInjective(Shift(a), Shift(b));
    ShiftInjective(a, b);
  }

  lemma {:induction false} Shift4Injective(a: bv64, b: bv64)
    requires Shift4(a) == Shift4(b)
    ensures a == b
  {
    hide Shift2;
    Shift2Injective(Shift2(a), Shift2(b));
    Shift2Injective(a, b);
  }

  lemma {:induction false} Shift8Injective(a: bv64, b: bv64)
    requires Shift8(a) == Shift8(b)
    ensures a == b
  {
    hide Shift4;
    Shift4Injective(Shift4(a), Shift4(b));
    Shift4Injective(a, b);
  }

  /** Bits that are zero are shifted out without feedback. */
  lemma {:induction false} Shift8Zeros(c: bv64)
    ensures Shift8(c << 8) == (c << 8) >> 8
  {
  }

  lemma {:induction false} XorSame(a: bv64)
    ensures Xor(a, a) == 0 && Xor(a, 0) == a
  {
  }
}

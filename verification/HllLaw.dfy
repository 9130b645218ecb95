/** The sum that the estimate is made from, by the values of the registers. */
module HllLaw {
  import opened Words
  import opened HllSketch

  /** PE[j] is 1.0/(1ULL << j). */
  lemma {:induction false} PEIs(reg: nat)
    ensures Pow2(reg) > 0 && PE(reg) * (Pow2(reg) as real) == 1.0
    ensures PE(reg) == 1.0 / (Pow2(reg) as real)
  {
    if reg > 0 {
      PEIs(reg - 1);
      HalfTimesTwice(PE(reg - 1), Pow2(reg - 1) as real);
    }
    QuotientIs(PE(reg), Pow2(reg) as real);
  }

  lemma {:induction false} HalfTimesTwice(x: real, y: real)
    ensures (x / 2.0) * (2.0 * y) == x * y
  {
  }

  lemma {:induction false} QuotientIs(x: real, y: real)
    requires y > 0.0 && x * y == 1.0
    ensures x == 1.0 / y
  {
  }

  /** How many registers have the value v. */
  function HowMany(r: seq<nat>, v: nat): nat {
    if r == [] then 0 else HowMany(r[..|r| - 1], v) + if r[|r| - 1] == v then 1 else 0
  }

  /** The number of registers of each value below n, divided by 2 to that value. */
  function Weighed(r: seq<nat>, n: nat): real {
    if n == 0 then 0.0
    else assert Pow2(n - 1) > 0 by { PEIs(n - 1); } Weighed(r,
        n - 1) + (HowMany(r, n - 1) as real) / (Pow2(n - 1) as real)
  }

  lemma {:induction false} WeighedNone(n: nat)
    ensures Weighed([], n) == 0.0
  {
    if n > 0 {
      WeighedNone(n - 1);
      PEIs(n - 1);
    }
  }

  lemma {:induction false} WeighedMore(r: seq<nat>, x: nat, n: nat)
    ensures Weighed(r + [x], n) == Weighed(r, n) + if x < n then PE(x) else 0.0
    decreases n
  {
    if n > 0 {
      WeighedMore(r, x, n - 1);
      PEIs(n - 1);
      assert (r + [x])[..|r|] == r;
      var y := Pow2(n - 1) as real;
      if x == n - 1 {
        assert HowMany(r + [x], n - 1) == HowMany(r, n - 1) + 1;
        SumOfQuotients(HowMany(r, n - 1) as real, y);
      }
    }
  }

  lemma {:induction false} SumOfQuotients(x: real, y: real)
    requires y > 0.0
    ensures (x + 1.0) / y == x / y + 1.0 / y
  {
  }

  /** The sum is the number of registers of each value divided by 2 to that value, and the zeros are those of value 0,
      whatever the order of the registers. */
  lemma {:induction false} SumByValues(r: seq<nat>)
    requires forall i :: 0 <= i < |r| ==> r[i] < 64
    ensures Sum(r) == Weighed(r, 64) && ZeroCount(r) == HowMany(r, 0)
  {
    if r == [] {
      WeighedNone(64);
    } else {
      var n := |r| - 1;
      SumByValues(r[..n]);
      assert r == r[..n] + [r[n]];
      hide PE, Weighed;
      WeighedMore(r[..n], r[n], 64);
    }
  }
}

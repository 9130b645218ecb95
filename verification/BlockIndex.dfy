/** Index arithmetic for reversing the bits of a 64-bit word by halves. */
module BlockIndex {

  /** The index that i stands for once the blocks of s bits are in reverse order. */
  function BlockReversed(i: nat, s: nat): int
    requires s > 0
  {
    (64 / s - 1 - i / s) * s + i % s
  }

  /** i is in an even-numbered block of s bits. */
  predicate Even(i: nat, s: nat)
    requires s > 0
  {
    i / s % 2 == 0
  }

  /** How the blocks of s bits lie in the blocks of 2 * s bits. */
  predicate Halved(i: nat, s: nat)
    requires s > 0
  {
    && (Even(i, s) ==>
          && i + s < 64 && BlockReversed(i, s) == BlockReversed(i + s, 2 * s)
          && (i >= s ==> Even(i, 2 * s) != Even(i - s, 2 * s))
          && (i < s ==> Even(i, 2 * s)))
    && (!Even(i, s) ==>
          && i - s >= 0 && BlockReversed(i, s) == BlockReversed(i - s, 2 * s)
          && Even(i - s, 2 * s) == Even(i, 2 * s))
  }

  lemma {:induction false} Halved32(i: nat)
    requires i < 64
    ensures Halved(i, 32)
  {
    assert i / 64 == 0;
  }

  lemma {:induction false} Halved16(i: nat)
    requires i < 64
    ensures Halved(i, 16)
  {
  }

  lemma {:induction false} Halved8(i: nat)
    requires i < 64
    ensures Halved(i, 8)
  {
  }

  lemma {:induction false} Halved4(i: nat)
    requires i < 64
    ensures Halved(i, 4)
  {
  }

  lemma {:induction false} Halved2(i: nat)
    requires i < 64
    ensures Halved(i, 2)
  {
  }

  lemma {:induction false} Halved1(i: nat)
    requires i < 64
    ensures Halved(i, 1)
  {
  }

  predicate Stage(s: nat) {
    s == 32 || s == 16 || s == 8 || s == 4 || s == 2 || s == 1
  }

  lemma {:induction false} HalfBlocks(i: nat, s: nat)
    requires i < 64 && Stage(s)
    ensures Halved(i, s)
  {
    hide Halved;
    if s == 32 { Halved32(i); }
    else if s == 16 { Halved16(i); }
    else if s == 8 { Halved8(i); }
    else if s == 4 { Halved4(i); }
    else if s == 2 { Halved2(i); }
    else { Halved1(i); }
  }

  lemma {:induction false} Ends(i: nat)
    requires i < 64
    ensures BlockReversed(i, 64) == i && BlockReversed(i, 1) == 63 - i && Even(i, 64)
  {
  }
}

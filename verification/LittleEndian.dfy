/** Words in memory, least significant byte first. */
module LittleEndian {
  import opened Crc64Shift

  type Bytes = seq<bv8>

  function Wide(b: bv8): bv64 { b as bv64 }
  function Up(w: bv64): bv64 { w << 8 }
  function Down(w: bv64): bv64 { w >> 8 }

  /** The bytes as a little-endian word. */
  function Word(u: Bytes): bv64
    decreases |u|
  {
    if u == [] then 0 else Xor(Wide(u[0]), Up(Word(u[1..])))
  }

  /** w has at most n bytes. */
  predicate Fits(w: bv64, n: nat) {
    match n
    case 0 => w == 0
    case 1 => w >> 8 == 0
    case 2 => w >> 16 == 0
    case 3 => w >> 24 == 0
    case 4 => w >> 32 == 0
    case 5 => w >> 40 == 0
    case 6 => w >> 48 == 0
    case 7 => w >> 56 == 0
    case _ => true
  }

  lemma {:induction false} FitsMore(b: bv8, w: bv64, n: nat)
    requires Fits(w, n) && n < 8
    ensures Fits(Xor(Wide(b), Up(w)), n + 1)
  {
  }

  lemma {:induction false} FitsSeven(w: bv64, n: nat)
    requires Fits(w, n) && n < 8
    ensures Down(Up(w)) == w
  {
  }

  lemma {:induction false} WordFits(u: Bytes)
    requires |u| <= 8
    ensures Fits(Word(u), |u|)
    decreases |u|
  {
    hide Xor, Wide, Up;
    if u != [] {
      WordFits(u[1..]);
      FitsMore(u[0], Word(u[1..]), |u| - 1);
    }
  }

  lemma {:induction false} Parts(b: bv8, c: bv8, w: bv64, x: bv64)
    requires Xor(Wide(b), Up(w)) == Xor(Wide(c), Up(x))
    ensures b == c && Up(w) == Up(x)
  {
  }

  /** Different bytes make different words. */
  lemma {:induction false} WordInjective(u: Bytes, v: Bytes)
    requires |u| == |v| <= 8 && Word(u) == Word(v)
    ensures u == v
    decreases |u|
  {
    hide Xor, Wide, Up, Down, Fits;
    if u != [] {
      Parts(u[0], v[0], Word(u[1..]), Word(v[1..]));
      WordFits(u[1..]);
      WordFits(v[1..]);
      FitsSeven(Word(u[1..]), |u| - 1);
      FitsSeven(Word(v[1..]), |u| - 1);
      WordInjective(u[1..], v[1..]);
      assert u == [u[0]] + u[1..] && v == [v[0]] + v[1..];
    }
  }

  /** The n low bytes of a number in memory, least significant first. */
  function LittleBytes(w: bv64, n: nat): (s: Bytes)
    ensures |s| == n
    decreases n
  {
    if n == 0 then [] else [LowByte(w)] + LittleBytes(Down(w), n - 1)
  }

  function LowByte(w: bv64): bv8 { (w & 255) as bv8 }

  lemma {:induction false} LowAndRest(w: bv64)
    ensures Xor(Wide(LowByte(w)), Up(Down(w))) == w
  {
  }

  lemma {:induction false} FitsLess(w: bv64, n: nat)
    requires 0 < n <= 8 && Fits(w, n)
    ensures Fits(Down(w), n - 1)
  {
    hide Down;
    match n
    case 1 => Less1(w);
    case 2 => Less2(w);
    case 3 => Less3(w);
    case 4 => Less4(w);
    case 5 => Less5(w);
    case 6 => Less6(w);
    case 7 => Less7(w);
    case 8 => Less8(w);
  }

  lemma {:induction false} Less1(w: bv64) requires w >> 8 == 0 ensures Down(w) == 0 {}
  lemma {:induction false} Less2(w: bv64) requires w >> 16 == 0 ensures Down(w) >> 8 == 0 {}
  lemma {:induction false} Less3(w: bv64) requires w >> 24 == 0 ensures Down(w) >> 16 == 0 {}
  lemma {:induction false} Less4(w: bv64) requires w >> 32 == 0 ensures Down(w) >> 24 == 0 {}
  lemma {:induction false} Less5(w: bv64) requires w >> 40 == 0 ensures Down(w) >> 32 == 0 {}
  lemma {:induction false} Less6(w: bv64) requires w >> 48 == 0 ensures Down(w) >> 40 == 0 {}
  lemma {:induction false} Less7(w: bv64) requires w >> 56 == 0 ensures Down(w) >> 48 == 0 {}
  lemma {:induction false} Less8(w: bv64) ensures Down(w) >> 56 == 0 {}

  lemma {:induction false} WordOfLittleBytes(w: bv64, n: nat)
    requires n <= 8 && Fits(w, n)
    ensures Word(LittleBytes(w, n)) == w
    decreases n
  {
    if n > 0 {
      FitsLess(w, n);
      LowAndRest(w);
      hide Fits, Xor, Up, Down, Wide, LowByte;
      WordOfLittleBytes(Down(w), n - 1);
      assert LittleBytes(w, n)[1..] == LittleBytes(Down(w), n - 1);
    }
  }
}

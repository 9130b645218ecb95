/** The dense encoding: registers of 6 bits packed into bytes, least significant bits first. The shifts
    and masks of the macros are written as divisions and remainders by powers of two. */
module HllDense {
  import opened Bytes
  import opened HllSketch

  /** The bytes of the registers and the null byte that ends the string. */
  const DENSE_BYTES: nat := 12289

  /** 2^n for the shift counts that occur. */
  function P2(n: nat): (p: nat)
    requires n <= 8
    ensures p > 0
  {
    if n == 0 then 1 else if n == 2 then 4 else if n == 4 then 16 else if n == 6 then 64 else 256
  }

  /** HLL_DENSE_GET_REGISTER on the two bytes that hold it: ((b0 >> fb) | (b1 << 8 - fb)) & 63 */
  function GetBits(b0: Byte, b1: Byte, fb: nat): (v: nat)
    requires fb == 0 || fb == 2 || fb == 4 || fb == 6
    ensures v < 64
  {
    var low: int := b0 / P2(fb);
    var high: int := b1;
    (low + high * P2(8 - fb)) % 64
  }

  /** HLL_DENSE_SET_REGISTER on the first byte: b & ~(63 << fb) | v << fb, in 8 bits */
  function SetFirst(b: Byte, fb: nat, v: nat): Byte
    requires (fb == 0 || fb == 2 || fb == 4 || fb == 6) && v < 64
  {
    var kept: int := b % P2(fb);
    var above: int := if fb == 0 then b / 64 * 64 else 0;
    kept + v * P2(fb) % 256 + above
  }

  /** and on the second: b & ~(63 >> 8 - fb) | v >> 8 - fb */
  function SetSecond(b: Byte, fb: nat, v: nat): Byte
    requires (fb == 0 || fb == 2 || fb == 4 || fb == 6) && v < 64
  {
    if fb == 6 then (var kept: int := b / 16 * 16; kept + v / 4)
    else if fb == 4 then (var kept: int := b / 4 * 4; kept + v / 16)
    else b
  }

  function ByteOf(reg: nat): nat { reg * 6 / 8 }

  function ShiftOf(reg: nat): (fb: nat)
    ensures fb == 0 || fb == 2 || fb == 4 || fb == 6
  {
    reg * 6 % 8
  }

  function Get(p: seq<Byte>, reg: nat): (v: nat)
    requires |p| == DENSE_BYTES && reg < REGISTERS
    ensures v < 64
  {
    GetBits(p[ByteOf(reg)], p[ByteOf(reg) + 1], ShiftOf(reg))
  }

  function Set(p: seq<Byte>, reg: nat, v: nat): (p': seq<Byte>)
    requires |p| == DENSE_BYTES && reg < REGISTERS && v < 64
    ensures |p'| == |p|
  {
    var b := ByteOf(reg);
    var q := p[b := SetFirst(p[b], ShiftOf(reg), v)];
    q[b + 1 := SetSecond(q[b + 1], ShiftOf(reg), v)]
  }

  function Regs(p: seq<Byte>): Registers
    requires |p| == DENSE_BYTES
  {
    seq(REGISTERS, i requires 0 <= i < REGISTERS => Get(p, i))
  }

  // ----- a register written is read back, and its neighbours are left alone -----

  lemma {:induction false} Get0(b0: Byte, b1: Byte) ensures GetBits(b0, b1, 0) == b0 % 64 {}

  lemma {:induction false} Remainder64(x: int, k: int)
    requires 0 <= x < 64
    ensures (x + 64 * k) % 64 == x
  {
  }

  lemma {:induction false} Get6(b0: Byte, b1: Byte)
    ensures GetBits(b0, b1, 6) == b0 / 64 + b1 % 16 * 4
  {
    var low: int, h: int := b0 / 64 + b1 % 16 * 4, b1 / 16;
    assert b0 / 64 + (b1 as int) * 4 == low + 64 * h;
    Remainder64(low, h);
  }

  lemma {:induction false} Get4(b0: Byte, b1: Byte)
    ensures GetBits(b0, b1, 4) == b0 / 16 + b1 % 4 * 16
  {
    var low: int, h: int := b0 / 16 + b1 % 4 * 16, b1 / 4;
    assert b0 / 16 + (b1 as int) * 16 == low + 64 * h;
    Remainder64(low, h);
  }

  lemma {:induction false} Get2(b0: Byte, b1: Byte) ensures GetBits(b0, b1, 2) == b0 / 4 {}

  /** The four registers of a group of three bytes. */
  function Group(b0: Byte, b1: Byte, b2: Byte): (int, int, int, int) {
    (b0 % 64, b0 / 64 + b1 % 16 * 4, b1 / 16 + b2 % 4 * 16, b2 / 4)
  }

  lemma {:induction false} SetGroup0(b0: Byte, b1: Byte, b2: Byte, v: nat)
    requires v < 64
    ensures Group(SetFirst(b0, 0, v), SetSecond(b1, 0, v), b2) == Group(b0, b1, b2).(0 := v)
  {
    var x: int := SetFirst(b0, 0, v);
    assert x == b0 / 64 * 64 + v;
  }

  lemma {:induction false} Digits64(l: int, h: int)
    requires 0 <= l < 64
    ensures (l + h * 64) / 64 == h && (l + h * 64) % 64 == l
  {
  }

  lemma {:induction false} Digits16(l: int, h: int)
    requires 0 <= l < 16
    ensures (h * 16 + l) / 16 == h && (h * 16 + l) % 16 == l
  {
  }

  lemma {:induction false} Digits4(l: int, h: int)
    requires 0 <= l < 4
    ensures (h * 4 + l) / 4 == h && (h * 4 + l) % 4 == l
  {
  }

  /** v << 6 and v << 4, in 8 bits */
  lemma {:induction false} Shifted(v: nat)
    requires v < 64
    ensures v * 64 % 256 == v % 4 * 64 && v * 16 % 256 == v % 16 * 16
    ensures v == v / 4 * 4 + v % 4 && v == v / 16 * 16 + v % 16
  {
    assert v * 64 == v / 4 * 256 + v % 4 * 64;
    assert v * 16 == v / 16 * 256 + v % 16 * 16;
  }

  lemma {:induction false} SetGroup1(b0: Byte, b1: Byte, b2: Byte, v: nat)
    requires v < 64
    ensures Group(SetFirst(b0, 6, v), SetSecond(b1, 6, v), b2) == Group(b0, b1, b2).(1 := v)
  {
    Shifted(v);
    assert SetFirst(b0, 6, v) == b0 % 64 + v % 4 * 64 && SetSecond(b1, 6, v) == b1 / 16 * 16 + v / 4;
    Digits64(b0 % 64, v % 4);
    Digits16(v / 4, b1 / 16);
    var x: int, y: int := SetFirst(b0, 6, v), SetSecond(b1, 6, v);
    hide SetFirst, SetSecond;
    assert x % 64 == b0 % 64 && x / 64 == v % 4 && y / 16 == b1 / 16 && y % 16 == v / 4;
  }

  lemma {:induction false} SetGroup2(b0: Byte, b1: Byte, b2: Byte, v: nat)
    requires v < 64
    ensures Group(b0, SetFirst(b1, 4, v), SetSecond(b2, 4, v)) == Group(b0, b1, b2).(2 := v)
  {
    Shifted(v);
    assert SetFirst(b1, 4, v) == v % 16 * 16 + b1 % 16 && SetSecond(b2, 4, v) == b2 / 4 * 4 + v / 16;
    hide SetFirst, SetSecond;
    Digits16(b1 % 16, v % 16);
    Digits4(v / 16, b2 / 4);
  }

  lemma {:induction false} SetGroup3(b0: Byte, b1: Byte, b2: Byte, v: nat)
    requires v < 64
    ensures Group(b0, b1, SetFirst(b2, 2, v)) == Group(b0, b1, b2).(3 := v)
  {
    var x: int := SetFirst(b2, 2, v);
    assert x == b2 % 4 + v * 4;
  }

  /** The group of a register, and its place in the group. */
  lemma {:induction false} Position(reg: nat)
    ensures var q, i := reg / 4, reg % 4;
            && reg == 4 * q + i
            && ByteOf(reg) == 3 * q + (if i <= 1 then 0 else i - 1)
            && ShiftOf(reg) == (if i == 0 then 0 else if i == 1 then 6 else if i == 2 then 4 else 2)
  {
    var q, i := reg / 4, reg % 4;
    assert reg * 6 == 24 * q + 6 * i;
  }

  function GroupAt(p: seq<Byte>, q: nat): (int, int, int, int)
    requires |p| == DENSE_BYTES && q < REGISTERS / 4
  {
    Group(p[3 * q], p[3 * q + 1], p[3 * q + 2])
  }

  function Field(g: (int, int, int, int), i: nat): int
    requires i < 4
  {
    if i == 0 then g.0 else if i == 1 then g.1 else if i == 2 then g.2 else g.3
  }

  lemma {:induction false} GetIs(p: seq<Byte>, reg: nat)
    requires |p| == DENSE_BYTES && reg < REGISTERS
    ensures Get(p, reg) == Field(GroupAt(p, reg / 4), reg % 4)
  {
    Position(reg);
    var b0, b1 := p[ByteOf(reg)], p[ByteOf(reg) + 1];
    Get0(b0, b1);
    Get6(b0, b1);
    Get4(b0, b1);
    Get2(b0, b1);
    hide GetBits, ByteOf, ShiftOf;
  }

  lemma {:induction false} SetIs(p: seq<Byte>, reg: nat, v: nat)
    requires |p| == DENSE_BYTES && reg < REGISTERS && v < 64
    ensures var g, g' := GroupAt(p, reg / 4), GroupAt(Set(p, reg, v), reg / 4);
            forall i :: 0 <= i < 4 ==> Field(g', i) == if i == reg % 4 then v else Field(g, i)
  {
    Position(reg);
    var q, i := reg / 4, reg % 4;
    var b0, b1, b2 := p[3 * q], p[3 * q + 1], p[3 * q + 2];
    if i == 0 { SetGroup0(b0, b1, b2, v); }
    else if i == 1 { SetGroup1(b0, b1, b2, v); }
    else if i == 2 { SetGroup2(b0, b1, b2, v); }
    else { SetGroup3(b0, b1, b2, v); }
    hide Group, ByteOf, ShiftOf, SetFirst;
  }

  lemma {:induction false} SetOther(p: seq<Byte>, reg: nat, v: nat, q: nat)
    requires |p| == DENSE_BYTES && reg < REGISTERS && v < 64 && q < REGISTERS / 4 && q != reg / 4
    ensures GroupAt(Set(p, reg, v), q) == GroupAt(p, q)
  {
    Position(reg);
    hide Group, ByteOf, ShiftOf, SetFirst;
  }

  /** Writing a register changes that register and no other. */
  lemma {:induction false} SetGet(p: seq<Byte>, reg: nat, v: nat)
    requires |p| == DENSE_BYTES && reg < REGISTERS && v < 64
    ensures Regs(Set(p, reg, v)) == Regs(p)[reg := v]
  {
    SetIs(p, reg, v);
    forall r | 0 <= r < REGISTERS ensures Get(Set(p, reg, v), r) == if r == reg then v else Get(p, r) {
      GetIs(p, r);
      GetIs(Set(p, reg, v), r);
      if r / 4 != reg / 4 { SetOther(p, reg, v, r / 4); }
      hide Get, Set, GroupAt, Field;
      assert r == r / 4 * 4 + r % 4 && reg == reg / 4 * 4 + reg % 4;
    }
  }

  // ----- the bits of the macros -----

  /** HLL_DENSE_GET_REGISTER with shifts and a mask, for each shift */
  lemma {:induction false} GetInBits0(b0: bv8, b1: bv8)
    ensures GetBits(b0 as int, b1 as int, 0) == ((((b0 as bv16) >> 0) | ((b1 as bv16) << 8)) & 63) as int
  {
    hide GetBits;
    Get0(b0 as int, b1 as int);
    Low0(b0, b1);
  }

  lemma {:induction false} GetInBits2(b0: bv8, b1: bv8)
    ensures GetBits(b0 as int, b1 as int, 2) == ((((b0 as bv16) >> 2) | ((b1 as bv16) << 6)) & 63) as int
  {
    hide GetBits;
    Get2(b0 as int, b1 as int);
    Low2(b0, b1);
  }

  lemma {:induction false} GetInBits4(b0: bv8, b1: bv8)
    ensures GetBits(b0 as int, b1 as int, 4) == ((((b0 as bv16) >> 4) | ((b1 as bv16) << 4)) & 63) as int
  {
    hide GetBits;
    Get4(b0 as int, b1 as int);
    Low4(b0, b1);
  }

  lemma {:induction false} GetInBits6(b0: bv8, b1: bv8)
    ensures GetBits(b0 as int, b1 as int, 6) == ((((b0 as bv16) >> 6) | ((b1 as bv16) << 2)) & 63) as int
  {
    hide GetBits;
    Get6(b0 as int, b1 as int);
    Low6(b0, b1);
  }

  lemma {:induction false} Low0(b0: bv8, b1: bv8)
    ensures ((((b0 as bv16) >> 0) | ((b1 as bv16) << 8)) & 63) as int == (b0 as int) % 64
  {
  }

  lemma {:induction false} Low2(b0: bv8, b1: bv8)
    ensures ((((b0 as bv16) >> 2) | ((b1 as bv16) << 6)) & 63) as int == (b0 as int) / 4
  {
  }

  lemma {:induction false} Low4(b0: bv8, b1: bv8)
    ensures ((((b0 as bv16) >> 4) | ((b1 as bv16) << 4)) & 63) as int == (b0 as int) / 16 + (b1 as int) % 4 * 16
  {
    assert (((b0 as bv16) >> 4) | ((b1 as bv16) << 4)) & 63 == ((b0 >> 4) | ((b1 & 3) << 4)) as bv16;
    Nibbles(b0);
    Quarter(b1);
    Joined(b0 >> 4, b1 & 3);
  }

  lemma {:induction false} Nibbles(b: bv8) ensures (b >> 4) as int == (b as int) / 16 {}
  lemma {:induction false} Quarter(b: bv8) ensures (b & 3) as int == (b as int) % 4 {}

  lemma {:induction false} Joined(x: bv8, y: bv8)
    requires x < 16 && y < 4
    ensures ((x | (y << 4)) as bv16) as int == x as int + (y as int) * 16
  {
  }

  lemma {:induction false} Low6(b0: bv8, b1: bv8)
    ensures ((((b0 as bv16) >> 6) | ((b1 as bv16) << 2)) & 63) as int == (b0 as int) / 64 + (b1 as int) % 16 * 4
  {
    assert (((b0 as bv16) >> 6) | ((b1 as bv16) << 2)) & 63 == ((b0 >> 6) | ((b1 & 15) << 2)) as bv16;
    TopTwo(b0);
    LowFour(b1);
    JoinedTwo(b0 >> 6, b1 & 15);
  }

  lemma {:induction false} TopTwo(b: bv8) ensures (b >> 6) as int == (b as int) / 64 {}
  lemma {:induction false} LowFour(b: bv8) ensures (b & 15) as int == (b as int) % 16 {}

  lemma {:induction false} JoinedTwo(x: bv8, y: bv8)
    requires x < 4 && y < 16
    ensures ((x | (y << 2)) as bv16) as int == x as int + (y as int) * 4
  {
  }
}

/** The sparse encoding of the registers: run-length opcodes. */
module HllSparse {
  import opened Bytes
  import opened HllSketch
  import Slices

  const VAL_MAX_VALUE: nat := 32
  const VAL_MAX_LEN: nat := 4
  const ZERO_MAX_LEN: nat := 64
  const XZERO_MAX_LEN: nat := 16384

  // ----- opcodes: 00xxxxxx, 01xxxxxx yyyyyyyy, 1vvvvvxx -----

  predicate IsZero(b: Byte) { b / 64 == 0 }
  predicate IsXZero(b: Byte) { b / 64 == 1 }
  predicate IsVal(b: Byte) { b >= 128 }

  function ZeroLen(b: Byte): nat { b % 64 + 1 }
  function XZeroLen(b: Byte, c: Byte): nat { var high: int := b % 64; high * 256 + c + 1 }
  function ValValue(b: Byte): (v: nat) ensures 1 <= v <= VAL_MAX_VALUE { b / 4 % 32 + 1 }
  function ValLen(b: Byte): (n: nat) ensures 1 <= n <= VAL_MAX_LEN { b % 4 + 1 }

  function ValSet(val: nat, len: nat): (b: Byte)
    requires 1 <= val <= VAL_MAX_VALUE && 1 <= len <= VAL_MAX_LEN
    ensures IsVal(b) && ValValue(b) == val && ValLen(b) == len
  {
    (val - 1) * 4 + (len - 1) + 128
  }

  function ZeroSet(len: nat): (b: Byte)
    requires 1 <= len <= ZERO_MAX_LEN
    ensures IsZero(b) && ZeroLen(b) == len
  {
    len - 1
  }

  function XZeroSet(len: nat): (s: seq<Byte>)
    requires 1 <= len <= XZERO_MAX_LEN
    ensures |s| == 2 && IsXZero(s[0]) && XZeroLen(s[0], s[1]) == len
  {
    var high := (len - 1) / 256;
    assert high < 64;
    [high + 64, (len - 1) % 256]
  }

  // ----- the registers that a string of opcodes stands for -----

  function OpLen(b: Byte): nat { if IsXZero(b) then 2 else 1 }

  function OpRun(s: seq<Byte>): (r: seq<nat>)
    requires s != [] && |s| >= OpLen(s[0])
    ensures r != []
  {
    if IsZero(s[0]) then Run(0, ZeroLen(s[0]))
    else if IsXZero(s[0]) then Run(0, XZeroLen(s[0], s[1]))
    else Run(ValValue(s[0]), ValLen(s[0]))
  }

  /** s consists of whole opcodes. */
  predicate Whole(s: seq<Byte>) {
    s == [] || (|s| >= OpLen(s[0]) && Whole(s[OpLen(s[0])..]))
  }

  function Regs(s: seq<Byte>): seq<nat>
    requires Whole(s)
  {
    if s == [] then [] else OpRun(s) + Regs(s[OpLen(s[0])..])
  }

  lemma {:induction false} RegsBounded(s: seq<Byte>)
    requires Whole(s)
    ensures forall i :: 0 <= i < |Regs(s)| ==> Regs(s)[i] <= VAL_MAX_VALUE
    decreases |s|
  {
    if s != [] {
      RegsBounded(s[OpLen(s[0])..]);
      assert forall i :: 0 <= i < |OpRun(s)| ==> OpRun(s)[i] <= VAL_MAX_VALUE;
    }
  }

  /** A valid sparse representation covers all registers. */
  predicate ValidSparse(s: seq<Byte>) {
    Whole(s) && |Regs(s)| == REGISTERS
  }

  /** The run of an opcode depends on the opcode only. */
  lemma {:induction false} OpRunPrefix(a: seq<Byte>, b: seq<Byte>)
    requires a != [] && |a| >= OpLen(a[0])
    ensures |a + b| >= OpLen(a[0]) && OpRun(a + b) == OpRun(a)
    ensures (a + b)[OpLen(a[0])..] == a[OpLen(a[0])..] + b
  {
  }

  lemma {:induction false} RegsAppend(a: seq<Byte>, b: seq<Byte>)
    requires Whole(a)
    ensures Whole(b) <==> Whole(a + b)
    ensures Whole(b) ==> Regs(a + b) == Regs(a) + Regs(b)
    decreases |a|
  {
    if a == [] {
      assert a + b == b;
    } else {
      OpRunPrefix(a, b);
      RegsAppend(a[OpLen(a[0])..], b);
      hide OpRun, OpLen;
    }
  }

  lemma {:induction false} RegsOne(s: seq<Byte>)
    requires s != [] && |s| == OpLen(s[0])
    ensures Whole(s) && Regs(s) == OpRun(s)
  {
    assert s[OpLen(s[0])..] == [];
  }

  /** The opcode at p of a string of opcodes. */
  function OpAt(s: seq<Byte>, p: nat): (r: seq<Byte>)
    requires p < |s| && p + OpLen(s[p]) <= |s|
    ensures r != [] && |r| == OpLen(r[0])
  {
    s[p..p + OpLen(s[p])]
  }

  lemma {:induction false} FirstOp(t: seq<Byte>)
    requires Whole(t) && t != []
    ensures var n := OpLen(t[0]);
            && |t| >= n && Whole(t[n..]) && Whole(t[..n])
            && Regs(t) == OpRun(t[..n]) + Regs(t[n..]) && Regs(t[..n]) == OpRun(t[..n])
  {
    var n := OpLen(t[0]);
    RegsOne(t[..n]);
    OpRunPrefix(t[..n], t[n..]);
    assert t[..n] + t[n..] == t;
  }

  /** What is before the opcode at p, the opcode, and what is after it. */
  lemma {:induction false} RegsAt(s: seq<Byte>, p: nat)
    requires Whole(s) && p < |s| && Whole(s[..p])
    ensures p + OpLen(s[p]) <= |s| && Whole(s[p + OpLen(s[p])..]) && Whole(s[..p + OpLen(s[p])])
    ensures Regs(s) == Regs(s[..p]) + OpRun(OpAt(s, p)) + Regs(s[p + OpLen(s[p])..])
    ensures Regs(s[..p + OpLen(s[p])]) == Regs(s[..p]) + OpRun(OpAt(s, p))
  {
    hide OpRun, OpLen, Regs, Whole;
    var a, t := s[..p], s[p..];
    Slices.Pieces(s, p, 0);
    RegsAppend(a, t);
    FirstOp(t);
    var n := OpLen(s[p]);
    Slices.Pieces(s, p, n);
    RegsAppend(a, OpAt(s, p));
    RegsAppend(s[..p + n], s[p + n..]);
  }

  /** Exchanging an opcode for opcodes n. */
  lemma {:induction false} Splice(s: seq<Byte>, p: nat, n: seq<Byte>)
    requires Whole(s) && p < |s| && Whole(s[..p]) && Whole(n)
    ensures p + OpLen(s[p]) <= |s| && Whole(s[p + OpLen(s[p])..])
    ensures var s' := s[..p] + n + s[p + OpLen(s[p])..];
            Whole(s') && Regs(s') == Regs(s[..p]) + Regs(n) + Regs(s[p + OpLen(s[p])..])
  {
    RegsAt(s, p);
    hide OpRun, OpLen, Regs, Whole;
    RegsAppend(s[..p], n);
    RegsAppend(s[..p] + n, s[p + OpLen(s[p])..]);
  }

  // ----- updating one register -----

  /** A run of zeros of the given length: ZERO if it fits, else XZERO. */
  function ZeroRun(len: nat): (s: seq<Byte>)
    requires 1 <= len <= XZERO_MAX_LEN
  {
    if len > ZERO_MAX_LEN then XZeroSet(len) else [ZeroSet(len)]
  }

  lemma {:induction false} ZeroRunIs(len: nat)
    requires 1 <= len <= XZERO_MAX_LEN
    ensures Whole(ZeroRun(len)) && Regs(ZeroRun(len)) == Run(0, len)
  {
    RegsOne(ZeroRun(len));
  }

  lemma {:induction false} ValIs(val: nat, len: nat)
    requires 1 <= val <= VAL_MAX_VALUE && 1 <= len <= VAL_MAX_LEN
    ensures Whole([ValSet(val, len)]) && Regs([ValSet(val, len)]) == Run(val, len)
  {
    RegsOne([ValSet(val, len)]);
  }

  /** One VAL opcode for two adjacent ones of the same value. */
  function Joined(x: Byte, y: Byte): Byte
    requires ValLen(x) + ValLen(y) <= VAL_MAX_LEN
  {
    ValSet(ValValue(x), ValLen(x) + ValLen(y))
  }

  lemma {:induction false} OneByte(x: Byte)
    requires IsVal(x)
    ensures OpLen(x) == 1
  {
  }

  lemma {:induction false} JoinedIs(x: Byte, y: Byte)
    requires IsVal(x) && IsVal(y) && ValValue(x) == ValValue(y) && ValLen(x) + ValLen(y) <= VAL_MAX_LEN
    ensures Whole([x]) && Whole([y]) && Whole([Joined(x, y)])
    ensures Regs([x]) + Regs([y]) == Regs([Joined(x, y)])
  {
    RegsOne([x]);
    RegsOne([y]);
    RegsOne([Joined(x, y)]);
  }

  lemma {:induction false} MergeVals(a: seq<Byte>, x: Byte, y: Byte, c: seq<Byte>)
    requires Whole(a) && Whole(c)
    requires IsVal(x) && IsVal(y) && ValValue(x) == ValValue(y) && ValLen(x) + ValLen(y) <= VAL_MAX_LEN
    ensures Whole(a + [x] + [y] + c) && Whole(a + [Joined(x, y)] + c)
    ensures Regs(a + [x] + [y] + c) == Regs(a + [Joined(x, y)] + c)
  {
    JoinedIs(x, y);
    hide Regs, Whole, ValValue, ValLen, IsVal, Joined;
    RegsAppend(a, [x]);
    RegsAppend(a + [x], [y]);
    RegsAppend(a + [x] + [y], c);
    RegsAppend(a, [Joined(x, y)]);
    RegsAppend(a + [Joined(x, y)], c);
    Slices.Assoc(Regs(a), Regs([x]), Regs([y]));
  }

  /** The bytes of s with the VAL opcodes at p and p + 1 merged. */
  function MergedAt(s: seq<Byte>, p: nat): seq<Byte>
    requires p + 1 < |s| && ValLen(s[p]) + ValLen(s[p + 1]) <= VAL_MAX_LEN
  {
    s[..p] + [Joined(s[p], s[p + 1])] + s[p + 2..]
  }

  lemma {:induction false} WholeAfter(s: seq<Byte>, p: nat)
    requires Whole(s) && p < |s| && Whole(s[..p]) && IsVal(s[p])
    ensures Whole(s[..p + 1]) && Whole(s[p + 1..])
  {
    OneByte(s[p]);
    hide Whole, OpLen, IsVal;
    RegsAt(s, p);
  }

  lemma {:induction false} MergedAtIs(s: seq<Byte>, p: nat)
    requires Whole(s) && p + 1 < |s| && Whole(s[..p]) && IsVal(s[p]) && IsVal(s[p + 1])
    requires ValValue(s[p]) == ValValue(s[p + 1]) && ValLen(s[p]) + ValLen(s[p + 1]) <= VAL_MAX_LEN
    ensures Whole(MergedAt(s, p)) && Regs(MergedAt(s, p)) == Regs(s) && p <= |MergedAt(s, p)|
            && MergedAt(s, p)[..p] == s[..p] && |MergedAt(s, p)| == |s| - 1
  {
    WholeAfter(s, p);
    WholeAfter(s, p + 1);
    hide Whole, Regs, IsVal, ValValue, ValLen, Joined;
    var a, x, y, c := s[..p], s[p], s[p + 1], s[p + 2..];
    Slices.TwoAt(s, p);
    MergeVals(a, x, y, c);
    Slices.Prefix(a, [Joined(x, y)], c);
  }

  // ----- the opcodes that take the place of one -----

  lemma {:induction false} UpdateMiddle(a: seq<nat>, m: seq<nat>, c: seq<nat>, i: nat, x: nat)
    requires i < |m|
    ensures (a + m + c)[|a| + i] == m[i]
    ensures (a + m + c)[|a| + i := x] == a + m[i := x] + c
  {
  }

  /** The register's value is that of its opcode, and exchanging the opcode for one with the register set
      sets it in the whole. */
  lemma {:induction false} SetInOp(s: seq<Byte>, p: nat, index: nat, n: seq<Byte>, x: nat)
    requires Whole(s) && p < |s| && Whole(s[..p]) && p + OpLen(s[p]) <= |s| && Whole(n)
    requires |Regs(s[..p])| <= index < |Regs(s[..p])| + |OpRun(OpAt(s, p))|
    requires Regs(n) == OpRun(OpAt(s, p))[index - |Regs(s[..p])| := x]
    ensures index < |Regs(s)| && Regs(s)[index] == OpRun(OpAt(s, p))[index - |Regs(s[..p])|]
    ensures Whole(s[..p] + n + s[p + OpLen(s[p])..])
    ensures Regs(s[..p] + n + s[p + OpLen(s[p])..]) == Regs(s)[index := x]
  {
    hide Whole, Regs, OpRun, OpAt, OpLen;
    RegsAt(s, p);
    Splice(s, p, n);
    UpdateMiddle(Regs(s[..p]), OpRun(OpAt(s, p)), Regs(s[p + OpLen(s[p])..]), index - |Regs(s[..p])|, x);
  }

  lemma {:induction false} ValueAt(s: seq<Byte>, p: nat, index: nat)
    requires Whole(s) && p < |s| && Whole(s[..p]) && p + OpLen(s[p]) <= |s|
    requires |Regs(s[..p])| <= index < |Regs(s[..p])| + |OpRun(OpAt(s, p))|
    ensures index < |Regs(s)| && Regs(s)[index] == OpRun(OpAt(s, p))[index - |Regs(s[..p])|]
  {
    hide Whole, Regs, OpRun, OpAt, OpLen;
    RegsAt(s, p);
    UpdateMiddle(Regs(s[..p]), OpRun(OpAt(s, p)), Regs(s[p + OpLen(s[p])..]), index - |Regs(s[..p])|, 0);
  }

  /** A run with one register changed, in three parts. */
  lemma {:induction false} RunWithOne(v: nat, a: nat, x: nat, b: nat)
    ensures Run(v, a) + Run(x, 1) + Run(v, b) == Run(v, a + 1 + b)[a := x]
  {
  }

  /** left, VAL(x, 1) and right, where left and right are opcodes for the parts of the run, or nothing. */
  lemma {:induction false} SplitIs(left: seq<Byte>, right: seq<Byte>, v: nat, a: nat, x: nat, b: nat)
    requires 1 <= x <= VAL_MAX_VALUE
    requires Whole(left) && Regs(left) == Run(v, a) && Whole(right) && Regs(right) == Run(v, b)
    ensures Whole(left + [ValSet(x, 1)] + right)
    ensures Regs(left + [ValSet(x, 1)] + right) == Run(v, a + 1 + b)[a := x]
  {
    ValIs(x, 1);
    hide Whole, Regs, ValSet, Run;
    RegsAppend(left, [ValSet(x, 1)]);
    RegsAppend(left + [ValSet(x, 1)], right);
    RunWithOne(v, a, x, b);
  }

  // ----- the bits of the opcodes -----

  /** The tests and the fields of the opcodes, as the macros take them out with shifts and masks. */
  lemma {:induction false} OpcodeBits(c: bv8)
    ensures IsZero(c as int) <==> c & 0xc0 == 0
    ensures IsXZero(c as int) <==> c & 0xc0 == 0x40
    ensures IsVal(c as int) <==> c & 0x80 != 0
  {
  }

  lemma {:induction false} LengthBits(c: bv8)
    ensures ZeroLen(c as int) == ((c & 0x3f) as int) + 1
    ensures ValLen(c as int) == ((c & 0x3) as int) + 1
  {
    Masked6(c);
    Masked2(c);
  }

  lemma {:induction false} Masked6(c: bv8) ensures (c & 0x3f) as int == (c as int) % 64 {}
  lemma {:induction false} Masked2(c: bv8) ensures (c & 0x3) as int == (c as int) % 4 {}

  lemma {:induction false} ValueBits(c: bv8)
    ensures ValValue(c as int) == (((c >> 2) & 0x1f) as int) + 1
  {
    Shifted2(c);
    Masked5(c >> 2);
  }

  lemma {:induction false} Shifted2(c: bv8) ensures (c >> 2) as int == (c as int) / 4 {}
  lemma {:induction false} Masked5(c: bv8) ensures (c & 0x1f) as int == (c as int) % 32 {}

  lemma {:induction false} XZeroBits(c: bv8, d: bv8)
    ensures XZeroLen(c as int, d as int) == (((((c & 0x3f) as bv16) << 8) | (d as bv16)) as int) + 1
  {
  }
}

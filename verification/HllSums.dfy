/** The three sums of hyperloglog.c, one for each encoding, against the one sum of the registers. */
module HllSums {
  import opened Bytes
  import opened HllSketch
  import Sparse = HllSparse
  import Dense = HllDense

  /** Four registers out of three bytes, as the unrolled loop of hllDenseSum reads them. */
  method Unpack(b0: Byte, b1: Byte, b2: Byte) returns (r0: nat, r1: nat, r2: nat, r3: nat)
    ensures (r0, r1, r2, r3) == Dense.Group(b0, b1, b2)
  {
    var x0: int, x1: int, x2: int := b0, b1, b2;
    r0 := x0 % 64;
    r1 := (x0 / 64 + x1 * 4) % 64;
    r2 := (x1 / 16 + x2 * 16) % 64;
    r3 := x2 / 4 % 64;
    Dense.Get6(b0, b1);
    Dense.Get4(b1, b2);
  }

  /** The registers that three bytes hold. */
  lemma {:induction false} GroupRegs(p: seq<Byte>, q: nat)
    requires |p| == Dense.DENSE_BYTES && q < REGISTERS / 4
    ensures var r, g := Dense.Regs(p), Dense.GroupAt(p, q);
            r[4 * q] == g.0 && r[4 * q + 1] == g.1 && r[4 * q + 2] == g.2 && r[4 * q + 3] == g.3
  {
    var r := Dense.Regs(p);
    forall k: nat | k < 4 ensures Dense.Regs(p)[4 * q + k] == Dense.Field(Dense.GroupAt(p, q), k) {
      assert (4 * q + k) / 4 == q && (4 * q + k) % 4 == k;
      hide Dense.GroupAt, Dense.Field, Dense.Get;
      Dense.GetIs(p, 4 * q + k);
    }
    assert r[4 * q + 0] == Dense.Field(Dense.GroupAt(p, q), 0);
    assert r[4 * q + 1] == Dense.Field(Dense.GroupAt(p, q), 1);
    assert r[4 * q + 2] == Dense.Field(Dense.GroupAt(p, q), 2);
    assert r[4 * q + 3] == Dense.Field(Dense.GroupAt(p, q), 3);
  }

  lemma {:induction false} GroupSum(p: seq<Byte>, q: nat)
    requires |p| == Dense.DENSE_BYTES && q < REGISTERS / 4
    ensures var r, (r0, r1, r2, r3) := Dense.Regs(p), Dense.GroupAt(p, q);
            && r0 >= 0 && r1 >= 0 && r2 >= 0 && r3 >= 0
            && Sum(r[..4 * q + 4]) == Sum(r[..4 * q]) + PE(r0) + PE(r1) + PE(r2) + PE(r3)
            && ZeroCount(r[..4 * q + 4]) == ZeroCount(r[..4 * q]) + Z(r0) + Z(r1) + Z(r2) + Z(r3)
  {
    hide Dense.Regs, Dense.GroupAt, Sum, PE, ZeroCount, Z;
    var r := Dense.Regs(p);
    GroupRegs(p, q);
    SumFour(r, 4 * q);
  }

  /** The sum, and the zeros, of the first n registers. */
  ghost function SumTo(p: seq<Byte>, n: nat): (real, nat)
    requires |p| == Dense.DENSE_BYTES && n <= REGISTERS
  {
    (Sum(Dense.Regs(p)[..n]), ZeroCount(Dense.Regs(p)[..n]))
  }

  /** One of the four groups that a round of hllDenseSum handles: what it adds to the sum and to the zeros. */
  method AddGroup(p: seq<Byte>, i: nat, q: nat) returns (e: real, z: nat)
    requires |p| == Dense.DENSE_BYTES && q < REGISTERS / 4 && i == 4 * q
    ensures SumTo(p, i + 4) == (SumTo(p, i).0 + e, SumTo(p, i).1 + z)
  {
    var r0, r1, r2, r3 := Unpack(p[3 * q], p[3 * q + 1], p[3 * q + 2]);
    assert (r0, r1, r2, r3) == Dense.GroupAt(p, q);
    hide Dense.Regs, Dense.GroupAt, Sum, PE, ZeroCount, Z;
    GroupSum(p, q);
    e := (PE(r0) + PE(r1)) + (PE(r2) + PE(r3));
    z := Z(r0) + Z(r1) + Z(r2) + Z(r3);
  }

  /** hllDenseSum: sixteen registers a round. */
  method DenseSum(p: seq<Byte>) returns (e: real, ez: nat)
    requires |p| == Dense.DENSE_BYTES
    ensures e == Sum(Dense.Regs(p)) && ez == ZeroCount(Dense.Regs(p))
  {
    e, ez := 0.0, 0;
    SumEnds(Dense.Regs(p));
    assert SumTo(p, 0) == (0.0, 0);
    var j := 0;
    while j < 1024
      invariant 0 <= j <= 1024 && (e, ez) == SumTo(p, 16 * j)
    {
      hide Dense.Regs, Sum, ZeroCount, SumTo;
      var e0, z0 := AddGroup(p, 16 * j, 4 * j);
      var e1, z1 := AddGroup(p, 16 * j + 4, 4 * j + 1);
      var e2, z2 := AddGroup(p, 16 * j + 8, 4 * j + 2);
      var e3, z3 := AddGroup(p, 16 * j + 12, 4 * j + 3);
      ez := ez + z0 + z1 + z2 + z3;
      e := e + ((e0 + e1) + (e2 + e3));
      j := j + 1;
    }
  }

  /** What a run adds to the sum: nothing yet if it is a run of zeros, which are added at the end. */
  method AddRun(r: seq<nat>, runlen: nat, regval: nat, e0: real, ez0: nat) returns (e: real, ez: nat)
    requires e0 + (ez0 as real) == Sum(r) && ez0 == ZeroCount(r)
    ensures e + (ez as real) == Sum(r + Run(regval, runlen)) && ez == ZeroCount(r + Run(regval, runlen))
  {
    SumRun(r, regval, runlen);
    PEZero();
    hide Sum, ZeroCount, PE, Run;
    if regval == 0 {
      e, ez := e0, ez0 + runlen;
    } else {
      e, ez := e0 + PE(regval) * (runlen as real), ez0;
    }
  }

  /** hllSparseSum */
  method SparseSum(s: seq<Byte>) returns (e: real, ez: nat, invalid: bool)
    requires Sparse.Whole(s)
    ensures e == Sum(Sparse.Regs(s)) && ez == ZeroCount(Sparse.Regs(s))
    ensures invalid <==> |Sparse.Regs(s)| != REGISTERS
  {
    var idx, p := 0, 0;
    e, ez := 0.0, 0;
    assert s[..0] == [] && s[..|s|] == s;
    hide Sparse.OpLen;
    while p < |s|
      invariant 0 <= p <= |s| && Sparse.Whole(s[..p])
      invariant idx == |Sparse.Regs(s[..p])|
      invariant e + (ez as real) == Sum(Sparse.Regs(s[..p])) && ez == ZeroCount(Sparse.Regs(s[..p]))
      decreases |s| - p
    {
      hide Sparse.Whole, Sparse.Regs, Sparse.OpRun, Sum, ZeroCount, PE, Run;
      var runlen, regval, oplen := ReadRun(s, p);
      e, ez := AddRun(Sparse.Regs(s[..p]), runlen, regval, e, ez);
      idx := idx + runlen;
      p := p + oplen;
    }
    invalid := idx != REGISTERS;
    e := e + (ez as real);
  }

  lemma {:induction false} SumEnds(r: seq<nat>)
    ensures Sum(r[..0]) == 0.0 && ZeroCount(r[..0]) == 0 && r[..|r|] == r
  {
  }

  lemma {:induction false} PEZero()
    ensures PE(0) == 1.0
  {
  }

  /** The opcode at p: how many registers of which value, in how many bytes. */
  method ReadRun(s: seq<Byte>, p: nat) returns (runlen: nat, regval: nat, oplen: nat)
    requires Sparse.Whole(s) && p < |s| && Sparse.Whole(s[..p])
    ensures oplen == Sparse.OpLen(s[p]) >= 1 && p + oplen <= |s| && Sparse.Whole(s[..p + oplen])
    ensures regval <= Sparse.VAL_MAX_VALUE
    ensures Sparse.Regs(s[..p + oplen]) == Sparse.Regs(s[..p]) + Run(regval, runlen)
  {
    Sparse.RegsAt(s, p);
    hide Sparse.Whole, Sparse.Regs;
    if Sparse.IsZero(s[p]) {
      runlen, regval, oplen := Sparse.ZeroLen(s[p]), 0, 1;
    } else if Sparse.IsXZero(s[p]) {
      runlen, regval, oplen := Sparse.XZeroLen(s[p], s[p + 1]), 0, 2;
    } else {
      runlen, regval, oplen := Sparse.ValLen(s[p]), Sparse.ValValue(s[p]), 1;
    }
  }

  /** One byte of a word that is not all zeros. */
  method AddByte(r: seq<nat>, i: nat, e0: real, ez0: nat) returns (e: real, ez: nat)
    requires i < |r| && e0 + (ez0 as real) == Sum(r[..i]) && ez0 == ZeroCount(r[..i])
    ensures e + (ez as real) == Sum(r[..i + 1]) && ez == ZeroCount(r[..i + 1])
  {
    SumStep(r, i);
    if r[i] != 0 { e, ez := e0 + PE(r[i]), ez0; } else { e, ez := e0, ez0 + 1; }
  }

  lemma {:induction false} SumZeroWord(r: seq<nat>, i: nat)
    requires i + 8 <= |r| && r[i..i + 8] == Run(0, 8)
    ensures Sum(r[..i + 8]) == Sum(r[..i]) + 8.0 && ZeroCount(r[..i + 8]) == ZeroCount(r[..i]) + 8
  {
    assert r[..i + 8] == r[..i] + Run(0, 8);
    SumRun(r[..i], 0, 8);
    PEZero();
  }

  /** hllRawSum, eight registers at a time. */
  method RawSum(r: seq<nat>) returns (e: real, ez: nat)
    requires |r| == REGISTERS
    ensures e == Sum(r) && ez == ZeroCount(r)
  {
    e, ez := 0.0, 0;
    SumEnds(r);
    hide Sum, ZeroCount, PE;
    for j := 0 to REGISTERS / 8
      invariant e + (ez as real) == Sum(r[..8 * j]) && ez == ZeroCount(r[..8 * j])
    {
      var i := 8 * j;
      if r[i..i + 8] == Run(0, 8) {
        SumZeroWord(r, i);
        ez := ez + 8;
      } else {
        e, ez := AddByte(r, i, e, ez);
        e, ez := AddByte(r, i + 1, e, ez);
        e, ez := AddByte(r, i + 2, e, ez);
        e, ez := AddByte(r, i + 3, e, ez);
        e, ez := AddByte(r, i + 4, e, ez);
        e, ez := AddByte(r, i + 5, e, ez);
        e, ez := AddByte(r, i + 6, e, ez);
        e, ez := AddByte(r, i + 7, e, ez);
      }
    }
    e := e + (ez as real);
  }
}

/** The loops of hyperloglog.c that read a hash, search and rewrite opcodes, and change the encoding. */
module Hll {
  import opened Bytes
  import opened Words
  import opened HllSketch
  import Sparse = HllSparse
  import O = HllOps
  import Dense = HllDense
  import HllSums
  import Slices

  const HDR_SIZE: nat := 16

  /** The most significant bit of the cached cardinality says that it is out of date. */
  const STALE: nat := 0x8000_0000_0000_0000

  /** What is known of the floating-point formula that makes a cardinality of the sum and the number of
      zero registers: it is a function of the two, fits in 63 bits, and makes 0 of the empty sketch. */
  ghost predicate Estimator(estimate: (real, nat) -> nat) {
    && (forall e, ez :: estimate(e, ez) < STALE)
    && estimate(Sum(Zeros()), ZeroCount(Zeros())) == 0
  }

  function SparseRegs(s: seq<Byte>): (r: Registers)
    requires Sparse.ValidSparse(s)
  {
    Sparse.RegsBounded(s);
    Sparse.Regs(s)
  }

  /** hllPatLen */
  method PatLen(hash: Word) returns (index: nat, count: nat)
    ensures index == IndexOf(hash) && count == CountOf(hash)
  {
    index := IndexOf(hash);
    var h := hash[WIDTH - 1 := true];
    var bit := P;
    count := 1;
    while !h[bit]
      invariant P <= bit < WIDTH && count == bit - P + 1
      invariant FirstOne(hash, bit) == FirstOne(hash, P)
      decreases WIDTH - bit
    {
      count := count + 1;
      bit := bit + 1;
    }
  }

  // ----- the steps of hllSparseAdd -----

  /** The number of registers and of bytes of the opcode at p. */
  method ReadOp(s: seq<Byte>, p: nat) returns (span: nat, oplen: nat)
    requires Sparse.Whole(s) && p < |s| && Sparse.Whole(s[..p])
    ensures oplen == Sparse.OpLen(s[p]) && p + oplen <= |s| && Sparse.Whole(s[..p + oplen])
    ensures span == |Sparse.OpRun(Sparse.OpAt(s, p))| >= 1
    ensures |Sparse.Regs(s[..p + oplen])| == |Sparse.Regs(s[..p])| + span
  {
    Sparse.RegsAt(s, p);
    hide Sparse.Whole, Sparse.Regs, Sparse.ValLen, Sparse.ZeroLen, Sparse.XZeroLen;
    oplen := 1;
    if Sparse.IsZero(s[p]) {
      span := Sparse.ZeroLen(s[p]);
    } else if Sparse.IsVal(s[p]) {
      span := Sparse.ValLen(s[p]);
    } else {
      span := Sparse.XZeroLen(s[p], s[p + 1]);
      oplen := 2;
    }
  }

  /** Step 1: the opcode that covers register index, the one before it (or -1), the first register that it
      covers and how many. */
  method FindOp(s: seq<Byte>, index: nat) returns (p: nat, prev: int, first: nat, span: nat)
    requires Sparse.ValidSparse(s) && index < REGISTERS
    ensures p < |s| && Sparse.Whole(s[..p]) && first == |Sparse.Regs(s[..p])|
    ensures p + Sparse.OpLen(s[p]) <= |s| && span == |Sparse.OpRun(Sparse.OpAt(s, p))|
    ensures first <= index < first + span
    ensures if p == 0 then prev == -1
            else 0 <= prev < p && Sparse.Whole(s[..prev]) && prev + Sparse.OpLen(s[prev]) == p
  {
    p, prev, first, span := 0, -1, 0, 0;
    assert s[..0] == [] && s[..|s|] == s;
    assert Sparse.Whole(s[..0]) && Sparse.Regs(s[..0]) == [];
    hide Sparse.Whole, Sparse.Regs, Sparse.OpRun, Sparse.OpAt, Sparse.OpLen;
    while p < |s|
      invariant 0 <= p <= |s| && Sparse.Whole(s[..p]) && first == |Sparse.Regs(s[..p])| && first <= index
      invariant if p == 0 then prev == -1
                else 0 <= prev < p && Sparse.Whole(s[..prev]) && prev + Sparse.OpLen(s[prev]) == p
      decreases |s| - p
    {
      var oplen;
      span, oplen := ReadOp(s, p);
      if index <= first + span - 1 { return; }
      prev := p;
      p := p + oplen;
      first := first + span;
    }
  }

  /** The opcodes for len registers of value v, none if there are none: what stands to one side of the
      register that is set. */
  method SideOps(v: nat, len: nat, isVal: bool) returns (n: seq<Byte>)
    requires if isVal then 1 <= v <= Sparse.VAL_MAX_VALUE && len <= Sparse.VAL_MAX_LEN
             else v == 0 && len <= Sparse.XZERO_MAX_LEN
    ensures Sparse.Whole(n) && Sparse.Regs(n) == Run(v, len)
    ensures |n| == if isVal then (if len > 0 then 1 else 0) else O.ZeroBytes(len)
    ensures |O.Ops(n)| == if len > 0 then 1 else 0
  {
    if len == 0 {
      n := [];
    } else if isVal {
      n := [Sparse.ValSet(v, len)];
      Sparse.ValIs(v, len);
      O.OneOp(n);
    } else {
      Sparse.ZeroRunIs(len);
      if len > Sparse.ZERO_MAX_LEN {
        n := Sparse.XZeroSet(len);
      } else {
        n := [Sparse.ZeroSet(len)];
      }
      O.OneOp(n);
    }
  }

  lemma {:induction false} RunAt(s: seq<Byte>, p: nat)
    requires p < |s| && p + Sparse.OpLen(s[p]) <= |s|
    ensures var run := Sparse.OpRun(Sparse.OpAt(s, p));
            && run == Run(if Sparse.IsVal(s[p]) then Sparse.ValValue(s[p]) else 0, |run|)
            && |run| <= (if Sparse.IsVal(s[p]) then 4 else 16384)
            && |run| == O.OpOf(Sparse.OpAt(s, p)).len
  {
  }

  /** Case D of step 2: the opcode split around the register. */
  method Split(s: seq<Byte>, p: nat, index: nat, first: nat, span: nat, count: nat) returns (n: seq<Byte>)
    requires p < |s| && p + Sparse.OpLen(s[p]) <= |s| && span == |Sparse.OpRun(Sparse.OpAt(s, p))|
    requires first <= index < first + span && 1 <= count <= Sparse.VAL_MAX_VALUE
    ensures Sparse.Whole(n) && Sparse.Regs(n) == Sparse.OpRun(Sparse.OpAt(s, p))[index - first := count]
    ensures |n| == O.NewBytes(O.OpOf(Sparse.OpAt(s, p)), index - first) && |O.Ops(n)| <= 3
  {
    var last := first + span - 1;
    var isVal := Sparse.IsVal(s[p]);
    var curval := if isVal then Sparse.ValValue(s[p]) else 0;
    RunAt(s, p);
    O.OpOfVal(s, p);
    hide Sparse.OpRun, Sparse.OpAt, Sparse.Whole, Sparse.Regs, O.OpOf, O.Ops, Sparse.IsVal, Sparse.ValValue,
        Sparse.ValLen,
        Run, Sparse.ValSet;
    var left := SideOps(curval, index - first, isVal);
    var right := SideOps(curval, last - index, isVal);
    n := left + [Sparse.ValSet(count, 1)] + right;
    Sparse.SplitIs(left, right, curval, index - first, count, last - index);
    O.SplitOps(left, count, right);
  }

  /** Where the opcode at p stands. */
  function Nth(s: seq<Byte>, p: nat): nat
    requires p <= |s| && Sparse.Whole(s[..p])
  {
    |O.Ops(s[..p])|
  }

  /** Step 4: adjacent VAL opcodes merged, in a scan of up to five opcodes from p0 on. If at most four pairs from there
      on are joinable, none is left. */
  method MergeAdjacent(s0: seq<Byte>, p0: nat) returns (s: seq<Byte>)
    requires Sparse.ValidSparse(s0) && p0 <= |s0| && Sparse.Whole(s0[..p0])
    ensures Sparse.ValidSparse(s) && SparseRegs(s) == SparseRegs(s0) && |s| <= |s0|
    ensures O.CleanBut(O.Ops(s0), Nth(s0, p0), 4) ==> O.Optimal(s)
  {
    hide Sparse.Whole, Sparse.Regs, O.Ops, O.CleanBut;
    s := s0;
    var p := p0;
    var scanlen := 5;
    ghost var suspects := 4;
    while p < |s| && scanlen > 0
      invariant 0 <= p <= |s| && Sparse.Whole(s[..p]) && Sparse.Whole(s) && Sparse.Regs(s) == Sparse.Regs(s0)
      invariant |s| <= |s0| && suspects == if scanlen == 0 then 0 else scanlen - 1
      invariant O.CleanBut(O.Ops(s0), Nth(s0, p0), 4) ==> O.CleanBut(O.Ops(s), Nth(s, p), suspects)
      decreases scanlen
    {
      scanlen := scanlen - 1;
      s, p := Scanned(s, p, suspects);
      suspects := if suspects > 0 then suspects - 1 else 0;
    }
    ScanEnds(s, p, suspects);
  }

  lemma {:induction false} ScanEnds(s: seq<Byte>, p: nat, suspects: nat)
    requires p <= |s| && Sparse.Whole(s[..p]) && Sparse.Whole(s) && (suspects == 0 || p == |s|)
    ensures O.CleanBut(O.Ops(s), Nth(s, p), suspects) ==> O.Optimal(s)
  {
    assert p == |s| ==> s[..p] == s;
  }

  /** The opcode at p0 passed, or merged with the one behind it. */
  method Scanned(s0: seq<Byte>, p0: nat, ghost suspects: nat) returns (s: seq<Byte>, p: nat)
    requires Sparse.Whole(s0) && p0 < |s0| && Sparse.Whole(s0[..p0])
    ensures Sparse.Whole(s) && Sparse.Regs(s) == Sparse.Regs(s0) && p <= |s| <= |s0| && Sparse.Whole(s[..p])
    ensures O.CleanBut(O.Ops(s0), Nth(s0, p0), suspects) ==>
              O.CleanBut(O.Ops(s), Nth(s, p), if suspects > 0 then suspects - 1 else 0)
  {
    hide Sparse.Whole, Sparse.Regs, O.Ops, O.CleanBut, Sparse.OpLen, O.OpOf;
    s := s0;
    Sparse.RegsAt(s, p0);
    O.LengthAt(s, p0);
    if Sparse.IsXZero(s[p0]) {
      p := p0 + 2;
      O.Passed(s, p0, suspects);
    } else if Sparse.IsZero(s[p0]) {
      p := p0 + 1;
      O.Passed(s, p0, suspects);
    } else {
      s, p := MergeAt(s, p0, suspects);
    }
  }

  /** The VAL opcode at p merged with the one behind it, or passed. */
  method MergeAt(s0: seq<Byte>, p0: nat, ghost suspects: nat) returns (s: seq<Byte>, p: nat)
    requires Sparse.Whole(s0) && p0 < |s0| && Sparse.Whole(s0[..p0]) && Sparse.IsVal(s0[p0])
    ensures Sparse.Whole(s) && Sparse.Regs(s) == Sparse.Regs(s0) && p <= |s| <= |s0| && Sparse.Whole(s[..p])
    ensures O.CleanBut(O.Ops(s0), Nth(s0, p0), suspects) ==>
              O.CleanBut(O.Ops(s), Nth(s, p), if suspects > 0 then suspects - 1 else 0)
  {
    hide Sparse.Whole, Sparse.Regs, Sparse.MergedAt, Sparse.IsVal, Sparse.ValValue, Sparse.ValLen, O.Ops, O.CleanBut;
    Sparse.WholeAfter(s0, p0);
    if && p0 + 1 < |s0| && Sparse.IsVal(s0[p0 + 1])
       && Sparse.ValValue(s0[p0]) == Sparse.ValValue(s0[p0 + 1])
       && Sparse.ValLen(s0[p0]) + Sparse.ValLen(s0[p0 + 1]) <= Sparse.VAL_MAX_LEN
    {
      Sparse.MergedAtIs(s0, p0);
      O.Merged(s0, p0, suspects);
      return Sparse.MergedAt(s0, p0), p0;
    }
    O.NotMerged(s0, p0, suspects);
    return s0, p0 + 1;
  }

  /** Cases B, C and D of step 2: the opcodes that take the place of the one that covers the register. */
  method NewOps(s: seq<Byte>, p: nat, index: nat, first: nat, span: nat, count: nat) returns (n: seq<Byte>)
    requires p < |s| && p + Sparse.OpLen(s[p]) <= |s| && span == |Sparse.OpRun(Sparse.OpAt(s, p))|
    requires first <= index < first + span && 1 <= count <= Sparse.VAL_MAX_VALUE
    ensures Sparse.Whole(n) && Sparse.Regs(n) == Sparse.OpRun(Sparse.OpAt(s, p))[index - first := count]
    ensures |n| == O.NewBytes(O.OpOf(Sparse.OpAt(s, p)), index - first) && |O.Ops(n)| <= 3
  {
    if (Sparse.IsVal(s[p]) && Sparse.ValLen(s[p]) == 1) || (Sparse.IsZero(s[p]) && Sparse.ZeroLen(s[p]) == 1) {
      n := [Sparse.ValSet(count, 1)];
      Sparse.ValIs(count, 1);
      O.OneOp(n);
    } else {
      n := Split(s, p, index, first, span, count);
    }
  }

  // ----- hllSparseToDense -----

  /** r starts with the registers given and is zero behind them. */
  ghost predicate Filled(regs: seq<nat>, r: Registers) {
    |regs| <= REGISTERS && r == regs + Run(0, REGISTERS - |regs|)
  }

  lemma {:induction false} FilledZeros(regs: seq<nat>, r: Registers, n: nat)
    requires Filled(regs, r) && |regs| + n <= REGISTERS
    ensures Filled(regs + Run(0, n), r)
  {
  }

  lemma {:induction false} FilledOne(regs: seq<nat>, r: Registers, v: nat, k: nat)
    requires Filled(regs + Run(v, k), r) && |regs| + k < REGISTERS && v < 64
    ensures Filled(regs + Run(v, k + 1), r[|regs| + k := v])
  {
  }

  /** The inner loop: runlen registers from idx on set to regval. */
  method SetRun(d0: seq<Byte>, idx: nat, regval: nat, runlen: nat, ghost regs: seq<nat>) returns (d: seq<Byte>)
    requires |d0| == Dense.DENSE_BYTES && Filled(regs, Dense.Regs(d0)) && idx == |regs|
    requires idx + runlen <= REGISTERS && regval < 64
    ensures |d| == Dense.DENSE_BYTES && Filled(regs + Run(regval, runlen), Dense.Regs(d))
  {
    d := d0;
    var k := 0;
    assert regs + Run(regval, 0) == regs;
    hide Filled, Run, Dense.Regs, Dense.Set;
    while k < runlen
      invariant 0 <= k <= runlen
      invariant |d| == Dense.DENSE_BYTES && Filled(regs + Run(regval, k), Dense.Regs(d))
    {
      Dense.SetGet(d, idx + k, regval);
      FilledOne(regs, Dense.Regs(d), regval, k);
      d := Dense.Set(d, idx + k, regval);
      k := k + 1;
    }
  }

  lemma {:induction false} PrefixFits(s: seq<Byte>, p: nat)
    requires Sparse.Whole(s) && p <= |s| && Sparse.Whole(s[..p])
    ensures |Sparse.Regs(s[..p])| <= |Sparse.Regs(s)|
  {
    hide Sparse.Whole, Sparse.Regs;
    Sparse.RegsAppend(s[..p], s[p..]);
    Slices.Pieces(s, p, 0);
  }

  lemma {:induction false} ZeroBytes(d: seq<Byte>)
    requires |d| == Dense.DENSE_BYTES && forall i :: 0 <= i < |d| ==> d[i] == 0
    ensures Filled([], Dense.Regs(d))
  {
  }

  /** A dense representation of the same registers. */
  method ToDense(s: seq<Byte>) returns (d: seq<Byte>)
    requires Sparse.ValidSparse(s)
    ensures |d| == Dense.DENSE_BYTES && Dense.Regs(d) == SparseRegs(s)
  {
    d := seq(Dense.DENSE_BYTES, _ => 0);
    ZeroBytes(d);
    var idx, p := 0, 0;
    assert s[..0] == [] && s[..|s|] == s;
    while p < |s|
      invariant 0 <= p <= |s| && Sparse.Whole(s[..p]) && idx == |Sparse.Regs(s[..p])|
      invariant |d| == Dense.DENSE_BYTES && Filled(Sparse.Regs(s[..p]), Dense.Regs(d))
      decreases |s| - p
    {
      hide Sparse.Whole, Sparse.Regs, Sparse.OpLen, Dense.Regs, Filled, Run;
      var runlen, regval, oplen := HllSums.ReadRun(s, p);
      PrefixFits(s, p + oplen);
      if regval == 0 {
        FilledZeros(Sparse.Regs(s[..p]), Dense.Regs(d), runlen);
      } else {
        d := SetRun(d, idx, regval, runlen, Sparse.Regs(s[..p]));
      }
      idx := idx + runlen;
      p := p + oplen;
    }
  }
}

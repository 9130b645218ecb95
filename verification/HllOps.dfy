/** A sparse representation as a sequence of opcodes, and when that has nothing left to merge. */
module HllOps {
  import opened Bytes
  import opened HllSketch
  import opened HllSparse
  import Slices

  datatype Op = Zeros(len: nat) | Val(value: nat, len: nat)

  function OpOf(s: seq<Byte>): (o: Op)
    requires s != [] && |s| >= OpLen(s[0])
    ensures o.len == |OpRun(s)|
  {
    if IsZero(s[0]) then Zeros(ZeroLen(s[0]))
    else if IsXZero(s[0]) then Zeros(XZeroLen(s[0], s[1]))
    else Val(ValValue(s[0]), ValLen(s[0]))
  }

  function Ops(s: seq<Byte>): seq<Op>
    requires Whole(s)
  {
    if s == [] then [] else [OpOf(s)] + Ops(s[OpLen(s[0])..])
  }

  lemma {:induction false} OpOfPrefix(a: seq<Byte>, b: seq<Byte>)
    requires a != [] && |a| >= OpLen(a[0])
    ensures |a + b| >= OpLen(a[0]) && OpOf(a + b) == OpOf(a)
  {
  }

  lemma {:induction false} OpsAppend(a: seq<Byte>, b: seq<Byte>)
    requires Whole(a) && Whole(b)
    ensures Whole(a + b) && Ops(a + b) == Ops(a) + Ops(b)
    decreases |a|
  {
    RegsAppend(a, b);
    if a == [] {
      assert a + b == b;
    } else {
      OpRunPrefix(a, b);
      OpOfPrefix(a, b);
      OpsAppend(a[OpLen(a[0])..], b);
      hide OpOf, OpLen, OpRun;
    }
  }

  lemma {:induction false} OneOp(s: seq<Byte>)
    requires s != [] && |s| == OpLen(s[0])
    ensures Whole(s) && Ops(s) == [OpOf(s)]
  {
    assert s[OpLen(s[0])..] == [];
  }

  /** The opcodes before the one at p, that one, and those after it. */
  lemma {:induction false} OpsAt(s: seq<Byte>, p: nat)
    requires Whole(s) && p < |s| && Whole(s[..p])
    ensures p + OpLen(s[p]) <= |s| && Whole(s[p + OpLen(s[p])..]) && Whole(s[..p + OpLen(s[p])])
    ensures Ops(s[..p + OpLen(s[p])]) == Ops(s[..p]) + [OpOf(OpAt(s, p))]
    ensures Ops(s) == Ops(s[..p]) + [OpOf(OpAt(s, p))] + Ops(s[p + OpLen(s[p])..])
  {
    RegsAt(s, p);
    hide Whole, Ops, OpOf, OpLen, OpRun, Regs;
    var n := OpLen(s[p]);
    OneOp(OpAt(s, p));
    Slices.Pieces(s, p, n);
    OpsAppend(s[..p], OpAt(s, p));
    OpsAppend(s[..p + n], s[p + n..]);
  }

  // ----- nothing left to merge -----

  /** Two adjacent opcodes that one can stand for. */
  predicate Joinable(a: Op, b: Op) {
    a.Val? && b.Val? && a.value == b.value && a.len + b.len <= VAL_MAX_LEN
  }

  /** Only k pairs of opcodes, from the j-th on, may be joinable. */
  ghost predicate CleanBut(ops: seq<Op>, j: nat, k: nat) {
    forall i, i' :: 0 <= i && i' == i + 1 < |ops| && (i < j || i >= j + k) ==> !Joinable(ops[i], ops[i'])
  }

  ghost predicate Optimal(s: seq<Byte>)
    requires Whole(s)
  {
    CleanBut(Ops(s), 0, 0)
  }

  lemma {:induction false} ZerosOptimal(s: seq<Byte>)
    requires Whole(s) && forall o <- Ops(s) :: o.Zeros?
    ensures Optimal(s)
  {
    forall i | 0 <= i < |Ops(s)| ensures Ops(s)[i].Zeros? { assert Ops(s)[i] in Ops(s); }
  }

  lemma {:induction false} PassedOne(ops: seq<Op>, j: nat, k: nat)
    requires CleanBut(ops, j, k) && j < |ops| && (j + 1 < |ops| ==> !Joinable(ops[j], ops[j + 1]))
    ensures CleanBut(ops, j + 1, if k > 0 then k - 1 else 0)
  {
  }

  /** What is merged is no more joinable with what was not before. */
  lemma {:induction false} JoinedOne(a: seq<Op>, x: Op, y: Op, c: seq<Op>, k: nat)
    requires CleanBut(a + [x] + [y] + c, |a|, k) && Joinable(x, y)
    ensures k > 0 && CleanBut(a + [Val(x.value, x.len + y.len)] + c, |a|, k - 1)
  {
    var ops, ops' := a + [x] + [y] + c, a + [Val(x.value, x.len + y.len)] + c;
    assert ops[|a|] == x && ops[|a| + 1] == y;
    forall i, i' | 0 <= i && i' == i + 1 < |ops'| && (i < |a| || i >= |a| + (k - 1))
      ensures !Joinable(ops'[i], ops'[i'])
    {
      if i < |a| {
        assert ops[i] == ops'[i] && !Joinable(ops[i], ops[i']);
      } else {
        assert i > |a| ==> ops'[i] == ops[i + 1];
        assert ops'[i'] == ops[i' + 1];
        assert !Joinable(ops[i + 1], ops[i' + 1]);
      }
    }
  }

  lemma {:induction false} AllPassed(ops: seq<Op>, j: nat, k: nat)
    requires CleanBut(ops, j, k) && (k == 0 || j >= |ops| - 1)
    ensures CleanBut(ops, 0, 0)
  {
  }

  /** An opcode exchanged for at most three: only the pairs from the one before it on are in question. */
  lemma {:induction false} Exchanged(a: seq<Op>, x: Op, c: seq<Op>, n: seq<Op>)
    requires CleanBut(a + [x] + c, 0, 0) && |n| <= 3
    ensures CleanBut(a + n + c, if a == [] then 0 else |a| - 1, 4)
  {
    var ops, ops' := a + [x] + c, a + n + c;
    var j := if a == [] then 0 else |a| - 1;
    forall i, i' | 0 <= i && i' == i + 1 < |ops'| && (i < j || i >= j + 4) ensures !Joinable(ops'[i], ops'[i']) {
      if i < j {
        assert ops'[i] == ops[i] && ops'[i'] == ops[i'];
      } else {
        var d := 1 - |n|;
        assert ops'[i] == ops[i + d] && ops'[i'] == ops[i' + d];
      }
    }
  }

  /** The opcode at p exchanged for n, where prev is the opcode before it, or -1. */
  lemma {:induction false} ExchangedAt(s: seq<Byte>, p: nat, n: seq<Byte>, prev: int)
    requires Whole(s) && p < |s| && Whole(s[..p]) && Whole(n) && |Ops(n)| <= 3
    requires if p == 0 then prev == -1 else 0 <= prev < p && Whole(s[..prev]) && prev + OpLen(s[prev]) == p
    ensures p + OpLen(s[p]) <= |s|
    ensures var from, s' := if prev >= 0 then prev else 0, s[..p] + n + s[p + OpLen(s[p])..];
            && Whole(s') && s'[..from] == s[..from] && Whole(s'[..from])
            && (Optimal(s) ==> CleanBut(Ops(s'), |Ops(s'[..from])|, 4))
  {
    hide Whole, Ops, OpOf, CleanBut, OpLen, OpRun, Regs;
    OpsAt(s, p);
    var a, c := s[..p], s[p + OpLen(s[p])..];
    Splice(s, p, n);
    OpsAppend(a, n);
    OpsAppend(a + n, c);
    if Optimal(s) { Exchanged(Ops(a), OpOf(OpAt(s, p)), Ops(c), Ops(n)); }
    if p == 0 {
      NoOps();
      assert a == [] && s[..0] == [];
    } else {
      OpsAt(s, prev);
      assert s[..prev + OpLen(s[prev])] == a;
      assert (a + n + c)[..prev] == s[..prev];
    }
  }

  // ----- the scan that merges -----

  lemma {:induction false} LengthAt(s: seq<Byte>, p: nat)
    requires p < |s|
    ensures OpLen(s[p]) == if IsXZero(s[p]) then 2 else 1
  {
  }

  lemma {:induction false} OpOfVal(s: seq<Byte>, p: nat)
    requires p < |s| && p + OpLen(s[p]) <= |s|
    ensures IsVal(s[p]) ==> OpLen(s[p]) == 1 && OpOf(OpAt(s, p)) == Val(ValValue(s[p]), ValLen(s[p]))
    ensures !IsVal(s[p]) ==> OpOf(OpAt(s, p)).Zeros?
  {
  }

  lemma {:induction false} Passed(s: seq<Byte>, p: nat, k: nat)
    requires Whole(s) && p < |s| && Whole(s[..p]) && !IsVal(s[p])
    ensures p + OpLen(s[p]) <= |s| && Whole(s[..p + OpLen(s[p])])
    ensures CleanBut(Ops(s), |Ops(s[..p])|, k) ==>
              CleanBut(Ops(s), |Ops(s[..p + OpLen(s[p])])|, if k > 0 then k - 1 else 0)
  {
    hide Whole, Ops, OpOf, IsVal, OpLen, CleanBut;
    OpsAt(s, p);
    OpOfVal(s, p);
    if CleanBut(Ops(s), |Ops(s[..p])|, k) { PassedOne(Ops(s), |Ops(s[..p])|, k); }
  }

  /** The pair at p is joinable exactly if the test of the code says so. */
  lemma {:induction false} NotMerged(s: seq<Byte>, p: nat, k: nat)
    requires Whole(s) && p < |s| && Whole(s[..p]) && IsVal(s[p])
    requires !(p + 1 < |s| && IsVal(s[p + 1]) && ValValue(s[p]) == ValValue(s[p + 1])
               && ValLen(s[p]) + ValLen(s[p + 1]) <= VAL_MAX_LEN)
    ensures p + 1 <= |s| && Whole(s[..p + 1])
    ensures CleanBut(Ops(s), |Ops(s[..p])|, k) ==>
              CleanBut(Ops(s), |Ops(s[..p + 1])|, if k > 0 then k - 1 else 0)
  {
    hide Whole, Ops, OpOf, IsVal, OpLen, CleanBut, ValValue, ValLen;
    OpsAt(s, p);
    OpOfVal(s, p);
    if p + 1 < |s| {
      OpsAt(s, p + 1);
      OpOfVal(s, p + 1);
    } else {
      assert s[p + 1..] == [];
      NoOps();
    }
    if CleanBut(Ops(s), |Ops(s[..p])|, k) { PassedOne(Ops(s), |Ops(s[..p])|, k); }
  }

  lemma {:induction false} NoOps()
    ensures Whole([]) && Ops([]) == []
  {
  }

  lemma {:induction false} Merged(s: seq<Byte>, p: nat, k: nat)
    requires Whole(s) && p + 1 < |s| && Whole(s[..p]) && IsVal(s[p]) && IsVal(s[p + 1])
    requires ValValue(s[p]) == ValValue(s[p + 1]) && ValLen(s[p]) + ValLen(s[p + 1]) <= VAL_MAX_LEN
    ensures Whole(MergedAt(s, p)) && p <= |MergedAt(s, p)| && Whole(MergedAt(s, p)[..p])
    ensures CleanBut(Ops(s), |Ops(s[..p])|, k) ==>
              k > 0 && CleanBut(Ops(MergedAt(s, p)), |Ops(MergedAt(s, p)[..p])|, k - 1)
  {
    hide Whole, Ops, OpOf, IsVal, OpLen, CleanBut, ValValue, ValLen, MergedAt, OpAt;
    MergedOps(s, p);
    TwoOps(s, p);
    MergedAtIs(s, p);
    var x, y := Val(ValValue(s[p]), ValLen(s[p])), Val(ValValue(s[p + 1]), ValLen(s[p + 1]));
    if CleanBut(Ops(s), |Ops(s[..p])|, k) { JoinedOne(Ops(s[..p]), x, y, Ops(s[p + 2..]), k); }
  }

  lemma {:induction false} TwoOps(s: seq<Byte>, p: nat)
    requires Whole(s) && p + 1 < |s| && Whole(s[..p]) && IsVal(s[p]) && IsVal(s[p + 1])
    ensures Whole(s[p + 2..])
    ensures Ops(s) == Ops(s[..p]) + [Val(ValValue(s[p]), ValLen(s[p]))] + [Val(ValValue(s[p + 1]), ValLen(s[p + 1]))]
                      + Ops(s[p + 2..])
  {
    hide Whole, Ops, OpOf, IsVal, OpLen, ValValue, ValLen, OpAt;
    WholeAfter(s, p);
    OpsAt(s, p);
    OpOfVal(s, p);
    WholeAfter(s, p + 1);
    OpsAt(s, p + 1);
    OpOfVal(s, p + 1);
  }

  lemma {:induction false} MergedOps(s: seq<Byte>, p: nat)
    requires Whole(s) && p + 1 < |s| && Whole(s[..p]) && IsVal(s[p]) && IsVal(s[p + 1])
    requires ValValue(s[p]) == ValValue(s[p + 1]) && ValLen(s[p]) + ValLen(s[p + 1]) <= VAL_MAX_LEN
    ensures Whole(MergedAt(s, p)) && Whole(s[p + 2..])
    ensures Ops(MergedAt(s, p)) == Ops(s[..p])
            + [Val(ValValue(s[p]), ValLen(s[p]) + ValLen(s[p + 1]))] + Ops(s[p + 2..])
  {
    hide Whole, Ops, IsVal, ValValue, ValLen, OpLen;
    WholeAfter(s, p);
    WholeAfter(s, p + 1);
    OneVal(ValValue(s[p]), ValLen(s[p]) + ValLen(s[p + 1]));
    hide Joined;
    OpsAppend(s[..p], [Joined(s[p], s[p + 1])]);
    OpsAppend(s[..p] + [Joined(s[p], s[p + 1])], s[p + 2..]);
  }

  lemma {:induction false} OneVal(value: nat, len: nat)
    requires 1 <= value <= VAL_MAX_VALUE && 1 <= len <= VAL_MAX_LEN
    ensures Whole([ValSet(value, len)]) && Ops([ValSet(value, len)]) == [Val(value, len)]
  {
    OneOp([ValSet(value, len)]);
  }

  lemma {:induction false} SplitOps(left: seq<Byte>, count: nat, right: seq<Byte>)
    requires Whole(left) && Whole(right) && 1 <= count <= VAL_MAX_VALUE
    ensures Whole(left + [ValSet(count, 1)] + right)
    ensures |Ops(left + [ValSet(count, 1)] + right)| == |Ops(left)| + 1 + |Ops(right)|
  {
    hide Whole, Ops;
    OneVal(count, 1);
    OpsAppend(left, [ValSet(count, 1)]);
    OpsAppend(left + [ValSet(count, 1)], right);
  }

  // ----- how much longer an update makes it -----

  function ZeroBytes(len: nat): nat {
    if len == 0 then 0 else if len <= ZERO_MAX_LEN then 1 else 2
  }

  /** The bytes of the opcodes that take the place of one when the register at in it is set. */
  function NewBytes(o: Op, at: nat): nat
    requires at < o.len
  {
    match o
    case Zeros(len) => ZeroBytes(at) + 1 + ZeroBytes(len - 1 - at)
    case Val(_, len) => (if at > 0 then 1 else 0) + 1 + (if at < len - 1 then 1 else 0)
  }

  /** How much longer s gets when a register is set. */
  function Growth(s: seq<Byte>, index: nat): int
    requires Whole(s) && index < |Regs(s)|
  {
    var n := |OpRun(s)|;
    if index < n then NewBytes(OpOf(s), index) - OpLen(s[0]) else Growth(s[OpLen(s[0])..], index - n)
  }

  lemma {:induction false} GrowthBehind(a: seq<Byte>, b: seq<Byte>, index: nat)
    requires Whole(a) && Whole(b) && |Regs(a)| <= index < |Regs(a)| + |Regs(b)|
    ensures Whole(a + b) && index < |Regs(a + b)|
    ensures Growth(a + b, index) == Growth(b, index - |Regs(a)|)
    decreases |a|
  {
    RegsAppend(a, b);
    if a == [] {
      assert a + b == b;
    } else {
      var n := OpLen(a[0]);
      OpRunPrefix(a, b);
      GrowthBehind(a[n..], b, index - |OpRun(a)|);
      hide OpRun, OpOf, NewBytes;
    }
  }

  /** The rest of s from p on begins with the opcode at p. */
  lemma {:induction false} RestAt(s: seq<Byte>, p: nat)
    requires Whole(s) && p < |s| && Whole(s[..p]) && p + OpLen(s[p]) <= |s|
    ensures Whole(s[p..]) && |s[p..]| >= OpLen(s[p..][0]) && Regs(s) == Regs(s[..p]) + Regs(s[p..])
    ensures OpOf(s[p..]) == OpOf(OpAt(s, p)) && OpRun(s[p..]) == OpRun(OpAt(s, p))
  {
    var o, c := OpAt(s, p), s[p + OpLen(s[p])..];
    Slices.Pieces(s, p, OpLen(s[p]));
    assert o + c == s[p..];
    OpOfPrefix(o, c);
    OpRunPrefix(o, c);
    hide Whole, Regs, OpOf, OpRun;
    RegsAppend(s[..p], s[p..]);
  }

  lemma {:induction false} GrowthAt(s: seq<Byte>, p: nat, index: nat)
    requires Whole(s) && p < |s| && Whole(s[..p]) && p + OpLen(s[p]) <= |s|
    requires var first := |Regs(s[..p])|; first <= index < first + |OpRun(OpAt(s, p))|
    ensures index < |Regs(s)|
    ensures Growth(s, index) == NewBytes(OpOf(OpAt(s, p)), index - |Regs(s[..p])|) - OpLen(s[p])
  {
    hide Whole, Regs, OpRun, OpOf, OpLen, NewBytes, OpAt, Growth;
    RestAt(s, p);
    assert s == s[..p] + s[p..];
    GrowthFirst(s[p..], index - |Regs(s[..p])|);
    GrowthBehind(s[..p], s[p..], index);
  }

  lemma {:induction false} GrowthFirst(s: seq<Byte>, at: nat)
    requires Whole(s) && s != [] && at < |OpRun(s)|
    ensures at < |Regs(s)| && Growth(s, at) == NewBytes(OpOf(s), at) - OpLen(s[0])
  {
  }
}

/** A HyperLogLog object, changed in place by the commands. */
module HllObjects {
  import opened Bytes
  import opened HllSketch
  import opened Hll
  import HllSums
  import Words
  import Sparse = HllSparse
  import O = HllOps
  import Dense = HllDense

  /** The registers of an encoding. */
  ghost predicate Encoded(sparse: bool, data: seq<Byte>) {
    if sparse then Sparse.ValidSparse(data) else |data| == Dense.DENSE_BYTES
  }

  function Decoded(sparse: bool, data: seq<Byte>): Registers
    requires Encoded(sparse, data)
  {
    if sparse then SparseRegs(data) else Dense.Regs(data)
  }

  lemma {:induction false} PrefixOfSpliced(s: seq<Byte>, p: nat, n: seq<Byte>, c: seq<Byte>, k: nat)
    requires k <= p <= |s|
    ensures (s[..p] + n + c)[..k] == s[..k]
  {
  }

  /** What hllSparseAdd finds: no change is called for, or the opcodes grow too big, or the new opcodes. */
  datatype Outcome = Same | TooBig | New(bytes: seq<Byte>)

  /** Setting the register takes the string beyond its limit, before anything is merged. */
  predicate TooLong(s: seq<Byte>, index: nat, maxBytes: nat)
    requires Sparse.ValidSparse(s) && index < REGISTERS
  {
    O.Growth(s, index) > 0 && HDR_SIZE + |s| + O.Growth(s, index) > maxBytes
  }

  /** The opcodes with register index set to count, which steps 1 to 4 of hllSparseAdd make. */
  method Update(s: seq<Byte>, index: nat, count: nat, maxBytes: nat) returns (o: Outcome)
    requires Sparse.ValidSparse(s) && index < REGISTERS && 1 <= count <= Sparse.VAL_MAX_VALUE
    ensures o.Same? <==> SparseRegs(s)[index] >= count
    ensures o.New? ==> Sparse.ValidSparse(o.bytes) && SparseRegs(o.bytes) == SparseRegs(s)[index := count]
    ensures o.New? ==> HDR_SIZE + |o.bytes| <= Max(HDR_SIZE + |s|, maxBytes)
    ensures !o.Same? ==> (o.TooBig? <==> TooLong(s, index, maxBytes))
    ensures o.New? && O.Optimal(s) ==> O.Optimal(o.bytes)
  {
    hide Sparse.Whole, Sparse.Regs, O.Growth, O.NewBytes, O.Optimal;
    var p, prev, first, span := FindOp(s, index);
    CurrentValue(s, p, index);
    if Sparse.IsVal(s[p]) && Sparse.ValValue(s[p]) >= count {
      return Same;
    }
    var n := NewOps(s, p, index, first, span, count);
    var oplen := Sparse.OpLen(s[p]);
    O.GrowthAt(s, p, index);
    O.ExchangedAt(s, p, n, prev);
    hide Sparse.OpLen, Sparse.OpRun, Sparse.OpAt;
    if |n| > oplen && HDR_SIZE + |s| + (|n| - oplen) > maxBytes {
      return TooBig;
    }
    var from := if prev >= 0 then prev else 0;
    Sparse.SetInOp(s, p, index, n, count);
    PrefixOfSpliced(s, p, n, s[p + oplen..], from);
    FromStart(s);
    var merged := MergeAdjacent(s[..p] + n + s[p + oplen..], from);
    return New(merged);
  }

  lemma {:induction false} FromStart(s: seq<Byte>)
    ensures s[..0] == [] && Sparse.Whole(s[..0])
  {
  }

  lemma {:induction false} CurrentValue(s: seq<Byte>, p: nat, index: nat)
    requires Sparse.ValidSparse(s) && p < |s| && Sparse.Whole(s[..p]) && p + Sparse.OpLen(s[p]) <= |s|
    requires var first := |Sparse.Regs(s[..p])|; first <= index < first + |Sparse.OpRun(Sparse.OpAt(s, p))|
    ensures index < REGISTERS
    ensures SparseRegs(s)[index] == if Sparse.IsVal(s[p]) then Sparse.ValValue(s[p]) else 0
  {
    Sparse.ValueAt(s, p, index);
    hide Sparse.Whole, Sparse.Regs;
  }

  lemma {:induction false} AddAllStep(hash: Element -> Words.Word, r: Registers, es: seq<Element>, j: nat)
    requires j < |es|
    ensures AddAll(hash, r, es[..j + 1]) == AddTo(AddAll(hash, r, es[..j]), hash(es[j]))
    decreases j
  {
    if j == 0 {
      assert es[..1][1..] == [] && es[..0] == [];
    } else {
      AddAllStep(hash, AddTo(r, hash(es[0])), es[1..], j - 1);
      assert es[..j + 1][1..] == es[1..][..j] && es[..j][1..] == es[1..][..j - 1];
    }
  }

  /** No register ever falls. */
  ghost predicate AtMost(r: Registers, s: Registers) {
    forall i :: 0 <= i < REGISTERS ==> r[i] <= s[i]
  }

  lemma {:induction false} AddGrows(r0: Registers, r: Registers, hash: Words.Word)
    requires AtMost(r0, r)
    ensures AtMost(r0, AddTo(r, hash))
    ensures AddTo(r, hash) == r0 <==> r == r0 && AddTo(r, hash) == r
  {
    var r' := AddTo(r, hash);
    var i := IndexOf(hash);
    if r != r0 {
      var k :| 0 <= k < REGISTERS && r[k] != r0[k];
      assert r'[k] >= r[k] > r0[k];
    }
  }

  class HllObject {
    const hash: Element -> Words.Word
    const estimate: (real, nat) -> nat
    var sparse: bool
    var card: nat
    var data: seq<Byte>

    ghost predicate Shape()
      reads this
    {
      Encoded(sparse, data)
    }

    function Regs(): Registers
      requires Shape()
      reads this
    {
      Decoded(sparse, data)
    }

    /** The cached cardinality, where it is marked valid, is what would be computed anew. */
    ghost predicate Valid()
      reads this
    {
      && Shape() && Estimator(estimate)
      && (card < STALE ==> card == estimate(Sum(Regs()), ZeroCount(Regs())))
    }

    /** A sparse representation in which no two adjacent opcodes could be one. */
    ghost predicate Tight()
      reads this`sparse, this`data
    {
      sparse ==> Sparse.Whole(data) && O.Optimal(data)
    }

    /** createHLLObject: as many XZERO opcodes as it takes, and a cached cardinality of 0. */
    constructor (hash: Element -> Words.Word, estimate: (real, nat) -> nat)
      requires Estimator(estimate)
      ensures Valid() && Regs() == Zeros() && this.hash == hash && this.estimate == estimate
      ensures card < STALE && sparse && Tight()
    {
      this.hash, this.estimate := hash, estimate;
      sparse, card := true, 0;
      var aux, s := REGISTERS, [];
      while aux > 0
        invariant 0 <= aux <= REGISTERS && Sparse.Whole(s) && Sparse.Regs(s) == Run(0, REGISTERS - aux)
        invariant forall o <- O.Ops(s) :: o.Zeros?
      {
        var xzero := Sparse.XZERO_MAX_LEN;
        if xzero > aux { xzero := aux; }
        Sparse.RegsOne(Sparse.XZeroSet(xzero));
        Sparse.RegsAppend(s, Sparse.XZeroSet(xzero));
        O.OneOp(Sparse.XZeroSet(xzero));
        O.OpsAppend(s, Sparse.XZeroSet(xzero));
        s := s + Sparse.XZeroSet(xzero);
        aux := aux - xzero;
      }
      O.ZerosOptimal(s);
      data := s;
      new;
      assert Regs() == Zeros();
    }

    method InvalidateCache()
      modifies this`card
      ensures card >= STALE
    {
      card := if card < STALE then card + STALE else card;
    }

    /** hllDenseAdd */
    method DenseAdd(ele: Element) returns (changed: bool)
      requires Shape() && !sparse
      modifies this`data
      ensures Shape() && Regs() == AddTo(old(Regs()), hash(ele))
      ensures changed <==> Regs() != old(Regs())
      ensures !changed ==> data == old(data)
    {
      var index, count := PatLen(hash(ele));
      var oldcount := Dense.Get(data, index);
      assert Regs()[index] == oldcount;
      changed := count > oldcount;
      if changed {
        Dense.SetGet(data, index, count);
        assert Dense.Regs(data)[index := count][index] == count;
        data := Dense.Set(data, index, count);
      } else {
        assert Regs() == AddTo(Regs(), hash(ele));
      }
    }

    /** hllSparseToDense; the cached cardinality is copied. */
    method SparseToDense()
      requires Shape()
      modifies this`sparse, this`data
      ensures Shape() && !sparse && Regs() == old(Regs())
      ensures !old(sparse) ==> data == old(data)
    {
      if sparse {
        data := ToDense(data);
        sparse := false;
      }
    }

    /** The end of hllSparseAdd that promotes the object; the assertion there cannot fail. */
    method Promote(ele: Element)
      requires Shape() && Regs()[IndexOf(hash(ele))] < CountOf(hash(ele))
      modifies this`sparse, this`data
      ensures Shape() && !sparse && Regs() == AddTo(old(Regs()), hash(ele)) != old(Regs())
    {
      SparseToDense();
      var retval := DenseAdd(ele);
      assert Regs()[IndexOf(hash(ele))] == CountOf(hash(ele));
      assert retval;
    }

    /** hllSparseAdd. The string may grow up to maxBytes, and not at all beyond. */
    method SparseAdd(ele: Element, maxBytes: nat) returns (changed: bool)
      requires Shape() && sparse
      modifies this
      ensures Shape() && Regs() == AddTo(old(Regs()), hash(ele))
      ensures changed <==> Regs() != old(Regs())
      ensures !changed ==> sparse && data == old(data) && card == old(card)
      ensures sparse ==> HDR_SIZE + |data| <= Max(HDR_SIZE + |old(data)|, maxBytes)
      ensures changed ==>
                (!sparse <==> CountOf(hash(ele)) > Sparse.VAL_MAX_VALUE
                              || TooLong(old(data), IndexOf(hash(ele)), maxBytes))
      ensures sparse && old(O.Optimal(data)) ==> O.Optimal(data)
      ensures changed ==> card >= STALE || !sparse
    {
      hide Sparse.Whole, Sparse.Regs, O.Growth, O.Optimal;
      var index, count := PatLen(hash(ele));
      if count > Sparse.VAL_MAX_VALUE {
        SmallValue(data, index);
        Promote(ele);
        return true;
      }
      var update := Update(data, index, count, maxBytes);
      match update
      case Same =>
        return false;
      case TooBig =>
        Promote(ele);
        return true;
      case New(bytes) =>
        assert SparseRegs(bytes)[index] == count;
        data := bytes;
        InvalidateCache();
        return true;
    }

    /** hllAdd */
    method Add(ele: Element, maxBytes: nat) returns (changed: bool)
      requires Shape()
      modifies this
      ensures Shape() && Regs() == AddTo(old(Regs()), hash(ele))
      ensures changed <==> Regs() != old(Regs())
      ensures !changed ==> card == old(card)
      ensures old(Tight()) ==> Tight()
    {
      if sparse { changed := SparseAdd(ele, maxBytes); } else { changed := DenseAdd(ele); }
    }

    /** hllCount; the formula behind the sum is a parameter. */
    method Count() returns (card: nat, invalid: bool)
      requires Shape()
      ensures card == estimate(Sum(Regs()), ZeroCount(Regs())) && !invalid
    {
      var e, ez;
      invalid := false;
      if sparse { e, ez, invalid := HllSums.SparseSum(data); } else { e, ez := HllSums.DenseSum(data); }
      card := estimate(e, ez);
    }

    /** The loop of pfaddCommand: the elements in order; the cache goes stale if something changed. */
    method AddMany(es: seq<Element>, created: bool, maxBytes: nat) returns (updated: bool)
      requires Valid()
      modifies this
      ensures Valid() && Regs() == AddAll(hash, old(Regs()), es)
      ensures updated <==> created || Regs() != old(Regs())
      ensures if updated then card >= STALE else card == old(card)
      ensures old(Tight()) ==> Tight()
    {
      ghost var r0 := Regs();
      updated := created;
      var j := 0;
      assert es[..0] == [] && es[..|es|] == es;
      hide Sum, ZeroCount, AddAll, AddTo, Encoded, Decoded;
      while j < |es|
        invariant 0 <= j <= |es| && Shape() && Regs() == AddAll(hash, r0, es[..j]) && AtMost(r0, Regs())
        invariant updated <==> created || Regs() != r0
        invariant Regs() == r0 ==> card == old(card)
        invariant old(Tight()) ==> Tight()
      {
        AddAllStep(hash, r0, es, j);
        AddGrows(r0, Regs(), hash(es[j]));
        var changed := Add(es[j], maxBytes);
        if changed { updated := true; }
        j := j + 1;
      }
      if updated { InvalidateCache(); }
    }

    /** The cached cardinality if it is valid, else the one that is computed and cached. */
    method CachedCount() returns (c: nat)
      requires Valid()
      modifies this`card
      ensures Valid() && Regs() == old(Regs()) && c == estimate(Sum(Regs()), ZeroCount(Regs()))
      ensures card == c
    {
      if card < STALE { return card; }
      var invalid;
      c, invalid := Count();
      if !invalid { card := c; }
    }

    /** hllMerge, where the maximum of each register is collected in an array. */
    method MergeInto(max: array<nat>)
      requires Shape() && AreRegisters(max)
      modifies max
      ensures AreRegisters(max) && max[..] == Merged(old(max[..]), Regs())
    {
      ghost var r0: Registers := max[..];
      if sparse { MergeSparse(max, data, r0); } else { MergeDense(max, data, r0); }
    }

    /** The end of pfmergeCommand: all registers written to the destination, which is made dense. */
    method SetAll(max: array<nat>)
      requires Valid() && AreRegisters(max)
      modifies this
      ensures Valid() && Regs() == max[..] && card >= STALE && Tight()
    {
      SparseToDense();
      assert Dense.Regs(data)[..0] == max[..][..0];
      var j := 0;
      while j < REGISTERS
        invariant 0 <= j <= REGISTERS && Shape() && !sparse && Dense.Regs(data)[..j] == max[..][..j]
      {
        Dense.SetGet(data, j, max[j]);
        ghost var before := Dense.Regs(data);
        data := Dense.Set(data, j, max[j]);
        OneWritten(before, Dense.Regs(data), max[..], j);
        j := j + 1;
      }
      InvalidateCache();
      assert Dense.Regs(data)[..REGISTERS] == Dense.Regs(data) && max[..][..REGISTERS] == max[..];
    }
  }

  lemma {:induction false} OneWritten(r: Registers, r': Registers, max: Registers, j: nat)
    requires j < REGISTERS && r' == r[j := max[j]] && r[..j] == max[..j]
    ensures r'[..j + 1] == max[..j + 1]
  {
    assert r'[..j + 1] == r[..j] + [max[j]];
  }

  predicate AreRegisters(max: array<nat>)
    reads max
  {
    max.Length == REGISTERS && forall i :: 0 <= i < REGISTERS ==> max[i] < 64
  }

  /** cur is r0 with the registers given merged into its front. */
  ghost predicate MergedUpTo(r0: Registers, regs: seq<nat>, cur: Registers) {
    |regs| <= REGISTERS &&
    forall i :: 0 <= i < REGISTERS ==> cur[i] == if i < |regs| then Max(r0[i], regs[i]) else r0[i]
  }

  lemma {:induction false} MergedZeros(r0: Registers, regs: seq<nat>, cur: Registers, n: nat)
    requires MergedUpTo(r0, regs, cur) && |regs| + n <= REGISTERS
    ensures MergedUpTo(r0, regs + Run(0, n), cur)
  {
  }

  lemma {:induction false} MergedOne(r0: Registers, regs: seq<nat>, cur: Registers, v: nat, k: nat)
    requires MergedUpTo(r0, regs + Run(v, k), cur) && |regs| + k < REGISTERS && v < 64
    ensures MergedUpTo(r0, regs + Run(v, k + 1), cur[|regs| + k := Max(cur[|regs| + k], v)])
  {
  }

  lemma {:induction false} MergedWhole(r0: Registers, regs: Registers, cur: Registers)
    requires MergedUpTo(r0, regs, cur)
    ensures cur == Merged(r0, regs)
  {
  }

  /** The inner loop over the run of an opcode. */
  method MergeRun(max: array<nat>, i: nat, regval: nat, runlen: nat, ghost r0: Registers, ghost regs: seq<nat>)
    requires AreRegisters(max) && MergedUpTo(r0, regs, max[..]) && i == |regs|
    requires i + runlen <= REGISTERS && regval < 64
    modifies max
    ensures AreRegisters(max) && MergedUpTo(r0, regs + Run(regval, runlen), max[..])
  {
    var k := 0;
    assert regs + Run(regval, 0) == regs;
    hide MergedUpTo, Run;
    while k < runlen
      invariant 0 <= k <= runlen
      invariant AreRegisters(max) && MergedUpTo(r0, regs + Run(regval, k), max[..])
    {
      ghost var cur := max[..];
      MergedOne(r0, regs, cur, regval, k);
      if regval > max[i + k] { max[i + k] := regval; }
      assert max[..] == cur[i + k := Max(cur[i + k], regval)];
      k := k + 1;
    }
  }

  method MergeSparse(max: array<nat>, s: seq<Byte>, ghost r0: Registers)
    requires Sparse.ValidSparse(s) && AreRegisters(max) && max[..] == r0
    modifies max
    ensures AreRegisters(max) && max[..] == Merged(r0, SparseRegs(s))
  {
    var i, p := 0, 0;
    assert s[..0] == [] && s[..|s|] == s;
    while p < |s|
      invariant 0 <= p <= |s| && Sparse.Whole(s[..p]) && i == |Sparse.Regs(s[..p])|
      invariant AreRegisters(max) && MergedUpTo(r0, Sparse.Regs(s[..p]), max[..])
      decreases |s| - p
    {
      hide Sparse.Whole, Sparse.Regs, Sparse.OpLen, MergedUpTo, Run;
      var runlen, regval, oplen := HllSums.ReadRun(s, p);
      PrefixFits(s, p + oplen);
      if regval == 0 {
        MergedZeros(r0, Sparse.Regs(s[..p]), max[..], runlen);
      } else {
        MergeRun(max, i, regval, runlen, r0, Sparse.Regs(s[..p]));
      }
      i := i + runlen;
      p := p + oplen;
    }
    MergedWhole(r0, SparseRegs(s), max[..]);
  }

  method MergeDense(max: array<nat>, d: seq<Byte>, ghost r0: Registers)
    requires |d| == Dense.DENSE_BYTES && AreRegisters(max) && max[..] == r0
    modifies max
    ensures AreRegisters(max) && max[..] == Merged(r0, Dense.Regs(d))
  {
    var i := 0;
    while i < REGISTERS
      invariant 0 <= i <= REGISTERS && AreRegisters(max)
      invariant forall k :: 0 <= k < REGISTERS ==>
                  max[k] == if k < i then Max(r0[k], Dense.Regs(d)[k]) else r0[k]
    {
      var val := Dense.Get(d, i);
      assert Dense.Regs(d)[i] == val;
      hide Dense.Regs, Dense.Get;
      if val > max[i] { max[i] := val; }
      i := i + 1;
    }
    assert max[..] == Merged(r0, Dense.Regs(d));
  }

  lemma {:induction false} SmallValue(s: seq<Byte>, i: nat)
    requires Sparse.ValidSparse(s) && i < REGISTERS
    ensures SparseRegs(s)[i] <= Sparse.VAL_MAX_VALUE
  {
    Sparse.RegsBounded(s);
  }
}

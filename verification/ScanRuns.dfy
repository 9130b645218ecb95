/** Scans between whose calls operations of the dictionary are run. */
module ScanRuns {
  import opened Words
  import opened DictModel
  import opened DictScan
  import opened DictRuns

  /** The operations that neither resize nor expand on demand, so that no table is replaced by a smaller one. */
  ghost predicate Grows<K(!new), V>(ops: seq<Op<K, V>>) {
    forall op <- ops :: !op.DoResize? && !op.DoExpand?
  }

  ghost predicate Keeps<K(!new), V>(ops: seq<Op<K, V>>, k: K) {
    forall op <- ops :: op.DoDelete? ==> op.key != k
  }

  /** The size of the smaller of the tables. */
  function Low<K, V>(s: State<K, V>): nat {
    |Smaller(s).buckets|
  }

  // ----- the smaller table does not shrink -----

  lemma {:induction false} RehashOneLow<K(!new), V>(s: State<K, V>)
    requires Inv(s) && Rehashing(s)
    ensures Low(s) <= Low(RehashOne(s))
  {
  }

  lemma {:induction false} RehashLow<K(!new), V>(s: State<K, V>, n: nat)
    requires Inv(s)
    ensures Low(s) <= Low(Rehash(s, n))
    decreases n
  {
    hide Low, RehashOne, Inv, SameContents;
    if n > 0 && Rehashing(s) {
      RehashOneOk(s);
      RehashOneLow(s);
      RehashLow(RehashOne(s), n - 1);
    }
  }

  lemma {:induction false} StepLow<K(!new), V>(s: State<K, V>)
    requires Inv(s)
    ensures Low(s) <= Low(Step(s))
  {
    hide Low, Rehash, Inv;
    RehashLow(s, 1);
  }

  lemma {:induction false} WithTableLow<K(!new), V>(s: State<K, V>, second: bool, t: Table<K, V>)
    requires |t.buckets| == |TableOf(s, second).buckets|
    ensures Low(WithTable(s, second, t)) == Low(s)
  {
  }

  lemma {:induction false} BeforeAddLow<K(!new), V>(s: State<K, V>, c: bool)
    requires Inv(s) && 2 * (s.ht0.used + s.ht1.used) < LONG_MAX
    ensures Low(s) <= Low(BeforeAdd(s, c))
  {
    StepLow(s);
    TotalsNonNegative(Step(s));
    ExpandLow(Step(s), c);
    hide *;
  }

  lemma {:induction false} ExpandToLow<K(!new), V>(s: State<K, V>, size: int)
    requires Inv(s) && |s.ht0.buckets| <= size < LONG_MAX
    ensures Low(s) <= Low(Expand(s, size))
  {
    PowerFromIs(2, size, 63);
    hide Inv, SameContents, PowerFrom, Pow2;
  }

  lemma {:induction false} ExpandLow<K(!new), V>(s: State<K, V>, c: bool)
    requires Inv(s) && 2 * s.ht0.used < LONG_MAX
    ensures Low(s) <= Low(ExpandIfNeeded(s, c))
  {
    if !Rehashing(s) {
      if s.ht0.buckets == [] {
        InitialSizeFits();
        ExpandToLow(s, INITIAL_SIZE);
      } else if s.ht0.used >= |s.ht0.buckets| {
        ExpandToLow(s, s.ht0.used * 2);
      }
    }
    hide Low, Expand, Inv, SameContents;
  }

  lemma {:induction false} InitialSizeFits()
    ensures INITIAL_SIZE < LONG_MAX
  {
    PowersGrow(3, 63);
    assert Pow2(1) == 2 && Pow2(2) == 4 && Pow2(3) == 8;
  }

  lemma {:induction false} AddLow<K(!new), V>(s: State<K, V>, k: K, v: V, c: bool)
    requires Inv(s) && 2 * (s.ht0.used + s.ht1.used) < LONG_MAX
    ensures Low(s) <= Low(Add(s, k, v, c).0)
  {
    hide Inv, Get, SameContents, BeforeAdd, Low, WithTable;
    BeforeAddLow(s, c);
    var s' := BeforeAdd(s, c);
    if Get(s', k) == None {
      InsertOk(s', k, v);
      WithTableLow(s', Rehashing(s'), Prepend(s'.hash, Target(s'), Entry(k, v)));
    }
  }

  lemma {:induction false} OverwriteLow<K(!new), V>(s: State<K, V>, k: K, v: V)
    requires Inv(s)
    ensures Low(s) <= Low(Overwrite(s, k, v))
  {
    hide Inv, Get, SameContents, Step, Low, WithTable, Locate;
    StepLow(s);
    var r := AfterFind(s);
    match Locate(r, k)
    case Some((second, i, j)) => WithTableLow(r, second, SetVal(TableOf(r, second), i, j, v));
    case None =>
  }

  lemma {:induction false} DeleteLow<K(!new), V>(s: State<K, V>, k: K)
    requires Inv(s)
    ensures Low(s) <= Low(Delete(s, k).0)
  {
    hide Inv, Get, SameContents, Step, Low, WithTable, Locate;
    StepLow(s);
    var r := Step(s);
    match Locate(r, k)
    case Some((second, i, j)) => WithTableLow(r, second, Unlink(TableOf(r, second), i, j));
    case None =>
  }

  lemma {:induction false} DoLow<K(!new), V>(s: State<K, V>, op: Op<K, V>)
    requires Inv(s) && Room(s, [op]) && Grows([op])
    ensures Low(s) <= Low(Do(s, op).0)
  {
    hide Inv, Get, SameContents, Low, Add, Overwrite, Delete, Step, Rehash;
    TotalsNonNegative(s);
    assert op in [op];
    match op
    case DoAdd(k, v, c) => AddLow(s, k, v, c);
    case DoReplace(k, v, c) =>
      AddLow(s, k, v, c);
      OverwriteLow(Add(s, k, v, c).0, k, v);
    case DoDelete(k) => DeleteLow(s, k);
    case DoFind(k) => StepLow(s);
    case DoRehash(n) => RehashLow(s, n);
    case OpenIterator => IteratorsLow(s, s.iterators + 1);
    case CloseIterator => if s.iterators > 0 { IteratorsLow(s, s.iterators - 1); }
  }

  lemma {:induction false} IteratorsLow<K(!new), V>(s: State<K, V>, n: nat)
    ensures Low(s.(iterators := n)) == Low(s)
  {
  }

  lemma {:induction false} RunLow<K(!new), V>(s: State<K, V>, m: map<K, V>, ops: seq<Op<K, V>>)
    requires Inv(s) && Represents(s, m) && Room(s, ops) && Grows(ops)
    ensures Low(s) <= Low(Run(s, m, ops).0)
    decreases |ops|
  {
    hide Inv, Represents, Do, Spec, Low;
    if ops != [] {
      var op := ops[0];
      assert Room(s, [op]) && Grows([op]);
      DoRefines(s, m, op);
      DoLow(s, op);
      SizeIs(s, m);
      SizeIs(Do(s, op).0, Spec(m, op).0);
      RunLow(Do(s, op).0, Spec(m, op).0, ops[1..]);
    }
  }

  // ----- a key that is not deleted stays -----

  lemma {:induction false} RunKeeps<K(!new), V>(m: map<K, V>, ops: seq<Op<K, V>>, k: K)
    requires k in m && Keeps(ops, k)
    ensures k in SpecRun(m, ops).0
    decreases |ops|
  {
    if ops != [] {
      assert ops[0] in ops;
      RunKeeps(Spec(m, ops[0]).0, ops[1..], k);
    }
  }

  // ----- scans -----

  /** From one call to the next, operations are run that replace no table by a smaller one. */
  ghost predicate RunBetween<K(!new), V>(s: State<K, V>, r: State<K, V>, m: map<K, V>, ops: seq<Op<K, V>>) {
    Inv(s) && Represents(s, m) && Room(s, ops) && Grows(ops) && r == Run(s, m, ops).0
  }

  lemma {:induction false} BetweenKeeps<K(!new), V>(s: State<K, V>, r: State<K, V>, m: map<K, V>, ops: seq<Op<K, V>>,
                                                    k: K)
    requires RunBetween(s, r, m, ops) && Keeps(ops, k) && Get(s, k) != None
    ensures Get(r, k) != None
  {
    hide Inv, Run, SpecRun, Room, Get;
    RunRefines(s, m, ops);
    RunKeeps(m, ops, k);
  }

  lemma {:induction false} BetweenLow<K(!new), V>(s: State<K, V>, r: State<K, V>, m: map<K, V>, ops: seq<Op<K, V>>)
    requires RunBetween(s, r, m, ops)
    ensures Inv(r) && Exp(Smaller(s)) <= Exp(Smaller(r))
  {
    hide Run, SpecRun, Room, Represents;
    RunRefines(s, m, ops);
    RunLow(s, m, ops);
    var a, b := Exp(Smaller(s)), Exp(Smaller(r));
    if b < a { PowersGrowStrictly(b, a); }
  }

  /** A scan between whose calls keys are added, replaced, deleted and looked up, and migrations begun by additions
      and carried on, hands out every key that is there from the start and not deleted. */
  lemma {:induction false} GrowingScanComplete<K(!new), V>(calls: seq<Call<K, V>>, ms: seq<map<K, V>>,
                                                           runs: seq<seq<Op<K, V>>>, k: K)
    requires IsScan(calls) && |ms| == |runs| == |calls| - 1
    requires forall i :: 0 <= i < |runs| ==>
               RunBetween(calls[i].state, calls[i + 1].state, ms[i], runs[i]) && Keeps(runs[i], k)
    requires Get(calls[0].state, k) != None
    ensures exists i :: 0 <= i < |calls| && Reports(calls[i].state, calls[i].cursor, k)
  {
    hide RunBetween, Keeps, Get, Reports, Smaller, Exp, Scan;
    forall i, j | 0 <= i && j == i + 1 < |calls|
      ensures Exp(Smaller(calls[i].state)) <= Exp(Smaller(calls[j].state))
    {
      BetweenLow(calls[i].state, calls[j].state, ms[i], runs[i]);
    }
    StaysThroughout(calls, ms, runs, k, |calls| - 1);
    GrowthIsAligned(calls);
    ScanComplete(calls, k);
  }

  lemma {:induction false} StaysThroughout<K(!new), V>(calls: seq<Call<K, V>>, ms: seq<map<K, V>>,
                                                       runs: seq<seq<Op<K, V>>>, k: K, n: nat)
    requires n < |calls| && |ms| == |runs| == |calls| - 1
    requires forall i :: 0 <= i < |runs| ==>
               RunBetween(calls[i].state, calls[i + 1].state, ms[i], runs[i]) && Keeps(runs[i], k)
    requires Get(calls[0].state, k) != None
    ensures forall i :: 0 <= i <= n ==> Get(calls[i].state, k) != None
  {
    hide RunBetween, Keeps, Get;
    if n > 0 {
      StaysThroughout(calls, ms, runs, k, n - 1);
      BetweenKeeps(calls[n - 1].state, calls[n].state, ms[n - 1], runs[n - 1], k);
    }
  }
}

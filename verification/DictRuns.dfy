/** Runs of dictionary operations: refinement of a finite map, and the end of a migration. */
module DictRuns {
  import opened DictModel

  datatype Op<K, V> =
    | DoAdd(key: K, val: V, canResize: bool)
    | DoReplace(key: K, val: V, canResize: bool)
    | DoDelete(key: K)
    | DoFind(key: K)
    | DoExpand(size: nat)
    | DoResize(canResize: bool)
    | DoRehash(steps: nat)
    | OpenIterator
    | CloseIterator

  datatype Reply<V> = Done | Flag(yes: bool) | Found(value: Option<V>)

  /** Sizes stay below LONG_MAX for the next n operations. */
  ghost predicate Room<K(!new), V>(s: State<K, V>, ops: seq<Op<K, V>>) {
    && 2 * (s.ht0.used + s.ht1.used + |ops|) < LONG_MAX
    && forall op :: op in ops && op.DoExpand? ==> op.size < LONG_MAX
  }

  ghost function Do<K(!new), V>(s: State<K, V>, op: Op<K, V>): (State<K, V>, Reply<V>)
    requires Inv(s) && Room(s, [op])
  {
    TotalsNonNegative(s);
    assert op in [op];
    match op
    case DoAdd(k, v, c) => var (r, ok) := Add(s, k, v, c); (r, Flag(ok))
    case DoReplace(k, v, c) => var (r, ok) := Replace(s, k, v, c); (r, Flag(ok))
    case DoDelete(k) => var (r, ok) := Delete(s, k); (r, Flag(ok))
    case DoFind(k) => (AfterFind(s), Found(Get(AfterFind(s), k)))
    case DoExpand(n) => (Expand(s, n), Done)
    case DoResize(c) => (Resize(s, c), Done)
    case DoRehash(n) => (Rehash(s, n), Done)
    case OpenIterator => (s.(iterators := s.iterators + 1), Done)
    case CloseIterator => (if s.iterators > 0 then s.(iterators := s.iterators - 1) else s, Done)
  }

  /** What a map would answer. */
  ghost function Spec<K, V>(m: map<K, V>, op: Op<K, V>): (map<K, V>, Reply<V>) {
    match op
    case DoAdd(k, v, _) => (if k in m then m else m[k := v], Flag(k !in m))
    case DoReplace(k, v, _) => (m[k := v], Flag(k !in m))
    case DoDelete(k) => (m - {k}, Flag(k in m))
    case DoFind(k) => (m, Found(Lookup(m, k)))
    case _ => (m, Done)
  }

  lemma {:induction false} UpdateRefines<K(!new), V>(s: State<K, V>, m: map<K, V>, op: Op<K, V>)
    requires Inv(s) && Represents(s, m) && Room(s, [op])
    requires op.DoAdd? || op.DoReplace? || op.DoDelete?
    ensures Inv(Do(s, op).0) && Represents(Do(s, op).0, Spec(m, op).0)
    ensures Do(s, op).1 == Spec(m, op).1
    ensures |Spec(m, op).0| <= |m| + 1
  {
    hide Add, Replace, Delete, Inv, Represents;
    SizeIs(s, m);
    match op
    case DoAdd(k, v, c) =>
      AddOk(s, m, k, v, c);
      SizeAfterPut(m, k, v);
    case DoReplace(k, v, c) =>
      ReplaceOk(s, m, k, v, c);
      SizeAfterPut(m, k, v);
    case DoDelete(k) =>
      DeleteOk(s, m, k);
      assert |m - {k}| <= |m| by { assert (m - {k}).Keys == m.Keys - {k}; }
  }

  lemma {:induction false} UpkeepRefines<K(!new), V>(s: State<K, V>, m: map<K, V>, op: Op<K, V>)
    requires Inv(s) && Represents(s, m) && Room(s, [op])
    requires !(op.DoAdd? || op.DoReplace? || op.DoDelete?)
    ensures Inv(Do(s, op).0) && Represents(Do(s, op).0, m)
    ensures Do(s, op).1 == Spec(m, op).1
  {
    hide Inv, Represents, SameContents, Rehash, Expand, Resize, AfterFind, Get;
    SizeIs(s, m);
    assert op in [op];
    match op
    case DoFind(k) =>
      SameRepresents(s, AfterFind(s), m);
      FoundIs(AfterFind(s), m, k);
    case DoExpand(n) => SameRepresents(s, Expand(s, n), m);
    case DoResize(c) => SameRepresents(s, Resize(s, c), m);
    case DoRehash(n) => SameRepresents(s, Rehash(s, n), m);
    case OpenIterator => IteratorCount(s, s.iterators + 1, m);
    case CloseIterator => if s.iterators > 0 { IteratorCount(s, s.iterators - 1, m); }
  }

  lemma {:induction false} DoRefines<K(!new), V>(s: State<K, V>, m: map<K, V>, op: Op<K, V>)
    requires Inv(s) && Represents(s, m) && Room(s, [op])
    ensures Inv(Do(s, op).0) && Represents(Do(s, op).0, Spec(m, op).0)
    ensures Do(s, op).1 == Spec(m, op).1
    ensures |Spec(m, op).0| <= |m| + 1
  {
    hide Do, Inv, Represents;
    if op.DoAdd? || op.DoReplace? || op.DoDelete? {
      UpdateRefines(s, m, op);
    } else {
      UpkeepRefines(s, m, op);
    }
  }

  lemma {:induction false} SizeIs<K(!new), V>(s: State<K, V>, m: map<K, V>)
    requires Inv(s) && Represents(s, m)
    ensures s.ht0.used + s.ht1.used == |m| && s.ht0.used >= 0 && s.ht1.used >= 0
  {
  }

  lemma {:induction false} FoundIs<K(!new), V>(s: State<K, V>, m: map<K, V>, k: K)
    requires Represents(s, m)
    ensures Get(s, k) == Lookup(m, k)
  {
  }

  lemma {:induction false} SizeAfterPut<K, V>(m: map<K, V>, k: K, v: V)
    ensures |m[k := v]| <= |m| + 1
  {
    assert m[k := v].Keys == m.Keys + {k};
  }

  lemma {:induction false} IteratorCount<K(!new), V>(s: State<K, V>, n: nat, m: map<K, V>)
    requires Inv(s) && Represents(s, m)
    ensures Inv(s.(iterators := n)) && Represents(s.(iterators := n), m)
  {
  }

  ghost function Run<K(!new), V>(s: State<K, V>, m: map<K, V>, ops: seq<Op<K, V>>): (State<K, V>, seq<Reply<V>>)
    requires Inv(s) && Represents(s, m) && Room(s, ops)
    decreases |ops|
  {
    if ops == [] then (s, [])
    else
      assert Room(s, [ops[0]]);
      DoRefines(s, m, ops[0]);
      var (s1, reply) := Do(s, ops[0]);
      var (s2, replies) := Run(s1, Spec(m, ops[0]).0, ops[1..]);
      (s2, [reply] + replies)
  }

  ghost function SpecRun<K, V>(m: map<K, V>, ops: seq<Op<K, V>>): (map<K, V>, seq<Reply<V>>)
    decreases |ops|
  {
    if ops == [] then (m, [])
    else
      var (m1, reply) := Spec(m, ops[0]);
      var (m2, replies) := SpecRun(m1, ops[1..]);
      (m2, [reply] + replies)
  }

  /** Every run of operations, in whatever phase of migrations it finds the tables, answers as a
      finite map does, and leaves the tables in order. */
  lemma {:induction false} RunRefines<K(!new), V>(s: State<K, V>, m: map<K, V>, ops: seq<Op<K, V>>)
    requires Inv(s) && Represents(s, m) && Room(s, ops)
    ensures Run(s, m, ops).1 == SpecRun(m, ops).1
    ensures Inv(Run(s, m, ops).0) && Represents(Run(s, m, ops).0, SpecRun(m, ops).0)
    decreases |ops|
  {
    hide Inv, Do, Spec;
    if ops != [] {
      assert Room(s, [ops[0]]);
      DoRefines(s, m, ops[0]);
      RunRefines(Do(s, ops[0]).0, Spec(m, ops[0]).0, ops[1..]);
    }
  }

  // ----- the end of a migration -----

  ghost predicate Lookups<K(!new), V>(ops: seq<Op<K, V>>) {
    forall op :: op in ops ==> op.DoAdd? || op.DoReplace? || op.DoDelete? || op.DoFind?
  }

  /** r is further on in the same migration than s. */
  ghost predicate FurtherOn<K(!new), V>(s: State<K, V>, r: State<K, V>) {
    && Rehashing(r) && r.rehashidx > s.rehashidx && |r.ht0.buckets| == |s.ht0.buckets| && r.iterators == s.iterators
  }

  lemma {:induction false} StepAdvances<K(!new), V>(s: State<K, V>)
    requires Inv(s) && Rehashing(s) && s.iterators == 0 && Rehashing(Step(s))
    ensures FurtherOn(s, Step(s))
  {
    RehashOneOk(s);
    assert Rehash(s, 1) == Rehash(RehashOne(s), 0) == RehashOne(s);
  }

  /** A step taken by the operation finds the first table drained, which ends the migration; there is a second step
      only when a bound key is replaced. */
  ghost predicate EndsIn<K(!new), V>(s: State<K, V>, op: Op<K, V>)
    requires Inv(s)
  {
    !Rehashing(Step(s)) || (op.DoReplace? && Get(s, op.key) != None && !Rehashing(Step(Step(s))))
  }

  lemma {:induction false} AddAdvances<K(!new), V>(s: State<K, V>, k: K, v: V, c: bool)
    requires Inv(s) && 2 * (s.ht0.used + s.ht1.used) < LONG_MAX
    requires Rehashing(s) && s.iterators == 0 && Rehashing(Step(s))
    ensures FurtherOn(s, Add(s, k, v, c).0)
  {
    StepAdvances(s);
    TotalsNonNegative(Step(s));
    hide Inv, Get, Step;
    assert BeforeAdd(s, c) == Step(s);
  }

  lemma {:induction false} OverwriteAdvances<K(!new), V>(s: State<K, V>, k: K, v: V)
    requires Inv(s) && Rehashing(s) && s.iterators == 0 && Rehashing(Step(s))
    ensures FurtherOn(s, Overwrite(s, k, v))
  {
    StepAdvances(s);
    assert AfterFind(s) == Step(s);
    hide Inv, Get, Step;
  }

  lemma {:induction false} DeleteAdvances<K(!new), V>(s: State<K, V>, k: K)
    requires Inv(s) && Rehashing(s) && s.iterators == 0 && Rehashing(Step(s))
    ensures FurtherOn(s, Delete(s, k).0)
  {
    StepAdvances(s);
    assert s.ht0.buckets != [];
    hide Inv, Get, Step;
  }

  lemma {:induction false} OpAdvances<K(!new), V>(s: State<K, V>, op: Op<K, V>)
    requires Inv(s) && Room(s, [op]) && Lookups([op])
    requires Rehashing(s) && s.iterators == 0 && !EndsIn(s, op)
    ensures FurtherOn(s, Do(s, op).0)
  {
    TotalsNonNegative(s);
    assert op in [op];
    match op
    case DoAdd(k, v, c) => AddAdvances(s, k, v, c);
    case DoReplace(k, v, c) => ReplaceAdvances(s, k, v, c);
    case DoDelete(k) => DeleteAdvances(s, k);
    case DoFind(k) =>
      StepAdvances(s);
      assert s.ht0.buckets != [];
  }

  lemma {:induction false} AddRefuses<K(!new), V>(s: State<K, V>, k: K, v: V, c: bool)
    requires Inv(s) && 2 * (s.ht0.used + s.ht1.used) < LONG_MAX
    ensures Add(s, k, v, c).1 <==> Get(s, k) == None
  {
    hide Inv;
    assert Get(BeforeAdd(s, c), k) == Get(s, k);
  }

  lemma {:induction false} ReplaceAdvances<K(!new), V>(s: State<K, V>, k: K, v: V, c: bool)
    requires Inv(s) && 2 * (s.ht0.used + s.ht1.used) < LONG_MAX
    requires Rehashing(s) && s.iterators == 0 && Rehashing(Step(s))
    requires Get(s, k) != None ==> Rehashing(Step(Step(s)))
    ensures FurtherOn(s, Replace(s, k, v, c).0)
  {
    AddAdvances(s, k, v, c);
    AddRefuses(s, k, v, c);
    if !Add(s, k, v, c).1 {
      TotalsNonNegative(Step(s));
      assert Add(s, k, v, c).0 == BeforeAdd(s, c) == Step(s);
      StepAdvances(s);
      OverwriteAdvances(Step(s), k, v);
    }
  }

  lemma {:induction false} IndexWithin<K(!new), V>(s: State<K, V>)
    requires Inv(s) && Rehashing(s)
    ensures s.rehashidx <= |s.ht0.buckets|
  {
  }

  /** With no iterator open, a migration of n buckets is over by the n+1st of any additions, replacements,
      deletions and lookups. */
  lemma {:induction false} MigrationEnds<K(!new), V>(s: State<K, V>, m: map<K, V>, ops: seq<Op<K, V>>) returns (i: nat)
    requires Inv(s) && Represents(s, m) && Room(s, ops) && Lookups(ops)
    requires Rehashing(s) && s.iterators == 0
    requires |ops| >= |s.ht0.buckets| - s.rehashidx + 1
    ensures i < |ops| && Room(s, ops[..i])
    ensures Inv(Run(s, m, ops[..i]).0) && EndsIn(Run(s, m, ops[..i]).0, ops[i])
    decreases |ops|
  {
    hide Inv, Do, Spec, Represents, Step, EndsIn;
    IndexWithin(s);
    var op := ops[0];
    if EndsIn(s, op) {
      i := 0;
      assert Run(s, m, ops[..0]).0 == s;
    } else {
      assert Room(s, [op]) && Lookups([op]);
      OpAdvances(s, op);
      DoRefines(s, m, op);
      var s1, m1 := Do(s, op).0, Spec(m, op).0;
      SizeIs(s, m);
      SizeIs(s1, m1);
      assert Room(s1, ops[1..]);
      var j := MigrationEnds(s1, m1, ops[1..]);
      i := j + 1;
      assert ops[..i][1..] == ops[1..][..j] && ops[..i][0] == op;
      assert Room(s, ops[..i]);
      assert Run(s, m, ops[..i]).0 == Run(s1, m1, ops[1..][..j]).0;
    }
  }
}

/** How often dictScan hands out an entry. */
module ScanOnce {
  import opened Words
  import opened DictModel
  import opened ScanOrder
  import opened DictScan

  // ----- one call -----

  ghost predicate AllDifferent(ws: seq<Word>) {
    forall i, j :: 0 <= i < j < |ws| ==> ws[i] != ws[j]
  }

  lemma {:induction false} ExpansionsDiffer(w: Word, k0: nat, k1: nat)
    requires k0 <= k1 <= WIDTH
    ensures AllDifferent(Expansions(w, k0, k1))
    decreases Pow2(k1 - k0) - Value(w[k0..k1])
  {
    var w' := NextExpansion(w, Mask(k0));
    ExpansionProgress(w, k0, k1);
    if And(w', Xor(Mask(k0), Mask(k1))) != ZERO {
      ExpansionsDiffer(w', k0, k1);
      ExpansionsAre(w', k0, k1, w);
      hide And, Xor, Mask, NextExpansion;
      assert Expansions(w, k0, k1)[1..] == Expansions(w', k0, k1);
    }
  }

  lemma {:induction false} DistinctAppend<K, V>(c: Chain<K, V>, d: Chain<K, V>)
    requires Distinct(c) && Distinct(d)
    requires forall e, f :: e in c && f in d ==> e.key != f.key
    ensures Distinct(c + d)
  {
  }

  lemma {:induction false} BucketsDistinct<K(!new), V>(hash: K -> Word, t: Table<K, V>, ws: seq<Word>)
    requires TableOk(hash, t) && AllDifferent(ws) && forall w <- ws :: And(w, t.mask) == w
    ensures Distinct(Buckets(t, ws))
  {
    if ws != [] {
      var first, rest := Bucket(t, ws[0]), Buckets(t, ws[1..]);
      BucketsDistinct(hash, t, ws[1..]);
      forall e, f | e in first && f in rest ensures e.key != f.key {
        var w := BucketsOnlyHave(t, ws[1..], f);
        PlacedIn(hash, t, ws[0], e);
        PlacedIn(hash, t, w, f);
      }
      DistinctAppend(first, rest);
    }
  }

  lemma {:induction false} LargerDistinct<K(!new), V>(s: State<K, V>, v: Word)
    requires Inv(s) && Rehashing(s) && Exp(Smaller(s)) <= Exp(Larger(s)) < WIDTH
    ensures Distinct(Buckets(Larger(s), Expansions(v, Exp(Smaller(s)), Exp(Larger(s)))))
  {
    var k0, k1 := Exp(Smaller(s)), Exp(Larger(s));
    var ws := Expansions(v, k0, k1);
    ExpansionsDiffer(v, k0, k1);
    forall w | w in ws ensures And(w, Larger(s).mask) == w { ExpansionsMasked(v, k0, k1, w); }
    BucketsDistinct(s.hash, Larger(s), ws);
  }

  /** No call hands out a key twice, in no phase of a migration. */
  lemma {:induction false} HandedOutOnce<K(!new), V>(s: State<K, V>, v: Word)
    requires Inv(s)
    ensures Distinct(Scan(s, v).0)
  {
    if Rehashing(s) {
      SizesOrdered(s);
      LargerDistinct(s, v);
      var ws := Expansions(v, Exp(Smaller(s)), Exp(Larger(s)));
      var c, d := Bucket(Smaller(s), v), Buckets(Larger(s), ws);
      forall e, f | e in c && f in d ensures e.key != f.key {
        var w := BucketsOnlyHave(Larger(s), ws, f);
        ChainedIsBound(s.hash, Smaller(s), v, e);
        ChainedIsBound(s.hash, Larger(s), w, f);
      }
      DistinctAppend(c, d);
    }
  }

  /** All keys that a call hands out share the low bits of its cursor. */
  lemma {:induction false} SharesLowBits<K(!new), V>(s: State<K, V>, v: Word, e: Entry<K, V>)
    requires Inv(s) && e in Scan(s, v).0
    ensures Exp(Smaller(s)) < WIDTH && s.hash(e.key)[..Exp(Smaller(s))] == v[..Exp(Smaller(s))]
  {
    if e in Bucket(Smaller(s), v) {
      PlacedIn(s.hash, Smaller(s), v, e);
      SameLowBits(s.hash(e.key), v, Exp(Smaller(s)));
    } else {
      SizesOrdered(s);
      InLarger(s, v, e);
    }
  }

  lemma {:induction false} InLarger<K(!new), V>(s: State<K, V>, v: Word, e: Entry<K, V>)
    requires Inv(s) && Rehashing(s) && Exp(Smaller(s)) <= Exp(Larger(s)) < WIDTH
    requires e in Buckets(Larger(s), Expansions(v, Exp(Smaller(s)), Exp(Larger(s))))
    ensures s.hash(e.key)[..Exp(Smaller(s))] == v[..Exp(Smaller(s))]
  {
    var k0, k1, h := Exp(Smaller(s)), Exp(Larger(s)), s.hash(e.key);
    var w := BucketsOnlyHave(Larger(s), Expansions(v, k0, k1), e);
    PlacedIn(s.hash, Larger(s), w, e);
    assert Larger(s).mask == Mask(k1);
    hide Inv, Expansions, Bucket, Buckets, And, Mask, Smaller, Larger, Exp;
    ExpansionsMasked(v, k0, k1, w);
    ExpansionsAre(v, k0, k1, w);
    SameLowBits(h, w, k1);
    assert h[..k0] == h[..k1][..k0] && w[..k0] == w[..k1][..k0];
  }

  lemma {:induction false} SameLowBits(h: Word, w: Word, k: nat)
    requires k <= WIDTH && And(h, Mask(k)) == And(w, Mask(k))
    ensures h[..k] == w[..k]
  {
    AndMask(h, k);
    AndMask(w, k);
    assert And(h, Mask(k))[..k] == h[..k] && And(w, Mask(k))[..k] == w[..k];
  }

  // ----- a scan of a dictionary that does not change -----

  ghost predicate Unchanged<K(!new), V>(calls: seq<Call<K, V>>, s: State<K, V>) {
    forall c <- calls :: c.state == s
  }

  /** All that the calls hand out, in order. */
  function Output<K(!new), V>(calls: seq<Call<K, V>>): seq<Entry<K, V>>
    requires forall c <- calls :: Inv(c.state)
  {
    if calls == [] then [] else
    var n := |calls| - 1;
    Output(calls[..n]) + Scan(calls[n].state, calls[n].cursor).0
  }

  lemma {:induction false} InOutput<K(!new), V>(calls: seq<Call<K, V>>, e: Entry<K, V>)
    requires forall c <- calls :: Inv(c.state)
    ensures e in Output(calls) <==> exists i :: 0 <= i < |calls| && e in Scan(calls[i].state, calls[i].cursor).0
  {
    hide Scan, Inv;
    if calls != [] {
      var n := |calls| - 1;
      InOutput(calls[..n], e);
      assert forall i :: 0 <= i < n ==> calls[..n][i] == calls[i];
    }
  }

  /** Two calls of the scan have no key in common. */
  lemma {:induction false} CallsDiffer<K(!new), V>(calls: seq<Call<K, V>>, s: State<K, V>, i: nat, j: nat,
                                                   e: Entry<K, V>, f: Entry<K, V>)
    requires IsScan(calls) && Unchanged(calls, s) && i < j < |calls| && Inv(s)
    requires e in Scan(s, calls[i].cursor).0 && f in Scan(s, calls[j].cursor).0
    ensures e.key != f.key
  {
    hide Scan, Inv, IsScan, Smaller, Exp;
    var k := Exp(Smaller(s));
    SharesLowBits(s, calls[i].cursor, e);
    SharesLowBits(s, calls[j].cursor, f);
    SomethingScanned(s, calls[i].cursor, e);
    assert FixedSize(calls, k);
    CursorAt(calls, k, i);
    CursorAt(calls, k, j);
  }

  lemma {:induction false} SomethingScanned<K(!new), V>(s: State<K, V>, v: Word, e: Entry<K, V>)
    requires Inv(s) && e in Scan(s, v).0
    ensures s.ht0.used + s.ht1.used > 0
  {
    TotalsNonNegative(s);
  }

  lemma {:induction false} OutputDistinct<K(!new), V>(calls: seq<Call<K, V>>, s: State<K, V>, n: nat)
    requires IsScan(calls) && Unchanged(calls, s) && Inv(s) && n <= |calls|
    ensures Distinct(Output(calls[..n]))
  {
    hide Scan, Inv, IsScan;
    if n > 0 {
      OutputDistinct(calls, s, n - 1);
      assert calls[..n][..n - 1] == calls[..n - 1];
      var before, c := Output(calls[..n - 1]), Scan(s, calls[n - 1].cursor).0;
      HandedOutOnce(s, calls[n - 1].cursor);
      forall e, f | e in before && f in c ensures e.key != f.key {
        InOutput(calls[..n - 1], e);
        var i :| 0 <= i < n - 1 && e in Scan(calls[i].state, calls[i].cursor).0;
        CallsDiffer(calls, s, i, n - 1, e, f);
      }
      DistinctAppend(before, c);
    }
  }

  lemma {:induction false} ScannedInOrder<K(!new), V>(calls: seq<Call<K, V>>)
    requires IsScan(calls)
    ensures forall c <- calls :: Inv(c.state)
  {
  }

  lemma {:induction false} AllBindings<K(!new), V>(calls: seq<Call<K, V>>, s: State<K, V>, e: Entry<K, V>)
    requires IsScan(calls) && Unchanged(calls, s) && Inv(s)
    ensures e in Output(calls) <==> Get(s, e.key) == Some(e.val)
  {
    hide Scan, Inv, Get, Output, Smaller, Larger, Exp, LowOnes;
    ScannedInOrder(calls);
    InOutput(calls, e);
    if e in Output(calls) {
      var i :| 0 <= i < |calls| && e in Scan(calls[i].state, calls[i].cursor).0;
      OnlyBindingsReported(s, calls[i].cursor, e);
    }
    if Get(s, e.key) == Some(e.val) {
      GrowthIsAligned(calls);
      ScanComplete(calls, e.key);
      var i :| 0 <= i < |calls| && Reports(calls[i].state, calls[i].cursor, e.key);
      var f :| f in Scan(s, calls[i].cursor).0 && f.key == e.key;
      OnlyBindingsReported(s, calls[i].cursor, f);
    }
  }

  lemma {:induction false} KeysCounted<K(!new), V>(c: Chain<K, V>)
    requires Distinct(c)
    ensures |set e | e in c :: e.key| == |c|
  {
    if c != [] {
      KeysCounted(c[1..]);
      var rest := set e | e in c[1..] :: e.key;
      assert (set e | e in c :: e.key) == {c[0].key} + rest;
    } else {
      assert (set e | e in c :: e.key) == {};
    }
  }

  /** A scan of a dictionary that does not change, with or without a migration that stands still, hands out every
      binding exactly once and nothing else. */
  lemma {:induction false} UnchangedScan<K(!new), V>(calls: seq<Call<K, V>>, s: State<K, V>, m: map<K, V>)
    requires IsScan(calls) && Unchanged(calls, s) && Inv(s) && Represents(s, m)
    ensures Distinct(Output(calls)) && |Output(calls)| == |m|
    ensures forall e :: e in Output(calls) <==> e.key in m && m[e.key] == e.val
  {
    hide Inv, IsScan, Scan;
    OutputDistinct(calls, s, |calls|);
    assert calls[..|calls|] == calls;
    var all := Output(calls);
    forall e ensures e in all <==> e.key in m && m[e.key] == e.val { AllBindings(calls, s, e); }
    KeysCounted(all);
    var keys := set e | e in all :: e.key;
    forall k | k in m ensures k in keys {
      var e := Entry(k, m[k]);
      assert e in all && e.key == k;
    }
    forall k | k in keys ensures k in m {
      var e :| e in all && e.key == k;
    }
    assert keys == m.Keys;
  }
}

/** dictScan over states of the dictionary: what a whole scan reports. */
module DictScan {
  import opened Words
  import opened DictModel
  import opened ScanOrder

  // ----- one call -----

  /** t0 and t1 of dictScan: the smaller table and the larger one. */
  function Smaller<K, V>(s: State<K, V>): Table<K, V> {
    if Rehashing(s) && |s.ht0.buckets| > |s.ht1.buckets| then s.ht1 else s.ht0
  }

  function Larger<K, V>(s: State<K, V>): Table<K, V> {
    if |s.ht0.buckets| > |s.ht1.buckets| then s.ht0 else s.ht1
  }

  /** The exponent of a table's size. */
  function Exp<K, V>(t: Table<K, V>): nat { Log2(|t.buckets|) }

  function Bucket<K, V>(t: Table<K, V>, v: Word): Chain<K, V> {
    var i := Value(And(v, t.mask));
    if i < |t.buckets| then t.buckets[i] else []
  }

  function Buckets<K, V>(t: Table<K, V>, vs: seq<Word>): Chain<K, V> {
    if vs == [] then [] else Bucket(t, vs[0]) + Buckets(t, vs[1..])
  }

  lemma {:induction false} SizesOrdered<K(!new), V>(s: State<K, V>)
    requires Inv(s) && Rehashing(s)
    ensures Exp(Smaller(s)) <= Exp(Larger(s)) < WIDTH
  {
    var a, b := Exp(Smaller(s)), Exp(Larger(s));
    if b < a { PowersGrowStrictly(b, a); }
  }

  /** The entries handed to fn by dictScan(d, v, fn), in order, and the cursor returned. */
  function Scan<K(!new), V>(s: State<K, V>, v: Word): (seq<Entry<K, V>>, Word)
    requires Inv(s)
  {
    if s.ht0.used + s.ht1.used == 0 then ([], ZERO)
    else if !Rehashing(s) then
      (Bucket(s.ht0, v), NextCursor(v, s.ht0.mask))
    else
      SizesOrdered(s);
      (Bucket(Smaller(s), v) + Buckets(Larger(s), Expansions(v, Exp(Smaller(s)), Exp(Larger(s)))),
       NextCursor(v, Smaller(s).mask))
  }

  ghost predicate Reports<K(!new), V>(s: State<K, V>, v: Word, k: K)
    requires Inv(s)
  {
    exists e :: e in Scan(s, v).0 && e.key == k
  }

  /** The bits of the cursor between the two masks, from which the enumeration of the larger table starts. */
  function Field<K, V>(s: State<K, V>, v: Word): Bits {
    var k0, k1 := Exp(Smaller(s)), Exp(Larger(s));
    if k0 <= k1 <= WIDTH then v[k0..k1] else []
  }

  /** The call enumerates the larger table without leaving out anything that comes later in the order. */
  predicate Aligned<K, V>(s: State<K, V>, v: Word) {
    Rehashing(s) ==> LowOnes(Field(s, v))
  }

  lemma {:induction false} BucketsHave<K, V>(t: Table<K, V>, vs: seq<Word>, w: Word, e: Entry<K, V>)
    requires w in vs && e in Bucket(t, w)
    ensures e in Buckets(t, vs)
  {
    if vs[0] != w { BucketsHave(t, vs[1..], w, e); }
  }

  lemma {:induction false} BucketsOnlyHave<K, V>(t: Table<K, V>, vs: seq<Word>, e: Entry<K, V>) returns (w: Word)
    requires e in Buckets(t, vs)
    ensures w in vs && e in Bucket(t, w)
  {
    if e in Bucket(t, vs[0]) { w := vs[0]; } else { w := BucketsOnlyHave(t, vs[1..], e); }
  }

  lemma {:induction false} AndTwice(h: Word, m: Word)
    ensures And(And(h, m), m) == And(h, m)
  {
  }

  lemma {:induction false} SameBucket<K, V>(t: Table<K, V>, v: Word, h: Word)
    requires Sized(t) && h[..Exp(t)] == v[..Exp(t)]
    ensures And(v, t.mask) == And(h, t.mask)
  {
    AndMask(v, Exp(t));
    AndMask(h, Exp(t));
  }

  /** The entry of a bound key is in the bucket of its hash, in one of the tables. */
  lemma {:induction false} EntryInBucket<K(!new), V>(s: State<K, V>, k: K) returns (t: Table<K, V>, e: Entry<K, V>)
    requires Inv(s) && Get(s, k) != None
    ensures t == s.ht0 || (Rehashing(s) && t == s.ht1)
    ensures e in Bucket(t, s.hash(k)) && e.key == k && TableGet(s.hash, t, k) != None
  {
    t := if TableGet(s.hash, s.ht0, k) != None then s.ht0 else s.ht1;
    var c := t.buckets[Index(s.hash, t, k)];
    e := c[FindIn(c, k)];
    if !Rehashing(s) { assert s.ht1 == NoTable(); }
  }

  /** A bound key whose hash the call is responsible for is reported by it. */
  lemma {:induction false} DueIsReported<K(!new), V>(s: State<K, V>, v: Word, k: K)
    requires Inv(s) && Get(s, k) != None && Aligned(s, v)
    requires Due(s.hash(k), v, Smaller(s).mask)
    ensures Reports(s, v, k)
  {
    var h := s.hash(k);
    var t, e := EntryInBucket(s, k);
    NonEmpty(s, k);
    if t == Smaller(s) {
      DueIsBucket(h, v, Exp(t));
      SameBucket(t, v, h);
    } else {
      SizesOrdered(s);
      var k0, k1 := Exp(Smaller(s)), Exp(Larger(s));
      ExpansionsCover(v, k0, k1);
      AndTwice(h, Mask(k1));
      BucketsHave(t, Expansions(v, k0, k1), And(h, Mask(k1)), e);
    }
    assert e in Scan(s, v).0;
  }

  lemma {:induction false} NonEmpty<K(!new), V>(s: State<K, V>, k: K)
    requires Inv(s) && Get(s, k) != None
    ensures s.ht0.used + s.ht1.used > 0
  {
    var t, e := EntryInBucket(s, k);
    TotalZero(t.buckets);
  }

  lemma {:induction false} ChainedIsBound<K(!new), V>(hash: K -> Word, t: Table<K, V>, w: Word, e: Entry<K, V>)
    requires TableOk(hash, t) && e in Bucket(t, w)
    ensures TableGet(hash, t, e.key) == Some(e.val)
  {
    var i := Value(And(w, t.mask));
    var j :| 0 <= j < |t.buckets[i]| && t.buckets[i][j] == e;
    assert Index(hash, t, t.buckets[i][j].key) == i;
    FindAt(t.buckets[i], j);
  }

  /** Only bindings of the dictionary are reported. */
  lemma {:induction false} OnlyBindingsReported<K(!new), V>(s: State<K, V>, v: Word, e: Entry<K, V>)
    requires Inv(s) && e in Scan(s, v).0
    ensures Get(s, e.key) == Some(e.val)
  {
    if !Rehashing(s) {
      ChainedIsBound(s.hash, s.ht0, v, e);
    } else {
      SizesOrdered(s);
      var t, w := Smaller(s), v;
      if e !in Bucket(t, v) {
        t := Larger(s);
        w := BucketsOnlyHave(t, Expansions(v, Exp(Smaller(s)), Exp(t)), e);
      }
      ChainedIsBound(s.hash, t, w, e);
    }
  }

  /** While rehashing, a call visits the larger table's bucket of every hash it is responsible for
      if and only if the cursor's field has the form 1..10..0. */
  lemma {:induction false} AlignedExactly<K(!new), V>(s: State<K, V>, v: Word)
    requires Inv(s) && Rehashing(s)
    ensures Exp(Smaller(s)) <= Exp(Larger(s)) <= WIDTH
    ensures Aligned(s, v) <==>
              forall h: Word :: Due(h, v, Smaller(s).mask)
                ==> And(h, Larger(s).mask) in Expansions(v, Exp(Smaller(s)), Exp(Larger(s)))
  {
    SizesOrdered(s);
    ExpansionsCover(v, Exp(Smaller(s)), Exp(Larger(s)));
  }

  // ----- whole scans -----

  /** One call of a scan: the dictionary as it is then, and the cursor passed. */
  datatype Call<!K, V> = Call(state: State<K, V>, cursor: Word)

  function Returned<K(!new), V>(c: Call<K, V>): Word
    requires Inv(c.state)
  {
    Scan(c.state, c.cursor).1
  }

  /** Call i + 1 is made with the cursor, not 0, that call i has returned. */
  ghost predicate Follows<K(!new), V>(calls: seq<Call<K, V>>, i: nat)
    requires i + 1 < |calls| && Inv(calls[i].state)
  {
    calls[i + 1].cursor == Returned(calls[i]) != ZERO
  }

  /** The calls of one scan: from 0, each with the cursor returned by the one before, until 0 comes back.
      Between two calls the dictionary may have been changed in any way. */
  ghost predicate IsScan<K(!new), V>(calls: seq<Call<K, V>>) {
    && calls != []
    && (forall i :: 0 <= i < |calls| ==> Inv(calls[i].state) && calls[i].state.hash == calls[0].state.hash)
    && calls[0].cursor == ZERO
    && (forall i :: 0 <= i < |calls| - 1 ==> Follows(calls, i))
    && Returned(calls[|calls| - 1]) == ZERO
  }

  ghost predicate PresentThroughout<K(!new), V>(calls: seq<Call<K, V>>, k: K) {
    forall i :: 0 <= i < |calls| ==> Get(calls[i].state, k) != None
  }

  lemma {:induction false} ScanReturns<K(!new), V>(s: State<K, V>, v: Word)
    requires Inv(s) && s.ht0.used + s.ht1.used > 0
    ensures Scan(s, v).1 == NextCursor(v, Smaller(s).mask)
  {
  }

  /** A key not before the cursor is reported, or not before the next cursor either. */
  lemma {:induction false} ReportedOrLater<K(!new), V>(s: State<K, V>, v: Word, k: K)
    requires Inv(s) && Get(s, k) != None && Aligned(s, v) && !Before(s.hash(k), v)
    ensures Reports(s, v, k) || (Scan(s, v).1 != ZERO && !Before(s.hash(k), Scan(s, v).1))
  {
    NonEmpty(s, k);
    ScanReturns(s, v);
    hide Scan, Inv, Get, Aligned, Reports;
    if Due(s.hash(k), v, Smaller(s).mask) { DueIsReported(s, v, k); }
  }

  /** Every key present throughout is reported, whatever adds, deletes and rehash steps happen meanwhile,
      if every call made during a migration is aligned. */
  lemma {:induction false} ScanComplete<K(!new), V>(calls: seq<Call<K, V>>, k: K)
    requires IsScan(calls) && PresentThroughout(calls, k)
    requires forall i :: 0 <= i < |calls| ==> Aligned(calls[i].state, calls[i].cursor)
    ensures exists i :: 0 <= i < |calls| && Reports(calls[i].state, calls[i].cursor, k)
  {
    hide Scan, Inv, Get, Aligned, Reports, Before;
    var h := calls[0].state.hash(k);
    NothingBeforeZero(h, WIDTH);
    var n := 0;
    while n < |calls| && !Reports(calls[n].state, calls[n].cursor, k)
      invariant 0 <= n < |calls| && !Before(h, calls[n].cursor)
      decreases |calls| - n
    {
      ReportedOrLater(calls[n].state, calls[n].cursor, k);
      assert Follows(calls, n);
      n := n + 1;
    }
  }

  /** A cursor returned by a call has no bits above that call's smaller mask. */
  lemma {:induction false} CursorFits<K(!new), V>(s: State<K, V>, v: Word)
    requires Inv(s)
    ensures forall i :: Exp(Smaller(s)) <= i < WIDTH ==> !Scan(s, v).1[i]
  {
    NextCursorIs(v, Exp(Smaller(s)));
  }

  lemma {:induction false} NoHighBits<K, V>(s: State<K, V>, v: Word)
    requires forall i :: Exp(Smaller(s)) <= i < WIDTH ==> !v[i]
    ensures Aligned(s, v)
  {
    var f := Field(s, v);
    assert forall j :: 0 <= j < |f| ==> !f[j];
  }

  /** When the smaller of the tables never shrinks, every call is aligned. */
  lemma {:induction false} GrowthIsAligned<K(!new), V>(calls: seq<Call<K, V>>)
    requires IsScan(calls)
    requires forall i, j :: 0 <= i && j == i + 1 < |calls| ==>
             Exp(Smaller(calls[i].state)) <= Exp(Smaller(calls[j].state))
    ensures forall i :: 0 <= i < |calls| ==> Aligned(calls[i].state, calls[i].cursor)
  {
    forall i | 0 <= i < |calls| ensures Aligned(calls[i].state, calls[i].cursor) {
      var c := calls[i];
      if i > 0 {
        assert Follows(calls, i - 1);
        CursorFits(calls[i - 1].state, calls[i - 1].cursor);
      }
      NoHighBits(c.state, c.cursor);
    }
  }

  /** With at most a doubling between the tables every call is aligned. */
  lemma {:induction false} DoublingIsAligned<K(!new), V>(s: State<K, V>, v: Word)
    requires Exp(Larger(s)) <= Exp(Smaller(s)) + 1
    ensures Aligned(s, v)
  {
  }

  // ----- scans of tables of fixed size -----

  ghost predicate FixedSize<K(!new), V>(calls: seq<Call<K, V>>, k: nat) {
    forall i :: 0 <= i < |calls| ==>
      Exp(Smaller(calls[i].state)) == k && calls[i].state.ht0.used + calls[i].state.ht1.used > 0
  }

  lemma {:induction false} CursorAt<K(!new), V>(calls: seq<Call<K, V>>, k: nat, i: nat)
    requires IsScan(calls) && FixedSize(calls, k) && k < WIDTH && i < |calls|
    ensures Value(Reverse(calls[i].cursor[..k])) == i
  {
    hide Scan, Inv;
    if i == 0 {
      ReversedZero(k);
    } else {
      CursorAt(calls, k, i - 1);
      assert Follows(calls, i - 1);
      FixedStep(calls[i - 1].state, calls[i - 1].cursor, k);
    }
  }

  lemma {:induction false} FixedSizeCount<K(!new), V>(calls: seq<Call<K, V>>, k: nat)
    requires IsScan(calls) && FixedSize(calls, k)
    ensures k < WIDTH && |calls| == Pow2(k)
  {
    var n := |calls| - 1;
    var last := calls[n];
    assert Exp(Smaller(last.state)) == k && Returned(last) == ZERO;
    FixedStep(last.state, last.cursor, k);
    CursorAt(calls, k, n);
  }

  /** With fixed sizes, call i looks at the smaller table's bucket that is the bit reversal of i,
      so there are as many calls as buckets and each bucket has its turn exactly once. */
  lemma {:induction false} FixedSizeScan<K(!new), V>(calls: seq<Call<K, V>>, k: nat)
    requires IsScan(calls) && FixedSize(calls, k)
    ensures k < WIDTH && |calls| == Pow2(k)
    ensures forall b: Bits :: |b| == k ==>
              exists i :: 0 <= i < |calls| && calls[i].cursor[..k] == b
                && forall j :: 0 <= j < |calls| && calls[j].cursor[..k] == b ==> i == j
  {
    FixedSizeCount(calls, k);
    forall b: Bits | |b| == k
      ensures exists i :: 0 <= i < |calls| && calls[i].cursor[..k] == b
                && forall j :: 0 <= j < |calls| && calls[j].cursor[..k] == b ==> i == j
    {
      BucketTurn(calls, k, b);
    }
  }

  lemma {:induction false} BucketTurn<K(!new), V>(calls: seq<Call<K, V>>, k: nat, b: Bits)
    requires IsScan(calls) && FixedSize(calls, k) && k < WIDTH && |calls| == Pow2(k) && |b| == k
    ensures var i := Value(Reverse(b));
            0 <= i < |calls| && calls[i].cursor[..k] == b
            && forall j :: 0 <= j < |calls| && calls[j].cursor[..k] == b ==> i == j
  {
    var i := Value(Reverse(b));
    ValueBound(Reverse(b));
    CursorAt(calls, k, i);
    ReverseInjective(b, calls[i].cursor[..k]);
    forall j | 0 <= j < |calls| && calls[j].cursor[..k] == b ensures i == j {
      CursorAt(calls, k, j);
    }
  }

  lemma {:induction false} ReverseInjective(b: Bits, c: Bits)
    requires |b| == |c|
    ensures Value(Reverse(b)) == Value(Reverse(c)) ==> b == c
  {
    if Value(Reverse(b)) == Value(Reverse(c)) {
      ValueInjective(Reverse(b), Reverse(c));
      assert b == Reverse(Reverse(b)) && c == Reverse(Reverse(c));
    }
  }

  lemma {:induction false} ReversedZero(k: nat)
    requires k <= WIDTH
    ensures Value(Reverse(ZERO[..k])) == 0
  {
    assert Reverse(ZERO[..k]) == Fill(false, k);
    ValueZero(k);
  }

  lemma {:induction false} FixedStep<K(!new), V>(s: State<K, V>, v: Word, k: nat)
    requires Inv(s) && Exp(Smaller(s)) == k && s.ht0.used + s.ht1.used > 0
    ensures k < WIDTH
    ensures Scan(s, v).1 != ZERO ==> Value(Reverse(Scan(s, v).1[..k])) == Value(Reverse(v[..k])) + 1
    ensures Scan(s, v).1 == ZERO ==> Value(Reverse(v[..k])) == Pow2(k) - 1
  {
    NextReversed(v, k);
  }

  lemma {:induction false} NextReversed(v: Word, k: nat)
    requires k < WIDTH
    ensures var next := NextCursor(v, Mask(k));
            && (next != ZERO ==> Value(Reverse(next[..k])) == Value(Reverse(v[..k])) + 1)
            && (next == ZERO ==> Value(Reverse(v[..k])) == Pow2(k) - 1)
  {
    var u := v[..k];
    var r := Reverse(u);
    var next := NextCursor(v, Mask(k));
    NextCursorIs(v, k);
    assert next[..k] == Succ(u);
    assert Reverse(Succ(u)) == Inc(r);
    IncValue(r);
    if r == Fill(true, k) {
      assert next == Reverse(Fill(false, k)) + Fill(false, WIDTH - k) == ZERO;
      OnesValue(k);
    } else if next == ZERO {
      assert Inc(r) == Reverse(ZERO[..k]);
      ReversedZero(k);
    }
  }

  lemma {:induction false} OnesValue(k: nat)
    ensures Value(Fill(true, k)) == Pow2(k) - 1
  {
    if k > 0 {
      OnesValue(k - 1);
      assert Fill(true, k)[1..] == Fill(true, k - 1);
    }
  }

  // ----- a scan that misses a key: the table shrinks by a factor of four -----

  lemma {:induction false} ExpansionsMasked(v: Word, k0: nat, k1: nat, w: Word)
    requires k0 <= k1 <= WIDTH && w in Expansions(v, k0, k1)
    ensures And(w, Mask(k1)) == w
    decreases Pow2(k1 - k0) - Value(v[k0..k1])
  {
    ExpansionProgress(v, k0, k1);
    AndTwice(v, Mask(k1));
    if w != And(v, Mask(k1)) { ExpansionsMasked(NextExpansion(v, Mask(k0)), k0, k1, w); }
  }

  /** A key of the larger table whose bucket is not enumerated is not reported. */
  lemma {:induction false} NotEnumerated<K(!new), V>(s: State<K, V>, v: Word, k: K)
    requires Inv(s) && Rehashing(s) && TableGet(s.hash, Smaller(s), k) == None
    requires Exp(Smaller(s)) <= Exp(Larger(s)) <= WIDTH
    requires And(s.hash(k), Larger(s).mask) !in Expansions(v, Exp(Smaller(s)), Exp(Larger(s)))
    ensures !Reports(s, v, k)
  {
    var k1 := Exp(Larger(s));
    var ws := Expansions(v, Exp(Smaller(s)), k1);
    forall e | e in Scan(s, v).0 && e.key == k ensures false {
      if e in Bucket(Smaller(s), v) {
        ChainedIsBound(s.hash, Smaller(s), v, e);
      } else {
        var w := BucketsOnlyHave(Larger(s), ws, e);
        ExpansionsMasked(v, Exp(Smaller(s)), k1, w);
        PlacedIn(s.hash, Larger(s), w, e);
      }
    }
  }

  lemma {:induction false} PlacedIn<K(!new), V>(hash: K -> Word, t: Table<K, V>, w: Word, e: Entry<K, V>)
    requires TableOk(hash, t) && e in Bucket(t, w)
    ensures And(hash(e.key), t.mask) == And(w, t.mask)
  {
    var i := Value(And(w, t.mask));
    var j :| 0 <= j < |t.buckets[i]| && t.buckets[i][j] == e;
    assert Index(hash, t, t.buckets[i][j].key) == i;
    ValueInjective(And(hash(e.key), t.mask), And(w, t.mask));
  }

  /** The word with the given low bits. */
  function Low(b: Bits): (w: Word)
    requires |b| <= WIDTH
    ensures w[..|b|] == b
  {
    b + Fill(false, WIDTH - |b|)
  }

  const HASH_FOUR: Word := Low([false, false, true, false])

  /** Sixteen buckets that hold k, of hash 4, and few enough entries for dictResize to go back to four. */
  ghost predicate Sparse<K(!new), V>(a: State<K, V>, k: K) {
    && Inv(a) && !Rehashing(a) && Exp(a.ht0) == 4 && a.ht0.used <= INITIAL_SIZE
    && a.hash(k) == HASH_FOUR && Get(a, k) != None
  }

  ghost predicate Shrunk<K(!new), V>(b: State<K, V>, k: K) {
    && Inv(b) && Rehashing(b) && b.ht0.used + b.ht1.used > 0
    && Smaller(b) == b.ht1 && Larger(b) == b.ht0 && Exp(b.ht1) == 2 && Exp(b.ht0) == 4
    && b.hash(k) == HASH_FOUR && Get(b, k) != None && TableGet(b.hash, b.ht1, k) == None
  }

  lemma {:induction false} ShrinkOk<K(!new), V>(a: State<K, V>, k: K)
    requires Sparse(a, k)
    ensures a.ht0.used < LONG_MAX && Shrunk(Resize(a, true), k) && Resize(a, true).hash == a.hash
  {
    assert Pow2(1) == 2 && Pow2(2) == 4 && Pow2(3) == 8 && Pow2(4) == 16;
    PowersGrow(3, 63);
    assert PowerFrom(2, 4) == 2;
    EmptyTableOk<K, V>(a.hash, 2);
    Log2Pow2(2);
    NonEmpty(a, k);
  }

  /** There is such a dictionary. */
  lemma {:induction false} SparseExists()
    ensures exists a: State<int, int> :: Sparse(a, 0)
  {
    var hash := (k: int) => HASH_FOUR;
    var t := SparseTable(hash);
    var a := State(hash, t, NoTable(), -1, 0);
    assert Sparse(a, 0) by { hide TableGet; }
  }

  lemma {:induction false} SparseTable(hash: int -> Word) returns (t: Table<int, int>)
    ensures TableOk(hash, t) && Exp(t) == 4 && t.used == 1 && TableGet(hash, t, 0) == Some(0)
  {
    var empty := EmptyTable<int, int>(4);
    EmptyTableOk<int, int>(hash, 4);
    assert empty.used == 0 && |empty.buckets| == Pow2(4);
    Log2Pow2(4);
    t := Prepend(hash, empty, Entry(0, 0));
    hide EmptyTable, Pow2;
    PrependOk(hash, empty, Entry(0, 0));
  }

  /** The calls that follow from cursor v on when the dictionary does not change any more. */
  function Rest<K(!new), V>(b: State<K, V>, v: Word): seq<Call<K, V>>
    requires Inv(b) && b.ht0.used + b.ht1.used > 0
    decreases Pow2(Exp(Smaller(b))) - Value(Reverse(v[..Exp(Smaller(b))]))
  {
    var k := Exp(Smaller(b));
    FixedStep(b, v, k);
    var next := Returned(Call(b, v));
    ValueBound(Reverse(v[..k]));
    ValueBound(Reverse(next[..k]));
    [Call(b, v)] + if next == ZERO then [] else Rest(b, next)
  }

  /** Consecutive calls of state b up to the one that returns 0. */
  ghost predicate Calls<K(!new), V>(r: seq<Call<K, V>>, b: State<K, V>)
    requires Inv(b)
  {
    && r != [] && (forall i :: 0 <= i < |r| ==> r[i].state == b)
    && Returned(r[|r| - 1]) == ZERO
    && (forall i :: 0 <= i < |r| - 1 ==> Follows(r, i))
  }

  lemma {:induction false} RestIs<K(!new), V>(b: State<K, V>, v: Word)
    requires Inv(b) && b.ht0.used + b.ht1.used > 0
    ensures Calls(Rest(b, v), b) && Rest(b, v)[0].cursor == v
    decreases Pow2(Exp(Smaller(b))) - Value(Reverse(v[..Exp(Smaller(b))]))
  {
    hide Scan, Inv;
    var k := Exp(Smaller(b));
    FixedStep(b, v, k);
    var next := Returned(Call(b, v));
    if next != ZERO {
      ValueBound(Reverse(v[..k]));
      ValueBound(Reverse(next[..k]));
      RestIs(b, next);
      var r, t := Rest(b, v), Rest(b, next);
      assert r == [Call(b, v)] + t;
      forall i | 0 <= i < |r| - 1 ensures Follows(r, i) {
        assert r[i + 1] == t[i];
        if i > 0 { assert r[i] == t[i - 1] && Follows(t, i - 1); }
      }
    }
  }

  lemma {:induction false} RestPositive<K(!new), V>(b: State<K, V>, v: Word, i: nat)
    requires Inv(b) && b.ht0.used + b.ht1.used > 0 && 0 < i < |Rest(b, v)|
    ensures Value(Reverse(Rest(b, v)[i].cursor[..Exp(Smaller(b))])) > 0
    decreases i
  {
    hide Scan, Inv;
    RestIs(b, v);
    var r := Rest(b, v);
    FixedStep(b, r[i - 1].cursor, Exp(Smaller(b)));
    assert r[i - 1].state == b && Follows(r, i - 1);
  }

  /** The scan whose first call finds the sixteen buckets and whose other calls find the shrink begun. */
  ghost function ShrinkingScan<K(!new), V>(a: State<K, V>, b: State<K, V>): seq<Call<K, V>>
    requires Inv(a) && Inv(b) && b.ht0.used + b.ht1.used > 0
  {
    [Call(a, ZERO)] + Rest(b, Returned(Call(a, ZERO)))
  }

  lemma {:induction false} FirstReturned<K(!new), V>(a: State<K, V>, k: K)
    requires Sparse(a, k)
    ensures var c := Returned(Call(a, ZERO)); c != ZERO && c[..2] == [false, false] && c[2..4] == [false, true]
  {
    NonEmpty(a, k);
    NextCursorIs(ZERO, 4);
    assert ZERO[..4] == [false, false, false, false];
    assert Reverse([false, false, false, false]) == [false, false, false, false];
    assert Inc([false, false, false, false]) == [true, false, false, false];
    assert Reverse([true, false, false, false]) == [false, false, false, true];
    var c := Returned(Call(a, ZERO));
    assert c == [false, false, false, true] + Fill(false, WIDTH - 4);
    assert c[3];
  }

  lemma {:induction false} ShrinkingScanIsScan<K(!new), V>(a: State<K, V>, b: State<K, V>, k: K)
    requires Sparse(a, k) && Shrunk(b, k) && a.hash == b.hash
    ensures IsScan(ShrinkingScan(a, b))
  {
    hide Scan, Inv;
    var c := Returned(Call(a, ZERO));
    var calls, r := ShrinkingScan(a, b), Rest(b, c);
    FirstReturned(a, k);
    RestIs(b, c);
    assert forall i :: 0 < i < |calls| ==> calls[i] == r[i - 1];
    assert calls[0] == Call(a, ZERO);
    forall i | 0 <= i < |calls| ensures Inv(calls[i].state) && calls[i].state.hash == calls[0].state.hash {
      if i > 0 { assert calls[i].state == b; }
    }
    forall i | 0 <= i < |calls| - 1 ensures Follows(calls, i) {
      assert calls[i + 1] == r[i];
      if i > 0 { assert calls[i] == r[i - 1] && Follows(r, i - 1); }
    }
    assert calls[|calls| - 1] == r[|r| - 1];
    assert Returned(calls[|calls| - 1]) == ZERO;
  }

  lemma {:induction false} MissedAfterShrink<K(!new), V>(b: State<K, V>, v: Word, k: K)
    requires Shrunk(b, k) && (v[..2] != [false, false] || v[2..4] == [false, true])
    ensures !Reports(b, v, k)
  {
    var h := HASH_FOUR;
    assert h[..2] == [false, false] && h[2..4] == [true, false];
    assert Value([false, true]) == 2 * Value([true]) by { assert [false, true][1..] == [true]; }
    assert Value([true, false]) == 1 + 2 * Value([false]) by { assert [true, false][1..] == [false]; }
    ExpansionsAre(v, 2, 4, h);
    NotEnumerated(b, v, k);
  }

  lemma {:induction false} MissedBeforeShrink<K(!new), V>(a: State<K, V>, k: K)
    requires Sparse(a, k)
    ensures !Reports(a, ZERO, k)
  {
    assert And(HASH_FOUR, a.ht0.mask)[2] && !And(ZERO, a.ht0.mask)[2];
    forall e | e in Scan(a, ZERO).0 && e.key == k ensures false {
      PlacedIn(a.hash, a.ht0, ZERO, e);
    }
  }

  lemma {:induction false} MissedInShrink<K(!new), V>(a: State<K, V>, b: State<K, V>, k: K, i: nat)
    requires Sparse(a, k) && Shrunk(b, k) && i < |ShrinkingScan(a, b)|
    ensures var c := ShrinkingScan(a, b)[i]; Inv(c.state) && Get(c.state, k) != None && !Reports(c.state, c.cursor, k)
  {
    hide Scan, Inv, Reports, IsScan;
    var v := Returned(Call(a, ZERO));
    if i == 0 {
      MissedBeforeShrink(a, k);
    } else {
      FirstReturned(a, k);
      RestIs(b, v);
      var u := Rest(b, v)[i - 1].cursor;
      if i > 1 { RestPositive(b, v, i - 1); }
      if u[..2] == [false, false] {
        assert Reverse(u[..2]) == Fill(false, 2);
        ValueZero(2);
        assert i == 1;
      }
      MissedAfterShrink(b, u, k);
    }
  }

  /** A dictResize from sixteen buckets to four after the first call: the key is present throughout
      and no call of the scan reports it. */
  lemma {:induction false} ShrinkMissesKey<K(!new), V>(a: State<K, V>, k: K)
    requires Sparse(a, k)
    ensures a.ht0.used < LONG_MAX && Shrunk(Resize(a, true), k)
    ensures var calls := ShrinkingScan(a, Resize(a, true));
            && IsScan(calls) && PresentThroughout(calls, k)
            && forall i :: 0 <= i < |calls| ==> !Reports(calls[i].state, calls[i].cursor, k)
  {
    ShrinkOk(a, k);
    var b := Resize(a, true);
    var calls := ShrinkingScan(a, b);
    ShrinkingScanIsScan(a, b, k);
    forall i | 0 <= i < |calls|
      ensures Get(calls[i].state, k) != None && !Reports(calls[i].state, calls[i].cursor, k)
    {
      MissedInShrink(a, b, k, i);
    }
  }
}

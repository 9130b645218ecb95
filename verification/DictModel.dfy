/** What the operations of dict.c do to the two tables, as functions on table values. */
module DictModel {
  import opened Words

  datatype Option<+T> = None | Some(value: T)

  datatype Entry<K, V> = Entry(key: K, val: V)

  type Chain<K, V> = seq<Entry<K, V>>

  /** dictht; no buckets at all stands for a NULL table. */
  datatype Table<!K, V> = Table(buckets: seq<Chain<K, V>>, mask: Word, used: int)

  datatype State<!K, V> = State(hash: K -> Word, ht0: Table<K, V>, ht1: Table<K, V>, rehashidx: int, iterators: nat)

  const INITIAL_SIZE: nat := 4
  const FORCE_RESIZE_RATIO: nat := 5

  ghost const LONG_MAX: int := Pow2(63) - 1

  function NoTable<K, V>(): Table<K, V> {
    Table([], Mask(0), 0)
  }

  function Init<K, V>(hash: K -> Word): State<K, V> {
    State(hash, NoTable(), NoTable(), -1, 0)
  }

  predicate Rehashing<K, V>(s: State<K, V>) { s.rehashidx != -1 }

  // ----- chains -----

  /** The position of the first entry with key k, or -1. */
  function FindIn<K(==), V>(c: Chain<K, V>, k: K): (i: int)
    ensures -1 <= i < |c|
    ensures i >= 0 ==> c[i].key == k && forall j :: 0 <= j < i ==> c[j].key != k
    ensures i < 0 ==> forall j :: 0 <= j < |c| ==> c[j].key != k
  {
    if c == [] then -1
    else if c[0].key == k then 0
    else
      var i := FindIn(c[1..], k);
      if i < 0 then -1 else i + 1
  }

  function ChainGet<K(==), V>(c: Chain<K, V>, k: K): Option<V> {
    var i := FindIn(c, k);
    if i < 0 then None else Some(c[i].val)
  }

  ghost predicate Distinct<K, V>(c: Chain<K, V>) {
    forall i, j :: 0 <= i < j < |c| ==> c[i].key != c[j].key
  }

  lemma {:induction false} FindAt<K, V>(c: Chain<K, V>, j: nat)
    requires Distinct(c) && j < |c|
    ensures FindIn(c, c[j].key) == j
  {
  }

  function Total<K, V>(bs: seq<Chain<K, V>>): nat {
    if bs == [] then 0 else |bs[0]| + Total(bs[1..])
  }

  lemma {:induction false} TotalUpdate<K, V>(bs: seq<Chain<K, V>>, i: nat, c: Chain<K, V>)
    requires i < |bs|
    ensures Total(bs[i := c]) == Total(bs) - |bs[i]| + |c|
  {
    if i > 0 {
      TotalUpdate(bs[1..], i - 1, c);
      assert bs[i := c][1..] == bs[1..][i - 1 := c];
    }
  }

  lemma {:induction false} TotalZero<K, V>(bs: seq<Chain<K, V>>)
    ensures Total(bs) == 0 <==> forall i :: 0 <= i < |bs| ==> bs[i] == []
  {
    if bs != [] {
      TotalZero(bs[1..]);
      assert forall i :: 1 <= i < |bs| ==> bs[i] == bs[1..][i - 1];
    }
  }

  // ----- one table -----

  function Log2(n: nat): nat {
    if n <= 1 then 0 else 1 + Log2(n / 2)
  }

  lemma {:induction false} Log2Pow2(k: nat)
    ensures Log2(Pow2(k)) == k
    ensures Pow2(k) >= 1
  {
    if k > 0 { Log2Pow2(k - 1); }
  }

  /** h & sizemask */
  function Index<K, V>(hash: K -> Word, t: Table<K, V>, k: K): nat {
    Value(And(hash(k), t.mask))
  }

  ghost predicate Sized<K, V>(t: Table<K, V>) {
    var b := Log2(|t.buckets|);
    b < WIDTH && t.mask == Mask(b) && (t.buckets != [] ==> |t.buckets| == Pow2(b) >= INITIAL_SIZE)
  }

  ghost predicate Placed<K, V>(hash: K -> Word, t: Table<K, V>) {
    forall i, j :: 0 <= i < |t.buckets| && 0 <= j < |t.buckets[i]| ==> Index(hash, t, t.buckets[i][j].key) == i
  }

  ghost predicate TableOk<K, V>(hash: K -> Word, t: Table<K, V>) {
    && Sized(t)
    && Placed(hash, t)
    && (forall i :: 0 <= i < |t.buckets| ==> Distinct(t.buckets[i]))
    && t.used == Total(t.buckets)
  }

  lemma {:induction false} MaskedBound<K, V>(t: Table<K, V>, h: Word)
    requires Sized(t)
    ensures t.buckets != [] ==> Value(And(h, t.mask)) < |t.buckets|
    ensures t.buckets == [] ==> Value(And(h, t.mask)) == 0
  {
    var b := Log2(|t.buckets|);
    assert And(h, Mask(b)) == h[..b] + Fill(false, WIDTH - b);
    ValueAppend(h[..b], Fill(false, WIDTH - b));
    ValueZero(WIDTH - b);
    ValueBound(h[..b]);
  }

  lemma {:induction false} IndexBound<K, V>(hash: K -> Word, t: Table<K, V>, k: K)
    requires Sized(t)
    ensures t.buckets != [] ==> Index(hash, t, k) < |t.buckets|
    ensures t.buckets == [] ==> Index(hash, t, k) == 0
  {
    MaskedBound(t, hash(k));
  }

  function TableGet<K(==), V>(hash: K -> Word, t: Table<K, V>, k: K): Option<V> {
    var i := Index(hash, t, k);
    if i < |t.buckets| then ChainGet(t.buckets[i], k) else None
  }

  /** The entry becomes the head of the chain of its bucket. */
  function Prepend<K, V>(hash: K -> Word, t: Table<K, V>, e: Entry<K, V>): (r: Table<K, V>)
    requires Sized(t) && t.buckets != []
    ensures Sized(r) && |r.buckets| == |t.buckets| && r.mask == t.mask
  {
    IndexBound(hash, t, e.key);
    var i := Index(hash, t, e.key);
    Table(t.buckets[i := [e] + t.buckets[i]], t.mask, t.used + 1)
  }

  lemma {:induction false} PrependOk<K, V>(hash: K -> Word, t: Table<K, V>, e: Entry<K, V>)
    requires TableOk(hash, t) && t.buckets != [] && TableGet(hash, t, e.key) == None
    ensures TableOk(hash, Prepend(hash, t, e))
    ensures forall k :: TableGet(hash, Prepend(hash, t, e), k)
                     == if k == e.key then Some(e.val) else TableGet(hash, t, k)
  {
    IndexBound(hash, t, e.key);
    var i := Index(hash, t, e.key);
    var c := t.buckets[i];
    var t' := Prepend(hash, t, e);
    TotalUpdate(t.buckets, i, [e] + c);
    assert forall k :: Index(hash, t', k) == Index(hash, t, k);
    forall k ensures TableGet(hash, t', k) == if k == e.key then Some(e.val) else TableGet(hash, t, k) {
      assert ([e] + c)[1..] == c;
    }
  }

  /** The bucket's chain with entry j unlinked. */
  function Unlink<K, V>(t: Table<K, V>, i: nat, j: nat): Table<K, V>
    requires i < |t.buckets| && j < |t.buckets[i]|
  {
    var c := t.buckets[i];
    Table(t.buckets[i := c[..j] + c[j + 1..]], t.mask, t.used - 1)
  }

  lemma {:induction false} UnlinkChain<K, V>(c: Chain<K, V>, j: nat)
    requires Distinct(c) && j < |c|
    ensures Distinct(c[..j] + c[j + 1..])
    ensures forall k :: ChainGet(c[..j] + c[j + 1..], k) == if k == c[j].key then None else ChainGet(c, k)
  {
    var c' := c[..j] + c[j + 1..];
    assert forall a :: 0 <= a < |c'| ==> c'[a] == c[if a < j then a else a + 1];
    forall k ensures ChainGet(c', k) == if k == c[j].key then None else ChainGet(c, k) {
      var a := FindIn(c, k);
      if a >= 0 && a != j {
        var x := if a < j then a else a - 1;
        assert c'[x] == c[a];
        FindAt(c', x);
      }
    }
  }

  lemma {:induction false} UnlinkOk<K, V>(hash: K -> Word, t: Table<K, V>, i: nat, j: nat)
    requires TableOk(hash, t) && i < |t.buckets| && j < |t.buckets[i]|
    ensures TableOk(hash, Unlink(t, i, j))
    ensures forall k :: TableGet(hash, Unlink(t, i, j), k)
                     == if k == t.buckets[i][j].key then None else TableGet(hash, t, k)
  {
    var c := t.buckets[i];
    var c' := c[..j] + c[j + 1..];
    UnlinkChain(c, j);
    TotalUpdate(t.buckets, i, c');
    assert forall k :: Index(hash, Unlink(t, i, j), k) == Index(hash, t, k);
    assert Index(hash, t, c[j].key) == i;
    assert forall a :: 0 <= a < |c'| ==> c'[a] == c[if a < j then a else a + 1];
  }

  function SetVal<K, V>(t: Table<K, V>, i: nat, j: nat, v: V): Table<K, V>
    requires i < |t.buckets| && j < |t.buckets[i]|
  {
    var c := t.buckets[i];
    t.(buckets := t.buckets[i := c[j := Entry(c[j].key, v)]])
  }

  lemma {:induction false} SetValChain<K, V>(c: Chain<K, V>, j: nat, v: V)
    requires Distinct(c) && j < |c|
    ensures Distinct(c[j := Entry(c[j].key, v)])
    ensures forall k :: ChainGet(c[j := Entry(c[j].key, v)], k) == if k == c[j].key then Some(v) else ChainGet(c, k)
  {
    var c' := c[j := Entry(c[j].key, v)];
    assert forall a :: 0 <= a < |c| ==> c'[a].key == c[a].key;
    forall k ensures ChainGet(c', k) == if k == c[j].key then Some(v) else ChainGet(c, k) {
      var a := FindIn(c, k);
      if a >= 0 {
        assert c'[a].key == k;
        FindAt(c', a);
        FindAt(c, j);
      }
    }
  }

  lemma {:induction false} SetValOk<K, V>(hash: K -> Word, t: Table<K, V>, i: nat, j: nat, v: V)
    requires TableOk(hash, t) && i < |t.buckets| && j < |t.buckets[i]|
    ensures TableOk(hash, SetVal(t, i, j, v))
    ensures forall k :: TableGet(hash, SetVal(t, i, j, v), k)
                     == if k == t.buckets[i][j].key then Some(v) else TableGet(hash, t, k)
  {
    var c := t.buckets[i];
    var c' := c[j := Entry(c[j].key, v)];
    SetValChain(c, j, v);
    TotalUpdate(t.buckets, i, c');
    assert forall k :: Index(hash, SetVal(t, i, j, v), k) == Index(hash, t, k);
    assert Index(hash, t, c[j].key) == i;
    assert forall a :: 0 <= a < |c| ==> c'[a].key == c[a].key;
  }

  // ----- both tables -----

  ghost predicate Inv<K(!new), V>(s: State<K, V>) {
    && TableOk(s.hash, s.ht0)
    && TableOk(s.hash, s.ht1)
    && (if s.rehashidx == -1 then s.ht1 == NoTable()
        else && s.ht0.buckets != [] && s.ht1.buckets != []
             && 0 <= s.rehashidx <= |s.ht0.buckets|
             && (forall i :: 0 <= i < s.rehashidx ==> s.ht0.buckets[i] == [])
             && forall k :: TableGet(s.hash, s.ht0, k) == None || TableGet(s.hash, s.ht1, k) == None)
  }

  /** The value bound to k: the meaning of the two tables. */
  function Get<K(==), V>(s: State<K, V>, k: K): Option<V> {
    match TableGet(s.hash, s.ht0, k)
    case Some(v) => Some(v)
    case None => TableGet(s.hash, s.ht1, k)
  }

  function Lookup<K(==), V>(m: map<K, V>, k: K): Option<V> {
    if k in m then Some(m[k]) else None
  }

  /** The tables hold exactly the bindings of m, and the counters count them. */
  ghost predicate Represents<K(!new), V>(s: State<K, V>, m: map<K, V>) {
    && (forall k :: Get(s, k) == Lookup(m, k))
    && s.ht0.used + s.ht1.used == |m|
  }

  ghost predicate SameContents<K(!new), V>(s: State<K, V>, r: State<K, V>) {
    && (forall k :: Get(s, k) == Get(r, k))
    && s.ht0.used + s.ht1.used == r.ht0.used + r.ht1.used
    && s.hash == r.hash
    && s.iterators == r.iterators
  }

  lemma {:induction false} InitOk<K(!new), V>(hash: K -> Word)
    ensures Inv(Init<K, V>(hash))
    ensures Represents(Init<K, V>(hash), map[])
  {
  }

  function TableOf<K, V>(s: State<K, V>, second: bool): Table<K, V> {
    if second then s.ht1 else s.ht0
  }

  function WithTable<K, V>(s: State<K, V>, second: bool, t: Table<K, V>): State<K, V> {
    if second then s.(ht1 := t) else s.(ht0 := t)
  }

  /** Changing what one table says about one key changes the dictionary for that key only. */
  lemma {:induction false} WithTableOk<K(!new), V>(s: State<K, V>, second: bool, t: Table<K, V>, k0: K, x: Option<V>)
    requires Inv(s) && (second ==> Rehashing(s))
    requires TableOk(s.hash, t) && |t.buckets| == |TableOf(s, second).buckets|
    requires !second && Rehashing(s) ==> forall i :: 0 <= i < s.rehashidx ==> t.buckets[i] == []
    requires forall k :: TableGet(s.hash, t, k) == if k == k0 then x else TableGet(s.hash, TableOf(s, second), k)
    requires TableGet(s.hash, TableOf(s, !second), k0) == None
    ensures Inv(WithTable(s, second, t))
    ensures forall k :: Get(WithTable(s, second, t), k) == if k == k0 then x else Get(s, k)
  {
  }

  // ----- rehashing -----

  /** while (table[rehashidx] == NULL) rehashidx++; it stays in range because something is left. */
  function SkipEmpty<K, V>(bs: seq<Chain<K, V>>, i: nat): (j: nat)
    requires i <= |bs| && exists x :: i <= x < |bs| && bs[x] != []
    ensures i <= j < |bs| && bs[j] != [] && forall x :: i <= x < j ==> bs[x] == []
    decreases |bs| - i
  {
    if bs[i] != [] then i else SkipEmpty(bs, i + 1)
  }

  function MoveChain<K, V>(hash: K -> Word, c: Chain<K, V>, t: Table<K, V>): (r: Table<K, V>)
    requires Sized(t) && t.buckets != []
    ensures Sized(r) && |r.buckets| == |t.buckets| && r.mask == t.mask
    decreases |c|
  {
    if c == [] then t else MoveChain(hash, c[1..], Prepend(hash, t, c[0]))
  }

  lemma {:induction false} MoveChainOk<K, V>(hash: K -> Word, c: Chain<K, V>, t: Table<K, V>)
    requires TableOk(hash, t) && t.buckets != []
    requires Distinct(c) && forall j :: 0 <= j < |c| ==> TableGet(hash, t, c[j].key) == None
    ensures TableOk(hash, MoveChain(hash, c, t))
    ensures MoveChain(hash, c, t).used == t.used + |c|
    ensures forall k :: TableGet(hash, MoveChain(hash, c, t), k)
                     == if FindIn(c, k) >= 0 then ChainGet(c, k) else TableGet(hash, t, k)
    decreases |c|
  {
    if c != [] {
      var t' := Prepend(hash, t, c[0]);
      PrependOk(hash, t, c[0]);
      assert forall j :: 0 <= j < |c[1..]| ==> c[1..][j] == c[j + 1];
      MoveChainOk(hash, c[1..], t');
    }
  }

  lemma {:induction false} SomethingLeft<K(!new), V>(s: State<K, V>)
    requires Inv(s) && Rehashing(s) && s.ht0.used != 0
    ensures exists x :: s.rehashidx <= x < |s.ht0.buckets| && s.ht0.buckets[x] != []
  {
    TotalZero(s.ht0.buckets);
  }

  lemma {:induction false} EmptyBucketOk<K, V>(hash: K -> Word, t: Table<K, V>, i: nat)
    requires TableOk(hash, t) && i < |t.buckets|
    ensures var t' := Table(t.buckets[i := []], t.mask, t.used - |t.buckets[i]|);
            && TableOk(hash, t')
            && forall k :: TableGet(hash, t', k) == if FindIn(t.buckets[i], k) >= 0 then None else TableGet(hash, t, k)
  {
    var c := t.buckets[i];
    var t' := Table(t.buckets[i := []], t.mask, t.used - |c|);
    TotalUpdate(t.buckets, i, []);
    assert forall k :: Index(hash, t', k) == Index(hash, t, k);
    forall k ensures TableGet(hash, t', k) == if FindIn(c, k) >= 0 then None else TableGet(hash, t, k) {
      var a := FindIn(c, k);
      if a >= 0 { assert Index(hash, t, c[a].key) == i; }
    }
  }

  /** One round of the loop of dictRehash. */
  function RehashOne<K(!new), V>(s: State<K, V>): State<K, V>
    requires Inv(s) && Rehashing(s)
  {
    if s.ht0.used == 0 then
      s.(ht0 := s.ht1, ht1 := NoTable(), rehashidx := -1)
    else
      SomethingLeft(s);
      var i := SkipEmpty(s.ht0.buckets, s.rehashidx);
      var c := s.ht0.buckets[i];
      s.(ht0 := Table(s.ht0.buckets[i := []], s.ht0.mask, s.ht0.used - |c|),
         ht1 := MoveChain(s.hash, c, s.ht1),
         rehashidx := i + 1)
  }

  lemma {:induction false} DrainedOk<K(!new), V>(s: State<K, V>)
    requires Inv(s) && Rehashing(s) && s.ht0.used == 0
    ensures Inv(RehashOne(s)) && SameContents(s, RehashOne(s))
  {
    TotalZero(s.ht0.buckets);
    forall k ensures TableGet(s.hash, s.ht0, k) == None {
      IndexBound(s.hash, s.ht0, k);
    }
  }

  /** Every key of a bucket being moved is bound to the same value, and in the first table only. */
  lemma {:induction false} BucketBindings<K(!new), V>(s: State<K, V>, i: nat, k: K)
    requires Inv(s) && Rehashing(s) && i < |s.ht0.buckets| && FindIn(s.ht0.buckets[i], k) >= 0
    ensures TableGet(s.hash, s.ht0, k) == ChainGet(s.ht0.buckets[i], k)
    ensures TableGet(s.hash, s.ht1, k) == None
  {
    var c := s.ht0.buckets[i];
    assert Index(s.hash, s.ht0, c[FindIn(c, k)].key) == i;
  }

  lemma {:induction false} MovedOk<K(!new), V>(s: State<K, V>)
    requires Inv(s) && Rehashing(s) && s.ht0.used != 0
    ensures Inv(RehashOne(s)) && SameContents(s, RehashOne(s))
    ensures RehashOne(s).rehashidx > s.rehashidx
    ensures |RehashOne(s).ht0.buckets| == |s.ht0.buckets|
    ensures |RehashOne(s).ht1.buckets| == |s.ht1.buckets|
  {
    SomethingLeft(s);
    var i := SkipEmpty(s.ht0.buckets, s.rehashidx);
    var c := s.ht0.buckets[i];
    var r := RehashOne(s);
    forall j | 0 <= j < |c| ensures TableGet(s.hash, s.ht1, c[j].key) == None {
      BucketBindings(s, i, c[j].key);
    }
    MoveChainOk(s.hash, c, s.ht1);
    EmptyBucketOk(s.hash, s.ht0, i);
    forall k ensures Get(r, k) == Get(s, k)
                  && (TableGet(r.hash, r.ht0, k) == None || TableGet(r.hash, r.ht1, k) == None) {
      if FindIn(c, k) >= 0 { BucketBindings(s, i, k); }
    }
  }

  lemma {:induction false} RehashOneOk<K(!new), V>(s: State<K, V>)
    requires Inv(s) && Rehashing(s)
    ensures Inv(RehashOne(s)) && SameContents(s, RehashOne(s))
    ensures Rehashing(RehashOne(s)) ==>
              && RehashOne(s).rehashidx > s.rehashidx
              && |RehashOne(s).ht0.buckets| == |s.ht0.buckets|
              && |RehashOne(s).ht1.buckets| == |s.ht1.buckets|
    ensures s.rehashidx == |s.ht0.buckets| ==> !Rehashing(RehashOne(s))
  {
    if s.ht0.used == 0 {
      DrainedOk(s);
    } else {
      SomethingLeft(s);
      MovedOk(s);
    }
  }

  /** dictRehash(d, n) */
  function Rehash<K(!new), V>(s: State<K, V>, n: nat): (r: State<K, V>)
    requires Inv(s)
    ensures Inv(r) && SameContents(s, r)
    decreases n
  {
    if n == 0 || !Rehashing(s) then s
    else
      RehashOneOk(s);
      Rehash(RehashOne(s), n - 1)
  }

  /** A migration ends after at most one step for every bucket not yet passed, and one more. */
  lemma {:induction false} RehashFinishes<K(!new), V>(s: State<K, V>, n: nat)
    requires Inv(s) && n >= |s.ht0.buckets| - s.rehashidx + 1
    ensures !Rehashing(Rehash(s, n))
    decreases n
  {
    if Rehashing(s) {
      RehashOneOk(s);
      if Rehashing(RehashOne(s)) { RehashFinishes(RehashOne(s), n - 1); }
    }
  }

  /** _dictRehashStep behind its guard */
  function Step<K(!new), V>(s: State<K, V>): (r: State<K, V>)
    requires Inv(s)
    ensures Inv(r) && SameContents(s, r)
  {
    if Rehashing(s) && s.iterators == 0 then Rehash(s, 1) else s
  }

  // ----- growing and shrinking -----

  /** The search of _dictNextPower from i = Pow2(b). */
  function PowerFrom(b: nat, size: int): nat
    decreases size - Pow2(b)
  {
    Log2Pow2(b);
    if Pow2(b) >= size then b else PowerFrom(b + 1, size)
  }

  lemma {:induction false} PowerFromIs(b: nat, size: int, limit: nat)
    requires b <= limit && size <= Pow2(limit)
    ensures b <= PowerFrom(b, size) <= limit
    ensures Pow2(PowerFrom(b, size)) >= size
    ensures PowerFrom(b, size) > b ==> Pow2(PowerFrom(b, size) - 1) < size
    decreases limit - b
  {
    if Pow2(b) < size {
      PowerFromIs(b + 1, size, limit);
      if PowerFrom(b + 1, size) == b + 1 { assert Pow2(b) < size; }
    }
  }

  function EmptyTable<K, V>(b: nat): Table<K, V>
    requires b < WIDTH
  {
    Table(seq(Pow2(b), _ => []), Mask(b), 0)
  }

  lemma {:induction false} EmptyTableOk<K, V>(hash: K -> Word, b: nat)
    requires 2 <= b < WIDTH
    ensures TableOk(hash, EmptyTable<K, V>(b))
    ensures EmptyTable<K, V>(b).buckets != []
    ensures forall k :: TableGet(hash, EmptyTable<K, V>(b), k) == None
  {
    Log2Pow2(b);
    Log2Pow2(b - 2);
    assert Pow2(b) == 2 * Pow2(b - 1) && Pow2(b - 1) == 2 * Pow2(b - 2);
    TotalZero(EmptyTable<K, V>(b).buckets);
  }

  /** dictExpand(d, size) */
  function Expand<K(!new), V>(s: State<K, V>, size: int): (r: State<K, V>)
    requires Inv(s) && size < LONG_MAX
    ensures Inv(r) && SameContents(s, r)
  {
    if Rehashing(s) || s.ht0.used > size then s
    else
      var b := PowerFrom(2, size);
      assert 2 <= b < WIDTH by { PowerFromIs(2, size, 63); }
      EmptyTableOk<K, V>(s.hash, b);
      if s.ht0.buckets == [] then s.(ht0 := EmptyTable(b))
      else s.(ht1 := EmptyTable(b), rehashidx := 0)
  }

  /** dictResize(d) */
  function Resize<K(!new), V>(s: State<K, V>, canResize: bool): (r: State<K, V>)
    requires Inv(s) && s.ht0.used < LONG_MAX
    ensures Inv(r) && SameContents(s, r)
  {
    if !canResize || Rehashing(s) then s
    else
      assert INITIAL_SIZE < LONG_MAX by { PowersGrow(3, 63); assert Pow2(1) == 2 && Pow2(2) == 4 && Pow2(3) == 8; }
      Expand(s, if s.ht0.used < INITIAL_SIZE then INITIAL_SIZE else s.ht0.used)
  }

  lemma {:induction false} PowersGrow(a: nat, b: nat)
    requires a <= b
    ensures 1 <= Pow2(a) <= Pow2(b)
    decreases b
  {
    Log2Pow2(a);
    if a < b { PowersGrow(a, b - 1); }
  }

  lemma {:induction false} PowersGrowStrictly(a: nat, b: nat)
    requires a < b
    ensures Pow2(a) < Pow2(b)
  {
    PowersGrow(a, b - 1);
    Log2Pow2(b - 1);
  }

  /** _dictExpandIfNeeded(d) */
  function ExpandIfNeeded<K(!new), V>(s: State<K, V>, canResize: bool): (r: State<K, V>)
    requires Inv(s) && 2 * s.ht0.used < LONG_MAX
    ensures Inv(r) && SameContents(s, r) && r.ht0.buckets != []
  {
    if Rehashing(s) then s
    else if s.ht0.buckets == [] then
      assert INITIAL_SIZE < LONG_MAX by { PowersGrow(3, 63); assert Pow2(1) == 2 && Pow2(2) == 4 && Pow2(3) == 8; }
      var b := PowerFrom(2, INITIAL_SIZE);
      assert 2 <= b < WIDTH by { PowerFromIs(2, INITIAL_SIZE, 63); }
      EmptyTableOk<K, V>(s.hash, b);
      Expand(s, INITIAL_SIZE)
    else if s.ht0.used >= |s.ht0.buckets|
            && (canResize || s.ht0.used / |s.ht0.buckets| > FORCE_RESIZE_RATIO)
    then Expand(s, s.ht0.used * 2)
    else s
  }

  // ----- the dictionary operations -----

  /** The table that receives new entries. */
  function Target<K, V>(s: State<K, V>): Table<K, V> {
    TableOf(s, Rehashing(s))
  }

  /** The state in which dictAdd looks for the key. */
  function BeforeAdd<K(!new), V>(s: State<K, V>, canResize: bool): (r: State<K, V>)
    requires Inv(s) && 2 * (s.ht0.used + s.ht1.used) < LONG_MAX
    ensures Inv(r) && SameContents(s, r) && Target(r).buckets != []
  {
    TotalsNonNegative(Step(s));
    ExpandIfNeeded(Step(s), canResize)
  }

  lemma {:induction false} TotalsNonNegative<K(!new), V>(s: State<K, V>)
    requires Inv(s)
    ensures s.ht0.used >= 0 && s.ht1.used >= 0
  {
  }

  /** dictAdd(d, k, v): the new state, and whether the key was new. */
  function Add<K(==,!new), V>(s: State<K, V>, k: K, v: V, canResize: bool): (r: (State<K, V>, bool))
    requires Inv(s) && 2 * (s.ht0.used + s.ht1.used) < LONG_MAX
    ensures Inv(r.0)
  {
    var s' := BeforeAdd(s, canResize);
    if Get(s', k) != None then (s', false)
    else
      InsertOk(s', k, v);
      (WithTable(s', Rehashing(s'), Prepend(s'.hash, Target(s'), Entry(k, v))), true)
  }

  /** s' binds k0 to x and every other key as s does, and counts delta more entries. */
  ghost predicate Rebinds<K(!new), V>(s: State<K, V>, s': State<K, V>, k0: K, x: Option<V>, delta: int) {
    && Inv(s')
    && s'.hash == s.hash && s'.iterators == s.iterators
    && (forall k :: Get(s', k) == if k == k0 then x else Get(s, k))
    && s'.ht0.used + s'.ht1.used == s.ht0.used + s.ht1.used + delta
  }

  lemma {:induction false} SizeAfter<K, V>(m: map<K, V>, k: K, x: Option<V>)
    ensures var m' := if x.Some? then m[k := x.value] else m - {k};
            |m'| == |m| + (if x.Some? then 1 else 0) - (if k in m then 1 else 0)
  {
    var m' := if x.Some? then m[k := x.value] else m - {k};
    assert m'.Keys == if x.Some? then m.Keys + {k} else m.Keys - {k};
    assert |m'| == |m'.Keys| && |m| == |m.Keys|;
  }

  lemma {:induction false} RebindsRepresents<K(!new), V>(s: State<K, V>, s': State<K, V>, m: map<K, V>, k: K,
                                                         x: Option<V>, delta: int)
    requires Represents(s, m) && Rebinds(s, s', k, x, delta)
    requires delta == (if x.Some? then 1 else 0) - (if k in m then 1 else 0)
    ensures Represents(s', if x.Some? then m[k := x.value] else m - {k})
  {
    hide Inv, Get;
    var m' := if x.Some? then m[k := x.value] else m - {k};
    SizeAfter(m, k, x);
    forall j ensures Get(s', j) == Lookup(m', j) {
      assert Get(s, j) == Lookup(m, j);
    }
  }

  lemma {:induction false} SameRepresents<K(!new), V>(s: State<K, V>, s': State<K, V>, m: map<K, V>)
    requires Represents(s, m) && SameContents(s, s')
    ensures Represents(s', m)
  {
  }

  lemma {:induction false} InsertOk<K(!new), V>(s: State<K, V>, k: K, v: V)
    requires Inv(s) && Target(s).buckets != [] && Get(s, k) == None
    ensures Rebinds(s, WithTable(s, Rehashing(s), Prepend(s.hash, Target(s), Entry(k, v))), k, Some(v), 1)
  {
    var t := Prepend(s.hash, Target(s), Entry(k, v));
    PrependOk(s.hash, Target(s), Entry(k, v));
    WithTableOk(s, Rehashing(s), t, k, Some(v));
  }

  lemma {:induction false} AddOk<K(!new), V>(s: State<K, V>, m: map<K, V>, k: K, v: V, canResize: bool)
    requires Inv(s) && Represents(s, m) && 2 * |m| < LONG_MAX
    ensures var (r, ok) := Add(s, k, v, canResize);
            && Inv(r) && r.hash == s.hash && r.iterators == s.iterators
            && ok == (k !in m)
            && Represents(r, if ok then m[k := v] else m)
  {
    var s' := BeforeAdd(s, canResize);
    SameRepresents(s, s', m);
    if Get(s', k) == None {
      InsertOk(s', k, v);
      RebindsRepresents(s', Add(s, k, v, canResize).0, m, k, Some(v), 1);
    }
  }

  /** Where k sits: the table, the bucket and the position in the chain; dictFind after its step. */
  function Locate<K(==), V>(s: State<K, V>, k: K): (p: Option<(bool, nat, nat)>)
    ensures p.Some? ==>
              var t := TableOf(s, p.value.0);
              && p.value.1 < |t.buckets| && p.value.2 < |t.buckets[p.value.1]|
              && t.buckets[p.value.1][p.value.2].key == k
              && Get(s, k) == Some(t.buckets[p.value.1][p.value.2].val)
    ensures p == None ==> Get(s, k) == None
  {
    var i0 := Index(s.hash, s.ht0, k);
    var i1 := Index(s.hash, s.ht1, k);
    if i0 < |s.ht0.buckets| && FindIn(s.ht0.buckets[i0], k) >= 0 then
      Some((false, i0, FindIn(s.ht0.buckets[i0], k)))
    else if i1 < |s.ht1.buckets| && FindIn(s.ht1.buckets[i1], k) >= 0 then
      Some((true, i1, FindIn(s.ht1.buckets[i1], k)))
    else None
  }

  /** A key that is found is in one table only, and the second one is in use only while rehashing. */
  lemma {:induction false} LocatedInOne<K(!new), V>(s: State<K, V>, k: K)
    requires Inv(s) && Locate(s, k).Some?
    ensures TableGet(s.hash, TableOf(s, !Locate(s, k).value.0), k) == None
    ensures Locate(s, k).value.0 ==> Rehashing(s)
    ensures !Locate(s, k).value.0 && Rehashing(s) ==> Locate(s, k).value.1 >= s.rehashidx
  {
  }

  /** dictFind(d, k) leaves the tables one rehash step further. */
  function AfterFind<K(!new), V>(s: State<K, V>): (r: State<K, V>)
    requires Inv(s)
    ensures Inv(r) && SameContents(s, r)
  {
    if s.ht0.buckets == [] then s else Step(s)
  }

  /** dictFind and dictSetVal, as dictReplace calls them for a key that is there. */
  function Overwrite<K(==,!new), V>(s: State<K, V>, k: K, v: V): State<K, V>
    requires Inv(s)
  {
    var r := AfterFind(s);
    match Locate(r, k)
    case Some((second, i, j)) => WithTable(r, second, SetVal(TableOf(r, second), i, j, v))
    case None => r
  }

  /** dictReplace(d, k, v): the new state, and whether the key was new. */
  function Replace<K(==,!new), V>(s: State<K, V>, k: K, v: V, canResize: bool): (State<K, V>, bool)
    requires Inv(s) && 2 * (s.ht0.used + s.ht1.used) < LONG_MAX
  {
    var (r, ok) := Add(s, k, v, canResize);
    if ok then (r, true) else (Overwrite(r, k, v), false)
  }

  lemma {:induction false} OverwriteOk<K(!new), V>(s: State<K, V>, m: map<K, V>, k: K, v: V)
    requires Inv(s) && Represents(s, m) && k in m
    ensures var r := Overwrite(s, k, v);
            && Inv(r) && r.hash == s.hash && r.iterators == s.iterators
            && Represents(r, m[k := v])
  {
    var r := AfterFind(s);
    SameRepresents(s, r, m);
    assert Get(r, k) == Lookup(m, k);
    SetOk(r, k, v);
    RebindsRepresents(r, Overwrite(s, k, v), m, k, Some(v), 0);
  }

  lemma {:induction false} SetOk<K(!new), V>(s: State<K, V>, k: K, v: V)
    requires Inv(s) && Locate(s, k).Some?
    ensures var (second, i, j) := Locate(s, k).value;
            Rebinds(s, WithTable(s, second, SetVal(TableOf(s, second), i, j, v)), k, Some(v), 0)
  {
    var (second, i, j) := Locate(s, k).value;
    LocatedInOne(s, k);
    SetValOk(s.hash, TableOf(s, second), i, j, v);
    WithTableOk(s, second, SetVal(TableOf(s, second), i, j, v), k, Some(v));
  }

  lemma {:induction false} ReplaceOk<K(!new), V>(s: State<K, V>, m: map<K, V>, k: K, v: V, canResize: bool)
    requires Inv(s) && Represents(s, m) && 2 * |m| < LONG_MAX
    ensures var (r, ok) := Replace(s, k, v, canResize);
            && Inv(r) && r.hash == s.hash && r.iterators == s.iterators
            && ok == (k !in m)
            && Represents(r, m[k := v])
  {
    hide Overwrite;
    AddOk(s, m, k, v, canResize);
    if k in m { OverwriteOk(Add(s, k, v, canResize).0, m, k, v); }
  }

  /** dictGenericDelete(d, k): the new state, and whether the key was there. */
  function Delete<K(==,!new), V>(s: State<K, V>, k: K): (State<K, V>, bool)
    requires Inv(s)
  {
    if s.ht0.buckets == [] then (s, false)
    else
      var s' := Step(s);
      match Locate(s', k)
      case Some((second, i, j)) =>
        (WithTable(s', second, Unlink(TableOf(s', second), i, j)), true)
      case None => (s', false)
  }

  lemma {:induction false} RemoveOk<K(!new), V>(s: State<K, V>, k: K)
    requires Inv(s) && Locate(s, k).Some?
    ensures var (second, i, j) := Locate(s, k).value;
            Rebinds(s, WithTable(s, second, Unlink(TableOf(s, second), i, j)), k, None, -1)
  {
    var (second, i, j) := Locate(s, k).value;
    LocatedInOne(s, k);
    UnlinkOk(s.hash, TableOf(s, second), i, j);
    WithTableOk(s, second, Unlink(TableOf(s, second), i, j), k, None);
  }

  lemma {:induction false} DeleteOk<K(!new), V>(s: State<K, V>, m: map<K, V>, k: K)
    requires Inv(s) && Represents(s, m)
    ensures var (r, ok) := Delete(s, k);
            && Inv(r) && r.hash == s.hash && r.iterators == s.iterators
            && ok == (k in m)
            && Represents(r, m - {k})
  {
    if s.ht0.buckets == [] {
      assert Get(s, k) == None;
      assert m - {k} == m;
    } else {
      var s' := Step(s);
      SameRepresents(s, s', m);
      assert Get(s', k) == Lookup(m, k);
      if Locate(s', k).Some? {
        RemoveOk(s', k);
        RebindsRepresents(s', Delete(s, k).0, m, k, None, -1);
      } else {
        assert m - {k} == m;
      }
    }
  }
}

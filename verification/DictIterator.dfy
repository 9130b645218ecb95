/** Safe iterators: what dictNext returns while the user keeps changing the dictionary. */
module DictIterator {
  import opened Words
  import opened DictModel

  /** dictIterator with safe = 1; entries are named by their keys. */
  datatype Iter<K> = Iter(second: bool, index: int, entry: Option<K>, nextEntry: Option<K>)

  function Open<K>(): Iter<K> { Iter(false, -1, None, None) }

  function Keys<K, V>(c: Chain<K, V>): (r: seq<K>)
    ensures |r| == |c| && forall i :: 0 <= i < |c| ==> r[i] == c[i].key
  {
    seq(|c|, i requires 0 <= i < |c| => c[i].key)
  }

  /** The chain from the entry with the given key on. */
  function From<K(==), V>(c: Chain<K, V>, k: Option<K>): Chain<K, V> {
    if k.None? || FindIn(c, k.value) < 0 then [] else c[FindIn(c, k.value)..]
  }

  function Head<K, V>(c: Chain<K, V>): Option<K> {
    if c == [] then None else Some(c[0].key)
  }

  /** The chain the iterator is in. */
  function Current<K, V>(s: State<K, V>, it: Iter<K>): Chain<K, V> {
    var t := TableOf(s, it.second);
    if 0 <= it.index < |t.buckets| then t.buckets[it.index] else []
  }

  // ----- dictNext -----

  /** Advances to the next non-empty bucket, from the first table to the second if need be;
      nothing left is signalled by entry == None. */
  function NextBucket<K, V>(s: State<K, V>, it: Iter<K>): (r: Iter<K>)
    requires it.index >= -1
    ensures r.index >= 0
    decreases !it.second, |TableOf(s, it.second).buckets| - it.index
  {
    var t := TableOf(s, it.second);
    var i := it.index + 1;
    if i >= |t.buckets| then
      if Rehashing(s) && !it.second then NextBucket(s, Iter(true, -1, None, None))
      else Iter(it.second, i, None, it.nextEntry)
    else if t.buckets[i] != [] then At(s, it.second, i)
    else NextBucket(s, Iter(it.second, i, None, None))
  }

  /** The iterator on the head of a non-empty bucket. */
  function At<K, V>(s: State<K, V>, second: bool, i: nat): Iter<K>
    requires i < |TableOf(s, second).buckets| && TableOf(s, second).buckets[i] != []
  {
    var c := TableOf(s, second).buckets[i];
    Iter(second, i, Some(c[0].key), Head(c[1..]))
  }

  /** dictNext(it): the dictionary (whose iterators count goes up on the first call), the iterator,
      and the key of the entry returned. */
  function Next<K(==), V>(s: State<K, V>, it: Iter<K>): (r: (State<K, V>, Iter<K>, Option<K>))
    requires it.index >= -1
    ensures r.1.index >= -1
  {
    var c := From(Current(s, it), it.nextEntry);
    if it.entry.Some? && c != [] then
      (s, Along(s, it), it.nextEntry)
    else
      var first := it.entry.None? && it.index == -1 && !it.second;
      var s' := if first then s.(iterators := s.iterators + 1) else s;
      var it' := NextBucket(s', it);
      (s', it', it'.entry)
  }

  // ----- what is still to come -----

  function KeysFrom<K, V>(t: Table<K, V>, i: nat): seq<K>
    decreases |t.buckets| - i
  {
    if i >= |t.buckets| then [] else Keys(t.buckets[i]) + KeysFrom(t, i + 1)
  }

  /** The keys in bucket i of the table and in all later buckets of both tables. */
  function Later<K, V>(s: State<K, V>, second: bool, i: nat): seq<K> {
    KeysFrom(TableOf(s, second), i) + (if !second && Rehashing(s) then KeysFrom(s.ht1, 0) else [])
  }

  /** The keys left in the current chain. */
  function Left<K(==), V>(s: State<K, V>, it: Iter<K>): seq<K> {
    if it.entry.Some? then Keys(From(Current(s, it), it.nextEntry)) else []
  }

  /** The keys the iterator has yet to return if nothing changes, in order. */
  function Pending<K(==), V>(s: State<K, V>, it: Iter<K>): seq<K>
    requires it.index >= -1
  {
    Left(s, it) + Later(s, it.second, it.index + 1)
  }

  ghost predicate ItOk<K(!new), V>(s: State<K, V>, it: Iter<K>) {
    && it.index >= -1
    && (it.second ==> Rehashing(s))
    && (it.index == -1 ==> !it.second && it.entry.None?)
    && (it.entry.Some? ==>
          && 0 <= it.index < |TableOf(s, it.second).buckets|
          && (it.nextEntry.Some? ==> FindIn(Current(s, it), it.nextEntry.value) >= 0))
  }

  lemma {:induction false} KeysAppend<K, V>(c: Chain<K, V>)
    requires c != []
    ensures Keys(c) == [c[0].key] + Keys(c[1..])
  {
  }

  /** it' is on the first key of p, with the others pending; or p is empty and nothing is left. */
  ghost predicate OnFirst<K(!new), V>(s: State<K, V>, it': Iter<K>, p: seq<K>) {
    && ItOk(s, it') && it'.index >= 0
    && (if p == [] then it'.entry == None && Pending(s, it') == []
        else it'.entry.Some? && [it'.entry.value] + Pending(s, it') == p)
  }

  lemma {:induction false} LaterStep<K, V>(s: State<K, V>, second: bool, i: nat)
    ensures var t := TableOf(s, second);
            && (i >= |t.buckets| && Rehashing(s) && !second ==> Later(s, second, i) == Later(s, true, 0))
            && (i < |t.buckets| && t.buckets[i] == [] ==> Later(s, second, i) == Later(s, second, i + 1))
  {
    var t := TableOf(s, second);
    if i < |t.buckets| && t.buckets[i] == [] { assert KeysFrom(t, i) == KeysFrom(t, i + 1); }
  }

  lemma {:induction false} NextBucketIs<K(!new), V>(s: State<K, V>, it: Iter<K>)
    requires Inv(s) && it.index >= -1 && (it.second ==> Rehashing(s))
    ensures OnFirst(s, NextBucket(s, it), Later(s, it.second, it.index + 1))
    decreases !it.second, |TableOf(s, it.second).buckets| - it.index
  {
    hide Inv, OnFirst, Later, TableOk, At;
    var i := it.index + 1;
    LaterStep(s, it.second, i);
    if i >= |TableOf(s, it.second).buckets| {
      if Rehashing(s) && !it.second {
        NextBucketIs(s, Iter(true, -1, None, None));
      } else {
        NothingLeft(s, it, i);
      }
    } else if TableOf(s, it.second).buckets[i] != [] {
      AtIs(s, it.second, i);
    } else {
      NextBucketIs(s, Iter(it.second, i, None, None));
    }
  }

  lemma {:induction false} NothingLeft<K(!new), V>(s: State<K, V>, it: Iter<K>, i: nat)
    requires i >= |TableOf(s, it.second).buckets| && (it.second <==> Rehashing(s))
    ensures OnFirst(s, Iter(it.second, i, None, it.nextEntry), Later(s, it.second, i))
  {
  }

  lemma {:induction false} HeadOfRest<K, V>(c: Chain<K, V>, a: nat)
    requires Distinct(c) && a < |c|
    ensures Head(c[a..][1..]).Some? ==> FindIn(c, Head(c[a..][1..]).value) == a + 1
    ensures From(c, Head(c[a..][1..])) == c[a..][1..]
    ensures Keys(c[a..]) == [c[a].key] + Keys(From(c, Head(c[a..][1..])))
  {
    KeysAppend(c[a..]);
    assert c[a..][1..] == c[a + 1..];
    if a + 1 < |c| { FindAt(c, a + 1); }
  }

  lemma {:induction false} Assoc<T>(x: T, l: seq<T>, r: seq<T>)
    ensures [x] + (l + r) == ([x] + l) + r
  {
  }

  lemma {:induction false} LaterSplit<K, V>(s: State<K, V>, second: bool, i: nat)
    requires i < |TableOf(s, second).buckets|
    ensures Later(s, second, i) == Keys(TableOf(s, second).buckets[i]) + Later(s, second, i + 1)
  {
    KeysFromStep(TableOf(s, second), i);
  }

  lemma {:induction false} AtLeft<K(!new), V>(s: State<K, V>, second: bool, i: nat)
    requires i < |TableOf(s, second).buckets| && TableOf(s, second).buckets[i] != []
    requires Distinct(TableOf(s, second).buckets[i])
    ensures var it := At(s, second, i); Keys(TableOf(s, second).buckets[i]) == [it.entry.value] + Left(s, it)
    ensures (second ==> Rehashing(s)) ==> ItOk(s, At(s, second, i))
  {
    var c := TableOf(s, second).buckets[i];
    HeadOfRest(c, 0);
    assert c[0..] == c;
  }

  lemma {:induction false} AtIs<K(!new), V>(s: State<K, V>, second: bool, i: nat)
    requires Inv(s) && (second ==> Rehashing(s))
    requires i < |TableOf(s, second).buckets| && TableOf(s, second).buckets[i] != []
    ensures OnFirst(s, At(s, second, i), Later(s, second, i))
  {
    assert Distinct(TableOf(s, second).buckets[i]);
    AtLeft(s, second, i);
    LaterSplit(s, second, i);
    var it := At(s, second, i);
    assert it.second == second && it.index == i && it.entry.Some?;
    hide Inv, From, FindIn, Keys, KeysFrom, Later, Distinct, Left, At, Current, Head, ItOk, TableOf, TableOk;
    var x, l, r := it.entry.value, Left(s, it), Later(s, second, i + 1);
    Assoc(x, l, r);
  }

  lemma {:induction false} KeysFromStep<K, V>(t: Table<K, V>, i: nat)
    requires i < |t.buckets|
    ensures KeysFrom(t, i) == Keys(t.buckets[i]) + KeysFrom(t, i + 1)
  {
  }

  /** The iterator one entry further along its chain. */
  function Along<K(==), V>(s: State<K, V>, it: Iter<K>): Iter<K>
    requires From(Current(s, it), it.nextEntry) != []
  {
    it.(entry := it.nextEntry, nextEntry := Head(From(Current(s, it), it.nextEntry)[1..]))
  }

  lemma {:induction false} AlongIs<K, V>(s: State<K, V>, it: Iter<K>)
    ensures var c := From(Current(s, it), it.nextEntry);
            && (c == [] <==> Head(c) == None)
            && (c != [] ==> Head(c) == it.nextEntry && Along(s, it) == it.(entry := Head(c), nextEntry := Head(c[1..])))
  {
  }

  lemma {:induction false} AlongChainLeft<K(!new), V>(s: State<K, V>, it: Iter<K>)
    requires Inv(s) && ItOk(s, it) && it.entry.Some? && From(Current(s, it), it.nextEntry) != []
    ensures var it' := Along(s, it);
            && it.nextEntry.Some? && it'.entry == it.nextEntry && it'.index == it.index >= 0 && it'.second == it.second
            && ItOk(s, it')
            && Left(s, it) == [it.nextEntry.value] + Left(s, it')
  {
    assert Distinct(Current(s, it));
    hide Inv;
    HeadOfRest(Current(s, it), FindIn(Current(s, it), it.nextEntry.value));
  }

  lemma {:induction false} AlongChain<K(!new), V>(s: State<K, V>, it: Iter<K>)
    requires Inv(s) && ItOk(s, it) && it.entry.Some? && From(Current(s, it), it.nextEntry) != []
    ensures OnFirst(s, Along(s, it), Pending(s, it))
  {
    AlongChainLeft(s, it);
    hide Inv, From, FindIn, Keys, KeysFrom, Later, Distinct, Left, Along, Current, Head, ItOk, TableOf, TableOk;
    PrependPending(s, it, Along(s, it), it.nextEntry.value);
  }

  /** If x goes from the current chain to the caller, it goes from the pending keys to the caller. */
  lemma {:induction false} PrependPending<K(!new), V>(s: State<K, V>, it: Iter<K>, it': Iter<K>, x: K)
    requires it.index == it'.index >= -1 && it.second == it'.second && Left(s, it) == [x] + Left(s, it')
    ensures Pending(s, it) == [x] + Pending(s, it')
  {
    hide Left, Later;
    var l, r := Left(s, it'), Later(s, it.second, it.index + 1);
    Assoc(x, l, r);
  }

  lemma {:induction false} NextBucketOf<K(!new), V>(s: State<K, V>, it: Iter<K>)
    requires Inv(s) && ItOk(s, it) && Left(s, it) == []
    ensures OnFirst(s, NextBucket(s, it), Pending(s, it))
  {
    NextBucketIs(s, it);
    hide Inv, Left, Later, OnFirst;
    var r := Later(s, it.second, it.index + 1);
    assert [] + r == r;
  }

  /** dictNext returns the first of the pending keys, and leaves the others pending. */
  lemma {:induction false} NextIs<K(!new), V>(s: State<K, V>, it: Iter<K>)
    requires Inv(s) && ItOk(s, it)
    ensures var (s', it', r) := Next(s, it);
            && Inv(s') && SameTables(s, s') && OnFirst(s', it', Pending(s, it)) && r == it'.entry
            && s'.iterators >= s.iterators && (it.index == -1 ==> s'.iterators > 0)
  {
    hide Inv, OnFirst;
    var c := From(Current(s, it), it.nextEntry);
    if it.entry.Some? && c != [] {
      AlongChain(s, it);
    } else {
      var s' := Next(s, it).0;
      IteratorsOnly(s, s'.iterators);
      NextBucketOf(s', it);
    }
  }

  lemma {:induction false} IteratorsOnly<K(!new), V>(s: State<K, V>, n: nat)
    requires Inv(s)
    ensures Inv(s.(iterators := n)) && SameTables(s, s.(iterators := n))
  {
  }

  ghost predicate SameTables<K(!new), V>(s: State<K, V>, r: State<K, V>) {
    s.ht0 == r.ht0 && s.ht1 == r.ht1 && s.rehashidx == r.rehashidx && s.hash == r.hash
  }

  // ----- keys are pending once -----

  function Count<K(==)>(p: seq<K>, k: K): nat {
    if p == [] then 0 else (if p[0] == k then 1 else 0) + Count(p[1..], k)
  }

  lemma {:induction false} CountAppend<K>(p: seq<K>, q: seq<K>, k: K)
    ensures Count(p + q, k) == Count(p, k) + Count(q, k)
  {
    if p == [] {
      assert p + q == q;
    } else {
      assert (p + q)[1..] == p[1..] + q;
      CountAppend(p[1..], q, k);
    }
  }

  lemma {:induction false} CountChain<K, V>(c: Chain<K, V>, k: K)
    requires Distinct(c)
    ensures Count(Keys(c), k) == if FindIn(c, k) >= 0 then 1 else 0
    decreases |c|
  {
    if c != [] {
      KeysAppend(c);
      CountChain(c[1..], k);
      assert forall j :: 0 <= j < |c[1..]| ==> c[1..][j] == c[j + 1];
    }
  }

  /** From bucket i on, k occurs once if it is bound in the table in such a bucket, else not at all. */
  lemma {:induction false} CountTable<K(!new), V>(hash: K -> Word, t: Table<K, V>, i: nat, k: K)
    requires TableOk(hash, t)
    ensures Count(KeysFrom(t, i), k) == if i <= Index(hash, t, k) && TableGet(hash, t, k) != None then 1 else 0
    decreases |t.buckets| - i
  {
    if i < |t.buckets| {
      var c := t.buckets[i];
      CountTable(hash, t, i + 1, k);
      CountAppend(Keys(c), KeysFrom(t, i + 1), k);
      CountChain(c, k);
      if FindIn(c, k) >= 0 { assert Index(hash, t, c[FindIn(c, k)].key) == i; }
    }
  }

  /** Nothing returned yet: exactly the bound keys are pending. */
  lemma {:induction false} AllPending<K(!new), V>(s: State<K, V>, k: K)
    requires Inv(s)
    ensures Count(Pending(s, Open()), k) == if Get(s, k) != None then 1 else 0
  {
    CountTable(s.hash, s.ht0, 0, k);
    CountTable(s.hash, s.ht1, 0, k);
    var p, q := KeysFrom(s.ht0, 0), KeysFrom(s.ht1, 0);
    CountAppend(p, q, k);
    assert Pending(s, Open<K>()) == p + (if Rehashing(s) then q else []);
    assert p + [] == p;
  }

  // ----- pending, key by key -----

  /** k is in the chain, not before the entry the iterator will return next. */
  ghost predicate InLeft<K, V>(c: Chain<K, V>, next: Option<K>, k: K) {
    next.Some? && FindIn(c, k) >= FindIn(c, next.value) >= 0
  }

  ghost predicate PendingIn<K(!new), V>(s: State<K, V>, it: Iter<K>, second: bool, k: K) {
    var i := Index(s.hash, TableOf(s, second), k);
    && TableGet(s.hash, TableOf(s, second), k) != None
    && if it.second == second
       then i > it.index || (i == it.index && it.entry.Some? && InLeft(Current(s, it), it.nextEntry, k))
       else second && Rehashing(s)
  }

  ghost predicate IsPending<K(!new), V>(s: State<K, V>, it: Iter<K>, k: K) {
    PendingIn(s, it, false, k) || PendingIn(s, it, true, k)
  }

  lemma {:induction false} CountLeft<K(!new), V>(s: State<K, V>, it: Iter<K>, k: K)
    requires ItOk(s, it) && Distinct(Current(s, it))
    ensures Count(Left(s, it), k) == if it.entry.Some? && InLeft(Current(s, it), it.nextEntry, k) then 1 else 0
  {
    var c := Current(s, it);
    if it.entry.Some? && it.nextEntry.Some? {
      var a := FindIn(c, it.nextEntry.value);
      var d := c[a..];
      assert forall j :: 0 <= j < |d| ==> d[j] == c[a + j];
      CountChain(d, k);
      if FindIn(d, k) >= 0 { FindAt(c, a + FindIn(d, k)); }
      if FindIn(c, k) >= a { FindAt(d, FindIn(c, k) - a); }
    }
  }

  lemma {:induction false} CountLater<K(!new), V>(s: State<K, V>, second: bool, i: nat, k: K)
    requires Inv(s)
    ensures Count(Later(s, second, i), k)
         == (if i <= Index(s.hash, TableOf(s, second), k) && TableGet(s.hash, TableOf(s, second), k) != None then 1
             else 0)
          + (if !second && Rehashing(s) && TableGet(s.hash, s.ht1, k) != None then 1 else 0)
  {
    var p, q := KeysFrom(TableOf(s, second), i), KeysFrom(s.ht1, 0);
    CountTable(s.hash, TableOf(s, second), i, k);
    CountTable(s.hash, s.ht1, 0, k);
    CountAppend(p, if !second && Rehashing(s) then q else [], k);
  }

  /** A key is pending at most once. */
  lemma {:induction false} CountPendingIs<K(!new), V>(s: State<K, V>, it: Iter<K>, k: K)
    requires Inv(s) && ItOk(s, it)
    ensures Count(Pending(s, it), k) == if IsPending(s, it, k) then 1 else 0
  {
    hide Inv, Left, Later, Count, TableGet, Index, Current, FindIn;
    CurrentOk(s, it, k);
    CountLeft(s, it, k);
    CountLater(s, it.second, it.index + 1, k);
    CountAppend(Left(s, it), Later(s, it.second, it.index + 1), k);
    OneTable(s, k);
  }

  lemma {:induction false} OneTable<K(!new), V>(s: State<K, V>, k: K)
    requires Inv(s)
    ensures TableGet(s.hash, s.ht0, k) == None || TableGet(s.hash, s.ht1, k) == None
    ensures !Rehashing(s) ==> TableGet(s.hash, s.ht1, k) == None
  {
  }

  /** What is found in the current chain is bound in the current table, at the current bucket. */
  lemma {:induction false} CurrentOk<K(!new), V>(s: State<K, V>, it: Iter<K>, k: K)
    requires Inv(s)
    ensures Distinct(Current(s, it))
    ensures FindIn(Current(s, it), k) >= 0 ==>
              && Index(s.hash, TableOf(s, it.second), k) == it.index
              && TableGet(s.hash, TableOf(s, it.second), k) != None
  {
    var t := TableOf(s, it.second);
    var c := Current(s, it);
    assert TableOk(s.hash, t);
    if FindIn(c, k) >= 0 { assert Index(s.hash, t, t.buckets[it.index][FindIn(c, k)].key) == it.index; }
  }

  // ----- what the user does meanwhile -----

  datatype Event<K, V> =
    | CallNext
    | UserAdd(key: K, val: V, canResize: bool)
    | UserReplace(key: K, val: V, canResize: bool)
    | UserFind(key: K)
    | UserDelete(key: K)
    | UserResize(canResize: bool)

  ghost function Act<K(!new), V>(s: State<K, V>, e: Event<K, V>): State<K, V>
    requires Inv(s) && 2 * (s.ht0.used + s.ht1.used) < LONG_MAX
  {
    TotalsNonNegative(s);
    match e
    case CallNext => s
    case UserAdd(k, v, c) => Add(s, k, v, c).0
    case UserReplace(k, v, c) => Replace(s, k, v, c).0
    case UserFind(k) => AfterFind(s)
    case UserDelete(k) => Delete(s, k).0
    case UserResize(c) => Resize(s, c)
  }

  /** The iterator and the key k are left alone by a change from s to r. */
  ghost predicate Undisturbed<K(!new), V>(s: State<K, V>, r: State<K, V>, it: Iter<K>, k: K) {
    && Inv(r) && r.iterators == s.iterators && ItOk(r, it)
    && Get(r, k) != None
    && IsPending(r, it, k) == IsPending(s, it, k)
  }

  /** No step of migration is made while an iterator is open; a new one may begin. */
  lemma {:induction false} GrowthUndisturbed<K(!new), V>(s: State<K, V>, r: State<K, V>, it: Iter<K>, k: K)
    requires Inv(s) && Inv(r) && ItOk(s, it) && Get(s, k) != None && r.hash == s.hash && r.iterators == s.iterators
    requires r == s || (!Rehashing(s) && r.ht0 == s.ht0 && Rehashing(r)
             && forall x :: TableGet(r.hash, r.ht1, x) == None)
    ensures Undisturbed(s, r, it, k)
  {
    OneTable(s, k);
  }

  lemma {:induction false} NotEmptied<K(!new), V>(s: State<K, V>, k: K)
    requires Inv(s) && Get(s, k) != None
    ensures s.ht0.buckets != []
  {
  }

  lemma {:induction false} ExpandGrows<K(!new), V>(s: State<K, V>, size: int)
    requires Inv(s) && size < LONG_MAX && s.ht0.buckets != []
    ensures var r := Expand(s, size);
            && r.hash == s.hash && r.iterators == s.iterators
            && (r == s || (!Rehashing(s) && r.ht0 == s.ht0 && Rehashing(r)
                && forall x :: TableGet(r.hash, r.ht1, x) == None))
  {
    if Expand(s, size) != s {
      var b := PowerFrom(2, size);
      PowerFromIs(2, size, 63);
      EmptyTableOk<K, V>(s.hash, b);
    }
  }

  lemma {:induction false} BeforeAddUndisturbed<K(!new), V>(s: State<K, V>, canResize: bool, it: Iter<K>, k: K)
    requires Inv(s) && ItOk(s, it) && Get(s, k) != None && s.iterators > 0
    requires 2 * (s.ht0.used + s.ht1.used) < LONG_MAX
    ensures Undisturbed(s, BeforeAdd(s, canResize), it, k)
  {
    NotEmptied(s, k);
    TotalsNonNegative(s);
    if BeforeAdd(s, canResize) != s { ExpandGrows(s, s.ht0.used * 2); }
    GrowthUndisturbed(s, BeforeAdd(s, canResize), it, k);
  }

  /** Exchanging a table for one with the same buckets as far as k and the iterator can tell. */
  lemma {:induction false} TableUndisturbed<K(!new), V>(s: State<K, V>, second: bool, t: Table<K, V>, it: Iter<K>, k: K)
    requires Inv(s) && ItOk(s, it) && Get(s, k) != None
    requires Inv(WithTable(s, second, t))
    requires |t.buckets| == |TableOf(s, second).buckets| && t.mask == TableOf(s, second).mask
    requires (TableGet(s.hash, t, k) == None) == (TableGet(s.hash, TableOf(s, second), k) == None)
    requires it.second == second && it.entry.Some? ==>
               SameLeft(TableOf(s, second).buckets[it.index], t.buckets[it.index], it.nextEntry, k)
    ensures Undisturbed(s, WithTable(s, second, t), it, k)
  {
    hide Inv, TableGet, Index, FindIn;
    SameIndex(s.hash, t, TableOf(s, second), k);
  }

  lemma {:induction false} SameIndex<K, V>(hash: K -> Word, t: Table<K, V>, t': Table<K, V>, k: K)
    requires t.mask == t'.mask
    ensures Index(hash, t, k) == Index(hash, t', k)
  {
  }

  /** The next entry keeps its place relative to k. */
  ghost predicate SameLeft<K, V>(c: Chain<K, V>, c': Chain<K, V>, next: Option<K>, k: K) {
    && (next.Some? && FindIn(c, next.value) >= 0 ==> FindIn(c', next.value) >= 0)
    && InLeft(c, next, k) == InLeft(c', next, k)
  }

  lemma {:induction false} SameLeftPrepend<K, V>(c: Chain<K, V>, e: Entry<K, V>, next: Option<K>, k: K)
    requires e.key != k && FindIn(c, e.key) < 0 && (next.Some? ==> FindIn(c, next.value) >= 0)
    ensures SameLeft(c, [e] + c, next, k)
  {
    assert ([e] + c)[1..] == c;
  }

  lemma {:induction false} FindAfterUnlink<K, V>(c: Chain<K, V>, j: nat, x: K)
    requires j < |c| && x != c[j].key
    ensures var a := FindIn(c, x); FindIn(c[..j] + c[j + 1..], x) == if a > j then a - 1 else a
    decreases |c|
  {
    var c' := c[..j] + c[j + 1..];
    if j == 0 {
      assert c' == c[1..];
    } else {
      FindAfterUnlink(c[1..], j - 1, x);
      assert c'[1..] == c[1..][..j - 1] + c[1..][j..];
    }
  }

  lemma {:induction false} SameLeftUnlink<K, V>(c: Chain<K, V>, j: nat, next: Option<K>, k: K)
    requires Distinct(c) && j < |c| && k != c[j].key && next != Some(c[j].key)
    ensures SameLeft(c, c[..j] + c[j + 1..], next, k)
  {
    FindAfterUnlink(c, j, k);
    if next.Some? {
      FindAfterUnlink(c, j, next.value);
      assert FindIn(c, k) != j && FindIn(c, next.value) != j;
    }
  }

  lemma {:induction false} FindAfterSetVal<K, V>(c: Chain<K, V>, j: nat, v: V, x: K)
    requires Distinct(c) && j < |c|
    ensures FindIn(c[j := Entry(c[j].key, v)], x) == FindIn(c, x)
  {
    var c' := c[j := Entry(c[j].key, v)];
    SetValChain(c, j, v);
    var a := FindIn(c, x);
    assert forall i :: 0 <= i < |c| ==> c'[i].key == c[i].key;
    if a >= 0 { FindAt(c', a); }
  }

  lemma {:induction false} SameLeftSetVal<K, V>(c: Chain<K, V>, j: nat, v: V, next: Option<K>, k: K)
    requires Distinct(c) && j < |c|
    ensures SameLeft(c, c[j := Entry(c[j].key, v)], next, k)
  {
    FindAfterSetVal(c, j, v, k);
    if next.Some? { FindAfterSetVal(c, j, v, next.value); }
  }

  lemma {:induction false} InsertUndisturbed<K(!new), V>(s: State<K, V>, k0: K, v: V, it: Iter<K>, k: K)
    requires Inv(s) && ItOk(s, it) && Get(s, k) != None
    requires Target(s).buckets != [] && Get(s, k0) == None
    ensures Undisturbed(s, WithTable(s, Rehashing(s), Prepend(s.hash, Target(s), Entry(k0, v))), it, k)
  {
    InsertOk(s, k0, v);
    PrependOk(s.hash, Target(s), Entry(k0, v));
    var t := Prepend(s.hash, Target(s), Entry(k0, v));
    if it.second == Rehashing(s) && it.entry.Some? {
      var c := Current(s, it);
      CurrentOk(s, it, k0);
      SameLeftPrepend(c, Entry(k0, v), it.nextEntry, k);
      assert t.buckets[it.index] == c || t.buckets[it.index] == [Entry(k0, v)] + c;
    }
    TableUndisturbed(s, Rehashing(s), t, it, k);
  }

  lemma {:induction false} SetUndisturbed<K(!new), V>(s: State<K, V>, k0: K, v: V, it: Iter<K>, k: K)
    requires Inv(s) && ItOk(s, it) && Get(s, k) != None && Locate(s, k0).Some?
    ensures var (second, i, j) := Locate(s, k0).value;
            Undisturbed(s, WithTable(s, second, SetVal(TableOf(s, second), i, j, v)), it, k)
  {
    var (second, i, j) := Locate(s, k0).value;
    var t := SetVal(TableOf(s, second), i, j, v);
    SetOk(s, k0, v);
    SetValOk(s.hash, TableOf(s, second), i, j, v);
    if it.second == second && it.entry.Some? && it.index == i {
      CurrentOk(s, it, k0);
      SameLeftSetVal(Current(s, it), j, v, it.nextEntry, k);
    }
    TableUndisturbed(s, second, t, it, k);
  }

  lemma {:induction false} RemoveUndisturbed<K(!new), V>(s: State<K, V>, k0: K, it: Iter<K>, k: K)
    requires Inv(s) && ItOk(s, it) && Get(s, k) != None && Locate(s, k0).Some?
    requires k0 != k && (it.entry.Some? ==> it.nextEntry != Some(k0))
    ensures var (second, i, j) := Locate(s, k0).value;
            Undisturbed(s, WithTable(s, second, Unlink(TableOf(s, second), i, j)), it, k)
  {
    var (second, i, j) := Locate(s, k0).value;
    var t := Unlink(TableOf(s, second), i, j);
    RemoveOk(s, k0);
    UnlinkOk(s.hash, TableOf(s, second), i, j);
    if it.second == second && it.entry.Some? && it.index == i {
      CurrentOk(s, it, k0);
      SameLeftUnlink(Current(s, it), j, it.nextEntry, k);
    }
    TableUndisturbed(s, second, t, it, k);
  }

  /** Every permitted action leaves the iterator, and each other key, undisturbed; not permitted is
      only the deletion of the entry the iterator has noted as the next one. */
  ghost predicate Permitted<K, V>(it: Iter<K>, e: Event<K, V>) {
    e.UserDelete? && it.entry.Some? ==> it.nextEntry != Some(e.key)
  }

  lemma {:induction false} Chained<K(!new), V>(s: State<K, V>, r: State<K, V>, q: State<K, V>, it: Iter<K>, k: K)
    requires Undisturbed(s, r, it, k) && Undisturbed(r, q, it, k)
    ensures Undisturbed(s, q, it, k)
  {
  }

  lemma {:induction false} AddUndisturbed<K(!new), V>(s: State<K, V>, k0: K, v: V, canResize: bool, it: Iter<K>, k: K)
    requires Inv(s) && ItOk(s, it) && Get(s, k) != None && s.iterators > 0
    requires 2 * (s.ht0.used + s.ht1.used) < LONG_MAX
    ensures Undisturbed(s, Add(s, k0, v, canResize).0, it, k)
  {
    var s' := BeforeAdd(s, canResize);
    BeforeAddUndisturbed(s, canResize, it, k);
    if Get(s', k0) == None {
      InsertUndisturbed(s', k0, v, it, k);
      Chained(s, s', Add(s, k0, v, canResize).0, it, k);
    }
  }

  lemma {:induction false} ReplaceUndisturbed<K(!new), V>(s: State<K, V>, k0: K, v: V, canResize: bool, it: Iter<K>,
                                                          k: K)
    requires Inv(s) && ItOk(s, it) && Get(s, k) != None && s.iterators > 0
    requires 2 * (s.ht0.used + s.ht1.used) < LONG_MAX
    ensures Undisturbed(s, Replace(s, k0, v, canResize).0, it, k)
  {
    AddUndisturbed(s, k0, v, canResize, it, k);
    var s' := BeforeAdd(s, canResize);
    BeforeAddUndisturbed(s, canResize, it, k);
    if Get(s', k0) != None {
      assert AfterFind(s') == s';
      SetUndisturbed(s', k0, v, it, k);
      Chained(s, s', Replace(s, k0, v, canResize).0, it, k);
    }
  }

  lemma {:induction false} DeleteUndisturbed<K(!new), V>(s: State<K, V>, k0: K, it: Iter<K>, k: K)
    requires Inv(s) && ItOk(s, it) && Get(s, k) != None && s.iterators > 0
    requires k0 != k && (it.entry.Some? ==> it.nextEntry != Some(k0))
    ensures Undisturbed(s, Delete(s, k0).0, it, k)
  {
    if s.ht0.buckets != [] {
      assert Step(s) == s;
      if Locate(s, k0).Some? { RemoveUndisturbed(s, k0, it, k); }
    }
  }

  lemma {:induction false} ActUndisturbed<K(!new), V>(s: State<K, V>, e: Event<K, V>, it: Iter<K>, k: K)
    requires Inv(s) && ItOk(s, it) && Get(s, k) != None && s.iterators > 0
    requires 2 * (s.ht0.used + s.ht1.used) < LONG_MAX
    requires Permitted(it, e) && e != UserDelete(k)
    ensures Undisturbed(s, Act(s, e), it, k)
  {
    hide Add, Replace, Delete, Inv;
    TotalsNonNegative(s);
    match e
    case CallNext => GrowthUndisturbed(s, s, it, k);
    case UserAdd(k0, v, c) => AddUndisturbed(s, k0, v, c, it, k);
    case UserReplace(k0, v, c) => ReplaceUndisturbed(s, k0, v, c, it, k);
    case UserFind(k0) => GrowthUndisturbed(s, s, it, k);
    case UserDelete(k0) => DeleteUndisturbed(s, k0, it, k);
    case UserResize(c) => ResizeUndisturbed(s, c, it, k);
  }

  lemma {:induction false} ResizeUndisturbed<K(!new), V>(s: State<K, V>, canResize: bool, it: Iter<K>, k: K)
    requires Inv(s) && ItOk(s, it) && Get(s, k) != None && s.ht0.used < LONG_MAX
    ensures Undisturbed(s, Resize(s, canResize), it, k)
  {
    NotEmptied(s, k);
    PowersGrow(3, 63);
    assert Pow2(1) == 2 && Pow2(2) == 4 && Pow2(3) == 8;
    if Resize(s, canResize) != s {
      ExpandGrows(s, if s.ht0.used < INITIAL_SIZE then INITIAL_SIZE else s.ht0.used);
    }
    GrowthUndisturbed(s, Resize(s, canResize), it, k);
  }

  // ----- whole iterations -----

  lemma {:induction false} ActOk<K(!new), V>(s: State<K, V>, e: Event<K, V>)
    requires Inv(s) && 2 * (s.ht0.used + s.ht1.used) < LONG_MAX
    ensures Inv(Act(s, e)) && Act(s, e).iterators == s.iterators
    ensures Act(s, e).ht0.used + Act(s, e).ht1.used <= s.ht0.used + s.ht1.used + 1
  {
    TotalsNonNegative(s);
    match e
    case UserAdd(k, v, c) =>
      AddKeepsInv(s, k, v, c);
    case UserReplace(k, v, c) =>
      ReplaceKeepsInv(s, k, v, c);
    case UserDelete(k) =>
      DeleteKeepsInv(s, k);
    case _ =>
  }

  lemma {:induction false} ReplaceKeepsInv<K(!new), V>(s: State<K, V>, k: K, v: V, c: bool)
    requires Inv(s) && 2 * (s.ht0.used + s.ht1.used) < LONG_MAX
    ensures var r := Replace(s, k, v, c).0;
            Inv(r) && r.iterators == s.iterators && r.ht0.used + r.ht1.used <= s.ht0.used + s.ht1.used + 1
  {
    AddKeepsInv(s, k, v, c);
    var s2 := AfterFind(Add(s, k, v, c).0);
    if Locate(s2, k).Some? { SetOk(s2, k, v); }
  }

  lemma {:induction false} DeleteKeepsInv<K(!new), V>(s: State<K, V>, k: K)
    requires Inv(s)
    ensures var r := Delete(s, k).0;
            Inv(r) && r.iterators == s.iterators && r.ht0.used + r.ht1.used <= s.ht0.used + s.ht1.used
  {
    if s.ht0.buckets != [] && Locate(Step(s), k).Some? { RemoveOk(Step(s), k); }
  }

  lemma {:induction false} AddKeepsInv<K(!new), V>(s: State<K, V>, k: K, v: V, canResize: bool)
    requires Inv(s) && 2 * (s.ht0.used + s.ht1.used) < LONG_MAX
    ensures var r := Add(s, k, v, canResize).0;
            Inv(r) && r.iterators == s.iterators && r.ht0.used + r.ht1.used <= s.ht0.used + s.ht1.used + 1
  {
    var s' := BeforeAdd(s, canResize);
    if Get(s', k) == None { InsertOk(s', k, v); }
  }

  ghost predicate Room<K(!new), V>(s: State<K, V>, n: nat) {
    2 * (s.ht0.used + s.ht1.used + n) < LONG_MAX
  }

  /** The dictionary and the iterator after the events, and the keys dictNext has returned. */
  ghost function Play<K(!new), V>(s: State<K, V>, it: Iter<K>, es: seq<Event<K, V>>): (State<K, V>, Iter<K>, seq<K>)
    requires Inv(s) && it.index >= -1 && Room(s, |es|)
    decreases |es|
  {
    if es == [] then (s, it, [])
    else if es[0].CallNext? then
      var (s1, it1, k) := Next(s, it);
      IteratorsOnly(s, s1.iterators);
      var (s2, it2, log) := Play(s1, it1, es[1..]);
      (s2, it2, if k.Some? then [k.value] + log else log)
    else
      ActOk(s, es[0]);
      Play(Act(s, es[0]), it, es[1..])
  }

  /** All events are permitted when they happen. */
  ghost predicate Legal<K(!new), V>(s: State<K, V>, it: Iter<K>, es: seq<Event<K, V>>)
    requires Inv(s) && it.index >= -1 && Room(s, |es|)
    decreases |es|
  {
    es == [] ||
    if es[0].CallNext? then
      var (s1, it1, _) := Next(s, it);
      IteratorsOnly(s, s1.iterators);
      Legal(s1, it1, es[1..])
    else
      ActOk(s, es[0]);
      Permitted(it, es[0]) && Legal(Act(s, es[0]), it, es[1..])
  }

  lemma {:induction false} StartedIterators<K(!new), V>(s: State<K, V>, it: Iter<K>, k: K)
    requires Inv(s) && ItOk(s, it) && Get(s, k) != None && s.iterators > 0
    ensures var (s1, it1, r) := Next(s, it);
            && Inv(s1) && ItOk(s1, it1) && Get(s1, k) != None && s1.iterators > 0 && SameTables(s, s1)
            && Count(Pending(s, it), k) == (if r == Some(k) then 1 else 0) + Count(Pending(s1, it1), k)
  {
    NextIs(s, it);
    var (s1, it1, r) := Next(s, it);
    if r.Some? { assert ([r.value] + Pending(s1, it1))[1..] == Pending(s1, it1); }
  }

  /** A key that stays bound: how often it has been returned and how often it is pending is constant. */
  lemma {:induction false} Conserved<K(!new), V>(s: State<K, V>, it: Iter<K>, es: seq<Event<K, V>>, k: K)
    requires Inv(s) && ItOk(s, it) && Room(s, |es|) && s.iterators > 0
    requires Get(s, k) != None && UserDelete(k) !in es && Legal(s, it, es)
    ensures var (s', it', log) := Play(s, it, es);
            && Inv(s') && ItOk(s', it') && Get(s', k) != None
            && Count(log, k) + Count(Pending(s', it'), k) == Count(Pending(s, it), k)
    decreases |es|
  {
    hide Inv, Act, Next, Pending;
    if es != [] {
      var e := es[0];
      if e.CallNext? {
        StartedIterators(s, it, k);
        var (s1, it1, r) := Next(s, it);
        IteratorsOnly(s, s1.iterators);
        Conserved(s1, it1, es[1..], k);
        var log := Play(s1, it1, es[1..]).2;
        if r.Some? { assert ([r.value] + log)[1..] == log; }
      } else {
        ActOk(s, e);
        TotalsNonNegative(s);
        ActUndisturbed(s, e, it, k);
        CountPendingIs(s, it, k);
        CountPendingIs(Act(s, e), it, k);
        Conserved(Act(s, e), it, es[1..], k);
      }
    }
  }

  /** From the first dictNext on, whatever is added, found, replaced, resized or deleted (the entry just
      returned, or any other but the noted next one): a key bound at the start and never deleted has been
      returned at most once, and exactly once when dictNext has nothing more to return. */
  lemma {:induction false} SafeIteration<K(!new), V>(s: State<K, V>, es: seq<Event<K, V>>, k: K)
    requires Inv(s) && Room(s, |es| + 1)
    requires Get(s, k) != None && UserDelete(k) !in es && Legal(s, Open(), [CallNext] + es)
    ensures var (s', it', log) := Play(s, Open(), [CallNext] + es);
            && Count(log, k) <= 1
            && it'.index >= -1
            && (Next(s', it').2 == None ==> Count(log, k) == 1)
  {
    var es' := [CallNext] + es;
    assert es'[1..] == es;
    AllPending(s, k);
    NextIs(s, Open());
    var (s1, it1, r) := Next(s, Open<K>());
    if r.Some? { assert ([r.value] + Pending(s1, it1))[1..] == Pending(s1, it1); }
    Conserved(s1, it1, es, k);
    var (s2, it2, log) := Play(s1, it1, es);
    if r.Some? { assert ([r.value] + log)[1..] == log; }
    NextIs(s2, it2);
  }

  // ----- the end of an iteration -----

  /** dictNext has been called. */
  predicate Begun<K>(it: Iter<K>) {
    !(it.index == -1 && !it.second)
  }

  /** dictReleaseIterator(it), for a safe iterator */
  function Release<K, V>(s: State<K, V>, it: Iter<K>): State<K, V>
    requires Begun(it) ==> s.iterators > 0
  {
    if it.index == -1 && !it.second then s else s.(iterators := s.iterators - 1)
  }

  lemma {:induction false} NextCounts<K(!new), V>(s: State<K, V>, it: Iter<K>)
    requires it.index >= -1 && (!Begun(it) ==> it.entry.None?)
    ensures var (s1, it1, _) := Next(s, it);
            Begun(it1) && s1 == s.(iterators := s.iterators + if Begun(it) then 0 else 1)
  {
  }

  lemma {:induction false} Balanced<K(!new), V>(s: State<K, V>, it: Iter<K>, es: seq<Event<K, V>>)
    requires Inv(s) && it.index >= -1 && Room(s, |es|) && (!Begun(it) ==> it.entry.None?)
    ensures var (s', it', _) := Play(s, it, es);
            s'.iterators == s.iterators + if Begun(it') && !Begun(it) then 1 else 0
    ensures Begun(it) ==> Begun(Play(s, it, es).1)
    decreases |es|
  {
    hide Inv, Act, Next, Begun;
    if es != [] {
      var e := es[0];
      if e.CallNext? {
        NextCounts(s, it);
        var (s1, it1, r) := Next(s, it);
        IteratorsOnly(s, s1.iterators);
        Balanced(s1, it1, es[1..]);
      } else {
        ActOk(s, e);
        Balanced(Act(s, e), it, es[1..]);
      }
    }
  }

  /** However an iteration went and whenever it is given up, releasing the iterator leaves the count of iterators at
      what it was, so that migrations go on. */
  lemma {:induction false} ReleaseRestores<K(!new), V>(s: State<K, V>, es: seq<Event<K, V>>)
    requires Inv(s) && Room(s, |es|)
    ensures var (s', it', _) := Play(s, Open(), es);
            (Begun(it') ==> s'.iterators > 0) && Release(s', it').iterators == s.iterators
  {
    Balanced(s, Open<K>(), es);
    hide Inv, Play;
  }

  /** The entry dictNext has just returned may be deleted. */
  lemma {:induction false} JustReturnedIsPermitted<K(!new), V>(s: State<K, V>, it: Iter<K>)
    requires Inv(s) && ItOk(s, it) && Next(s, it).2.Some?
    ensures Permitted<K, V>(Next(s, it).1, UserDelete(Next(s, it).2.value))
  {
    NextIs(s, it);
    var (s1, it1, r) := Next(s, it);
    CountPendingIs(s, it, r.value);
    CountPendingIs(s1, it1, r.value);
    assert ([r.value] + Pending(s1, it1))[1..] == Pending(s1, it1);
    if it1.nextEntry == r { assert InLeft(Current(s1, it1), it1.nextEntry, r.value); CurrentOk(s1, it1, r.value); }
  }
}

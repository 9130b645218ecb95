/** When and to what size the table grows or shrinks. */
module DictGrowth {
  import opened Words
  import opened DictModel

  /** n is the least power of two, from 4 on, that is not below size. */
  ghost predicate LeastPower(n: nat, size: int) {
    n >= size && exists b: nat :: b >= 2 && n == Pow2(b) && (b > 2 ==> Pow2(b - 1) < size)
  }

  lemma {:induction false} PowerIsLeast(size: int)
    requires size < LONG_MAX
    ensures LeastPower(Pow2(PowerFrom(2, size)), size)
  {
    PowerFromIs(2, size, 63);
  }

  /** dictExpand: refused during a migration and for less room than there are entries; else an empty table of the
      least size that is enough, which is the first one if there was none, and else what a migration goes to. */
  lemma {:induction false} ExpandIs<K(!new), V>(s: State<K, V>, size: int)
    requires Inv(s) && size < LONG_MAX
    ensures var r := Expand(s, size);
            if Rehashing(s) || s.ht0.used > size then r == s
            else if s.ht0.buckets == [] then
              !Rehashing(r) && LeastPower(|r.ht0.buckets|, size) && r.ht0.used == s.ht0.used && r.ht1 == s.ht1
            else
              && r.ht0 == s.ht0 && r.rehashidx == 0
              && LeastPower(|r.ht1.buckets|, size) && r.ht1.used == 0 && forall c <- r.ht1.buckets :: c == []
  {
    PowerIsLeast(size);
    var b := PowerFrom(2, size);
    hide PowerFrom, Pow2;
    if s.ht0.buckets == [] { NothingUsed(s); }
  }

  lemma {:induction false} NothingUsed<K(!new), V>(s: State<K, V>)
    requires Inv(s) && s.ht0.buckets == []
    ensures s.ht0.used == 0
  {
  }

  /** dictResize goes to the least size for the entries, unless it is disabled or a migration is on. */
  lemma {:induction false} ResizeIs<K(!new), V>(s: State<K, V>, c: bool)
    requires Inv(s) && s.ht0.used < LONG_MAX
    ensures var r := Resize(s, c);
            if !c || Rehashing(s) then r == s
            else if s.ht0.buckets == [] then !Rehashing(r) && |r.ht0.buckets| == 4
            else r.ht0 == s.ht0 && r.rehashidx == 0 && LeastPower(|r.ht1.buckets|, s.ht0.used)
  {
    if c && !Rehashing(s) {
      InitialFits();
      TotalsNonNegative(s);
      var size := if s.ht0.used < INITIAL_SIZE then INITIAL_SIZE else s.ht0.used;
      ExpandIs(s, size);
      if s.ht0.buckets == [] { NothingUsed(s); LeastOfFour(|Expand(s, size).ht0.buckets|, size); }
      else if s.ht0.used < INITIAL_SIZE { LeastOfFour(|Expand(s, size).ht1.buckets|, size); LeastIsFour(s.ht0.used); }
    }
  }

  lemma {:induction false} InitialFits()
    ensures INITIAL_SIZE == 4 < LONG_MAX
  {
    PowersGrow(3, 63);
    assert Pow2(1) == 2 && Pow2(2) == 4 && Pow2(3) == 8;
  }

  lemma {:induction false} LeastOfFour(n: nat, size: int)
    requires LeastPower(n, size) && size <= 4
    ensures n == 4
  {
    var b: nat :| b >= 2 && n == Pow2(b) && (b > 2 ==> Pow2(b - 1) < size);
    assert Pow2(1) == 2 && Pow2(2) == 4;
    if b > 2 { PowersGrow(2, b - 1); }
  }

  lemma {:induction false} LeastIsFour(size: int)
    requires size <= 4
    ensures LeastPower(4, size)
  {
    assert Pow2(1) == 2 && Pow2(2) == 4;
  }

  // ----- growth on addition -----

  /** When an addition finds the table, after its step of migration, with used entries in size buckets. */
  predicate Full(used: int, size: nat, canResize: bool) {
    size > 0 && used >= size && (canResize || used / size > 5)
  }

  /** The first addition makes four buckets. Any other, if no migration is on, begins one exactly if the table is
      full: to the least size that holds twice as many entries. */
  lemma {:induction false} GrowthIs<K(!new), V>(s: State<K, V>, c: bool)
    requires Inv(s) && 2 * s.ht0.used < LONG_MAX
    ensures var r := ExpandIfNeeded(s, c);
            if Rehashing(s) then r == s
            else if s.ht0.buckets == [] then !Rehashing(r) && |r.ht0.buckets| == 4
            else if Full(s.ht0.used, |s.ht0.buckets|, c) then
              r.ht0 == s.ht0 && r.rehashidx == 0 && LeastPower(|r.ht1.buckets|, 2 * s.ht0.used)
            else r == s
  {
    if !Rehashing(s) {
      if s.ht0.buckets == [] {
        NothingUsed(s);
        InitialFits();
        ExpandIs(s, INITIAL_SIZE);
        LeastOfFour(|Expand(s, INITIAL_SIZE).ht0.buckets|, INITIAL_SIZE);
      } else if Full(s.ht0.used, |s.ht0.buckets|, c) {
        ExpandIs(s, s.ht0.used * 2);
      }
    }
  }

  /** What dictAdd does to the sizes: it takes its step, and then grows the table as above; the entry that it links
      changes no size. */
  lemma {:induction false} AddGrows<K(!new), V>(s: State<K, V>, k: K, v: V, c: bool)
    requires Inv(s) && 2 * (s.ht0.used + s.ht1.used) < LONG_MAX && !Rehashing(Step(s))
    ensures var t, r := Step(s), Add(s, k, v, c).0;
            if t.ht0.buckets == [] then !Rehashing(r) && |r.ht0.buckets| == 4
            else
              && |r.ht0.buckets| == |t.ht0.buckets|
              && (Rehashing(r) <==> Full(t.ht0.used, |t.ht0.buckets|, c))
              && (Rehashing(r) ==> r.rehashidx == 0 && LeastPower(|r.ht1.buckets|, 2 * t.ht0.used))
  {
    hide Inv, Step, Get, LeastPower;
    TotalsNonNegative(Step(s));
    GrowthIs(Step(s), c);
    var t := BeforeAdd(s, c);
    if Get(t, k) == None { InsertOk(t, k, v); }
  }

  /** With resizing allowed, after an addition there are at most as many entries as buckets, or a migration is on. */
  lemma {:induction false} StaysRoomy<K(!new), V>(s: State<K, V>, k: K, v: V)
    requires Inv(s) && 2 * (s.ht0.used + s.ht1.used) < LONG_MAX
    ensures var r := Add(s, k, v, true).0;
            Rehashing(r) || r.ht0.used <= |r.ht0.buckets|
  {
    hide Inv, Step, Get, LeastPower;
    TotalsNonNegative(Step(s));
    GrowthIs(Step(s), true);
    if Step(s).ht0.buckets == [] { NothingUsed(Step(s)); }
    var t := BeforeAdd(s, true);
    if Get(t, k) == None { InsertOk(t, k, v); }
  }

  // ----- the pace of a migration -----

  /** A round moves the first bucket that has entries, and no other; one that finds none left ends the migration. */
  lemma {:induction false} RoundMovesOne<K(!new), V>(s: State<K, V>)
    requires Inv(s) && Rehashing(s)
    ensures var r := RehashOne(s);
            if forall c <- s.ht0.buckets :: c == [] then !Rehashing(r) && r.ht0 == s.ht1
            else exists i: nat ::
                   && i < |s.ht0.buckets| && s.ht0.buckets[i] != []
                       && (forall j :: 0 <= j < i ==> s.ht0.buckets[j] == [])
                   && r.rehashidx == i + 1 && r.ht0.buckets == s.ht0.buckets[i := []]
                   && r.ht1.used == s.ht1.used + |s.ht0.buckets[i]|
  {
    TotalZero(s.ht0.buckets);
    if s.ht0.used > 0 {
      SomethingLeft(s);
      var i := SkipEmpty(s.ht0.buckets, s.rehashidx);
      UsedAfter(s.hash, s.ht0.buckets[i], s.ht1);
      assert s.ht0.buckets[i] in s.ht0.buckets;
    }
  }

  lemma {:induction false} UsedAfter<K, V>(hash: K -> Word, c: Chain<K, V>, t: Table<K, V>)
    requires Sized(t) && t.buckets != []
    ensures MoveChain(hash, c, t).used == t.used + |c|
    decreases |c|
  {
    if c != [] { UsedAfter(hash, c[1..], Prepend(hash, t, c[0])); }
  }
}

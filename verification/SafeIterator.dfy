/** The safe iterator object, advanced in place by dictNext. */
module SafeIterator {
  import M = DictModel
  import I = DictIterator
  import opened Dictionary

  class DictIter<K(==,!new), V> {
    const d: Dict<K, V>
    var second: bool
    var index: int
    var entry: M.Option<K>
    var nextEntry: M.Option<K>

    ghost function It(): I.Iter<K>
      reads this
    {
      I.Iter(second, index, entry, nextEntry)
    }

    /** dictGetSafeIterator */
    constructor (d: Dict<K, V>)
      ensures this.d == d && It() == I.Open()
    {
      this.d := d;
      second, index, entry, nextEntry := false, -1, M.None, M.None;
    }

    /** The entry after the given one in the current chain, and the entry itself. */
    method Follow(k: M.Option<K>) returns (e: M.Option<K>, next: M.Option<K>)
      requires d.Valid()
      ensures var c := I.From(I.Current(d.State(), It()), k);
              e == I.Head(c) && next == if c == [] then M.None else I.Head(c[1..])
    {
      var t := if second then d.ht1 else d.ht0;
      e, next := M.None, M.None;
      if k.Some? && 0 <= index < t.table.Length {
        var c := t.table[index];
        var j := M.FindIn(c, k.value);
        if j >= 0 {
          e := M.Some(c[j].key);
          next := if j + 1 < |c| then M.Some(c[j + 1].key) else M.None;
          assert c[j..][1..] == c[j + 1..];
        }
      }
    }

    /** d->iterators++ */
    method Register()
      requires d.Valid()
      modifies d`iterators
      ensures d.Valid() && d.State() == old(d.State()).(iterators := old(d.iterators) + 1)
    {
      I.IteratorsOnly(d.State(), d.iterators + 1);
      d.iterators := d.iterators + 1;
    }

    /** dictNext */
    method Next() returns (r: M.Option<K>)
      requires d.Valid() && I.ItOk(d.State(), It())
      modifies this, d`iterators
      ensures d.Valid()
      ensures (d.State(), It(), r) == I.Next(old(d.State()), old(It()))
    {
      hide M.Inv, M.Represents, I.From, I.Current, I.Head;
      if entry.Some? {
        var e, n := Follow(nextEntry);
        I.AlongIs(d.State(), It());
        if e.Some? {
          entry, nextEntry := e, n;
          return entry;
        }
      } else if index == -1 && !second {
        Register();
      }
      r := FirstEntry();
    }

    /** dictReleaseIterator; the iterator may not be used any more. */
    method Release()
      requires d.Valid() && (I.Begun(It()) ==> d.iterators > 0)
      modifies d`iterators
      ensures d.Valid() && d.State() == I.Release(old(d.State()), It())
    {
      hide M.Inv, M.Represents;
      if !(index == -1 && !second) {
        I.IteratorsOnly(d.State(), d.iterators - 1);
        d.iterators := d.iterators - 1;
        Uncounted(old(d.State()), d.iterators, d.contents);
      }
    }

    /** The rounds of the loop of dictNext that look for a bucket with entries. */
    method FirstEntry() returns (r: M.Option<K>)
      requires d.Valid() && index >= -1
      modifies this
      ensures It() == I.NextBucket(d.State(), old(It())) && r == entry
    {
      hide M.Inv, M.Represents;
      ghost var s := d.State();
      if d.rehashidx != -1 { SecondHasBuckets(s); }
      while true
        invariant index >= -1
        invariant I.NextBucket(s, It()) == I.NextBucket(s, old(It()))
        decreases !second, (if second then d.ht1.table.Length else d.ht0.table.Length) - index
      {
        index := index + 1;
        var t := if second then d.ht1 else d.ht0;
        if index >= t.table.Length {
          if d.rehashidx != -1 && !second {
            second := true;
            index := 0;
            entry, nextEntry := M.None, M.None;
            t := d.ht1;
          } else {
            entry := M.None;
            return entry;
          }
        }
        var c := t.table[index];
        if c != [] {
          entry := M.Some(c[0].key);
          nextEntry := if |c| > 1 then M.Some(c[1].key) else M.None;
          return entry;
        }
        entry, nextEntry := M.None, M.None;
      }
    }
  }

  lemma {:induction false} Uncounted<K(!new), V>(s: M.State<K, V>, n: nat, m: map<K, V>)
    requires M.Represents(s, m)
    ensures M.Represents(s.(iterators := n), m)
  {
  }

  lemma {:induction false} SecondHasBuckets<K(!new), V>(s: M.State<K, V>)
    requires M.Inv(s) && M.Rehashing(s)
    ensures s.ht1.buckets != []
  {
  }
}

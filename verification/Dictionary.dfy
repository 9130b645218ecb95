/** The dict of dict.c: two tables updated in place, proved against DictModel. */
module Dictionary {
  import opened Words
  import opened ScanOrder
  import opened BlockIndex
  import M = DictModel
  import S = DictScan

  type Chain<K, V> = M.Chain<K, V>

  /** struct dictht; assigned as a whole, its bucket array is shared. */
  datatype Ht<!K, V> = Ht(table: array<Chain<K, V>>, sizemask: Word, used: int)

  ghost function TableOf<K, V>(h: Ht<K, V>): M.Table<K, V>
    reads h.table
  {
    M.Table(h.table[..], h.sizemask, h.used)
  }

  /** _dictNextPower */
  method NextPower(size: int) returns (i: nat)
    requires size < M.LONG_MAX
    ensures i == Pow2(M.PowerFrom(2, size)) && 2 <= M.PowerFrom(2, size) < WIDTH
  {
    i := M.INITIAL_SIZE;
    ghost var b := 2;
    M.PowerFromIs(2, size, 63);
    assert Pow2(1) == 2 && Pow2(2) == 4;
    while i < size
      invariant i == Pow2(b) && 2 <= b && M.PowerFrom(b, size) == M.PowerFrom(2, size)
      decreases size - i
    {
      M.Log2Pow2(b);
      i := i * 2;
      b := b + 1;
    }
  }

  /** Where the blocks of s bits are in reverse order, and mask selects every other block. */
  ghost predicate BlocksReversed(v0: Word, v: Word, mask: Word, s: nat)
    requires s > 0
  {
    forall i :: 0 <= i < WIDTH ==>
      mask[i] == Even(i, s) && 0 <= BlockReversed(i, s) < WIDTH && v[i] == v0[BlockReversed(i, s)]
  }

  /** Swapping the halves of all blocks of 2 * s bits. */
  lemma {:induction false} HalvesSwapped(v0: Word, v: Word, mask: Word, s: nat)
    requires Stage(s) && BlocksReversed(v0, v, mask, 2 * s)
    ensures var mask' := Xor(mask, Shl(mask, s));
            BlocksReversed(v0, Or(And(Shr(v, s), mask'), And(Shl(v, s), Not(mask'))), mask', s)
  {
    var mask' := Xor(mask, Shl(mask, s));
    var v' := Or(And(Shr(v, s), mask'), And(Shl(v, s), Not(mask')));
    forall i | 0 <= i < WIDTH
      ensures mask'[i] == Even(i, s) && 0 <= BlockReversed(i, s) < WIDTH && v'[i] == v0[BlockReversed(i, s)]
    {
      hide BlockReversed, Even;
      HalfBlocks(i, s);
    }
  }

  lemma {:induction false} NothingReversed(v: Word)
    ensures BlocksReversed(v, v, Fill(true, WIDTH), WIDTH)
  {
    hide BlockReversed, Even;
    forall i | 0 <= i < WIDTH ensures BlockReversed(i, 64) == i && Even(i, 64) { Ends(i); }
  }

  lemma {:induction false} AllReversed(v0: Word, v: Word, mask: Word)
    requires BlocksReversed(v0, v, mask, 1)
    ensures v == Reverse(v0)
  {
    hide BlockReversed, Even;
    forall i | 0 <= i < WIDTH ensures v[i] == v0[WIDTH - 1 - i] { Ends(i); }
  }

  /** rev */
  method Rev(v0: Word) returns (v: Word)
    ensures v == Reverse(v0)
  {
    hide BlocksReversed, Reverse, Xor, Shl, Shr, Or, And, Not;
    v := v0;
    var s: nat := WIDTH;
    var mask: Word := Fill(true, WIDTH);
    NothingReversed(v);
    s := s / 2;
    while s > 0
      invariant s == 0 || Stage(s)
      invariant BlocksReversed(v0, v, mask, if s == 0 then 1 else 2 * s)
      decreases s
    {
      HalvesSwapped(v0, v, mask, s);
      mask := Xor(mask, Shl(mask, s));
      v := Or(And(Shr(v, s), mask), And(Shl(v, s), Not(mask)));
      s := s / 2;
    }
    AllReversed(v0, v, mask);
  }

  class Dict<K(==,!new), V> {
    const hash: K -> Word
    var ht0: Ht<K, V>
    var ht1: Ht<K, V>
    var rehashidx: int
    var iterators: nat

    /** The map this dictionary stands for. */
    ghost var contents: map<K, V>

    ghost function Repr(): set<object>
      reads this
    {
      {this, ht0.table, ht1.table}
    }

    ghost function State(): M.State<K, V>
      reads this, ht0.table, ht1.table
    {
      M.State(hash, TableOf(ht0), TableOf(ht1), rehashidx, iterators)
    }

    ghost predicate Valid()
      reads this, ht0.table, ht1.table
    {
      ht0.table != ht1.table && M.Inv(State()) && M.Represents(State(), contents)
    }

    /** dictCreate */
    constructor (hash: K -> Word)
      ensures Valid() && fresh(Repr()) && this.hash == hash
      ensures State() == M.Init(hash) && contents == map[]
    {
      this.hash := hash;
      var t0 := new Chain<K, V>[0](_ => []);
      var t1 := new Chain<K, V>[0](_ => []);
      ht0 := Ht(t0, Mask(0), 0);
      ht1 := Ht(t1, Mask(0), 0);
      rehashidx := -1;
      iterators := 0;
      contents := map[];
      new;
      M.InitOk<K, V>(hash);
      assert t0[..] == [] && t1[..] == [];
    }

    /** dictExpand */
    method Expand(size: int) returns (ok: bool)
      requires Valid() && size < M.LONG_MAX
      modifies this
      ensures Valid() && fresh(Repr() - old(Repr())) && contents == old(contents)
      ensures State() == M.Expand(old(State()), size)
      ensures ok <==> !M.Rehashing(old(State())) && old(ht0.used) <= size
    {
      M.SameRepresents(State(), M.Expand(State(), size), contents);
      var realsize := NextPower(size);
      if rehashidx != -1 || ht0.used > size {
        return false;
      }
      ghost var b := M.PowerFrom(2, size);
      DigitsMask(b, WIDTH);
      var t := new Chain<K, V>[realsize](_ => []);
      var n := Ht(t, Digits(realsize - 1, WIDTH), 0);
      assert TableOf(n) == M.EmptyTable(b) by { assert t[..] == M.EmptyTable<K, V>(b).buckets; }
      if ht0.table.Length == 0 {
        ht0 := n;
      } else {
        ht1 := n;
        rehashidx := 0;
      }
      return true;
    }

    /** while(table[rehashidx] == NULL) rehashidx++ */
    method SkipEmpty()
      requires Valid() && M.Rehashing(State()) && ht0.used != 0
      requires exists x :: rehashidx <= x < ht0.table.Length && ht0.table[x] != []
      modifies `rehashidx
      ensures State() == old(State()).(rehashidx := M.SkipEmpty(ht0.table[..], old(rehashidx)))
    {
      ghost var bs := ht0.table[..];
      assert exists x :: rehashidx <= x < |bs| && bs[x] != [];
      hide M.Inv, M.Represents;
      while ht0.table[rehashidx] == []
        invariant 0 <= rehashidx < |bs|
        invariant exists x :: rehashidx <= x < |bs| && bs[x] != []
        invariant M.SkipEmpty(bs, rehashidx) == M.SkipEmpty(bs, old(rehashidx))
        decreases |bs| - rehashidx
      {
        rehashidx := rehashidx + 1;
      }
    }

    /** Moves all the entries of a bucket from the first table to the second. */
    method MoveBucket(i: nat)
      requires ht0.table != ht1.table && M.Sized(TableOf(ht1)) && ht1.table.Length > 0 && i < ht0.table.Length
      modifies `ht0, `ht1, ht0.table, ht1.table
      ensures ht0.table == old(ht0.table) && ht1.table == old(ht1.table)
      ensures TableOf(ht0) == old(M.Table(ht0.table[..][i := []], ht0.sizemask, ht0.used - |ht0.table[i]|))
      ensures TableOf(ht1) == M.MoveChain(hash, old(ht0.table[i]), old(TableOf(ht1)))
    {
      var c := ht0.table[i];
      var de := c;
      while de != []
        invariant |de| <= |c| && M.Sized(TableOf(ht1)) && ht1.table.Length > 0
        invariant M.MoveChain(hash, de, TableOf(ht1)) == M.MoveChain(hash, c, old(TableOf(ht1)))
        invariant ht0 == old(ht0).(used := old(ht0.used) - (|c| - |de|))
        invariant ht0.table[..] == old(ht0.table[..])
        invariant ht1.table == old(ht1.table)
        decreases |de|
      {
        M.IndexBound(hash, TableOf(ht1), de[0].key);
        ghost var t := M.Prepend(hash, TableOf(ht1), de[0]);
        var nextde := de[1..];
        var h := Value(And(hash(de[0].key), ht1.sizemask));
        ht1.table[h] := [de[0]] + ht1.table[h];
        ht0 := ht0.(used := ht0.used - 1);
        ht1 := ht1.(used := ht1.used + 1);
        assert TableOf(ht1) == t;
        de := nextde;
      }
      ht0.table[i] := [];
    }

    /** The first table is empty: the second takes its place. */
    method TakeOver()
      requires M.Rehashing(State()) && M.Inv(State()) && ht0.used == 0
      modifies this
      ensures State() == M.RehashOne(old(State())) && contents == old(contents)
      ensures ht0.table != ht1.table && fresh(Repr() - old(Repr())) && rehashidx == -1
    {
      hide M.Inv;
      var empty := new Chain<K, V>[0](_ => []);
      assert empty[..] == [];
      ht0 := ht1;
      ht1 := Ht(empty, Mask(0), 0);
      rehashidx := -1;
    }

    /** The next bucket with entries is moved. */
    method MoveNext()
      requires Valid() && M.Rehashing(State()) && ht0.used != 0
      modifies this, ht0.table, ht1.table
      ensures State() == M.RehashOne(old(State())) && contents == old(contents)
      ensures ht0.table == old(ht0.table) && ht1.table == old(ht1.table) && rehashidx != -1
    {
      M.SomethingLeft(State());
      assert M.Sized(TableOf(ht1)) && ht1.table.Length > 0;
      SkipEmpty();
      hide M.Inv, M.Represents, M.MoveChain;
      MoveBucket(rehashidx);
      rehashidx := rehashidx + 1;
    }

    /** One round of the loop of dictRehash; says whether the migration goes on. */
    method RehashOne() returns (more: bool)
      requires Valid() && M.Rehashing(State())
      modifies this, ht0.table, ht1.table
      ensures Valid() && fresh(Repr() - old(Repr())) && contents == old(contents)
      ensures State() == M.RehashOne(old(State()))
      ensures more <==> M.Rehashing(State())
      ensures more ==> Repr() == old(Repr())
    {
      hide M.Inv, M.Represents, M.RehashOne;
      M.RehashOneOk(State());
      M.SameRepresents(State(), M.RehashOne(State()), contents);
      if ht0.used == 0 {
        TakeOver();
        return false;
      }
      MoveNext();
      return true;
    }

    /** dictRehash */
    method Rehash(n: nat) returns (more: bool)
      requires Valid()
      modifies this, ht0.table, ht1.table
      ensures Valid() && fresh(Repr() - old(Repr())) && contents == old(contents)
      ensures State() == M.Rehash(old(State()), n)
      ensures more <==> M.Rehashing(State())
    {
      hide M.Inv, M.Represents, M.RehashOne, TableOf;
      if rehashidx == -1 {
        return false;
      }
      var k := n;
      while k > 0
        invariant Valid() && rehashidx != -1 && 0 <= k <= n && contents == old(contents) && Repr() == old(Repr())
        invariant M.Rehash(State(), k) == M.Rehash(old(State()), n)
        decreases k
      {
        more := RehashOne();
        if !more {
          return;
        }
        k := k - 1;
      }
      return true;
    }

    /** _dictRehashStep, behind the test that precedes each of its calls */
    method RehashStep()
      requires Valid()
      modifies this, ht0.table, ht1.table
      ensures Valid() && fresh(Repr() - old(Repr())) && contents == old(contents)
      ensures State() == M.Step(old(State()))
    {
      if rehashidx != -1 {
        if iterators == 0 {
          var _ := Rehash(1);
        }
      }
    }

    /** dictResize */
    method Resize(canResize: bool) returns (ok: bool)
      requires Valid() && ht0.used < M.LONG_MAX
      modifies this
      ensures Valid() && fresh(Repr() - old(Repr())) && contents == old(contents)
      ensures State() == M.Resize(old(State()), canResize)
      ensures ok <==> canResize && !M.Rehashing(old(State()))
    {
      if !canResize || rehashidx != -1 {
        return false;
      }
      M.PowersGrow(3, 63);
      assert Pow2(1) == 2 && Pow2(2) == 4 && Pow2(3) == 8;
      var minimal := ht0.used;
      if minimal < M.INITIAL_SIZE {
        minimal := M.INITIAL_SIZE;
      }
      ok := Expand(minimal);
    }

    /** _dictExpandIfNeeded */
    method ExpandIfNeeded(canResize: bool)
      requires Valid() && 2 * ht0.used < M.LONG_MAX
      modifies this
      ensures Valid() && fresh(Repr() - old(Repr())) && contents == old(contents)
      ensures State() == M.ExpandIfNeeded(old(State()), canResize)
    {
      if rehashidx != -1 {
        return;
      }
      if ht0.table.Length == 0 {
        M.PowersGrow(3, 63);
        assert Pow2(1) == 2 && Pow2(2) == 4 && Pow2(3) == 8;
        var _ := Expand(M.INITIAL_SIZE);
      } else if ht0.used >= ht0.table.Length
                && (canResize || ht0.used / ht0.table.Length > M.FORCE_RESIZE_RATIO) {
        var _ := Expand(ht0.used * 2);
      }
    }

    /** The search that dictFind, dictGenericDelete and _dictKeyIndex make: where key is, if it is there. */
    method Locate(key: K) returns (p: M.Option<(bool, nat, nat)>)
      requires Valid()
      ensures p == M.Locate(State(), key)
    {
      M.IndexBound(hash, TableOf(ht0), key);
      M.IndexBound(hash, TableOf(ht1), key);
      var second := false;
      while true
        invariant second ==> M.Rehashing(State())
        invariant second ==> M.FindIn(ht0.table[M.Index(hash, TableOf(ht0), key)], key) < 0
        decreases !second
      {
        var t := if second then ht1 else ht0;
        var idx := Value(And(hash(key), t.sizemask));
        if t.table.Length > 0 {
          var he := t.table[idx];
          var j := 0;
          while j < |he|
            invariant 0 <= j <= |he| && forall x :: 0 <= x < j ==> he[x].key != key
          {
            if he[j].key == key {
              return M.Some((second, idx, j));
            }
            j := j + 1;
          }
        }
        if second || rehashidx == -1 {
          return M.None;
        }
        second := true;
      }
    }

    /** dictFind, returning the value of the entry found */
    method Find(key: K) returns (r: M.Option<V>)
      requires Valid()
      modifies this, ht0.table, ht1.table
      ensures Valid() && fresh(Repr() - old(Repr())) && contents == old(contents)
      ensures State() == M.AfterFind(old(State()))
      ensures r == M.Lookup(contents, key)
    {
      assert M.Get(State(), key) == M.Lookup(contents, key);
      if ht0.table.Length == 0 {
        return M.None;
      }
      RehashStep();
      var p := Locate(key);
      if p.Some? {
        var (second, i, j) := p.value;
        return M.Some(if second then ht1.table[i][j].val else ht0.table[i][j].val);
      }
      return M.None;
    }

    /** Links a new entry at the head of its bucket. */
    method Link(second: bool, e: M.Entry<K, V>)
      requires ht0.table != ht1.table
      requires M.Sized(M.TableOf(State(), second)) && M.TableOf(State(), second).buckets != []
      modifies this, ht0.table, ht1.table
      ensures ht0.table == old(ht0.table) && ht1.table == old(ht1.table) && contents == old(contents)
      ensures State() == M.WithTable(old(State()), second, M.Prepend(hash, M.TableOf(old(State()), second), e))
    {
      var t := if second then ht1 else ht0;
      M.IndexBound(hash, TableOf(t), e.key);
      var index := Value(And(hash(e.key), t.sizemask));
      t.table[index] := [e] + t.table[index];
      if second {
        ht1 := ht1.(used := ht1.used + 1);
      } else {
        ht0 := ht0.(used := ht0.used + 1);
      }
    }

    /** Unlinks entry j of bucket i. */
    method Unlink(second: bool, i: nat, j: nat)
      requires ht0.table != ht1.table
      requires i < |M.TableOf(State(), second).buckets| && j < |M.TableOf(State(), second).buckets[i]|
      modifies this, ht0.table, ht1.table
      ensures ht0.table == old(ht0.table) && ht1.table == old(ht1.table) && contents == old(contents)
      ensures State() == M.WithTable(old(State()), second, M.Unlink(M.TableOf(old(State()), second), i, j))
    {
      var t := if second then ht1 else ht0;
      t.table[i] := t.table[i][..j] + t.table[i][j + 1..];
      if second {
        ht1 := ht1.(used := ht1.used - 1);
      } else {
        ht0 := ht0.(used := ht0.used - 1);
      }
    }

    /** Sets the value of entry j of bucket i. */
    method SetVal(second: bool, i: nat, j: nat, val: V)
      requires ht0.table != ht1.table
      requires i < |M.TableOf(State(), second).buckets| && j < |M.TableOf(State(), second).buckets[i]|
      modifies ht0.table, ht1.table
      ensures State() == M.WithTable(old(State()), second, M.SetVal(M.TableOf(old(State()), second), i, j, val))
    {
      var t := if second then ht1 else ht0;
      t.table[i] := t.table[i][j := M.Entry(t.table[i][j].key, val)];
    }

    /** The step and the growth that come before the search of dictAdd. */
    method BeforeAdd(canResize: bool)
      requires Valid() && 2 * |contents| < M.LONG_MAX
      modifies this, ht0.table, ht1.table
      ensures Valid() && fresh(Repr() - old(Repr())) && contents == old(contents)
      ensures ht0.used + ht1.used == |contents| && State() == M.BeforeAdd(old(State()), canResize)
    {
      M.TotalsNonNegative(State());
      RehashStep();
      M.TotalsNonNegative(State());
      ExpandIfNeeded(canResize);
    }

    /** dictAdd */
    method Add(key: K, val: V, canResize: bool) returns (ok: bool)
      requires Valid() && 2 * |contents| < M.LONG_MAX
      modifies this, ht0.table, ht1.table
      ensures Valid() && fresh(Repr() - old(Repr()))
      ensures State() == M.Add(old(State()), key, val, canResize).0
      ensures ok == (key !in old(contents))
      ensures contents == if ok then old(contents)[key := val] else old(contents)
    {
      M.AddOk(State(), contents, key, val, canResize);
      BeforeAdd(canResize);
      var p := Locate(key);
      assert M.Sized(M.Target(State()));
      hide M.Inv, M.Represents, M.Prepend, M.BeforeAdd;
      if p.Some? {
        return false;
      }
      Link(rehashidx != -1, M.Entry(key, val));
      contents := contents[key := val];
      return true;
    }

    /** Sets the value of the entry that dictFind has found; the caller accounts for the contents. */
    method SetFound(key: K, val: V)
      requires Valid() && M.Locate(State(), key).Some?
      modifies ht0.table, ht1.table
      ensures var (second, i, j) := M.Locate(old(State()), key).value;
              State() == M.WithTable(old(State()), second, M.SetVal(M.TableOf(old(State()), second), i, j, val))
    {
      var p := Locate(key);
      hide M.Inv, M.Represents, M.Locate, M.Get, M.SetVal;
      var (second, i, j) := p.value;
      SetVal(second, i, j, val);
    }

    /** Unlinks the entry of the key, if there is one; the caller accounts for the contents. */
    method UnlinkFound(key: K) returns (ok: bool)
      requires Valid()
      modifies this, ht0.table, ht1.table
      ensures ht0.table == old(ht0.table) && ht1.table == old(ht1.table) && contents == old(contents)
      ensures ok <==> M.Locate(old(State()), key).Some?
      ensures !ok ==> State() == old(State())
      ensures ok ==> var (second, i, j) := M.Locate(old(State()), key).value;
                State() == M.WithTable(old(State()), second, M.Unlink(M.TableOf(old(State()), second), i, j))
    {
      var p := Locate(key);
      hide M.Inv, M.Represents, M.Locate, M.Get, M.Unlink;
      ok := p.Some?;
      if ok {
        var (second, i, j) := p.value;
        Unlink(second, i, j);
      }
    }

    /** dictFind and dictSetVal for a key that is there. */
    method FindAndSet(key: K, val: V)
      requires Valid() && key in contents
      modifies this, ht0.table, ht1.table
      ensures ht0.table != ht1.table && fresh(Repr() - old(Repr())) && contents == old(contents)
      ensures State() == M.Overwrite(old(State()), key, val)
    {
      var found := Find(key);
      assert M.Get(State(), key) == M.Lookup(contents, key);
      hide M.Inv, M.Represents, M.Locate, M.Get, M.SetVal, M.AfterFind, M.WithTable;
      SetFound(key, val);
    }

    /** dictReplace */
    method Replace(key: K, val: V, canResize: bool) returns (added: bool)
      requires Valid() && 2 * |contents| < M.LONG_MAX
      modifies this, ht0.table, ht1.table
      ensures Valid() && fresh(Repr() - old(Repr()))
      ensures State() == M.Replace(old(State()), key, val, canResize).0
      ensures added == (key !in old(contents)) && contents == old(contents)[key := val]
    {
      hide M.Inv, M.Represents, M.Overwrite, M.Add;
      M.ReplaceOk(State(), contents, key, val, canResize);
      added := Add(key, val, canResize);
      if !added {
        FindAndSet(key, val);
        contents := contents[key := val];
      }
    }

    /** dictGenericDelete once there are buckets. */
    method StepAndUnlink(key: K) returns (ok: bool)
      requires Valid() && ht0.table.Length > 0
      modifies this, ht0.table, ht1.table
      ensures ht0.table != ht1.table && fresh(Repr() - old(Repr()))
      ensures (State(), ok) == M.Delete(old(State()), key) && contents == old(contents)
    {
      hide M.Inv, M.Represents, M.Locate, M.Get, M.Unlink, M.Step, M.WithTable;
      RehashStep();
      ok := UnlinkFound(key);
    }

    /** dictGenericDelete */
    method Delete(key: K) returns (ok: bool)
      requires Valid()
      modifies this, ht0.table, ht1.table
      ensures Valid() && fresh(Repr() - old(Repr()))
      ensures State() == M.Delete(old(State()), key).0
      ensures ok == (key in old(contents)) && contents == old(contents) - {key}
    {
      hide M.Inv, M.Represents, M.Locate, M.Get, M.Unlink, M.Step, M.WithTable;
      M.DeleteOk(State(), contents, key);
      if ht0.table.Length == 0 {
        contents := contents - {key};
        return false;
      }
      ok := StepAndUnlink(key);
      contents := contents - {key};
    }

    /** The loop of dictScan over the expansions of the cursor into the larger table. */
    method ScanLarger(t: Ht<K, V>, m0: Word, v0: Word, ghost k0: nat) returns (emitted: seq<M.Entry<K, V>>, v: Word)
      requires M.Sized(TableOf(t)) && t.table.Length > 0
      requires k0 <= S.Exp(TableOf(t)) && m0 == Mask(k0)
      ensures emitted == S.Buckets(TableOf(t), Expansions(v0, k0, S.Exp(TableOf(t))))
      ensures v[..k0] == v0[..k0]
    {
      hide Inc, Or, Not, Value, Xor, And, S.Buckets, Expansions, M.Sized, NextExpansion, Mask, M.Log2, Pow2, Fill,
          S.Exp;
      emitted := [];
      v := v0;
      ghost var k1 := S.Exp(TableOf(t));
      ghost var done: seq<Word> := [];
      var m1 := t.sizemask;
      LargerMask(TableOf(t));
      while true
        invariant done + Expansions(v, k0, k1) == Expansions(v0, k0, k1)
        invariant emitted == S.Buckets(TableOf(t), done)
        invariant v[..k0] == v0[..k0]
        decreases Pow2(k1 - k0) - Value(v[k0..k1])
      {
        ghost var w: Word := And(v, m1);
        ExpansionProgress(v, k0, k1);
        BucketAt(TableOf(t), done, v);
        ExpansionsStep(done, v, k0, k1);
        emitted := emitted + t.table[Value(And(v, m1))];
        done := done + [w];
        v := NextExpansion(v, m0);
        if And(v, Xor(m0, m1)) == ZERO {
          assert done + [] == done;
          break;
        }
      }
    }

    /** dictScan; the entries are handed to fn in the order of emitted. */
    method Scan(v0: Word) returns (emitted: seq<M.Entry<K, V>>, v: Word)
      requires Valid()
      ensures (emitted, v) == S.Scan(State(), v0)
    {
      if ht0.used + ht1.used == 0 {
        return [], ZERO;
      }
      v := v0;
      var t0, t1 := ht0, ht1;
      if rehashidx != -1 && t0.table.Length > t1.table.Length {
        t0, t1 := ht1, ht0;
      }
      assert TableOf(t0) == S.Smaller(State());
      ghost var k0 := S.Exp(TableOf(t0));
      M.MaskedBound(TableOf(t0), v);
      var m0 := t0.sizemask;
      emitted := t0.table[Value(And(v, m0))];
      if rehashidx != -1 {
        assert TableOf(t1) == S.Larger(State());
        S.SizesOrdered(State());
        var more;
        more, v := ScanLarger(t1, m0, v, k0);
        emitted := emitted + more;
      }
      NextCursorIs(v, k0);
      NextCursorIs(v0, k0);
      hide M.Inv, M.Represents, M.Sized;
      v := Or(v, Not(m0));
      v := Rev(v);
      v := Inc(v);
      v := Rev(v);
    }
  }

  lemma {:induction false} LargerMask<K, V>(t: M.Table<K, V>)
    requires M.Sized(t) && t.buckets != []
    ensures S.Exp(t) < WIDTH && t.mask == Mask(S.Exp(t)) && S.Buckets(t, []) == []
  {
  }

  lemma {:induction false} BucketsAppend<K, V>(t: M.Table<K, V>, vs: seq<Word>, w: Word)
    ensures S.Buckets(t, vs + [w]) == S.Buckets(t, vs) + S.Bucket(t, w)
  {
    if vs == [] {
      assert vs + [w] == [w];
    } else {
      BucketsAppend(t, vs[1..], w);
      assert (vs + [w])[1..] == vs[1..] + [w];
    }
  }

  lemma {:induction false} BucketAt<K, V>(t: M.Table<K, V>, done: seq<Word>, v: Word)
    requires M.Sized(t) && t.buckets != []
    ensures Value(And(v, t.mask)) < |t.buckets|
    ensures S.Buckets(t, done + [And(v, t.mask)]) == S.Buckets(t, done) + t.buckets[Value(And(v, t.mask))]
  {
    M.MaskedBound(t, v);
    S.AndTwice(v, t.mask);
    BucketsAppend(t, done, And(v, t.mask));
  }

  /** One more index visited, one fewer to come. */
  lemma {:induction false} ExpansionsStep(done: seq<Word>, v: Word, k0: nat, k1: nat)
    requires k0 <= k1 <= WIDTH
    ensures var next := NextExpansion(v, Mask(k0));
            var rest := if And(next, Xor(Mask(k0), Mask(k1))) == ZERO then [] else Expansions(next, k0, k1);
            done + Expansions(v, k0, k1) == (done + [And(v, Mask(k1))]) + rest
  {
    hide And, Xor, NextExpansion;
  }
}

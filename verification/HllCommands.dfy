/** PFADD, PFCOUNT and PFMERGE on a database of HyperLogLog objects, and what any run of them amounts to. */
module HllCommands {
  import opened Bytes
  import opened HllSketch
  import opened Hll
  import opened HllObjects
  import HllSums
  import Words

  type Key = seq<Byte>
  type Sketches = map<Key, Registers>

  /** A missing key stands for the empty sketch. */
  function At(m: Sketches, key: Key): Registers {
    if key in m then m[key] else Zeros()
  }

  function Union(m: Sketches, keys: seq<Key>): Registers {
    if keys == [] then Zeros() else Merged(Union(m, keys[..|keys| - 1]), At(m, keys[|keys| - 1]))
  }

  lemma {:induction false} UnionStep(m: Sketches, keys: seq<Key>, j: nat)
    requires j < |keys|
    ensures Union(m, keys[..j + 1]) == Merged(Union(m, keys[..j]), At(m, keys[j]))
  {
    assert keys[..j + 1][..j] == keys[..j];
  }

  lemma {:induction false} MergedZero(r: Registers)
    ensures Merged(r, Zeros()) == r
  {
  }

  lemma {:induction false} Overwritten(m: Sketches, k: Key, r: Registers, r': Registers)
    ensures m[k := r][k := r'] == m[k := r']
    ensures k in m ==> (m[k := r'] == m <==> r' == m[k])
  {
  }

  /** The database: keys that hold HyperLogLog objects. */
  class Store {
    const hash: Element -> Words.Word
    const estimate: (real, nat) -> nat
    var objs: map<Key, HllObject>

    constructor (hash: Element -> Words.Word, estimate: (real, nat) -> nat)
      requires Estimator(estimate)
      ensures Valid() && this.hash == hash && this.estimate == estimate && Contents() == map[] && Tight()
    {
      this.hash, this.estimate, objs := hash, estimate, map[];
    }

    ghost predicate Valid()
      reads this, objs.Values
    {
      && Estimator(estimate)
      && (forall k <- objs :: objs[k].Valid() && objs[k].hash == hash && objs[k].estimate == estimate)
      && (forall j, k :: j in objs && k in objs && j != k ==> objs[j] != objs[k])
    }

    ghost function Contents(): (m: Sketches)
      requires Valid()
      reads this, objs.Values
    {
      map k | k in objs :: objs[k].Regs()
    }

    /** No sparse object has anything left to merge. */
    ghost predicate Tight()
      reads this, objs.Values
    {
      forall k <- objs :: objs[k].Tight()
    }

    /** The objects being different ones, a change to one leaves the others as they are. */
    twostate lemma {:induction false} ChangedOne(key: Key)
      requires old(Valid()) && objs == old(objs) && key in objs && objs[key].Valid()
      requires forall k <- objs :: objs[k] == objs[key] || unchanged(objs[k])
      ensures Valid() && Contents() == old(Contents())[key := objs[key].Regs()]
    {
      hide Sum, ZeroCount, Estimator, HllObject.Regs, HllObject.Shape;
      forall k <- objs ensures objs[k].Valid() && (k != key ==> objs[k].Regs() == old(objs[k].Regs())) {
      }
    }

    /** The object of key; createHLLObject and dbAdd if there is none. */
    method LookupOrCreate(key: Key) returns (o: HllObject, created: bool)
      requires Valid()
      modifies this`objs
      ensures Valid() && key in objs && objs[key] == o
      ensures created <==> key !in old(objs)
      ensures if created then fresh(o) && objs == old(objs)[key := o] else objs == old(objs)
      ensures Contents() == old(Contents())[key := At(old(Contents()), key)]
      ensures o.Regs() == At(old(Contents()), key)
      ensures old(Tight()) ==> Tight()
    {
      hide Sum, ZeroCount, Encoded, Decoded, Estimator, AddAll, AddTo, Merged, Union, Zeros, HllObject.Regs,
          HllObject.Tight,
          HllObject.Shape;
      created := key !in objs;
      if created {
        o := new HllObject(hash, estimate);
        objs := objs[key := o];
      } else {
        o := objs[key];
      }
    }

    /** pfaddCommand: the elements in order; the cache goes stale exactly if something changed. */
    method PfAdd(key: Key, es: seq<Element>, maxBytes: nat) returns (reply: nat)
      requires Valid()
      modifies this, objs.Values
      ensures Valid() && fresh(objs.Values - old(objs).Values)
      ensures Contents() == old(Contents())[key := AddAll(hash, At(old(Contents()), key), es)]
      ensures reply == if key in old(objs) && Contents() == old(Contents()) then 0 else 1
      ensures old(Tight()) ==> Tight()
    {
      hide HllObject.Tight, AddAll, AddTo, Zeros, Sum, ZeroCount, Estimator, HllObject.Regs, HllObject.Shape, Contents;
      ghost var m0 := Contents();
      var o, created := LookupOrCreate(key);
      label Before:
      var updated := o.AddMany(es, created, maxBytes);
      ChangedOne@Before(key);
      Overwritten(m0, key, At(m0, key), o.Regs());
      reply := if updated then 1 else 0;
    }

    /** pfcountCommand on one key: from the cache if that is valid, else computed and cached. */
    method PfCount(key: Key) returns (card: nat)
      requires Valid()
      modifies objs.Values
      ensures Valid() && Contents() == old(Contents()) && (old(Tight()) ==> Tight())
      ensures card == estimate(Sum(At(Contents(), key)), ZeroCount(At(Contents(), key)))
    {
      if key !in objs { return 0; }
      hide Sum, ZeroCount, Zeros, HllObject.Regs, HllObject.Valid, HllObject.Shape;
      card := objs[key].CachedCount();
    }

    method MergeKey(key: Key, max: array<nat>)
      requires Valid() && AreRegisters(max)
      modifies max
      ensures Valid() && Contents() == old(Contents())
      ensures AreRegisters(max) && max[..] == Merged(old(max[..]), At(Contents(), key))
    {
      if key in objs {
        hide Sum, ZeroCount, Estimator, Merged, HllObject.Shape;
        objs[key].MergeInto(max);
      } else {
        MergedZero(max[..]);
      }
    }

    /** The maximum over the objects of the keys, in an array that starts out as zeros. */
    method MergeKeys(keys: seq<Key>) returns (max: array<nat>)
      requires Valid()
      ensures fresh(max) && AreRegisters(max) && max[..] == Union(Contents(), keys)
    {
      max := new nat[REGISTERS](_ => 0);
      assert max[..] == Zeros();
      assert keys[..0] == [] && keys[..|keys|] == keys;
      ghost var m := Contents();
      hide Sum, ZeroCount, Estimator, Merged, Union, Zeros, Contents, Valid, At;
      var j := 0;
      while j < |keys|
        invariant 0 <= j <= |keys| && AreRegisters(max) && max[..] == Union(m, keys[..j])
        invariant Valid() && Contents() == m
        modifies max
      {
        UnionStep(m, keys, j);
        MergeKey(keys[j], max);
        j := j + 1;
      }
    }

    /** pfcountCommand on several keys. */
    method PfCountUnion(keys: seq<Key>) returns (card: nat)
      requires Valid() && |keys| > 1
      ensures card == estimate(Sum(Union(Contents(), keys)), ZeroCount(Union(Contents(), keys)))
    {
      var max := MergeKeys(keys);
      var e, ez := HllSums.RawSum(max[..]);
      card := estimate(e, ez);
    }

    /** pfmergeCommand: the destination is one of the sources, and may be named among them again. */
    method PfMerge(dest: Key, sources: seq<Key>)
      requires Valid()
      modifies this, objs.Values
      ensures Valid() && fresh(objs.Values - old(objs).Values)
      ensures Contents() == old(Contents())[dest := Union(old(Contents()), [dest] + sources)]
      ensures old(Tight()) ==> Tight()
    {
      hide HllObject.Tight, Sum, ZeroCount, Estimator, Merged, Union, Zeros, HllObject.Regs, HllObject.Shape, Contents;
      ghost var m0 := Contents();
      var max := MergeKeys([dest] + sources);
      var o, _ := LookupOrCreate(dest);
      label Before:
      o.SetAll(max);
      ChangedOne@Before(dest);
      Overwritten(m0, dest, At(m0, dest), o.Regs());
    }
  }

  // ----- whole runs -----

  datatype Command = Add(key: Key, es: seq<Element>) | Merge(dest: Key, sources: seq<Key>)

  /** What PfAdd and PfMerge do to the sketches. */
  function Effect(hash: Element -> Words.Word, m: Sketches, c: Command): Sketches {
    match c
    case Add(key, es) => m[key := AddAll(hash, At(m, key), es)]
    case Merge(dest, sources) => m[dest := Union(m, [dest] + sources)]
  }

  function After(hash: Element -> Words.Word, m: Sketches, cs: seq<Command>): Sketches
    decreases |cs|
  {
    if cs == [] then m else After(hash, Effect(hash, m, cs[0]), cs[1..])
  }

  type Sets = map<Key, set<Element>>

  function SetAt(m: Sets, key: Key): set<Element> {
    if key in m then m[key] else {}
  }

  function SetUnion(m: Sets, keys: seq<Key>): set<Element> {
    if keys == [] then {} else SetUnion(m, keys[..|keys| - 1]) + SetAt(m, keys[|keys| - 1])
  }

  /** What the commands would do if a key held the set itself. */
  function SetEffect(m: Sets, c: Command): Sets {
    match c
    case Add(key, es) => m[key := SetAt(m, key) + SetOf(es)]
    case Merge(dest, sources) => m[dest := SetUnion(m, [dest] + sources)]
  }

  function SetsAfter(m: Sets, cs: seq<Command>): Sets
    decreases |cs|
  {
    if cs == [] then m else SetsAfter(SetEffect(m, cs[0]), cs[1..])
  }

  ghost predicate Sketch(hash: Element -> Words.Word, m: Sketches, s: Sets) {
    m.Keys == s.Keys && forall k <- m :: IsSketch(hash, m[k], s[k])
  }

  lemma {:induction false} SketchAt(hash: Element -> Words.Word, m: Sketches, s: Sets, key: Key)
    requires Sketch(hash, m, s)
    ensures IsSketch(hash, At(m, key), SetAt(s, key))
  {
    if key !in m { SketchEmpty(hash); }
  }

  lemma {:induction false} UnionIsSketch(hash: Element -> Words.Word, m: Sketches, s: Sets, keys: seq<Key>)
    requires Sketch(hash, m, s)
    ensures IsSketch(hash, Union(m, keys), SetUnion(s, keys))
  {
    hide IsSketch, Sketch;
    if keys == [] {
      SketchEmpty(hash);
    } else {
      var init, last := keys[..|keys| - 1], keys[|keys| - 1];
      UnionIsSketch(hash, m, s, init);
      SketchAt(hash, m, s, last);
      SketchMerge(hash, Union(m, init), SetUnion(s, init), At(m, last), SetAt(s, last));
    }
  }

  lemma {:induction false} EffectIsSketch(hash: Element -> Words.Word, m: Sketches, s: Sets, c: Command)
    requires Sketch(hash, m, s)
    ensures Sketch(hash, Effect(hash, m, c), SetEffect(s, c))
  {
    match c
    case Add(key, es) =>
      SketchAt(hash, m, s, key);
      SketchAddAll(hash, At(m, key), SetAt(s, key), es);
      hide IsSketch, AddAll;
    case Merge(dest, sources) =>
      UnionIsSketch(hash, m, s, [dest] + sources);
      hide IsSketch, Union, SetUnion;
  }

  /** After any run of commands, every key holds the sketch of the set that the commands built there, whatever
      the encodings that the objects went through. */
  lemma {:induction false} RunIsSketch(hash: Element -> Words.Word, m: Sketches, s: Sets, cs: seq<Command>)
    requires Sketch(hash, m, s)
    ensures Sketch(hash, After(hash, m, cs), SetsAfter(s, cs))
    decreases |cs|
  {
    if cs != [] {
      EffectIsSketch(hash, m, s, cs[0]);
      RunIsSketch(hash, Effect(hash, m, cs[0]), SetEffect(s, cs[0]), cs[1..]);
    }
  }

  /** Two runs from the empty database that build the same sets leave the same registers, so every count agrees. */
  lemma {:induction false} RunsAgree(hash: Element -> Words.Word, cs: seq<Command>, ds: seq<Command>)
    requires SetsAfter(map[], cs) == SetsAfter(map[], ds)
    ensures After(hash, map[], cs) == After(hash, map[], ds)
  {
    RunIsSketch(hash, map[], map[], cs);
    RunIsSketch(hash, map[], map[], ds);
    var m, n := After(hash, map[], cs), After(hash, map[], ds);
    forall k | k in m ensures m[k] == n[k] {
      SketchUnique(hash, m[k], n[k], SetsAfter(map[], cs)[k]);
    }
  }
}

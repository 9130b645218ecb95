/** The register vector of a HyperLogLog, whatever its encoding, and what a set of elements makes of it. */
module HllSketch {
  import opened Bytes
  import opened Words

  const P: nat := 14
  const REGISTERS: nat := 16384

  type Element = seq<Byte>

  type Registers = r: seq<nat> | |r| == REGISTERS && forall i :: 0 <= i < |r| ==> r[i] < 64
    witness seq(REGISTERS, _ => 0)

  /** The position, from bit P on, of the first set bit of the hash; bit 63 counts as set. */
  function FirstOne(hash: Word, i: nat): (j: nat)
    requires i < WIDTH
    ensures i <= j < WIDTH
    ensures forall k :: i <= k < j ==> !hash[k]
    ensures j < WIDTH - 1 ==> hash[j]
    decreases WIDTH - i
  {
    if i == WIDTH - 1 || hash[i] then i else FirstOne(hash, i + 1)
  }

  function IndexOf(hash: Word): (i: nat)
    ensures i < REGISTERS
  {
    ValueBound(hash[..P]);
    Registers14();
    Value(hash[..P])
  }

  lemma {:induction false} Registers14()
    ensures Pow2(P) == REGISTERS
  {
    assert Pow2(4) == 16;
    assert Pow2(8) == 256;
    assert Pow2(12) == 4096;
  }

  /** The length of the pattern 0..01. */
  function CountOf(hash: Word): (c: nat)
    ensures 1 <= c <= 50
  {
    FirstOne(hash, P) - P + 1
  }

  function Max(a: nat, b: nat): nat { if a > b then a else b }

  /** What adding an element does to the registers. */
  function AddTo(r: Registers, hash: Word): Registers {
    r[IndexOf(hash) := Max(r[IndexOf(hash)], CountOf(hash))]
  }

  function Merged(r: Registers, s: Registers): Registers {
    seq(REGISTERS, i requires 0 <= i < REGISTERS => Max(r[i], s[i]))
  }

  function Zeros(): Registers {
    seq(REGISTERS, _ => 0)
  }

  // ----- registers and sets of elements -----

  /** Each register holds the greatest count of the elements that fall into it, 0 if there are none. */
  ghost predicate IsSketch(hash: Element -> Word, r: Registers, s: set<Element>) {
    forall i :: 0 <= i < REGISTERS ==>
      && (forall e :: e in s && IndexOf(hash(e)) == i ==> CountOf(hash(e)) <= r[i])
      && (r[i] != 0 ==> exists e :: e in s && IndexOf(hash(e)) == i && CountOf(hash(e)) == r[i])
  }

  /** A set of elements has one sketch only. */
  lemma {:induction false} SketchUnique(hash: Element -> Word, r: Registers, r': Registers, s: set<Element>)
    requires IsSketch(hash, r, s) && IsSketch(hash, r', s)
    ensures r == r'
  {
    forall i | 0 <= i < REGISTERS ensures r[i] == r'[i] {
      SketchAtMost(hash, r, r', s, i);
      SketchAtMost(hash, r', r, s, i);
    }
  }

  lemma {:induction false} SketchAtMost(hash: Element -> Word, r: Registers, r': Registers, s: set<Element>, i: nat)
    requires IsSketch(hash, r, s) && IsSketch(hash, r', s) && i < REGISTERS
    ensures r[i] <= r'[i]
  {
    if r[i] != 0 {
      var e :| e in s && IndexOf(hash(e)) == i && CountOf(hash(e)) == r[i];
    }
  }

  lemma {:induction false} SketchEmpty(hash: Element -> Word)
    ensures IsSketch(hash, Zeros(), {})
  {
  }

  lemma {:induction false} SketchAdd(hash: Element -> Word, r: Registers, s: set<Element>, e: Element)
    requires IsSketch(hash, r, s)
    ensures IsSketch(hash, AddTo(r, hash(e)), s + {e})
  {
    var r' := AddTo(r, hash(e));
    forall i | 0 <= i < REGISTERS
      ensures forall x :: x in s + {e} && IndexOf(hash(x)) == i ==> CountOf(hash(x)) <= r'[i]
      ensures r'[i] != 0 ==> exists x :: x in s + {e} && IndexOf(hash(x)) == i && CountOf(hash(x)) == r'[i]
    {
      if r'[i] != 0 {
        if i == IndexOf(hash(e)) && CountOf(hash(e)) == r'[i] {
          assert e in s + {e};
        } else {
          var x :| x in s && IndexOf(hash(x)) == i && CountOf(hash(x)) == r[i];
          assert x in s + {e};
        }
      }
    }
  }

  lemma {:induction false} SketchMerge(hash: Element -> Word, r: Registers, s: set<Element>, r': Registers,
                                       s': set<Element>)
    requires IsSketch(hash, r, s) && IsSketch(hash, r', s')
    ensures IsSketch(hash, Merged(r, r'), s + s')
  {
    var m := Merged(r, r');
    forall i | 0 <= i < REGISTERS
      ensures forall x :: x in s + s' && IndexOf(hash(x)) == i ==> CountOf(hash(x)) <= m[i]
      ensures m[i] != 0 ==> exists x :: x in s + s' && IndexOf(hash(x)) == i && CountOf(hash(x)) == m[i]
    {
      assert m[i] == Max(r[i], r'[i]);
      if m[i] != 0 {
        if m[i] == r[i] {
          var x :| x in s && IndexOf(hash(x)) == i && CountOf(hash(x)) == r[i];
          assert x in s + s';
        } else {
          var x :| x in s' && IndexOf(hash(x)) == i && CountOf(hash(x)) == r'[i];
          assert x in s + s';
        }
      }
    }
  }

  function AddAll(hash: Element -> Word, r: Registers, es: seq<Element>): Registers
    decreases |es|
  {
    if es == [] then r else AddAll(hash, AddTo(r, hash(es[0])), es[1..])
  }

  function SetOf(es: seq<Element>): (s: set<Element>) { set e | e in es }

  lemma {:induction false} SketchAddAll(hash: Element -> Word, r: Registers, s: set<Element>, es: seq<Element>)
    requires IsSketch(hash, r, s)
    ensures IsSketch(hash, AddAll(hash, r, es), s + SetOf(es))
    decreases |es|
  {
    if es == [] {
      assert s + SetOf(es) == s;
    } else {
      SketchAdd(hash, r, s, es[0]);
      SketchAddAll(hash, AddTo(r, hash(es[0])), s + {es[0]}, es[1..]);
      assert s + {es[0]} + SetOf(es[1..]) == s + SetOf(es);
    }
  }

  /** Order and repetition of the elements do not matter. */
  lemma {:induction false} OnlyTheSetMatters(hash: Element -> Word, es: seq<Element>, fs: seq<Element>)
    requires SetOf(es) == SetOf(fs)
    ensures AddAll(hash, Zeros(), es) == AddAll(hash, Zeros(), fs)
  {
    SketchEmpty(hash);
    SketchAddAll(hash, Zeros(), {}, es);
    SketchAddAll(hash, Zeros(), {}, fs);
    assert {} + SetOf(es) == {} + SetOf(fs);
    SketchUnique(hash, AddAll(hash, Zeros(), es), AddAll(hash, Zeros(), fs), {} + SetOf(es));
  }

  /** Merging what two collections make gives what the two together make. */
  lemma {:induction false} MergeIsUnion(hash: Element -> Word, es: seq<Element>, fs: seq<Element>)
    ensures Merged(AddAll(hash, Zeros(), es), AddAll(hash, Zeros(), fs)) == AddAll(hash, Zeros(), es + fs)
  {
    SketchEmpty(hash);
    SketchAddAll(hash, Zeros(), {}, es);
    SketchAddAll(hash, Zeros(), {}, fs);
    SketchAddAll(hash, Zeros(), {}, es + fs);
    var r, r' := AddAll(hash, Zeros(), es), AddAll(hash, Zeros(), fs);
    SketchMerge(hash, r, {} + SetOf(es), r', {} + SetOf(fs));
    assert ({} + SetOf(es)) + ({} + SetOf(fs)) == {} + SetOf(es + fs);
    SketchUnique(hash, Merged(r, r'), AddAll(hash, Zeros(), es + fs), {} + SetOf(es + fs));
  }

  // ----- the sum that the estimate is made from -----

  /** 2^-reg */
  function PE(reg: nat): real {
    if reg == 0 then 1.0 else PE(reg - 1) / 2.0
  }

  function Sum(r: seq<nat>): real {
    if r == [] then 0.0 else Sum(r[..|r| - 1]) + PE(r[|r| - 1])
  }

  function ZeroCount(r: seq<nat>): nat {
    if r == [] then 0 else ZeroCount(r[..|r| - 1]) + Z(r[|r| - 1])
  }

  lemma {:induction false} SumStep(r: seq<nat>, i: nat)
    requires i < |r|
    ensures Sum(r[..i + 1]) == Sum(r[..i]) + PE(r[i])
    ensures ZeroCount(r[..i + 1]) == ZeroCount(r[..i]) + Z(r[i])
  {
    assert r[..i + 1][..i] == r[..i];
  }

  /** n times the same value. */
  function Run(v: nat, n: nat): (r: seq<nat>)
    ensures |r| == n && forall i :: 0 <= i < n ==> r[i] == v
  {
    seq(n, _ => v)
  }

  lemma {:induction false} SumRun(r: seq<nat>, v: nat, n: nat)
    ensures Sum(r + Run(v, n)) == Sum(r) + Times(PE(v), n)
    ensures ZeroCount(r + Run(v, n)) == ZeroCount(r) + (if v == 0 then n else 0)
    decreases n
  {
    hide PE, Times;
    TimesIs(PE(v), n);
    if n == 0 {
      assert r + Run(v, 0) == r;
    } else {
      SumRun(r, v, n - 1);
      var all := r + Run(v, n);
      assert all[..|all| - 1] == r + Run(v, n - 1) && all[|all| - 1] == v;
    }
  }

  function Times(x: real, n: nat): real { x * (n as real) }

  lemma {:induction false} TimesIs(x: real, n: nat)
    ensures n == 0 ==> Times(x, n) == 0.0
    ensures n > 0 ==> Times(x, n) == Times(x, n - 1) + x
  {
    if n > 0 { assert (n as real) == ((n - 1) as real) + 1.0; }
  }

  lemma {:induction false} SumFour(r: seq<nat>, i: nat)
    requires i + 4 <= |r|
    ensures Sum(r[..i + 4]) == Sum(r[..i]) + PE(r[i]) + PE(r[i + 1]) + PE(r[i + 2]) + PE(r[i + 3])
    ensures ZeroCount(r[..i + 4]) == ZeroCount(r[..i]) + Z(r[i]) + Z(r[i + 1]) + Z(r[i + 2]) + Z(r[i + 3])
  {
    SumStep(r, i);
    SumStep(r, i + 1);
    SumStep(r, i + 2);
    SumStep(r, i + 3);
  }

  /** 1 for a register that is zero. */
  function Z(reg: nat): nat { if reg == 0 then 1 else 0 }

  /** The low 14 bits of the hash are the index, and of those behind them, up to and with bit 63, which counts as
      set, the first one set is that of the count. */
  lemma {:induction false} PatternIs(hash: Word)
    ensures IndexOf(hash) == Value(hash[..14]) && CountOf(hash) + 13 < 64
    ensures forall k :: 14 <= k < CountOf(hash) + 13 ==> !hash[k]
    ensures CountOf(hash) + 13 == 63 || hash[CountOf(hash) + 13]
  {
  }
}

/** The cursor of dictScan: which hashes one call is responsible for, and in which order. */
module ScanOrder {
  import opened Words

  /** rev(rev(v | ~m) + 1): the cursor dictScan returns for the smaller mask m. */
  function NextCursor(v: Word, m: Word): Word {
    Reverse(Inc(Reverse(Or(v, Not(m)))))
  }

  /** The next expansion of the cursor into the larger table. */
  function NextExpansion(w: Word, m0: Word): Word {
    Or(And(Inc(Or(w, m0)), Not(m0)), And(w, m0))
  }

  const ZERO: Word := Fill(false, WIDTH)

  /** The indices of the larger table (mask m1) visited for cursor w, in the order of the loop. */
  function Expansions(w: Word, k0: nat, k1: nat): seq<Word>
    requires k0 <= k1 <= WIDTH
    decreases Pow2(k1 - k0) - Value(w[k0..k1])
  {
    var w' := NextExpansion(w, Mask(k0));
    ExpansionProgress(w, k0, k1);
    [And(w, Mask(k1))] +
    if And(w', Xor(Mask(k0), Mask(k1))) == ZERO then [] else Expansions(w', k0, k1)
  }

  // ----- the order -----

  lemma {:induction false} BeforeAppend(a: Bits, b: Bits, c: Bits, d: Bits)
    requires |a| == |b| && |c| == |d|
    ensures Before(a + c, b + d) <==> Before(a, b) || (a == b && Before(c, d))
  {
    if a == [] {
      assert a + c == c && b + d == d;
    } else {
      BeforeAppend(a[1..], b[1..], c, d);
      assert (a + c)[1..] == a[1..] + c && (b + d)[1..] == b[1..] + d;
      assert a == [a[0]] + a[1..] && b == [b[0]] + b[1..];
    }
  }

  lemma {:induction false} BeforeTotal(a: Bits, b: Bits)
    requires |a| == |b|
    ensures a == b ==> !Before(a, b)
    ensures a != b ==> (Before(a, b) <==> !Before(b, a))
  {
    if a != [] {
      BeforeTotal(a[1..], b[1..]);
      assert a == [a[0]] + a[1..] && b == [b[0]] + b[1..];
    }
  }

  lemma {:induction false} NothingBeforeZero(a: Bits, n: nat)
    requires |a| == n
    ensures !Before(a, Fill(false, n))
    ensures !Before(Fill(true, n), a)
  {
    if n > 0 {
      NothingBeforeZero(a[1..], n - 1);
      assert Fill(false, n)[1..] == Fill(false, n - 1);
      assert Fill(true, n)[1..] == Fill(true, n - 1);
    }
  }

  /** The order is the unsigned order of the reversed words, which is how the code speaks of it. */
  lemma {:induction false} BeforeIsReversedOrder(a: Bits, b: Bits)
    requires |a| == |b|
    ensures Before(a, b) <==> Value(Reverse(a)) < Value(Reverse(b))
  {
    if a != [] {
      BeforeIsReversedOrder(a[1..], b[1..]);
      var ra, rb := Reverse(a[1..]), Reverse(b[1..]);
      assert Reverse(a) == ra + [a[0]] && Reverse(b) == rb + [b[0]];
      ValueAppend(ra, [a[0]]);
      ValueAppend(rb, [b[0]]);
      ValueBound(ra);
      ValueBound(rb);
      assert Value([a[0]]) == (if a[0] then 1 else 0) && Value([b[0]]) == (if b[0] then 1 else 0);
    }
  }

  // ----- the step of the cursor -----

  /** Reversed increment: the successor in the order, all zeros after all ones. */
  function Succ(u: Bits): (r: Bits)
    ensures |r| == |u|
  {
    Reverse(Inc(Reverse(u)))
  }

  lemma {:induction false} SuccLast(u: Bits)
    requires u != []
    ensures var n := |u| - 1;
            Succ(u) == if u[n] then Succ(u[..n]) + [false] else u[..n] + [true]
  {
    var n := |u| - 1;
    var r := Reverse(u);
    assert r[0] == u[n] && r[1..] == Reverse(u[..n]);
    if u[n] {
      assert Inc(r) == [false] + Inc(r[1..]);
      assert Reverse([false] + Inc(r[1..])) == Reverse(Inc(r[1..])) + [false];
    } else {
      assert Inc(r) == [true] + r[1..];
      assert Reverse([true] + r[1..]) == u[..n] + [true];
    }
  }

  /** Succ(u) is the least sequence after u; it is all zeros exactly after all ones. */
  lemma {:induction false} SuccIsNext(u: Bits, h: Bits)
    requires |u| == |h|
    ensures u == Fill(true, |u|) ==> Succ(u) == Fill(false, |u|)
    ensures u != Fill(true, |u|) ==> (Before(h, Succ(u)) <==> h == u || Before(h, u))
  {
    if u == [] {
      assert Succ(u) == Fill(false, 0);
    } else {
      var n := |u| - 1;
      SuccLast(u);
      SuccIsNext(u[..n], h[..n]);
      assert u == u[..n] + [u[n]] && h == h[..n] + [h[n]];
      BeforeAppend(h[..n], u[..n], [h[n]], [u[n]]);
      if u[n] {
        BeforeAppend(h[..n], Succ(u[..n]), [h[n]], [false]);
        assert u == Fill(true, n + 1) <==> u[..n] == Fill(true, n);
        assert Fill(false, n + 1) == Fill(false, n) + [false];
      } else {
        BeforeAppend(h[..n], u[..n], [h[n]], [true]);
      }
    }
  }

  lemma {:induction false} SuccZero(u: Bits)
    ensures Succ(u) == Fill(false, |u|) <==> u == Fill(true, |u|)
  {
    SuccIsNext(u, u);
    if u != Fill(true, |u|) { NothingBeforeZero(u, |u|); }
  }

  lemma {:induction false} IncTrues(j: nat, x: Bits)
    ensures Inc(Fill(true, j) + x) == Fill(false, j) + Inc(x)
  {
    if j == 0 {
      assert Fill(true, 0) + x == x && Fill(false, 0) + Inc(x) == Inc(x);
    } else {
      IncTrues(j - 1, x);
      assert (Fill(true, j) + x)[1..] == Fill(true, j - 1) + x;
      assert [false] + (Fill(false, j - 1) + Inc(x)) == Fill(false, j) + Inc(x);
    }
  }

  /** The returned cursor steps the k masked bits and clears all others. */
  lemma {:induction false} NextCursorIs(v: Word, k: nat)
    requires k <= WIDTH
    ensures NextCursor(v, Mask(k)) == Succ(v[..k]) + Fill(false, WIDTH - k)
  {
    var j := WIDTH - k;
    assert Or(v, Not(Mask(k))) == v[..k] + Fill(true, j);
    assert Reverse(v[..k] + Fill(true, j)) == Fill(true, j) + Reverse(v[..k]);
    IncTrues(j, Reverse(v[..k]));
    assert Reverse(Fill(false, j) + Inc(Reverse(v[..k]))) == Succ(v[..k]) + Fill(false, j);
  }

  lemma {:induction false} PrefixOrder(h: Word, v: Word, k: nat)
    requires k <= WIDTH
    ensures Before(h, v) <==> Before(h[..k], v[..k]) || (h[..k] == v[..k] && Before(h[k..], v[k..]))
  {
    assert h == h[..k] + h[k..] && v == v[..k] + v[k..];
    BeforeAppend(h[..k], v[..k], h[k..], v[k..]);
  }

  /** h lies between the cursor v and the cursor that follows it (0 stands for the end). */
  predicate Due(h: Word, v: Word, m: Word) {
    !Before(h, v) && (NextCursor(v, m) == ZERO || Before(h, NextCursor(v, m)))
  }

  /** A call is responsible exactly for the hashes not before the cursor that share its masked bits. */
  lemma {:induction false} DueIsBucket(h: Word, v: Word, k: nat)
    requires k <= WIDTH
    ensures Due(h, v, Mask(k)) <==> !Before(h, v) && h[..k] == v[..k]
  {
    var u := v[..k];
    var next := NextCursor(v, Mask(k));
    NextCursorIs(v, k);
    assert next[..k] == Succ(u) && next[k..] == Fill(false, WIDTH - k);
    assert next == ZERO <==> Succ(u) == Fill(false, k) by {
      if Succ(u) == Fill(false, k) { assert Fill(false, k) + Fill(false, WIDTH - k) == ZERO; }
      if next == ZERO { assert ZERO[..k] == Fill(false, k); }
    }
    SuccZero(u);
    SuccIsNext(u, h[..k]);
    PrefixOrder(h, v, k);
    PrefixOrder(h, next, k);
    NothingBeforeZero(h[k..], WIDTH - k);
    NothingBeforeZero(h[..k], k);
    BeforeTotal(h[..k], u);
  }

  // ----- the expansions into the larger table -----

  lemma {:induction false} NextExpansionIs(w: Word, k0: nat)
    requires k0 <= WIDTH
    ensures NextExpansion(w, Mask(k0)) == w[..k0] + Inc(w[k0..])
  {
    var m0 := Mask(k0);
    assert Or(w, m0) == Fill(true, k0) + w[k0..];
    IncTrues(k0, w[k0..]);
    assert And(Fill(false, k0) + Inc(w[k0..]), Not(m0)) == Fill(false, k0) + Inc(w[k0..]);
  }

  lemma {:induction false} IncPrefix(a: Bits, n: nat)
    requires n <= |a|
    ensures Inc(a)[..n] == Inc(a[..n])
  {
    if n > 0 {
      assert a[..n][1..] == a[1..][..n - 1];
      IncPrefix(a[1..], n - 1);
      if a[0] {
        assert Inc(a)[..n] == [false] + Inc(a[1..])[..n - 1];
      } else {
        assert Inc(a)[..n] == [true] + a[1..][..n - 1];
      }
    }
  }

  lemma {:induction false} AndMask(w: Word, k: nat)
    requires k <= WIDTH
    ensures And(w, Mask(k)) == w[..k] + Fill(false, WIDTH - k)
  {
  }

  /** Whether w & (m0 ^ m1) is zero: only the field between the masks matters. */
  lemma {:induction false} FieldZero(w: Word, k0: nat, k1: nat)
    requires k0 <= k1 <= WIDTH
    ensures And(w, Xor(Mask(k0), Mask(k1))) == ZERO <==> w[k0..k1] == Fill(false, k1 - k0)
  {
    var x := And(w, Xor(Mask(k0), Mask(k1)));
    var g := w[k0..k1];
    assert forall i :: 0 <= i < WIDTH ==> x[i] == (k0 <= i < k1 && w[i]);
    if g == Fill(false, k1 - k0) {
      forall i | k0 <= i < k1 ensures !w[i] { assert w[i] == g[i - k0]; }
      assert x == ZERO;
    }
    if x == ZERO {
      forall i | 0 <= i < k1 - k0 ensures !g[i] { assert x[k0 + i] == g[i]; }
    }
  }

  lemma {:induction false} ExpansionField(w: Word, k0: nat, k1: nat)
    requires k0 <= k1 <= WIDTH
    ensures var w' := NextExpansion(w, Mask(k0)); w'[..k0] == w[..k0] && w'[k0..k1] == Inc(w[k0..k1])
  {
    var w' := NextExpansion(w, Mask(k0));
    NextExpansionIs(w, k0);
    IncPrefix(w[k0..], k1 - k0);
    assert w'[k0..] == Inc(w[k0..]);
    assert w'[k0..k1] == w'[k0..][..k1 - k0];
    assert w[k0..k1] == w[k0..][..k1 - k0];
  }

  lemma {:induction false} ExpansionProgress(w: Word, k0: nat, k1: nat)
    requires k0 <= k1 <= WIDTH
    ensures var w' := NextExpansion(w, Mask(k0));
            && w'[..k0] == w[..k0]
            && (And(w', Xor(Mask(k0), Mask(k1))) == ZERO <==> w[k0..k1] == Fill(true, k1 - k0))
            && (And(w', Xor(Mask(k0), Mask(k1))) != ZERO ==> Value(w'[k0..k1]) == Value(w[k0..k1]) + 1)
            && Value(w[k0..k1]) < Pow2(k1 - k0)
            && Value(w'[k0..k1]) < Pow2(k1 - k0)
  {
    var w' := NextExpansion(w, Mask(k0));
    ExpansionField(w, k0, k1);
    FieldZero(w', k0, k1);
    IncValue(w[k0..k1]);
    ValueBound(w[k0..k1]);
    ValueBound(w'[k0..k1]);
    ValueZero(k1 - k0);
  }

  /** The loop visits the buckets that share the cursor's low bits and are not below its own. */
  lemma {:induction false} ExpansionsAre(w: Word, k0: nat, k1: nat, h: Word)
    requires k0 <= k1 <= WIDTH
    ensures And(h, Mask(k1)) in Expansions(w, k0, k1)
       <==> h[..k0] == w[..k0] && Value(h[k0..k1]) >= Value(w[k0..k1])
    decreases Pow2(k1 - k0) - Value(w[k0..k1])
  {
    var w' := NextExpansion(w, Mask(k0));
    var last := And(w', Xor(Mask(k0), Mask(k1))) == ZERO;
    ExpansionProgress(w, k0, k1);
    AndMask(h, k1);
    AndMask(w, k1);
    assert And(h, Mask(k1)) == And(w, Mask(k1)) <==> h[..k1] == w[..k1] by {
      if And(h, Mask(k1)) == And(w, Mask(k1)) {
        assert And(h, Mask(k1))[..k1] == h[..k1] && And(w, Mask(k1))[..k1] == w[..k1];
      }
    }
    assert h[..k1] == w[..k1] <==> h[..k0] == w[..k0] && h[k0..k1] == w[k0..k1] by {
      assert h[..k1] == h[..k0] + h[k0..k1] && w[..k1] == w[..k0] + w[k0..k1];
      assert h[..k1][..k0] == h[..k0] && w[..k1][..k0] == w[..k0];
      assert h[..k1][k0..] == h[k0..k1] && w[..k1][k0..] == w[k0..k1];
    }
    if Value(h[k0..k1]) == Value(w[k0..k1]) { ValueInjective(h[k0..k1], w[k0..k1]); }
    if last {
      AllOnesIsLargest(h[k0..k1]);
    } else {
      ExpansionsAre(w', k0, k1, h);
    }
  }

  lemma {:induction false} AllOnesIsLargest(a: Bits)
    ensures Value(a) <= Value(Fill(true, |a|))
  {
    if a != [] {
      AllOnesIsLargest(a[1..]);
      assert Fill(true, |a|)[1..] == Fill(true, |a| - 1);
    }
  }

  // ----- when the two orders agree -----

  /** f has the form 1..10..0 (least significant first), that is f & (f + 1) == 0. */
  predicate LowOnes(f: Bits) {
    forall i, j :: 0 <= i < j < |f| && f[j] ==> f[i]
  }

  /** From such a field on, no smaller field is left out. */
  lemma {:induction false} FieldOrder(f: Bits, g: Bits)
    requires |f| == |g| && LowOnes(f) && !Before(g, f)
    ensures Value(g) >= Value(f)
  {
    if f != [] {
      if f[0] {
        assert LowOnes(f[1..]) by {
          forall i, j | 0 <= i < j < |f[1..]| && f[1..][j] ensures f[1..][i] { assert f[j + 1]; }
        }
        FieldOrder(f[1..], g[1..]);
      } else {
        assert f == Fill(false, |f|) by { assert forall j :: 0 < j < |f| ==> !f[j]; }
        ValueZero(|f|);
      }
    }
  }

  /** From any other field on, some smaller field that comes later in the order is left out. */
  lemma {:induction false} FieldMissed(f: Bits) returns (g: Bits)
    requires !LowOnes(f)
    ensures |g| == |f| && !Before(g, f) && Value(g) < Value(f)
  {
    if f[0] {
      assert !LowOnes(f[1..]) by {
        var i, j :| 0 <= i < j < |f| && f[j] && !f[i];
        assert f[1..][j - 1] && !f[1..][i - 1];
      }
      var t := FieldMissed(f[1..]);
      g := [true] + t;
    } else {
      var j :| 0 < j < |f| && f[j];
      g := [true] + Fill(false, |f| - 1);
      ValueZero(|f| - 1);
      assert f[1..][j - 1];
      PositiveValue(f[1..], j - 1);
    }
  }

  lemma {:induction false} PositiveValue(a: Bits, j: nat)
    requires j < |a| && a[j]
    ensures Value(a) > 0
  {
    if j > 0 { PositiveValue(a[1..], j - 1); }
  }

  /** What Due says about the field between two masks. */
  lemma {:induction false} DueField(h: Word, v: Word, k0: nat, k1: nat)
    requires k0 <= k1 <= WIDTH
    ensures Due(h, v, Mask(k0)) ==> h[..k0] == v[..k0] && !Before(h[k0..k1], v[k0..k1])
    ensures h[..k0] == v[..k0] && !Before(h[k0..k1], v[k0..k1]) && h[k1..] == v[k1..] ==> Due(h, v, Mask(k0))
  {
    DueIsBucket(h, v, k0);
    PrefixOrder(h, v, k0);
    BeforeTotal(h[..k0], v[..k0]);
    assert h[k0..] == h[k0..k1] + h[k1..] && v[k0..] == v[k0..k1] + v[k1..];
    BeforeAppend(h[k0..k1], v[k0..k1], h[k1..], v[k1..]);
    BeforeTotal(h[k1..], v[k1..]);
  }

  /** The enumeration of the larger table misses nothing the call is responsible for
      if and only if it starts from a field of the form 1..10..0. */
  lemma {:induction false} ExpansionsCover(v: Word, k0: nat, k1: nat)
    requires k0 <= k1 <= WIDTH
    ensures LowOnes(v[k0..k1]) <==>
              forall h: Word :: Due(h, v, Mask(k0)) ==> And(h, Mask(k1)) in Expansions(v, k0, k1)
  {
    var f := v[k0..k1];
    if LowOnes(f) {
      forall h: Word | Due(h, v, Mask(k0)) ensures And(h, Mask(k1)) in Expansions(v, k0, k1) {
        DueField(h, v, k0, k1);
        FieldOrder(f, h[k0..k1]);
        ExpansionsAre(v, k0, k1, h);
      }
    } else {
      var g := FieldMissed(f);
      var h: Word := v[..k0] + g + v[k1..];
      assert h[..k0] == v[..k0] && h[k0..k1] == g && h[k1..] == v[k1..];
      DueField(h, v, k0, k1);
      ExpansionsAre(v, k0, k1, h);
      assert Due(h, v, Mask(k0));
    }
  }
}

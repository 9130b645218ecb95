/** Facts about slices of sequences, stated where nothing else is in scope. */
module Slices {

  lemma {:induction false} Pieces<T>(s: seq<T>, p: nat, n: nat)
    requires p + n <= |s|
    ensures s == s[..p] + s[p..]
    ensures s[p..][n..] == s[p + n..] && s[p..][..n] == s[p..p + n]
    ensures s[..p] + s[p..p + n] == s[..p + n]
    ensures s[..p + n] + s[p + n..] == s
  {
  }

  lemma {:induction false} TwoAt<T>(s: seq<T>, p: nat)
    requires p + 1 < |s|
    ensures s == s[..p] + [s[p]] + [s[p + 1]] + s[p + 2..]
  {
  }

  lemma {:induction false} Prefix<T>(a: seq<T>, b: seq<T>, c: seq<T>)
    ensures (a + b + c)[..|a|] == a
  {
  }

  lemma {:induction false} Assoc<T>(a: seq<T>, b: seq<T>, c: seq<T>)
    ensures (a + b) + c == a + (b + c)
  {
  }

  lemma {:induction false} Inner<T>(s: seq<T>, p: nat, q: nat, a: nat, b: nat)
    requires p <= q <= |s| && a <= b <= q - p
    ensures s[p..q][a..b] == s[p + a..p + b]
  {
    var x, y := s[p..q][a..b], s[p + a..p + b];
    forall k | 0 <= k < |x| ensures x[k] == y[k] {
      assert x[k] == s[p..q][a + k] == s[p + (a + k)] && y[k] == s[p + a + k];
    }
  }
}

/** BITOP in bitops.c. */
module BitOps {
  import opened LittleEndian
  import opened BitPosition

  datatype Op = And | Or | ExclusiveOr | Not

  // ----- BITOP, byte by byte -----

  function OpByte(op: Op, a: bv8, b: bv8): bv8 {
    match op
    case And => a & b
    case Or => a | b
    case ExclusiveOr => a ^ b
    case Not => !a
  }

  /** Strings are continued by zeros. */
  function At(s: Bytes, j: nat): bv8 {
    if j < |s| then s[j] else 0
  }

  /** Byte j of the first n strings combined. NOT takes one string. */
  function Combined(op: Op, src: seq<Bytes>, j: nat, n: nat): bv8
    requires 1 <= n <= |src|
  {
    if n == 1 then (if op == Not then OpByte(Not, At(src[0], j), 0) else At(src[0], j))
    else OpByte(op, Combined(op, src, j, n - 1), At(src[n - 1], j))
  }

  function MaxLen(src: seq<Bytes>): nat {
    if src == [] then 0 else
    var n, m := MaxLen(src[..|src| - 1]), |src[|src| - 1]|;
    if m > n then m else n
  }

  /** The zero-padded strings combined. */
  function Result(op: Op, src: seq<Bytes>): Bytes
    requires src != []
  {
    seq(MaxLen(src), j requires 0 <= j => Combined(op, src, j, |src|))
  }

  // ----- words -----

  function OpWord(op: Op, a: bv64, b: bv64): bv64 {
    match op
    case And => a & b
    case Or => a | b
    case ExclusiveOr => a ^ b
    case Not => !a
  }

  lemma {:induction false} LowAnd(a: bv64, b: bv64) ensures LowByte(a & b) == LowByte(a) & LowByte(b) {}
  lemma {:induction false} LowOr(a: bv64, b: bv64) ensures LowByte(a | b) == LowByte(a) | LowByte(b) {}
  lemma {:induction false} LowXor(a: bv64, b: bv64) ensures LowByte(a ^ b) == LowByte(a) ^ LowByte(b) {}
  lemma {:induction false} DownAnd(a: bv64, b: bv64) ensures Down(a & b) == Down(a) & Down(b) {}
  lemma {:induction false} DownOr(a: bv64, b: bv64) ensures Down(a | b) == Down(a) | Down(b) {}
  lemma {:induction false} DownXor(a: bv64, b: bv64) ensures Down(a ^ b) == Down(a) ^ Down(b) {}

  lemma {:induction false} OpParts(op: Op, a: bv64, b: bv64)
    requires op != Not
    ensures LowByte(OpWord(op, a, b)) == OpByte(op, LowByte(a), LowByte(b))
    ensures Down(OpWord(op, a, b)) == OpWord(op, Down(a), Down(b))
  {
    hide LowByte, Down, OpWord, OpByte;
    match op
    case And => PartsAnd(a, b);
    case Or => PartsOr(a, b);
    case ExclusiveOr => PartsXor(a, b);
  }

  lemma {:induction false} PartsAnd(a: bv64, b: bv64)
    ensures LowByte(OpWord(And, a, b)) == OpByte(And, LowByte(a), LowByte(b))
    ensures Down(OpWord(And, a, b)) == OpWord(And, Down(a), Down(b))
  {
    hide LowByte, Down;
    LowAnd(a, b);
    DownAnd(a, b);
  }

  lemma {:induction false} PartsOr(a: bv64, b: bv64)
    ensures LowByte(OpWord(Or, a, b)) == OpByte(Or, LowByte(a), LowByte(b))
    ensures Down(OpWord(Or, a, b)) == OpWord(Or, Down(a), Down(b))
  {
    hide LowByte, Down;
    LowOr(a, b);
    DownOr(a, b);
  }

  lemma {:induction false} PartsXor(a: bv64, b: bv64)
    ensures LowByte(OpWord(ExclusiveOr, a, b)) == OpByte(ExclusiveOr, LowByte(a), LowByte(b))
    ensures Down(OpWord(ExclusiveOr, a, b)) == OpWord(ExclusiveOr, Down(a), Down(b))
  {
    hide LowByte, Down;
    LowXor(a, b);
    DownXor(a, b);
  }

  /** Word operations work on each byte by itself. */
  lemma {:induction false} OpBytes(op: Op, a: bv64, b: bv64, n: nat, i: nat)
    requires op != Not && i < n <= 8
    ensures LittleBytes(OpWord(op, a, b), n)[i] == OpByte(op, LittleBytes(a, n)[i], LittleBytes(b, n)[i])
    decreases n
  {
    hide OpByte, OpWord, LowByte, Down;
    OpParts(op, a, b);
    if i > 0 { OpBytes(op, Down(a), Down(b), n - 1, i - 1); }
  }

  const ONES: bv64 := 0xffff_ffff_ffff_ffff

  lemma {:induction false} NotIsXor(a: bv64)
    ensures OpWord(Not, a, 0) == OpWord(ExclusiveOr, a, ONES)
  {
  }

  lemma {:induction false} NotByte(b: bv8)
    ensures OpByte(Not, b, 0) == OpByte(ExclusiveOr, b, 0xff)
  {
  }

  lemma {:induction false} LowOnes()
    ensures LowByte(ONES) == 0xff
    ensures Down(ONES) == 0x00ff_ffff_ffff_ffff && LowByte(0x00ff_ffff_ffff_ffff) == 0xff
    ensures Down(0x00ff_ffff_ffff_ffff) == 0x0000_ffff_ffff_ffff && LowByte(0x0000_ffff_ffff_ffff) == 0xff
    ensures Down(0x0000_ffff_ffff_ffff) == 0x0000_00ff_ffff_ffff && LowByte(0x0000_00ff_ffff_ffff) == 0xff
    ensures Down(0x0000_00ff_ffff_ffff) == 0x0000_0000_ffff_ffff && LowByte(0x0000_0000_ffff_ffff) == 0xff
    ensures Down(0x0000_0000_ffff_ffff) == 0x0000_0000_00ff_ffff && LowByte(0x0000_0000_00ff_ffff) == 0xff
    ensures Down(0x0000_0000_00ff_ffff) == 0x0000_0000_0000_ffff && LowByte(0x0000_0000_0000_ffff) == 0xff
    ensures Down(0x0000_0000_0000_ffff) == 0x0000_0000_0000_00ff && LowByte(0x0000_0000_0000_00ff) == 0xff
  {
  }

  lemma {:induction false} OnesBytes(i: nat)
    requires i < 8
    ensures LittleBytes(ONES, 8)[i] == 0xff
  {
    hide LowByte, Down;
    LowOnes();
    assert LittleBytes(0x0000_0000_0000_00ff, 1) == [0xff] + [];
    assert LittleBytes(0x0000_0000_0000_ffff, 2) == [0xff] + LittleBytes(0x0000_0000_0000_00ff, 1);
    assert LittleBytes(0x0000_0000_00ff_ffff, 3) == [0xff] + LittleBytes(0x0000_0000_0000_ffff, 2);
    assert LittleBytes(0x0000_0000_ffff_ffff, 4) == [0xff] + LittleBytes(0x0000_0000_00ff_ffff, 3);
    assert LittleBytes(0x0000_00ff_ffff_ffff, 5) == [0xff] + LittleBytes(0x0000_0000_ffff_ffff, 4);
    assert LittleBytes(0x0000_ffff_ffff_ffff, 6) == [0xff] + LittleBytes(0x0000_00ff_ffff_ffff, 5);
    assert LittleBytes(0x00ff_ffff_ffff_ffff, 7) == [0xff] + LittleBytes(0x0000_ffff_ffff_ffff, 6);
    assert LittleBytes(ONES, 8) == [0xff] + LittleBytes(0x00ff_ffff_ffff_ffff, 7);
  }

  lemma {:induction false} NotBytes(a: bv64, i: nat)
    requires i < 8
    ensures LittleBytes(OpWord(Not, a, 0), 8)[i] == OpByte(Not, LittleBytes(a, 8)[i], 0)
  {
    hide OpByte, OpWord, LittleBytes;
    NotIsXor(a);
    NotByte(LittleBytes(a, 8)[i]);
    OnesBytes(i);
    OpBytes(ExclusiveOr, a, ONES, 8, i);
  }

  lemma {:induction false} BytesOfWord(u: Bytes)
    requires |u| == 8
    ensures LittleBytes(Word(u), 8) == u
  {
    hide Word, LittleBytes;
    WordOfLittleBytes(Word(u), 8);
    WordInjective(LittleBytes(Word(u), 8), u);
  }

  /** The word read, combined with another, and written back. */
  lemma {:induction false} OpInMemory(op: Op, u: Bytes, v: Bytes)
    requires |u| == |v| == 8
    ensures var r := LittleBytes(OpWord(op, Word(u), if op == Not then 0 else Word(v)), 8);
            forall i :: 0 <= i < 8 ==> r[i] == OpByte(op, u[i], if op == Not then 0 else v[i])
  {
    hide Word, LittleBytes, OpWord, OpByte;
    BytesOfWord(u);
    BytesOfWord(v);
    var r := LittleBytes(OpWord(op, Word(u), if op == Not then 0 else Word(v)), 8);
    forall i: nat | i < 8 ensures r[i] == OpByte(op, u[i], if op == Not then 0 else v[i]) {
      if op == Not { NotBytes(Word(u), i); } else { OpBytes(op, Word(u), Word(v), 8, i); }
    }
  }

  // ----- the loops of bitopCommand -----

  /** One word of the result combined with the word at the same place of a string. */
  method WordOp(op: Op, res: array<bv8>, at: nat, s: Bytes)
    requires at + 8 <= res.Length && (op == Not || at + 8 <= |s|)
    modifies res
    ensures forall x :: 0 <= x < res.Length ==>
              res[x] == if at <= x < at + 8 then OpByte(op, old(res[x]), if op == Not then 0 else s[x]) else old(res[x])
  {
    hide Word, LittleBytes, OpWord, OpByte;
    ghost var before := res[..];
    var v := if op == Not then res[at..at + 8] else s[at..at + 8];
    OpInMemory(op, res[at..at + 8], v);
    var word := OpWord(op, Word(res[at..at + 8]), if op == Not then 0 else Word(v));
    var bytes := LittleBytes(word, 8);
    forall k | 0 <= k < 8 {
      res[at + k] := bytes[k];
    }
    forall x | at <= x < at + 8 ensures res[x] == OpByte(op, before[x], if op == Not then 0 else s[x]) {
      assert res[x] == bytes[x - at];
    }
  }

  /** Four words. */
  method FourWords(op: Op, res: array<bv8>, at: nat, s: Bytes)
    requires at + 32 <= res.Length && (op == Not || at + 32 <= |s|)
    modifies res
    ensures forall x :: 0 <= x < res.Length ==>
              res[x] == if at <= x < at + 32 then OpByte(op, old(res[x]), if op == Not then 0 else s[x])
                  else old(res[x])
  {
    hide OpByte;
    WordOp(op, res, at, s);
    WordOp(op, res, at + 8, s);
    WordOp(op, res, at + 16, s);
    WordOp(op, res, at + 24, s);
  }

  /** The fast path, as far as all strings have data for 32 bytes more; where it stops. */
  method FastPath(op: Op, src: seq<Bytes>, res: array<bv8>, minlen: nat) returns (j: nat)
    requires src != [] && (op == Not ==> |src| == 1) && minlen <= res.Length
    requires forall i :: 0 <= i < |src| ==> minlen <= |src[i]|
    modifies res
    ensures j <= minlen && forall x :: 0 <= x < j ==> res[x] == Combined(op, src, x, |src|)
  {
    hide OpByte, Combined;
    CopyBytes(src[0], res, minlen);
    j := 0;
    while minlen - j >= 32
      invariant j <= minlen
      invariant forall x :: 0 <= x < j ==> res[x] == Combined(op, src, x, |src|)
      invariant forall x :: j <= x < minlen ==> res[x] == src[0][x]
    {
      RoundOf(op, src, res, j, minlen);
      j := j + 32;
    }
  }

  /** memcpy of the first string. */
  method CopyBytes(s: Bytes, res: array<bv8>, n: nat)
    requires n <= |s| && n <= res.Length
    modifies res
    ensures forall x :: 0 <= x < n ==> res[x] == s[x]
  {
    forall x | 0 <= x < n {
      res[x] := s[x];
    }
  }

  /** All strings for the 32 bytes from j on. */
  method RoundOf(op: Op, src: seq<Bytes>, res: array<bv8>, j: nat, minlen: nat)
    requires src != [] && (op == Not ==> |src| == 1) && j + 32 <= minlen <= res.Length
    requires forall i :: 0 <= i < |src| ==> minlen <= |src[i]|
    requires forall x :: j <= x < minlen ==> res[x] == src[0][x]
    modifies res
    ensures forall x :: j <= x < j + 32 ==> res[x] == Combined(op, src, x, |src|)
    ensures forall x :: 0 <= x < res.Length && !(j <= x < j + 32) ==> res[x] == old(res[x])
  {
    hide OpByte, Combined;
    if op == Not {
      FourWords(Not, res, j, []);
      forall x | j <= x < j + 32 ensures res[x] == Combined(op, src, x, 1) {
        CombinedNot(src, x);
      }
      return;
    }
    var i := 1;
    forall x | j <= x < j + 32 ensures res[x] == Combined(op, src, x, 1) {
      CombinedOne(op, src, x);
    }
    while i < |src|
      invariant 1 <= i <= |src|
      invariant forall x :: j <= x < j + 32 ==> res[x] == Combined(op, src, x, i)
      invariant forall x :: 0 <= x < res.Length && !(j <= x < j + 32) ==> res[x] == old(res[x])
    {
      ghost var before := res[..];
      FourWords(op, res, j, src[i]);
      forall x | j <= x < j + 32 ensures res[x] == Combined(op, src, x, i + 1) {
        CombinedNext(op, src, x, i);
        assert before[x] == Combined(op, src, x, i);
      }
      i := i + 1;
    }
  }

  lemma {:induction false} CombinedNot(src: seq<Bytes>, x: nat)
    requires |src| == 1 && x < |src[0]|
    ensures Combined(Not, src, x, 1) == OpByte(Not, src[0][x], 0)
  {
  }

  lemma {:induction false} CombinedOne(op: Op, src: seq<Bytes>, x: nat)
    requires src != [] && op != Not && x < |src[0]|
    ensures Combined(op, src, x, 1) == src[0][x]
  {
  }

  lemma {:induction false} CombinedNext(op: Op, src: seq<Bytes>, x: nat, i: nat)
    requires 1 <= i < |src|
    ensures Combined(op, src, x, i + 1) == OpByte(op, Combined(op, src, x, i), At(src[i], x))
  {
  }

  /** A byte of the part that the fast path leaves. */
  method SlowByte(op: Op, src: seq<Bytes>, j: nat) returns (output: bv8)
    requires src != [] && (op == Not ==> |src| == 1)
    ensures output == Combined(op, src, j, |src|)
  {
    output := if |src[0]| <= j then 0 else src[0][j];
    if op == Not { output := OpByte(Not, output, 0); }
    var i := 1;
    while i < |src|
      invariant 1 <= i <= |src| && output == Combined(op, src, j, i)
    {
      var byte := if |src[i]| <= j then 0 else src[i][j];
      output := OpByte(op, output, byte);
      i := i + 1;
    }
  }

  /** A key may be missing. */
  datatype Source = Missing | Str(s: Bytes)

  function Strings(objects: seq<Source>): (r: seq<Bytes>)
    ensures |r| == |objects|
  {
    seq(|objects|, i requires 0 <= i < |objects| => if objects[i].Missing? then [] else objects[i].s)
  }

  /** The lengths: a missing key makes the shortest one 0 for good. */
  method Lengths(objects: seq<Source>) returns (src: seq<Bytes>, minlen: nat, maxlen: nat)
    requires objects != []
    ensures src == Strings(objects) && maxlen == MaxLen(src)
    ensures forall i :: 0 <= i < |src| ==> minlen <= |src[i]| <= maxlen
    ensures exists i :: 0 <= i < |src| && minlen == |src[i]|
  {
    src, minlen, maxlen := [], 0, 0;
    var j := 0;
    ghost var at := 0;
    while j < |objects|
      invariant 0 <= j <= |objects| && src == Strings(objects)[..j] && maxlen == MaxLen(src)
      invariant forall i :: 0 <= i < j ==> minlen <= |src[i]| <= maxlen
      invariant j > 0 ==> 0 <= at < j && minlen == |src[at]|
    {
      var s := if objects[j].Missing? then [] else objects[j].s;
      ghost var before := src;
      src := src + [s];
      assert src[..|src| - 1] == before;
      if objects[j].Missing? {
        minlen, at := 0, j;
      } else {
        if |s| > maxlen { maxlen := |s|; }
        if j == 0 || |s| < minlen { minlen, at := |s|, j; }
      }
      j := j + 1;
    }
  }

  /** The computation of bitopCommand: the fast path and the bytes behind it make the bytewise combination of the
      strings, continued by zeros, whatever their number and lengths. */
  method Bitop(op: Op, objects: seq<Source>) returns (result: Bytes)
    requires objects != [] && (op == Not ==> |objects| == 1)
    ensures result == Result(op, Strings(objects))
  {
    var src, minlen, maxlen := Lengths(objects);
    hide OpByte, Combined;
    var res := new bv8[maxlen](_ => 0);
    var j := 0;
    if maxlen > 0 {
      if minlen > 0 && |src| <= 16 {
        j := FastPath(op, src, res, minlen);
      }
      while j < maxlen
        invariant j <= maxlen
        invariant forall x :: 0 <= x < j ==> res[x] == Combined(op, src, x, |src|)
      {
        res[j] := SlowByte(op, src, j);
        j := j + 1;
      }
    }
    result := res[..];
  }

  // ----- what that means bit by bit -----

  /** The value of bit k, from the left. */
  predicate Has(b: bv8, k: nat) {
    match k
    case 0 => (b >> 7) & 1 == 1
    case 1 => (b >> 6) & 1 == 1
    case 2 => (b >> 5) & 1 == 1
    case 3 => (b >> 4) & 1 == 1
    case 4 => (b >> 3) & 1 == 1
    case 5 => (b >> 2) & 1 == 1
    case 6 => (b >> 1) & 1 == 1
    case _ => b & 1 == 1
  }

  lemma {:induction false} HasIs(b: bv8, k: nat)
    requires k < 8
    ensures Has(b, k) == BitsOf(b)[k]
  {
  }

  lemma {:induction false} AndHas(a: bv8, b: bv8, k: nat)
    requires k < 8
    ensures Has(a & b, k) == (Has(a, k) && Has(b, k))
  {
  }

  lemma {:induction false} OrHas(a: bv8, b: bv8, k: nat)
    requires k < 8
    ensures Has(a | b, k) == (Has(a, k) || Has(b, k))
  {
  }

  lemma {:induction false} XorHas(a: bv8, b: bv8, k: nat)
    requires k < 8
    ensures Has(a ^ b, k) == (Has(a, k) != Has(b, k))
  {
    match k
    case 0 => XorAt(a, b, 7);
    case 1 => XorAt(a, b, 6);
    case 2 => XorAt(a, b, 5);
    case 3 => XorAt(a, b, 4);
    case 4 => XorAt(a, b, 3);
    case 5 => XorAt(a, b, 2);
    case 6 => XorAt(a, b, 1);
    case _ => XorAt(a, b, 0);
  }

  lemma {:induction false} XorAt(a: bv8, b: bv8, i: bv8)
    requires i < 8
    ensures ((a ^ b) >> i) & 1 == ((a >> i) & 1) ^ ((b >> i) & 1)
  {
  }

  lemma {:induction false} NotBits(a: bv8, k: nat)
    requires k < 8
    ensures BitsOf(!a)[k] == !BitsOf(a)[k]
  {
  }

  lemma {:induction false} OpBits(op: Op, a: bv8, b: bv8, k: nat)
    requires k < 8
    ensures BitsOf(OpByte(op, a, b))[k] == match op
                                           case And => BitsOf(a)[k] && BitsOf(b)[k]
                                           case Or => BitsOf(a)[k] || BitsOf(b)[k]
                                           case ExclusiveOr => BitsOf(a)[k] != BitsOf(b)[k]
                                           case Not => !BitsOf(a)[k]
  {
    hide BitsOf, Has;
    HasIs(a, k);
    HasIs(b, k);
    HasIs(OpByte(op, a, b), k);
    match op
    case And => AndHas(a, b, k);
    case Or => OrHas(a, b, k);
    case ExclusiveOr => XorHas(a, b, k);
    case Not => NotBits(a, k);
  }

  /** Bit k of byte j of a string that is continued by zeros. */
  function BitIn(s: Bytes, j: nat, k: nat): bool
    requires k < 8
  {
    j < |s| && BitsOf(s[j])[k]
  }

  lemma {:induction false} BitAtIs(s: Bytes, j: nat, k: nat)
    requires k < 8
    ensures BitsOf(At(s, j))[k] == BitIn(s, j, k)
  {
    AllZero();
    hide BitsOf;
  }

  /** The result is as long as the longest string. */
  lemma {:induction false} MaxLenIs(src: seq<Bytes>)
    ensures forall s <- src :: |s| <= MaxLen(src)
    ensures if src == [] then MaxLen(src) == 0 else exists s <- src :: |s| == MaxLen(src)
    decreases |src|
  {
    if src != [] {
      var front, last := src[..|src| - 1], src[|src| - 1];
      MaxLenIs(front);
      assert src == front + [last];
      assert last in src;
      if front != [] && MaxLen(src) != |last| {
        var s :| s in front && |s| == MaxLen(front);
        assert s in src;
      }
    }
  }

  /** How many of the first n strings have the bit set. */
  function HowMany(src: seq<Bytes>, j: nat, k: nat, n: nat): nat
    requires k < 8 && n <= |src|
  {
    if n == 0 then 0 else HowMany(src, j, k, n - 1) + if BitIn(src[n - 1], j, k) then 1 else 0
  }

  /** The bit is set for AND if all strings have it, for OR if one has, for XOR if an odd number has. */
  lemma {:induction false} BitCombined(op: Op, src: seq<Bytes>, j: nat, k: nat, n: nat)
    requires 1 <= n <= |src| && k < 8 && op != Not
    ensures HowMany(src, j, k, n) <= n
    ensures BitsOf(Combined(op, src, j, n))[k] <==>
              match op
              case And => HowMany(src, j, k, n) == n
              case Or => HowMany(src, j, k, n) > 0
              case ExclusiveOr => HowMany(src, j, k, n) % 2 == 1
              case Not => false
  {
    hide BitsOf, OpByte, At, BitIn;
    BitAtIs(src[n - 1], j, k);
    if n == 1 {
      assert HowMany(src, j, k, 1) == if BitIn(src[0], j, k) then 1 else 0;
    } else {
      BitCombined(op, src, j, k, n - 1);
      OpBits(op, Combined(op, src, j, n - 1), At(src[n - 1], j), k);
    }
  }

  /** Every bit of the result, in strings of any number and lengths that are continued by zeros. */
  lemma {:induction false} ResultBits(op: Op, src: seq<Bytes>, j: nat, k: nat)
    requires src != [] && (op == Not ==> |src| == 1) && j < MaxLen(src) && k < 8
    ensures BitsOf(Result(op, src)[j])[k] <==>
              match op
              case And => HowMany(src, j, k, |src|) == |src|
              case Or => HowMany(src, j, k, |src|) > 0
              case ExclusiveOr => HowMany(src, j, k, |src|) % 2 == 1
              case Not => !BitIn(src[0], j, k)
  {
    hide BitsOf, OpByte, At, BitIn;
    BitAtIs(src[0], j, k);
    if op == Not { OpBits(Not, At(src[0], j), 0, k); } else { BitCombined(op, src, j, k, |src|); }
  }
}

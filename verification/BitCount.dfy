/** redisPopcount: bytes through a table, sixteen bytes at a time by sums within words. */
module BitCount {
  type Bytes = seq<bv8>

  // ----- what is counted -----

  /** The bits of a byte. */
  function Ones(x: bv32): bv32 {
    (x & 1) + ((x >> 1) & 1) + ((x >> 2) & 1) + ((x >> 3) & 1)
    + ((x >> 4) & 1) + ((x >> 5) & 1) + ((x >> 6) & 1) + ((x >> 7) & 1)
  }

  function OnesOf(b: bv8): nat { Ones(b as bv32) as nat }

  /** All bits of a string. */
  function Count(s: Bytes): nat {
    if s == [] then 0 else Count(s[..|s| - 1]) + OnesOf(s[|s| - 1])
  }

  // ----- the table -----

  function Row0(col: bv8): nat {
    if col == 0 then 0 else if col == 1 then 1 else if col == 2 then 1 else if col == 3 then 2 else
    if col == 4 then 1 else if col == 5 then 2 else if col == 6 then 2 else if col == 7 then 3 else
    if col == 8 then 1 else if col == 9 then 2 else if col == 10 then 2 else if col == 11 then 3 else
    if col == 12 then 2 else if col == 13 then 3 else if col == 14 then 3 else 4
  }

  function Row1(col: bv8): nat {
    if col == 0 then 1 else if col == 1 then 2 else if col == 2 then 2 else if col == 3 then 3 else
    if col == 4 then 2 else if col == 5 then 3 else if col == 6 then 3 else if col == 7 then 4 else
    if col == 8 then 2 else if col == 9 then 3 else if col == 10 then 3 else if col == 11 then 4 else
    if col == 12 then 3 else if col == 13 then 4 else if col == 14 then 4 else 5
  }

  function Row2(col: bv8): nat {
    if col == 0 then 1 else if col == 1 then 2 else if col == 2 then 2 else if col == 3 then 3 else
    if col == 4 then 2 else if col == 5 then 3 else if col == 6 then 3 else if col == 7 then 4 else
    if col == 8 then 2 else if col == 9 then 3 else if col == 10 then 3 else if col == 11 then 4 else
    if col == 12 then 3 else if col == 13 then 4 else if col == 14 then 4 else 5
  }

  function Row3(col: bv8): nat {
    if col == 0 then 2 else if col == 1 then 3 else if col == 2 then 3 else if col == 3 then 4 else
    if col == 4 then 3 else if col == 5 then 4 else if col == 6 then 4 else if col == 7 then 5 else
    if col == 8 then 3 else if col == 9 then 4 else if col == 10 then 4 else if col == 11 then 5 else
    if col == 12 then 4 else if col == 13 then 5 else if col == 14 then 5 else 6
  }

  function Row4(col: bv8): nat {
    if col == 0 then 1 else if col == 1 then 2 else if col == 2 then 2 else if col == 3 then 3 else
    if col == 4 then 2 else if col == 5 then 3 else if col == 6 then 3 else if col == 7 then 4 else
    if col == 8 then 2 else if col == 9 then 3 else if col == 10 then 3 else if col == 11 then 4 else
    if col == 12 then 3 else if col == 13 then 4 else if col == 14 then 4 else 5
  }

  function Row5(col: bv8): nat {
    if col == 0 then 2 else if col == 1 then 3 else if col == 2 then 3 else if col == 3 then 4 else
    if col == 4 then 3 else if col == 5 then 4 else if col == 6 then 4 else if col == 7 then 5 else
    if col == 8 then 3 else if col == 9 then 4 else if col == 10 then 4 else if col == 11 then 5 else
    if col == 12 then 4 else if col == 13 then 5 else if col == 14 then 5 else 6
  }

  function Row6(col: bv8): nat {
    if col == 0 then 2 else if col == 1 then 3 else if col == 2 then 3 else if col == 3 then 4 else
    if col == 4 then 3 else if col == 5 then 4 else if col == 6 then 4 else if col == 7 then 5 else
    if col == 8 then 3 else if col == 9 then 4 else if col == 10 then 4 else if col == 11 then 5 else
    if col == 12 then 4 else if col == 13 then 5 else if col == 14 then 5 else 6
  }

  function Row7(col: bv8): nat {
    if col == 0 then 3 else if col == 1 then 4 else if col == 2 then 4 else if col == 3 then 5 else
    if col == 4 then 4 else if col == 5 then 5 else if col == 6 then 5 else if col == 7 then 6 else
    if col == 8 then 4 else if col == 9 then 5 else if col == 10 then 5 else if col == 11 then 6 else
    if col == 12 then 5 else if col == 13 then 6 else if col == 14 then 6 else 7
  }

  function Row8(col: bv8): nat {
    if col == 0 then 1 else if col == 1 then 2 else if col == 2 then 2 else if col == 3 then 3 else
    if col == 4 then 2 else if col == 5 then 3 else if col == 6 then 3 else if col == 7 then 4 else
    if col == 8 then 2 else if col == 9 then 3 else if col == 10 then 3 else if col == 11 then 4 else
    if col == 12 then 3 else if col == 13 then 4 else if col == 14 then 4 else 5
  }

  function Row9(col: bv8): nat {
    if col == 0 then 2 else if col == 1 then 3 else if col == 2 then 3 else if col == 3 then 4 else
    if col == 4 then 3 else if col == 5 then 4 else if col == 6 then 4 else if col == 7 then 5 else
    if col == 8 then 3 else if col == 9 then 4 else if col == 10 then 4 else if col == 11 then 5 else
    if col == 12 then 4 else if col == 13 then 5 else if col == 14 then 5 else 6
  }

  function Row10(col: bv8): nat {
    if col == 0 then 2 else if col == 1 then 3 else if col == 2 then 3 else if col == 3 then 4 else
    if col == 4 then 3 else if col == 5 then 4 else if col == 6 then 4 else if col == 7 then 5 else
    if col == 8 then 3 else if col == 9 then 4 else if col == 10 then 4 else if col == 11 then 5 else
    if col == 12 then 4 else if col == 13 then 5 else if col == 14 then 5 else 6
  }

  function Row11(col: bv8): nat {
    if col == 0 then 3 else if col == 1 then 4 else if col == 2 then 4 else if col == 3 then 5 else
    if col == 4 then 4 else if col == 5 then 5 else if col == 6 then 5 else if col == 7 then 6 else
    if col == 8 then 4 else if col == 9 then 5 else if col == 10 then 5 else if col == 11 then 6 else
    if col == 12 then 5 else if col == 13 then 6 else if col == 14 then 6 else 7
  }

  function Row12(col: bv8): nat {
    if col == 0 then 2 else if col == 1 then 3 else if col == 2 then 3 else if col == 3 then 4 else
    if col == 4 then 3 else if col == 5 then 4 else if col == 6 then 4 else if col == 7 then 5 else
    if col == 8 then 3 else if col == 9 then 4 else if col == 10 then 4 else if col == 11 then 5 else
    if col == 12 then 4 else if col == 13 then 5 else if col == 14 then 5 else 6
  }

  function Row13(col: bv8): nat {
    if col == 0 then 3 else if col == 1 then 4 else if col == 2 then 4 else if col == 3 then 5 else
    if col == 4 then 4 else if col == 5 then 5 else if col == 6 then 5 else if col == 7 then 6 else
    if col == 8 then 4 else if col == 9 then 5 else if col == 10 then 5 else if col == 11 then 6 else
    if col == 12 then 5 else if col == 13 then 6 else if col == 14 then 6 else 7
  }

  function Row14(col: bv8): nat {
    if col == 0 then 3 else if col == 1 then 4 else if col == 2 then 4 else if col == 3 then 5 else
    if col == 4 then 4 else if col == 5 then 5 else if col == 6 then 5 else if col == 7 then 6 else
    if col == 8 then 4 else if col == 9 then 5 else if col == 10 then 5 else if col == 11 then 6 else
    if col == 12 then 5 else if col == 13 then 6 else if col == 14 then 6 else 7
  }

  function Row15(col: bv8): nat {
    if col == 0 then 4 else if col == 1 then 5 else if col == 2 then 5 else if col == 3 then 6 else
    if col == 4 then 5 else if col == 5 then 6 else if col == 6 then 6 else if col == 7 then 7 else
    if col == 8 then 5 else if col == 9 then 6 else if col == 10 then 6 else if col == 11 then 7 else
    if col == 12 then 6 else if col == 13 then 7 else if col == 14 then 7 else 8
  }

  /** bitsinbyte */
  function BitsInByte(b: bv8): nat {
    var row, col := b >> 4, b & 15;
    if row == 0 then Row0(col) else
    if row == 1 then Row1(col) else
    if row == 2 then Row2(col) else
    if row == 3 then Row3(col) else
    if row == 4 then Row4(col) else
    if row == 5 then Row5(col) else
    if row == 6 then Row6(col) else
    if row == 7 then Row7(col) else
    if row == 8 then Row8(col) else
    if row == 9 then Row9(col) else
    if row == 10 then Row10(col) else
    if row == 11 then Row11(col) else
    if row == 12 then Row12(col) else
    if row == 13 then Row13(col) else
    if row == 14 then Row14(col) else
    Row15(col)
  }

  /** The table has the number of bits of every byte. */
  lemma {:induction false} BitsInByteIs(b: bv8)
    ensures BitsInByte(b) == OnesOf(b)
  {
  }

  // ----- sums within a word -----

  function Low(x: bv32): bv32 { x & 255 }
  function Next(x: bv32): bv32 { x >> 8 }

  /** No four bits make more than 7. */
  predicate Sparse(x: bv32) { x & 0x88888888 == 0 }

  function Pairs(x: bv32): bv32 { x - ((x >> 1) & 0x55555555) }
  function Nibbles(x: bv32): bv32 { (x & 0x33333333) + ((x >> 2) & 0x33333333) }
  function Octets(x: bv32): bv32 { (x + (x >> 4)) & 0x0F0F0F0F }

  /** Each byte of the result is the count of the byte of x at its place. */
  function Lanes(x: bv32): bv32 { Octets(Nibbles(Pairs(x))) }

  function WordCount(x: bv32): bv32 { TopOf(Lanes(x)) }

  /** The same without a borrow. */
  function PairSums(x: bv32): bv32 { (x & 0x55555555) + ((x >> 1) & 0x55555555) }

  lemma {:induction false} PairsFact(x: bv32, p: bv32)
    requires p == (x & 0x55555555) + ((x >> 1) & 0x55555555)
    ensures p == x - ((x >> 1) & 0x55555555)
  {
  }

  lemma {:induction false} PairsAreSums(x: bv32)
    ensures Pairs(x) == PairSums(x)
  {
    PairsFact(x, PairSums(x));
  }

  lemma {:induction false} PairSumsDown(x: bv32)
    ensures Next(PairSums(x)) == PairSums(Next(x))
  {
  }

  lemma {:induction false} PairsDown(x: bv32)
    ensures Next(Pairs(x)) == Pairs(Next(x))
  {
    hide Pairs, PairSums, Next;
    PairsAreSums(x);
    PairsAreSums(Next(x));
    PairSumsDown(x);
  }

  lemma {:induction false} NibblesDown(x: bv32)
    ensures Next(Nibbles(x)) == Nibbles(Next(x)) && Sparse(Nibbles(x))
  {
  }

  lemma {:induction false} OctetsDown(x: bv32)
    requires Sparse(x)
    ensures Next(Octets(x)) == Octets(Next(x))
  {
  }

  /** The lanes are independent of each other. */
  lemma {:induction false} LanesDown(x: bv32)
    ensures Next(Lanes(x)) == Lanes(Next(x))
  {
    hide Pairs, Nibbles, Octets, Next, Sparse;
    PairsDown(x);
    NibblesDown(Pairs(x));
    OctetsDown(Nibbles(Pairs(x)));
  }

  function BytePairs(x: bv32): bv32 { (x - ((x >> 1) & 0x55)) & 255 }
  function ByteNibbles(x: bv32): bv32 { (x & 0x33) + ((x >> 2) & 0x33) }
  function ByteOctet(x: bv32): bv32 { (x + (x >> 4)) & 0x0F }

  lemma {:induction false} PairsLow(x: bv32)
    ensures Low(Pairs(x)) == BytePairs(Low(x))
  {
  }

  lemma {:induction false} NibblesLow(x: bv32)
    ensures Low(Nibbles(x)) == ByteNibbles(Low(x))
  {
  }

  lemma {:induction false} OctetsLow(x: bv32)
    requires Sparse(x)
    ensures Low(Octets(x)) == ByteOctet(Low(x))
  {
  }

  lemma {:induction false} OneByte(x: bv32)
    requires x & 255 == x
    ensures ByteOctet(ByteNibbles(BytePairs(x))) == Ones(x)
  {
  }

  lemma {:induction false} LowByte(x: bv32)
    ensures Low(x) & 255 == Low(x)
  {
  }

  lemma {:induction false} LanesLow(x: bv32)
    ensures Low(Lanes(x)) == Ones(Low(x))
  {
    hide Pairs, Nibbles, Octets, Ones, Low, Sparse, BytePairs, ByteNibbles, ByteOctet;
    PairsLow(x);
    NibblesLow(Pairs(x));
    NibblesDown(Pairs(x));
    OctetsLow(Nibbles(Pairs(x)));
    LowByte(x);
    OneByte(Low(x));
  }

  lemma {:induction false} LanesClean(x: bv32)
    ensures Lanes(x) & 0xF0F0F0F0 == 0
  {
    hide Nibbles, Pairs;
  }

  function Plus(a: bv32, b: bv32): bv32 { a + b }

  function Sum4(a: bv32, b: bv32, c: bv32, d: bv32): bv32 { Plus(Plus(Plus(a, b), c), d) }

  lemma {:induction false} TopSum(f: bv32)
    requires f & 0xF0F0F0F0 == 0
    ensures TopOf(f) == Sum4(f & 255, (f >> 8) & 255, (f >> 16) & 255, (f >> 24) & 255)
  {
  }

  lemma {:induction false} Parts(f: bv32)
    ensures Low(f) == f & 255 && Low(Next(f)) == (f >> 8) & 255
    ensures Low(Next(Next(f))) == (f >> 16) & 255 && Low(Next(Next(Next(f)))) == (f >> 24) & 255
  {
  }

  lemma {:induction false} TopByte(f: bv32)
    requires f & 0xF0F0F0F0 == 0
    ensures TopOf(f) == Sum4(Low(f), Low(Next(f)), Low(Next(Next(f))), Low(Next(Next(Next(f)))))
  {
    hide Low, Next, TopOf, Sum4;
    TopSum(f);
    Parts(f);
  }

  function TopOf(f: bv32): bv32 { (f * 0x01010101) >> 24 }

  /** A word has as many bits as its four bytes. */
  lemma {:induction false} WordCountIs(x: bv32)
    ensures WordCount(x) == Sum4(Ones(Low(x)), Ones(Low(Next(x))), Ones(Low(Next(Next(x)))),
            Ones(Low(Next(Next(Next(x))))))
  {
    hide Lanes, Ones, TopOf, Sum4, Low, Next;
    LanesClean(x);
    TopByte(Lanes(x));
    LanesLow(x);
    LanesDown(x);
    LanesLow(Next(x));
    LanesDown(Next(x));
    LanesLow(Next(Next(x)));
    LanesDown(Next(Next(x)));
    LanesLow(Next(Next(Next(x))));
  }

  // ----- words in memory -----

  function Load(b0: bv8, b1: bv8, b2: bv8, b3: bv8): bv32 {
    (b0 as bv32) | ((b1 as bv32) << 8) | ((b2 as bv32) << 16) | ((b3 as bv32) << 24)
  }

  lemma {:induction false} LoadBytes(b0: bv8, b1: bv8, b2: bv8, b3: bv8)
    ensures var x := Load(b0, b1, b2, b3);
            && Low(x) == b0 as bv32 && Low(Next(x)) == b1 as bv32
            && Low(Next(Next(x))) == b2 as bv32 && Low(Next(Next(Next(x)))) == b3 as bv32
  {
  }

  lemma {:induction false} SumTwo(a: bv32, b: bv32)
    requires a & 31 == a && b & 15 == b
    ensures Plus(a, b) as nat == a as nat + b as nat
  {
  }

  lemma {:induction false} PlusSmall(a: bv32, b: bv32)
    requires b <= 8
    ensures a <= 8 ==> Plus(a, b) <= 16
    ensures a <= 16 ==> Plus(a, b) <= 24
    ensures a <= 24 ==> a & 31 == a
    ensures b & 15 == b
  {
  }

  lemma {:induction false} SumNat(a: bv32, b: bv32, c: bv32, d: bv32)
    requires a <= 8 && b <= 8 && c <= 8 && d <= 8
    ensures Sum4(a, b, c, d) as nat == a as nat + b as nat + c as nat + d as nat
  {
    hide Plus;
    PlusSmall(a, b);
    PlusSmall(Plus(a, b), c);
    PlusSmall(Plus(Plus(a, b), c), d);
    SumTwo(a, b);
    SumTwo(Plus(a, b), c);
    SumTwo(Plus(Plus(a, b), c), d);
  }

  lemma {:induction false} OnesSmall(x: bv32)
    ensures Ones(x) <= 8
  {
  }

  /** The count of a word is that of the four bytes that it is loaded from. */
  lemma {:induction false} LoadCount(b0: bv8, b1: bv8, b2: bv8, b3: bv8)
    ensures WordCount(Load(b0, b1, b2, b3)) as nat == OnesOf(b0) + OnesOf(b1) + OnesOf(b2) + OnesOf(b3)
  {
    hide WordCount, Load, Ones, Sum4, Low, Next;
    LoadBytes(b0, b1, b2, b3);
    WordCountIs(Load(b0, b1, b2, b3));
    OnesSmall(b0 as bv32);
    OnesSmall(b1 as bv32);
    OnesSmall(b2 as bv32);
    OnesSmall(b3 as bv32);
    SumNat(Ones(b0 as bv32), Ones(b1 as bv32), Ones(b2 as bv32), Ones(b3 as bv32));
  }

  // ----- redisPopcount -----

  lemma {:induction false} CountNext(s: Bytes, p: nat)
    requires p < |s|
    ensures Count(s[..p + 1]) == Count(s[..p]) + OnesOf(s[p])
  {
    hide OnesOf;
    assert s[..p + 1][..p] == s[..p];
  }

  lemma {:induction false} CountFour(s: Bytes, p: nat)
    requires p + 4 <= |s|
    ensures Count(s[..p + 4]) == Count(s[..p]) + WordCount(Load(s[p], s[p + 1], s[p + 2], s[p + 3])) as nat
  {
    hide OnesOf, Count, WordCount, Load;
    CountNext(s, p);
    CountNext(s, p + 1);
    CountNext(s, p + 2);
    CountNext(s, p + 3);
    LoadCount(s[p], s[p + 1], s[p + 2], s[p + 3]);
  }

  /** A word is read at an aligned address only. */
  method LoadAt(s: Bytes, p: nat, address: nat) returns (aux: bv32)
    requires p + 4 <= |s| && (address + p) % 4 == 0
    ensures aux == Load(s[p], s[p + 1], s[p + 2], s[p + 3])
  {
    aux := Load(s[p], s[p + 1], s[p + 2], s[p + 3]);
  }

  /** The arithmetic on one of the four words. */
  method CountWord(aux0: bv32) returns (n: nat)
    ensures n == WordCount(aux0) as nat
  {
    hide Pairs, Nibbles, Octets, TopOf;
    var aux := aux0;
    aux := Pairs(aux);
    aux := Nibbles(aux);
    n := TopOf(Octets(aux)) as nat;
  }

  /** The string begins at an address that is address modulo 4. */
  method Popcount(s: Bytes, address: nat) returns (bits: nat)
    ensures bits == Count(s)
  {
    hide Count, WordCount, Load, OnesOf, BitsInByte;
    bits := 0;
    var p := 0;
    CountEnds(s);
    while (address + p) % 4 != 0 && p < |s|
      invariant 0 <= p <= |s| && bits == Count(s[..p])
      decreases |s| - p
    {
      bits := CountByte(s, p, bits);
      p := p + 1;
    }
    while |s| - p >= 16
      invariant 0 <= p <= |s| && bits == Count(s[..p])
      invariant (address + p) % 4 == 0 || p == |s|
    {
      var aux1 := LoadAt(s, p, address);
      var aux2 := LoadAt(s, p + 4, address);
      var aux3 := LoadAt(s, p + 8, address);
      var aux4 := LoadAt(s, p + 12, address);
      CountFour(s, p);
      CountFour(s, p + 4);
      CountFour(s, p + 8);
      CountFour(s, p + 12);
      var n1 := CountWord(aux1);
      var n2 := CountWord(aux2);
      var n3 := CountWord(aux3);
      var n4 := CountWord(aux4);
      bits := bits + (n1 + n2 + n3 + n4);
      p := p + 16;
    }
    while p < |s|
      invariant 0 <= p <= |s| && bits == Count(s[..p])
      decreases |s| - p
    {
      bits := CountByte(s, p, bits);
      p := p + 1;
    }
  }

  method CountByte(s: Bytes, p: nat, bits0: nat) returns (bits: nat)
    requires p < |s| && bits0 == Count(s[..p])
    ensures bits == Count(s[..p + 1])
  {
    hide Count, OnesOf, BitsInByte;
    CountNext(s, p);
    BitsInByteIs(s[p]);
    bits := bits0 + BitsInByte(s[p]);
  }

  lemma {:induction false} CountEnds(s: Bytes)
    ensures Count(s[..0]) == 0 && s[..|s|] == s
  {
  }
}

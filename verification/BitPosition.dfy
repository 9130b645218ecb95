/** redisBitpos: the first bit of a kind in a string of bits, most significant first. */
module BitPosition {
  import opened Crc64Shift
  import opened LittleEndian

  /** The bits of a byte from left to right. */
  function BitsOf(b: bv8): (r: seq<bool>)
    ensures |r| == 8
  {
    [(b >> 7) & 1 == 1, (b >> 6) & 1 == 1, (b >> 5) & 1 == 1, (b >> 4) & 1 == 1,
     (b >> 3) & 1 == 1, (b >> 2) & 1 == 1, (b >> 1) & 1 == 1, b & 1 == 1]
  }

  /** Bit i of a string that is continued by zeros. */
  function BitAt(s: Bytes, i: nat): bool {
    i < 8 * |s| && BitsOf(s[i / 8])[i % 8]
  }

  predicate IsFirst(s: Bytes, bit: bool, pos: nat) {
    BitAt(s, pos) == bit && forall i :: 0 <= i < pos ==> BitAt(s, i) != bit
  }

  lemma {:induction false} AllZero()
    ensures forall k :: 0 <= k < 8 ==> !BitsOf(0)[k]
  {
  }

  lemma {:induction false} AllOne()
    ensures forall k :: 0 <= k < 8 ==> BitsOf(255)[k]
  {
  }

  /** A byte has only bits of one kind just if it is 0 or 255. */
  lemma {:induction false} SomeOne(b: bv8)
    requires forall k :: 0 <= k < 8 ==> !BitsOf(b)[k]
    ensures b == 0
  {
    assert !BitsOf(b)[0] && !BitsOf(b)[1] && !BitsOf(b)[2] && !BitsOf(b)[3];
    assert !BitsOf(b)[4] && !BitsOf(b)[5] && !BitsOf(b)[6] && !BitsOf(b)[7];
  }

  lemma {:induction false} SomeZero(b: bv8)
    requires forall k :: 0 <= k < 8 ==> BitsOf(b)[k]
    ensures b == 255
  {
    assert BitsOf(b)[0] && BitsOf(b)[1] && BitsOf(b)[2] && BitsOf(b)[3];
    assert BitsOf(b)[4] && BitsOf(b)[5] && BitsOf(b)[6] && BitsOf(b)[7];
  }

  /** The byte that the search passes over. */
  function Skipped(bit: bool): bv8 { if bit then 0 else 255 }

  lemma {:induction false} SkippedHasNone(bit: bool, k: nat)
    requires k < 8
    ensures BitsOf(Skipped(bit))[k] != bit
  {
    AllZero();
    AllOne();
    hide BitsOf;
  }

  lemma {:induction false} OtherHasOne(b: bv8, bit: bool)
    requires b != Skipped(bit)
    ensures exists k :: 0 <= k < 8 && BitsOf(b)[k] == bit
  {
    if forall k :: 0 <= k < 8 ==> BitsOf(b)[k] != bit {
      if bit { SomeOne(b); } else { SomeZero(b); }
      assert false;
    }
  }

  lemma {:induction false} ByteBits(s: Bytes, c: nat, k: nat)
    requires c < |s| && k < 8
    ensures BitAt(s, 8 * c + k) == BitsOf(s[c])[k]
  {
    assert (8 * c + k) / 8 == c && (8 * c + k) % 8 == k;
  }

  /** No bit of the kind in the first c bytes. */
  ghost predicate None(s: Bytes, bit: bool, c: nat) {
    c <= |s| && forall i :: 0 <= i < 8 * c ==> BitAt(s, i) != bit
  }

  lemma {:induction false} NoneMore(s: Bytes, bit: bool, c: nat)
    requires None(s, bit, c) && c < |s| && s[c] == Skipped(bit)
    ensures None(s, bit, c + 1)
  {
    hide BitAt, BitsOf;
    forall i | 0 <= i < 8 * (c + 1) ensures BitAt(s, i) != bit {
      if i >= 8 * c {
        ByteBits(s, c, i - 8 * c);
        SkippedHasNone(bit, i - 8 * c);
      }
    }
  }

  // ----- words of bytes to pass over -----

  /** The word that the search passes over. */
  function SkippedWord(bit: bool): bv64 { if bit then 0 else 0xffff_ffff_ffff_ffff }

  function Ones(n: nat): bv64 {
    match n
    case 0 => 0
    case 1 => 0xff
    case 2 => 0xffff
    case 3 => 0xff_ffff
    case 4 => 0xffff_ffff
    case 5 => 0xff_ffff_ffff
    case 6 => 0xffff_ffff_ffff
    case 7 => 0xff_ffff_ffff_ffff
    case _ => 0xffff_ffff_ffff_ffff
  }

  lemma {:induction false} OnesMore(n: nat)
    requires n < 8
    ensures Xor(Wide(255), Up(Ones(n))) == Ones(n + 1)
  {
  }

  lemma {:induction false} ZeroMore()
    ensures Xor(Wide(0), Up(0)) == 0
  {
  }

  lemma {:induction false} SameBytes(bit: bool, n: nat)
    requires n <= 8
    ensures Word(seq(n, _ => Skipped(bit))) == if bit then 0 else Ones(n)
  {
    if n > 0 {
      var u := seq(n, _ => Skipped(bit));
      SameBytes(bit, n - 1);
      assert u[1..] == seq(n - 1, _ => Skipped(bit));
      OnesMore(n - 1);
      ZeroMore();
      hide Xor, Wide, Up, Ones;
    }
  }

  /** The word of eight bytes is the one to pass over exactly if they all are bytes to pass over. */
  lemma {:induction false} SkippedWordIs(u: Bytes, bit: bool)
    requires |u| == 8
    ensures Word(u) == SkippedWord(bit) <==> forall i :: 0 <= i < 8 ==> u[i] == Skipped(bit)
  {
    hide Skipped, Word;
    var same := seq(8, _ => Skipped(bit));
    SameBytes(bit, 8);
    if Word(u) == SkippedWord(bit) {
      WordInjective(u, same);
    }
    if forall i :: 0 <= i < 8 ==> u[i] == Skipped(bit) {
      assert u == same;
    }
  }

  lemma {:induction false} NoneEight(s: Bytes, bit: bool, c: nat)
    requires None(s, bit, c) && c + 8 <= |s| && Word(s[c..c + 8]) == SkippedWord(bit)
    ensures None(s, bit, c + 8)
  {
    hide None, Skipped, Word;
    var u := s[c..c + 8];
    SkippedWordIs(u, bit);
    assert u[0] == s[c] && u[1] == s[c + 1] && u[2] == s[c + 2] && u[3] == s[c + 3];
    assert u[4] == s[c + 4] && u[5] == s[c + 5] && u[6] == s[c + 6] && u[7] == s[c + 7];
    NoneMore(s, bit, c);
    NoneMore(s, bit, c + 1);
    NoneMore(s, bit, c + 2);
    NoneMore(s, bit, c + 3);
    NoneMore(s, bit, c + 4);
    NoneMore(s, bit, c + 5);
    NoneMore(s, bit, c + 6);
    NoneMore(s, bit, c + 7);
  }

  /** A word is read at an aligned address, or where the bytes before that address have ended the search. */
  method ReadWord(s: Bytes, c: nat, address: nat, bit: bool) returns (l: bv64)
    requires c + 8 <= |s| && ((address + c) % 8 == 0 || s[c] != Skipped(bit))
    ensures l == Word(s[c..c + 8])
  {
    l := Word(s[c..c + 8]);
  }

  /** The bytes before the first one that is aligned, and then words, as long as they have no bit of the kind. */
  method SkipWords(s: Bytes, address: nat, bit: bool) returns (c: nat)
    ensures None(s, bit, c)
    ensures |s| - c >= 8 ==> Word(s[c..c + 8]) != SkippedWord(bit)
  {
    hide Skipped, BitAt, Word, SkippedWord;
    c := 0;
    while (address + c) % 8 != 0 && c < |s|
      invariant None(s, bit, c)
      decreases |s| - c
    {
      if s[c] != Skipped(bit) { break; }
      NoneMore(s, bit, c);
      c := c + 1;
    }
    while |s| - c >= 8
      invariant None(s, bit, c)
      invariant (address + c) % 8 == 0 || c == |s| || s[c] != Skipped(bit)
      decreases |s| - c
    {
      var l := ReadWord(s, c, address, bit);
      if l != SkippedWord(bit) { break; }
      SkippedWordIs(s[c..c + 8], bit);
      assert s[c..c + 8][0] == s[c];
      NoneEight(s, bit, c);
      c := c + 8;
    }
  }

  // ----- the bits of a word from left to right -----

  const TOP: bv64 := 0x8000_0000_0000_0000

  function Half(w: bv64): bv64 { w >> 1 }
  function Double(w: bv64): bv64 { w << 1 }
  predicate Meet(a: bv64, b: bv64) { a & b != 0 }

  /** The one bit that is tested in round k. */
  function One(k: nat): bv64 {
    if k == 0 then TOP else Half(One(k - 1))
  }

  function Doubled(w: bv64, k: nat): bv64
    decreases k
  {
    if k == 0 then w else Doubled(Double(w), k - 1)
  }

  lemma {:induction false} Across(one: bv64, w: bv64)
    ensures Meet(Half(one), w) <==> Meet(one, Double(w))
  {
  }

  /** Testing with the bit moved right is testing the top of the word moved left. */
  lemma {:induction false} OneTests(k: nat, w: bv64)
    ensures Meet(One(k), w) <==> Meet(TOP, Doubled(w, k))
    decreases k
  {
    hide Half, Double, Meet;
    if k > 0 {
      Across(One(k - 1), w);
      OneTests(k - 1, Double(w));
    }
  }

  /** Byte j of the word from the left. */
  function ByteOf(w: bv64, j: nat): bv8 {
    match j
    case 0 => ((w >> 56) & 255) as bv8
    case 1 => ((w >> 48) & 255) as bv8
    case 2 => ((w >> 40) & 255) as bv8
    case 3 => ((w >> 32) & 255) as bv8
    case 4 => ((w >> 24) & 255) as bv8
    case 5 => ((w >> 16) & 255) as bv8
    case 6 => ((w >> 8) & 255) as bv8
    case _ => (w & 255) as bv8
  }

  function Join(w: bv64, b: bv8): bv64 { w | (b as bv64) }

  /** word <<= 8; word |= *c */
  function Pushed(w: bv64, b: bv8): bv64 { Join(Up(w), b) }

  lemma {:induction false} PushedBytes(w: bv64, b: bv8, j: nat)
    requires j < 8
    ensures ByteOf(Pushed(w, b), j) == if j < 7 then ByteOf(w, j + 1) else b
  {
  }

  lemma {:induction false} PushedZero(w: bv64)
    ensures Pushed(w, 0) == Up(w)
  {
  }

  lemma {:induction false} UpBytes(w: bv64, j: nat)
    requires j < 7
    ensures ByteOf(Up(w), j) == ByteOf(w, j + 1)
  {
  }

  lemma {:induction false} TopByte(w: bv64, i: nat)
    requires i < 8
    ensures Meet(TOP, Doubled(w, i)) <==> BitsOf(ByteOf(w, 0))[i]
  {
    hide Meet, BitsOf, ByteOf, Doubled;
    FewDoubled(w);
    TopBits(w);
    match i
    case 0 =>
    case 1 =>
    case 2 =>
    case 3 =>
    case 4 =>
    case 5 =>
    case 6 =>
    case _ =>
  }

  lemma {:induction false} FewDoubled(w: bv64)
    ensures Doubled(w, 0) == w && Doubled(w, 1) == w << 1 && Doubled(w, 2) == w << 2 && Doubled(w, 3) == w << 3
    ensures Doubled(w, 4) == w << 4 && Doubled(w, 5) == w << 5 && Doubled(w, 6) == w << 6 && Doubled(w, 7) == w << 7
  {
    hide Double;
    Shifts(w);
    DoubledNext(w, 0);
    DoubledNext(w, 1);
    DoubledNext(w, 2);
    DoubledNext(w, 3);
    DoubledNext(w, 4);
    DoubledNext(w, 5);
    DoubledNext(w, 6);
  }

  lemma {:induction false} Shifts(w: bv64)
    ensures Double(w) == w << 1 && Double(w << 1) == w << 2 && Double(w << 2) == w << 3 && Double(w << 3) == w << 4
    ensures Double(w << 4) == w << 5 && Double(w << 5) == w << 6 && Double(w << 6) == w << 7
  {
  }

  lemma {:induction false} DoubledNext(w: bv64, k: nat)
    ensures Doubled(w, k + 1) == Double(Doubled(w, k))
    decreases k
  {
    hide Double;
    if k > 0 { DoubledNext(Double(w), k - 1); }
  }

  lemma {:induction false} TopBits(w: bv64)
    ensures var bits := BitsOf(ByteOf(w, 0));
            && Meet(TOP, w) == bits[0] && Meet(TOP, w << 1) == bits[1] && Meet(TOP, w << 2) == bits[2]
            && Meet(TOP, w << 3) == bits[3] && Meet(TOP, w << 4) == bits[4] && Meet(TOP, w << 5) == bits[5]
            && Meet(TOP, w << 6) == bits[6] && Meet(TOP, w << 7) == bits[7]
  {
  }

  lemma {:induction false} DoubledEight(w: bv64)
    ensures Doubled(w, 8) == Up(w)
  {
  }

  lemma {:induction false} DoubledSum(w: bv64, a: nat, b: nat)
    ensures Doubled(w, a + b) == Doubled(Doubled(w, a), b)
    decreases a
  {
    hide Double;
    if a > 0 { DoubledSum(Double(w), a - 1, b); }
  }

  lemma {:induction false} BitOfByte(w: bv64, j: nat, i: nat)
    requires j < 8 && i < 8
    ensures Meet(TOP, Doubled(w, 8 * j + i)) <==> BitsOf(ByteOf(w, j))[i]
    decreases j
  {
    TopByte(w, i);
    hide Meet, Double, Up, ByteOf, BitsOf;
    if j > 0 {
      DoubledSum(w, 8, 8 * (j - 1) + i);
      DoubledEight(w);
      BitOfByte(Up(w), j - 1, i);
      UpBytes(w, j - 1);
    }
  }

  lemma {:induction false} OneIsBit(w: bv64, k: nat)
    requires k < 64
    ensures Meet(One(k), w) <==> BitsOf(ByteOf(w, k / 8))[k % 8]
  {
    OneTests(k, w);
    BitOfByte(w, k / 8, k % 8);
  }

  // ----- the last word -----

  /** Byte i of the string continued by zeros. */
  function ByteAt(s: Bytes, i: nat): bv8 {
    if i < |s| then s[i] else 0
  }

  /** The word has the eight bytes from c on, the first as its most significant one. */
  ghost predicate Loaded(s: Bytes, c: nat, w: bv64) {
    forall j :: 0 <= j < 8 ==> ByteOf(w, j) == ByteAt(s, c + j)
  }

  /** Its low j bytes are the j bytes from c on. */
  ghost predicate LoadedSoFar(s: Bytes, c: nat, w: bv64, j: nat) {
    j <= 8 && forall x :: 8 - j <= x < 8 ==> ByteOf(w, x) == ByteAt(s, c + (x - (8 - j)))
  }

  lemma {:induction false} LoadedMore(s: Bytes, c: nat, w: bv64, j: nat)
    requires LoadedSoFar(s, c, w, j) && j < 8
    ensures LoadedSoFar(s, c, Pushed(w, ByteAt(s, c + j)), j + 1)
  {
    hide ByteOf, Pushed, ByteAt;
    var b := ByteAt(s, c + j);
    forall x | 8 - (j + 1) <= x < 8 ensures ByteOf(Pushed(w, b), x) == ByteAt(s, c + (x - (8 - (j + 1)))) {
      PushedBytes(w, b, x);
      if x < 7 { assert x + 1 - (8 - j) == x - (8 - (j + 1)); }
    }
  }

  /** Eight bytes, or what is left of them and zeros, as one word. */
  method LoadWord(s: Bytes, c0: nat) returns (word: bv64)
    requires c0 <= |s|
    ensures Loaded(s, c0, word)
  {
    hide ByteOf, Up, Join;
    var c := c0;
    word := 0;
    for j := 0 to 8
      invariant c == if c0 + j <= |s| then c0 + j else |s|
      invariant LoadedSoFar(s, c0, word, j)
    {
      LoadedMore(s, c0, word, j);
      PushedZero(word);
      word := Up(word);
      if c < |s| {
        word := Join(word, s[c]);
        c := c + 1;
      }
    }
  }

  /** Round k of the scan tests bit k of the string from byte c on. */
  lemma {:induction false} TestsBit(s: Bytes, c: nat, w: bv64, k: nat)
    requires Loaded(s, c, w) && k < 64
    ensures Meet(One(k), w) <==> BitAt(s, 8 * c + k)
  {
    hide Meet, One, BitsOf;
    OneIsBit(w, k);
    var i := c + k / 8;
    assert 8 * c + k == 8 * i + k % 8;
    AllZero();
    if i < |s| { ByteBits(s, i, k % 8); } else { Beyond(s, 8 * c + k); }
  }

  lemma {:induction false} Beyond(s: Bytes, i: nat)
    requires i >= 8 * |s|
    ensures !BitAt(s, i)
  {
  }

  /** The bit that is tested leaves the word after 64 rounds only. */
  lemma {:induction false} OneIsThere(k: nat)
    requires k < 64
    ensures One(k) != 0
  {
    OneIsBit(0xffff_ffff_ffff_ffff, k);
    AllBytes(k / 8);
    AllOne();
    hide BitsOf, ByteOf, One;
  }

  lemma {:induction false} AllBytes(j: nat)
    requires j < 8
    ensures ByteOf(0xffff_ffff_ffff_ffff, j) == 255
  {
  }

  lemma {:induction false} ZeroWord(w: bv64)
    requires forall j :: 0 <= j < 8 ==> ByteOf(w, j) == 0
    ensures w == 0
  {
    assert ByteOf(w, 0) == 0 && ByteOf(w, 1) == 0 && ByteOf(w, 2) == 0 && ByteOf(w, 3) == 0;
    assert ByteOf(w, 4) == 0 && ByteOf(w, 5) == 0 && ByteOf(w, 6) == 0 && ByteOf(w, 7) == 0;
  }

  lemma {:induction false} ZeroMeetsNothing(a: bv64)
    ensures !Meet(a, 0)
  {
  }

  /** None of the 64 rounds finds a bit of the kind. */
  ghost predicate NothingTested(w: bv64, bit: bool) {
    forall k :: 0 <= k < 64 ==> Meet(One(k), w) != bit
  }

  /** The word is 0 exactly if it has no bit set. */
  lemma {:induction false} ZeroWordIs(w: bv64)
    ensures w == 0 <==> NothingTested(w, true)
  {
    hide ByteOf, BitsOf, Meet, One;
    if w == 0 {
      forall k | 0 <= k < 64 ensures !Meet(One(k), w) { ZeroMeetsNothing(One(k)); }
    } else if NothingTested(w, true) {
      forall j | 0 <= j < 8 ensures ByteOf(w, j) == 0 { NoBitInByte(w, j); }
      ZeroWord(w);
      assert false;
    }
  }

  lemma {:induction false} NoBitInByte(w: bv64, j: nat)
    requires j < 8 && NothingTested(w, true)
    ensures ByteOf(w, j) == 0
  {
    hide One, ByteOf, BitsOf, Meet;
    forall i | 0 <= i < 8 ensures !BitsOf(ByteOf(w, j))[i] {
      var k := 8 * j + i;
      OneIsBit(w, k);
      assert k / 8 == j && k % 8 == i;
    }
    SomeOne(ByteOf(w, j));
  }

  /** Where the skipping stops, the word has a bit of the kind, unless a 1 is looked for and there is none at all. */
  lemma {:induction false} WordDecides(s: Bytes, bit: bool, c: nat, w: bv64)
    requires None(s, bit, c) && Loaded(s, c, w)
    requires |s| - c >= 8 ==> Word(s[c..c + 8]) != SkippedWord(bit)
    ensures NothingTested(w, bit) ==> bit && forall i: nat :: !BitAt(s, i)
  {
    hide BitAt, BitsOf, Skipped, Meet, One, ByteOf, Word;
    forall k | 0 <= k < 64 ensures Meet(One(k), w) == BitAt(s, 8 * c + k) { TestsBit(s, c, w, k); }
    hide Loaded;
    if |s| - c >= 8 {
      SkippedWordIs(s[c..c + 8], bit);
      var i :| 0 <= i < 8 && s[c..c + 8][i] != Skipped(bit);
      assert s[c..c + 8][i] == s[c + i];
      OtherHasOne(s[c + i], bit);
      var j: nat :| j < 8 && BitsOf(s[c + i])[j] == bit;
      ByteBits(s, c + i, j);
      assert 8 * c + (8 * i + j) == 8 * (c + i) + j;
      assert Meet(One(8 * i + j), w) == bit;
    } else if NothingTested(w, bit) {
      Beyond(s, 8 * |s|);
      assert Meet(One(8 * (|s| - c)), w) == BitAt(s, 8 * |s|);
      forall i: nat ensures !BitAt(s, i) {
        if i >= 8 * |s| { Beyond(s, i); }
        else if i >= 8 * c { assert Meet(One(i - 8 * c), w) != bit; }
      }
    }
  }

  // ----- the search -----

  /** redisBitpos of a string at an address that is address modulo 8. */
  method Bitpos(s: Bytes, address: nat, bit: bool) returns (pos: int)
    ensures pos == -1 <==> bit && forall i: nat :: !BitAt(s, i)
    ensures pos != -1 ==> 0 <= pos <= 8 * |s| && IsFirst(s, bit, pos)
    ensures !bit && (forall i :: 0 <= i < 8 * |s| ==> BitAt(s, i)) ==> pos == 8 * |s|
  {
    hide BitAt, BitsOf, Skipped, SkippedWord, Word, Loaded, Meet, Half;
    var c := SkipWords(s, address, bit);
    pos := 8 * c;
    var word := LoadWord(s, c);
    WordDecides(s, bit, c, word);
    ZeroWordIs(word);
    if bit && word == 0 {
      NothingFound(s, c, word);
      return -1;
    }
    var one: bv64 := 0xffff_ffff_ffff_ffff;
    one := Half(one);
    one := !one;
    TopIs();
    ghost var k := 0;
    while one != 0
      invariant 0 <= k < 64 && pos == 8 * c + k && one == One(k)
      invariant forall i :: 0 <= i < k ==> Meet(One(i), word) != bit
      decreases 64 - k
    {
      if Meet(one, word) == bit {
        FirstIs(s, bit, c, word, k);
        return;
      }
      k := k + 1;
      pos := pos + 1;
      one := Half(one);
    }
    // the panic at the end is not reached
    OneIsThere(k);
    assert false;
  }

  lemma {:induction false} TopIs()
    ensures !Half(0xffff_ffff_ffff_ffff) == TOP
  {
  }

  lemma {:induction false} NothingFound(s: Bytes, c: nat, w: bv64)
    requires None(s, true, c) && Loaded(s, c, w) && w == 0
    requires |s| - c >= 8 ==> Word(s[c..c + 8]) != SkippedWord(true)
    ensures forall i: nat :: !BitAt(s, i)
  {
    hide BitAt, BitsOf, Skipped, SkippedWord, Word, Loaded, One;
    ZeroWordIs(w);
    WordDecides(s, true, c, w);
  }

  lemma {:induction false} FirstIs(s: Bytes, bit: bool, c: nat, w: bv64, k: nat)
    requires None(s, bit, c) && Loaded(s, c, w) && k < 64 && Meet(One(k), w) == bit
    requires forall i :: 0 <= i < k ==> Meet(One(i), w) != bit
    ensures IsFirst(s, bit, 8 * c + k) && 8 * c + k <= 8 * |s|
    ensures exists i: nat :: BitAt(s, i) == bit
    ensures !bit && (forall i :: 0 <= i < 8 * |s| ==> BitAt(s, i)) ==> 8 * c + k == 8 * |s|
  {
    hide BitAt, Loaded, Meet, One;
    forall i | 0 <= i < 8 * c + k ensures BitAt(s, i) != bit {
      if i >= 8 * c { TestsBit(s, c, w, i - 8 * c); }
    }
    TestsBit(s, c, w, k);
    assert BitAt(s, 8 * c + k) == bit;
    if 8 * c + k > 8 * |s| {
      Beyond(s, 8 * |s|);
      Beyond(s, 8 * c + k);
      assert false;
    }
  }
}

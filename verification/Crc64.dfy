/** crc64 over byte strings, and the footer of DUMP payloads that it protects. */
module Crc64 {
  import opened Crc64Shift
  import opened Crc64Table
  import opened LittleEndian

  /** The body of the loop of crc64. */
  function Step(crc: bv64, b: bv8): bv64 {
    Xor(Tab(Index(crc, b)), Down(crc))
  }

  function Index(crc: bv64, b: bv8): bv64 { (crc & 255) ^ Wide(b) }


  function Crc(crc: bv64, s: Bytes): bv64
    decreases |s|
  {
    if s == [] then crc else Crc(Step(crc, s[0]), s[1..])
  }

  method ComputeCrc64(crc0: bv64, s: Bytes) returns (crc: bv64)
    ensures crc == Crc(crc0, s)
  {
    hide Step;
    crc := crc0;
    var j := 0;
    assert s[0..] == s;
    while j < |s|
      invariant 0 <= j <= |s| && Crc(crc, s[j..]) == Crc(crc0, s)
    {
      assert s[j..][1..] == s[j + 1..];
      crc := Step(crc, s[j]);
      j := j + 1;
    }
  }

  // ----- the table step is eight bit steps -----

  lemma {:induction false} IndexIs(crc: bv64, b: bv8)
    ensures Index(crc, b) & 255 == Index(crc, b)
    ensures Xor(crc, Wide(b)) == Xor(Index(crc, b), Up(Down(crc)))
  {
  }

  lemma {:induction false} DownUp(crc: bv64)
    ensures Shift8(Up(Down(crc))) == Down(crc)
  {
    hide Shift8;
    Shift8Zeros(Down(crc));
    DownUpDown(crc);
  }

  lemma {:induction false} DownUpDown(crc: bv64)
    ensures Up(Down(crc)) == Down(crc) << 8 && (Down(crc) << 8) >> 8 == Down(crc)
  {
  }

  /** The step through the table shifts the word, with the byte added to its low bits, eight times. */
  lemma {:induction false} StepIs(crc: bv64, b: bv8)
    ensures Step(crc, b) == Shift8(Xor(crc, Wide(b)))
  {
    hide Shift8, Tab, Wide, Xor, Index, Up, Down;
    IndexIs(crc, b);
    TabIs(Index(crc, b));
    Shift8Xor(Index(crc, b), Up(Down(crc)));
    DownUp(crc);
  }

  lemma {:induction false} StepInjective(c: bv64, d: bv64, b: bv8)
    requires Step(c, b) == Step(d, b)
    ensures c == d
  {
    hide Step, Shift8, Xor, Wide;
    StepIs(c, b);
    StepIs(d, b);
    Shift8Injective(Xor(c, Wide(b)), Xor(d, Wide(b)));
    XorCancel(c, d, Wide(b));
  }

  lemma {:induction false} XorCancel(c: bv64, d: bv64, w: bv64)
    requires Xor(c, w) == Xor(d, w)
    ensures c == d
  {
    XorAssoc(c, w, w);
    XorAssoc(d, w, w);
    XorSame(w);
    XorSame(c);
    XorSame(d);
    hide Xor;
  }

  /** The checksum is injective in the running value. */
  lemma {:induction false} CrcInjective(c: bv64, d: bv64, s: Bytes)
    requires Crc(c, s) == Crc(d, s)
    ensures c == d
    decreases |s|
  {
    hide Step;
    if s != [] {
      CrcInjective(Step(c, s[0]), Step(d, s[0]), s[1..]);
      StepInjective(c, d, s[0]);
    }
  }

  lemma {:induction false} CrcAppend(c: bv64, a: Bytes, b: Bytes)
    ensures Crc(c, a + b) == Crc(Crc(c, a), b)
    decreases |a|
  {
    hide Step;
    if a == [] {
      assert a + b == b;
    } else {
      assert (a + b)[1..] == a[1..] + b;
      CrcAppend(Step(c, a[0]), a[1..], b);
    }
  }

  function ShiftBytes(c: bv64, n: nat): bv64
    decreases n
  {
    if n == 0 then c else ShiftBytes(Shift8(c), n - 1)
  }

  lemma {:induction false} ShiftBytesInjective(c: bv64, d: bv64, n: nat)
    requires ShiftBytes(c, n) == ShiftBytes(d, n)
    ensures c == d
    decreases n
  {
    hide Shift8;
    if n > 0 {
      ShiftBytesInjective(Shift8(c), Shift8(d), n - 1);
      Shift8Injective(c, d);
    }
  }

  /** What is added after a shift may be added before it, a byte further up. */
  lemma {:induction false} Pull(y: bv64, w: bv64)
    requires Down(Up(w)) == w
    ensures Xor(Shift8(y), w) == Shift8(Xor(y, Up(w)))
  {
    Shift8Zeros(w);
    hide Shift8, Xor;
    Shift8Xor(y, Up(w));
  }

  /** Up to eight bytes: the word that they make is added, and then all is shifted. */
  lemma {:induction false} CrcOfWord(c: bv64, u: Bytes)
    requires |u| <= 8
    ensures Crc(c, u) == ShiftBytes(Xor(c, Word(u)), |u|)
    decreases |u|
  {
    hide Xor, Wide, Up, Down, Fits, Step, Shift8;
    if u == [] {
      XorSame(c);
    } else {
      var w := Word(u[1..]);
      StepIs(c, u[0]);
      var y := Xor(c, Wide(u[0]));
      CrcOfWord(Shift8(y), u[1..]);
      WordFits(u[1..]);
      FitsSeven(w, |u| - 1);
      Pull(y, w);
      XorAssoc(c, Wide(u[0]), Up(w));
    }
  }

  lemma {:induction false} CrcDiffers(c: bv64, u: Bytes, v: Bytes)
    requires |u| == |v| <= 8 && u != v
    ensures Crc(c, u) != Crc(c, v)
  {
    hide Crc, Xor, Word, ShiftBytes;
    if Crc(c, u) == Crc(c, v) {
      CrcOfWord(c, u);
      CrcOfWord(c, v);
      ShiftBytesInjective(Xor(c, Word(u)), Xor(c, Word(v)), |u|);
      XorComm(c, Word(u));
      XorComm(c, Word(v));
      XorCancel(Word(u), Word(v), c);
      WordInjective(u, v);
    }
  }

  /** Two strings that differ only within eight bytes in a row never have the same checksum. */
  lemma {:induction false} BurstDetected(c: bv64, a: Bytes, u: Bytes, v: Bytes, b: Bytes)
    requires |u| == |v| <= 8 && u != v
    ensures Crc(c, a + u + b) != Crc(c, a + v + b)
  {
    hide Crc;
    CrcAppend(c, a + u, b);
    CrcAppend(c, a + v, b);
    CrcAppend(c, a, u);
    CrcAppend(c, a, v);
    CrcDiffers(Crc(c, a), u, v);
    if Crc(c, a + u + b) == Crc(c, a + v + b) {
      CrcInjective(Crc(c, a + u), Crc(c, a + v), b);
    }
  }

  // ----- DUMP payloads -----

  function Little(w: bv64): (s: Bytes)
    ensures |s| == 8
  {
    LittleBytes(w, 8)
  }

  function VersionAt(p: Bytes): bv16
    requires |p| >= 10
  {
    ((p[|p| - 9] as bv16) << 8) | (p[|p| - 10] as bv16)
  }

  const RDB_VERSION: bv16 := 6

  /** verifyDumpPayload says REDIS_OK. */
  predicate Verified(p: Bytes) {
    |p| >= 10 && VersionAt(p) == RDB_VERSION && p[|p| - 8..] == Little(Crc(0, p[..|p| - 8]))
  }

  /** createDumpPayload behind the serialized object: two bytes of version and the checksum of all before it. */
  method CreateDumpPayload(body: Bytes) returns (p: Bytes)
    ensures |p| == |body| + 10 && body <= p && Verified(p)
  {
    hide Crc, Little;
    p := body + [6, 0];
    var crc := ComputeCrc64(0, p);
    ghost var front := p;
    p := p + Little(crc);
    assert p[..|p| - 8] == front && p[|p| - 8..] == Little(crc);
    assert VersionAt(p) == RDB_VERSION;
  }

  method VerifyDumpPayload(p: Bytes) returns (ok: bool)
    ensures ok <==> Verified(p)
  {
    hide Crc, Little;
    if |p| < 10 { return false; }
    var footer := p[|p| - 10..];
    var rdbver := ((footer[1] as bv16) << 8) | (footer[0] as bv16);
    if rdbver != RDB_VERSION { return false; }
    var crc := ComputeCrc64(0, p[..|p| - 8]);
    return footer[2..] == Little(crc);
  }

  lemma {:induction false} WordOfLittle(w: bv64)
    ensures Word(Little(w)) == w
  {
    hide Word, LittleBytes;
    WordOfLittleBytes(w, 8);
  }

  /** With the checksum appended, a string has the checksum 0, and with any other eight bytes it has not. */
  lemma {:induction false} Residue(c: bv64, u: Bytes)
    requires |u| == 8
    ensures Crc(c, u) == 0 <==> u == Little(c)
  {
    hide Crc, Xor, Word, ShiftBytes, Little;
    WordOfLittle(c);
    CrcOfWord(c, u);
    CrcOfWord(c, Little(c));
    XorSame(c);
    ZeroShifts(8);
    if Crc(c, u) == 0 {
      if u != Little(c) { CrcDiffers(c, u, Little(c)); }
    }
  }

  lemma {:induction false} ZeroShifts(n: nat)
    ensures ShiftBytes(0, n) == 0
  {
    assert Shift8(0) == 0;
    hide Shift8;
    if n > 0 { ZeroShifts(n - 1); }
  }

  lemma {:induction false} VerifiedResidue(p: Bytes)
    requires |p| >= 10
    ensures Verified(p) <==> VersionAt(p) == RDB_VERSION && Crc(0, p) == 0
  {
    hide Crc, Little;
    var front, footer := p[..|p| - 8], p[|p| - 8..];
    assert p == front + footer;
    CrcAppend(0, front, footer);
    Residue(Crc(0, front), footer);
  }

  /** A payload that verifies does not verify any more once bytes are changed within eight in a row, wherever
      they are, the footer included. */
  lemma {:induction false} ChangeRejected(a: Bytes, u: Bytes, v: Bytes, b: Bytes)
    requires Verified(a + u + b) && |u| == |v| <= 8 && u != v
    ensures !Verified(a + v + b)
  {
    hide Crc, Little, Verified, VersionAt;
    LongEnough(a + u + b);
    VerifiedResidue(a + u + b);
    VerifiedResidue(a + v + b);
    BurstDetected(0, a, u, v, b);
  }

  lemma {:induction false} LongEnough(p: Bytes)
    requires Verified(p)
    ensures |p| >= 10
  {
  }

  /** The version in the footer, as two bytes of which the lower comes first. */
  lemma {:induction false} VersionIs(p: Bytes)
    requires |p| >= 10
    ensures VersionAt(p) as int == p[|p| - 10] as int + 256 * (p[|p| - 9] as int)
  {
    TwoBytes(p[|p| - 9], p[|p| - 10]);
  }

  lemma {:induction false} TwoBytes(high: bv8, low: bv8)
    ensures (((high as bv16) << 8) | (low as bv16)) as int == low as int + 256 * (high as int)
  {
  }

  // ----- an example -----

  lemma {:induction false} StepTo(c: bv64, b: bv8, i: bv64, t: bv64, r: bv64)
    requires Index(c, b) == i && Tab(i) == t && Xor(t, Down(c)) == r
    ensures Step(c, b) == r
  {
    hide Tab, Index, Xor, Down;
  }

  // the entries of the table that it needs
  lemma {:induction false} Entry49() ensures Tab(49) == 0xfdc1_7184_a9f7_39fa {}
  lemma {:induction false} Entry200() ensures Tab(200) == 0xe1fe_a520_be31_1aaf {}
  lemma {:induction false} Entry165() ensures Tab(165) == 0xd55d_f8e5_1543_2941 {}
  lemma {:induction false} Entry152() ensures Tab(152) == 0x438c_80a6_4ce1_5841 {}
  lemma {:induction false} Entry197() ensures Tab(197) == 0xf036_dc2f_7e51_db2c {}
  lemma {:induction false} Entry59() ensures Tab(59) == 0xa359_7ca0_a188_d57d {}
  lemma {:induction false} Entry52() ensures Tab(52) == 0x4721_e43f_0183_060c {}
  lemma {:induction false} Entry125() ensures Tab(125) == 0x49ab_a2fe_23cc_5c6f {}
  lemma {:induction false} Entry251() ensures Tab(251) == 0xe98f_3534_77ad_31a7 {}

  /** The checksum that the source names for the string 123456789. */
  lemma {:induction false} KnownChecksum()
    ensures Crc(0, [49, 50, 51, 52, 53, 54, 55, 56, 57]) == 0xe9c6_d914_c4b8_d9ca
  {
    hide Step, Tab;
    Entry49();
    Entry200();
    Entry165();
    Entry152();
    Entry197();
    Entry59();
    Entry52();
    Entry125();
    Entry251();
    StepTo(0, 49, 49, 0xfdc1_7184_a9f7_39fa, 0xfdc1_7184_a9f7_39fa);
    StepTo(0xfdc1_7184_a9f7_39fa, 50, 200, 0xe1fe_a520_be31_1aaf, 0xe103_6451_3a98_ed96);
    StepTo(0xe103_6451_3a98_ed96, 51, 165, 0xd55d_f8e5_1543_2941, 0xd5bc_fb81_4479_b1ac);
    StepTo(0xd5bc_fb81_4479_b1ac, 52, 152, 0x438c_80a6_4ce1_5841, 0x4359_3c5d_cda5_21f0);
    StepTo(0x4359_3c5d_cda5_21f0, 53, 197, 0xf036_dc2f_7e51_db2c, 0xf075_8513_239c_7e0d);
    StepTo(0xf075_8513_239c_7e0d, 54, 59, 0xa359_7ca0_a188_d57d, 0xa3a9_0925_b2ab_4903);
    StepTo(0xa3a9_0925_b2ab_4903, 55, 52, 0x4721_e43f_0183_060c, 0x4782_4d36_2431_ad45);
    StepTo(0x4782_4d36_2431_ad45, 56, 125, 0x49ab_a2fe_23cc_5c6f, 0x49ec_20b3_15e8_6dc2);
    StepTo(0x49ec_20b3_15e8_6dc2, 57, 251, 0xe98f_3534_77ad_31a7, 0xe9c6_d914_c4b8_d9ca);
  }
}

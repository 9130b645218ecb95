/** lzf_compress (VERY_FAST) and lzf_decompress (CHECK_INPUT), over byte buffers. */
module Lzf {
  import opened Bytes
  import opened LzfFormat

  const HSIZE: nat := 65536

  // ----- lzf_decompress -----

  /** Returns the number of bytes decompressed, or 0 and the error that errno is set to. */
  method Decompress(input: seq<Byte>, out: array<Byte>) returns (n: nat, outcome: Outcome)
    requires input != []
    modifies out
    ensures outcome == Decode(input, [], out.Length)
    ensures n == if outcome.Done? then |outcome.data| else 0
    ensures outcome.Done? ==> n <= out.Length && out[..n] == outcome.data
  {
    var ip, op := 0, 0;
    assert input[0..] == input && out[..0] == [];
    while ip < |input|
      invariant 0 <= ip <= |input| && 0 <= op <= out.Length
      invariant Decode(input[ip..], out[..op], out.Length) == Decode(input, [], out.Length)
      decreases |input| - ip
    {
      hide Decode;
      var error;
      if input[ip] < 32 {
        ip, op, error := LiteralRun(input, ip, out, op);
      } else {
        ip, op, error := BackReference(input, ip, out, op);
      }
      if error != Done([]) { return 0, error; }
    }
    assert input[ip..] == [];
    return op, Done(out[..op]);
  }

  /** A control byte below 32 and its literals; Done([]) says that there was no error. */
  method LiteralRun(input: seq<Byte>, ip0: nat, out: array<Byte>, op0: nat) returns (ip: nat, op: nat, error: Outcome)
    requires ip0 < |input| && input[ip0] < 32 && op0 <= out.Length
    modifies out
    ensures error == Done([]) ==>
              && ip0 < ip <= |input| && op <= out.Length
              && Decode(input[ip..], out[..op], out.Length) == old(Decode(input[ip0..], out[..op0], out.Length))
    ensures error != Done([]) ==> error == old(Decode(input[ip0..], out[..op0], out.Length))
    ensures error == Done([]) || error == TooBig || error == Invalid
  {
    ip, op, error := ip0, op0, Done([]);
    ghost var s, o := input[ip..], out[..op];
    var ctrl: int := input[ip];
    ip := ip + 1;
    ctrl := ctrl + 1;
    if op + ctrl > out.Length { return ip, op, TooBig; }
    if ip + ctrl > |input| { return ip, op, Invalid; }
    assert s[ctrl + 1..] == input[ip + ctrl..] && s[1..ctrl + 1] == input[ip..ip + ctrl];
    ip, op := CopyLiterals(input, ip, out, op, ctrl);
  }

  /** A back reference; Done([]) says that there was no error. */
  method BackReference(input: seq<Byte>, ip0: nat, out: array<Byte>, op0: nat)
    returns (ip: nat, op: nat, error: Outcome)
    requires ip0 < |input| && input[ip0] >= 32 && op0 <= out.Length
    modifies out
    ensures error == Done([]) ==>
              && ip0 < ip <= |input| && op <= out.Length
              && Decode(input[ip..], out[..op], out.Length) == old(Decode(input[ip0..], out[..op0], out.Length))
    ensures error != Done([]) ==> error == old(Decode(input[ip0..], out[..op0], out.Length))
    ensures error == Done([]) || error == TooBig || error == Invalid
  {
    ip, op, error := ip0, op0, Done([]);
    ghost var s, o := input[ip..], out[..op];
    var ctrl: int := input[ip];
    ip := ip + 1;
    var len := ctrl / 32;
    var ref := op - ctrl % 32 * 256 - 1;
    if ip >= |input| { return ip, op, Invalid; }
    if len == 7 {
      len := len + input[ip];
      ip := ip + 1;
      if ip >= |input| { return ip, op, Invalid; }
    }
    ref := ref - input[ip];
    ip := ip + 1;
    assert TokenSize(s) == ip - ip0 && RefLen(s) == len + 2 && RefDist(s) == op - ref;
    assert s[TokenSize(s)..] == input[ip..];
    hide TokenSize, RefLen, RefDist;
    if op + len + 2 > out.Length { return ip, op, TooBig; }
    if ref < 0 { return ip, op, Invalid; }
    op := CopyRef(out, ref, op, len);
  }

  /** do *op++ = *ip++; while (--ctrl) */
  method CopyLiterals(input: seq<Byte>, ip0: nat, out: array<Byte>, op0: nat, ctrl: nat) returns (ip: nat, op: nat)
    requires 1 <= ctrl && ip0 + ctrl <= |input| && op0 + ctrl <= out.Length
    modifies out
    ensures ip == ip0 + ctrl && op == op0 + ctrl
    ensures out[..op] == old(out[..op0]) + input[ip0..ip]
  {
    ip, op := ip0, op0;
    var left := ctrl;
    while left > 0
      invariant 0 <= left <= ctrl && ip == ip0 + ctrl - left && op == op0 + ctrl - left
      invariant out[..op] == old(out[..op0]) + input[ip0..ip]
    {
      out[op] := input[ip];
      op, ip, left := op + 1, ip + 1, left - 1;
    }
  }

  /** Two bytes, and then do *op++ = *ref++; while (--len) */
  method CopyRef(out: array<Byte>, ref0: nat, op0: nat, len0: nat) returns (op: nat)
    requires 1 <= len0 && ref0 < op0 && op0 + len0 + 2 <= out.Length
    modifies out
    ensures op == op0 + len0 + 2
    ensures out[..op] == Copy(old(out[..op0]), op0 - ref0, len0 + 2)
  {
    hide Copy;
    var ref, len := ref0, len0;
    op := CopyByte(out, ref, op0, len + 1);
    ref := ref + 1;
    op := CopyByte(out, ref, op, len);
    ref := ref + 1;
    while len > 0
      invariant 0 <= len <= len0 && op == op0 + 2 + len0 - len && op - ref == op0 - ref0 && ref >= 0
      invariant Copy(out[..op], op0 - ref0, len) == Copy(old(out[..op0]), op0 - ref0, len0 + 2)
    {
      op := CopyByte(out, ref, op, len - 1);
      ref, len := ref + 1, len - 1;
    }
  }

  /** *op++ = *ref, one step of the copy that is still to go on for left bytes. */
  method CopyByte(out: array<Byte>, ref: nat, op0: nat, ghost left: nat) returns (op: nat)
    requires ref < op0 < out.Length
    modifies out
    ensures op == op0 + 1
    ensures Copy(out[..op], op0 - ref, left) == Copy(old(out[..op0]), op0 - ref, left + 1)
  {
    out[op0] := out[ref];
    op := op0 + 1;
    assert out[..op] == old(out[..op0]) + [old(out[..op0])[ref]];
  }

  // ----- lzf_compress -----

  /** op points behind lit literals whose run has not been closed; its header goes to op - lit - 1.
      Everything before that decodes to the input before those literals, and takes at most 33 bytes
      for 32. */
  ghost predicate OpenRun(input: seq<Byte>, out: seq<Byte>, ip: int, op: int, lit: int) {
    && 0 <= lit < MAX_LIT && lit <= ip <= |input| && lit + 1 <= op <= |out|
    && Encodes(out[..op - lit - 1], input[..ip - lit])
    && out[op - lit..op] == input[ip - lit..ip]
    && 32 * (op - lit - 1) <= 33 * (ip - lit)
  }

  /** No run is open. */
  ghost predicate Closed(input: seq<Byte>, out: seq<Byte>, ip: int, op: int) {
    && 0 <= ip <= |input| && 0 <= op <= |out|
    && Encodes(out[..op], input[..ip])
  }

  /** op[- lit - 1] = lit - 1; op -= !lit */
  method StopRun(input: seq<Byte>, out: array<Byte>, ghost ip: int, op0: int, lit: int) returns (op: int)
    requires OpenRun(input, out[..], ip, op0, lit)
    modifies out
    ensures op == (if lit == 0 then op0 - 1 else op0) && Closed(input, out[..], ip, op)
  {
    ghost var before := out[..op0 - lit - 1];
    ghost var run := input[ip - lit..ip];
    assert run == out[op0 - lit..op0];
    out[op0 - lit - 1] := (lit - 1) % 256;
    op := if lit == 0 then op0 - 1 else op0;
    if lit > 0 {
      EncodesRun(before, run, input[..ip - lit]);
      assert input[..ip - lit] + run == input[..ip];
      assert out[..op] == before + ([lit - 1] + run);
    } else {
      assert out[..op] == before;
    }
  }

  /** lit++; *op++ = *ip++; and a new run when this one is full */
  method AddLiteral(input: seq<Byte>, out: array<Byte>, ip0: int, op0: int, lit0: int)
    returns (ip: int, op: int, lit: int)
    requires OpenRun(input, out[..], ip0, op0, lit0) && ip0 < |input| && op0 + 1 < out.Length
    modifies out
    ensures ip == ip0 + 1 && OpenRun(input, out[..], ip, op, lit)
    ensures if lit0 + 1 == MAX_LIT then op == op0 + 2 && lit == 0 else op == op0 + 1 && lit == lit0 + 1
  {
    ip, op, lit := ip0, op0, lit0;
    ghost var was := out[..];
    lit := lit + 1;
    out[op] := input[ip];
    op, ip := op + 1, ip + 1;
    assert out[..op - lit - 1] == was[..op - lit - 1];
    assert out[op - lit..op] == was[op - lit..op - 1] + [input[ip - 1]] == input[ip - lit..ip];
    if lit == MAX_LIT {
      op := CloseFull(input, out, ip, op);
      lit := 0;
    }
  }

  /** The header of a run of 32 literals is written, and a new run begun. */
  method CloseFull(input: seq<Byte>, out: array<Byte>, ghost ip: int, op0: int) returns (op: int)
    requires MAX_LIT <= ip <= |input| && MAX_LIT + 1 <= op0 < out.Length
    requires Encodes(out[..op0 - MAX_LIT - 1], input[..ip - MAX_LIT])
    requires out[op0 - MAX_LIT..op0] == input[ip - MAX_LIT..ip]
    requires 32 * (op0 - MAX_LIT - 1) <= 33 * (ip - MAX_LIT)
    modifies out
    ensures op == op0 + 1 && OpenRun(input, out[..], ip, op, 0)
  {
    hide Encodes;
    ghost var before, run := out[..op0 - MAX_LIT - 1], input[ip - MAX_LIT..ip];
    out[op0 - MAX_LIT - 1] := MAX_LIT - 1;
    EncodesRun(before, run, input[..ip - MAX_LIT]);
    assert input[..ip - MAX_LIT] + run == input[..ip];
    assert out[..op0] == before + ([31] + run);
    op := op0 + 1;
  }

  /** Four of the sixteen unrolled rounds of the comparison; len0 is the last position known to match. */
  method CompareFour(input: seq<Byte>, ref: nat, ip: nat, len0: nat) returns (len: nat, differs: bool)
    requires Same(input, ref, ip, len0 + 1) && ip + len0 + 4 < |input|
    ensures len0 < len <= len0 + 4
    ensures differs ==> Same(input, ref, ip, len) && input[ref + len] != input[ip + len]
    ensures !differs ==> len == len0 + 4 && Same(input, ref, ip, len + 1)
  {
    assert ref < ip;
    hide Same;
    len := len0;
    len := len + 1; if input[ref + len] != input[ip + len] { return len, true; } Extend(input, ref, ip, len);
    len := len + 1; if input[ref + len] != input[ip + len] { return len, true; } Extend(input, ref, ip, len);
    len := len + 1; if input[ref + len] != input[ip + len] { return len, true; } Extend(input, ref, ip, len);
    len := len + 1; if input[ref + len] != input[ip + len] { return len, true; } Extend(input, ref, ip, len);
    return len, false;
  }

  /** The comparison loop; the first three bytes are known to match. It ends at a difference or at the limit, which the
      unrolled rounds pass by one or two if it is 18 or 17. */
  method MatchLength(input: seq<Byte>, ref: nat, ip: nat, maxlen: nat) returns (len: nat)
    requires ref < ip && 3 <= maxlen && ip + 2 + maxlen <= |input|
    requires input[ref..ref + 3] == input[ip..ip + 3]
    ensures 3 <= len && (len <= maxlen || (16 < maxlen && len <= 19))
    ensures Same(input, ref, ip, len) && (len >= maxlen || input[ref + len] != input[ip + len])
  {
    len := 2;
    assert Same(input, ref, ip, 3);
    hide Same;
    if maxlen > 16 {
      var differs;
      len, differs := CompareFour(input, ref, ip, len);
      if differs { return; }
      len, differs := CompareFour(input, ref, ip, len);
      if differs { return; }
      len, differs := CompareFour(input, ref, ip, len);
      if differs { return; }
      len, differs := CompareFour(input, ref, ip, len);
      if differs { return; }
    }
    len := len + 1;
    while len < maxlen && input[ref + len] == input[ip + len]
      invariant 3 <= len && (len <= maxlen || (16 < maxlen && len <= 19))
      invariant Same(input, ref, ip, len)
      decreases maxlen - len
    {
      Extend(input, ref, ip, len);
      len := len + 1;
    }
  }

  ghost predicate Same(input: seq<Byte>, ref: nat, ip: nat, len: nat) {
    ref < ip && ip + len <= |input| && input[ref..ref + len] == input[ip..ip + len]
  }

  lemma {:induction false} Extend(input: seq<Byte>, ref: nat, ip: nat, len: nat)
    ensures Same(input, ref, ip, len) && ip + len < |input| && input[ref + len] == input[ip + len]
        ==> Same(input, ref, ip, len + 1)
  {
    if Same(input, ref, ip, len) && ip + len < |input| && input[ref + len] == input[ip + len] {
      assert input[ref..ref + len + 1] == input[ref..ref + len] + [input[ref + len]];
      assert input[ip..ip + len + 1] == input[ip..ip + len] + [input[ip + len]];
    }
  }

  /** The bytes of the back reference, after which a new run is open. */
  method EmitRef(input: seq<Byte>, out: array<Byte>, ip: nat, ref: nat, op0: nat, octets: nat) returns (op: nat)
    requires Closed(input, out[..], ip, op0) && op0 + 4 < out.Length
    requires ref < ip && ip - ref - 1 < MAX_OFF && 3 <= octets <= MAX_REF
    requires ip + octets <= |input| && input[ref..ref + octets] == input[ip..ip + octets]
    requires 32 * op0 <= 33 * ip + 31
    modifies out
    ensures op == op0 + (if octets < 9 then 3 else 4) && OpenRun(input, out[..], ip + octets, op, 0)
  {
    hide Encodes, Copy;
    ghost var before := out[..op0];
    var off := ip - ref - 1;
    var len := octets - 2;
    op := op0;
    if len < 7 {
      out[op] := off / 256 + len * 32;
      op := op + 1;
    } else {
      out[op] := off / 256 + 7 * 32;
      out[op + 1] := len - 7;
      op := op + 2;
    }
    out[op] := off % 256;
    op := op + 1;
    assert out[..op] == before + RefToken(off, len);
    EncodesRef(before, input[..ip], off, len);
    CopyMatch(input, ip, off + 1, octets);
    op := op + 1;
  }

  /** FRST and NEXT: the last bytes read, as an unsigned int. */
  function First(input: seq<Byte>, ip: int): int
    requires 0 <= ip && ip + 1 < |input|
  {
    var high: int := input[ip];
    high * 256 + input[ip + 1]
  }

  function Next(hval: int, input: seq<Byte>, ip: int): int
    requires 0 <= ip && ip + 2 < |input|
  {
    hval * 256 % 0x1_0000_0000 + input[ip + 2]
  }

  /** IDX as VERY_FAST has it; the compressor works with any function into the table. */
  function Idx(h: int): (i: int)
    ensures 0 <= i < HSIZE
  {
    (h / 256 - h * 5) % HSIZE
  }

  /** A buffer in which compression cannot run out of space. */
  predicate Roomy(inLen: int, outLen: int) {
    32 * outLen > 33 * inLen + 160
  }

  // ----- how much longer the result may be -----

  /** The length of a code without any back reference. */
  function Longest(len: nat): (n: nat)
    ensures 32 * n <= 33 * len + 31 < 32 * (n + 1)
  {
    len + (len + 31) / 32
  }

  /** The lengths for which a result is always less than 104% of the input. */
  predicate LessThan104(len: nat) {
    25 * ((len + 31) / 32) < len
  }

  /** Only lengths up to 100 are not among them. */
  lemma {:induction false} LessThan104Exactly(len: nat)
    ensures LessThan104(len) <==> 100 * Longest(len) < 104 * len
    ensures len > 100 ==> LessThan104(len)
    ensures LessThan104(len) <==> 26 <= len <= 32 || 51 <= len <= 64 || 76 <= len <= 96 || 101 <= len
  {
  }

  /** No byte occurs twice, so that nothing matches. */
  ghost predicate Distinct(input: seq<Byte>) {
    forall i, j :: 0 <= i < j < |input| ==> input[i] != input[j]
  }

  /** Where the output stands if all input so far went into literal runs. */
  predicate AllLiterals(ip: int, op: int, lit: int) {
    ip >= 0 && op == ip + ip / MAX_LIT + 1 && lit == ip % MAX_LIT
  }

  lemma {:induction false} NoMatch(input: seq<Byte>, ref: int, ip: int)
    requires Distinct(input) && 0 < ref < ip < |input|
    ensures input[ref] != input[ip]
  {
  }

  lemma {:induction false} NextLiteral(ip: int, op: int, lit: int)
    requires AllLiterals(ip, op, lit)
    ensures var full := lit + 1 == MAX_LIT;
            AllLiterals(ip + 1, if full then op + 2 else op + 1, if full then 0 else lit + 1)
  {
  }

  /** Room for the literals before the last two bytes, and three bytes more. */
  predicate RoomForLiterals(len: nat, outLen: nat)
    requires len >= 2
  {
    len + (len - 2) / MAX_LIT + 2 <= outLen
  }

  lemma {:induction false} RoomIs(len: nat, op: int, lit: int, outLen: nat)
    requires len >= 2 && AllLiterals(len - 2, op, lit)
    ensures RoomForLiterals(len, outLen) <==> op + 3 <= outLen
  {
  }

  lemma {:induction false} NoRoomAtAll(len: nat)
    requires len >= 2
    ensures !RoomForLiterals(len, 0)
  {
  }

  lemma {:induction false} NoRoom(len: nat, ip: int, op: int, lit: int, outLen: nat)
    requires len >= 2 && ip < len - 2 && AllLiterals(ip, op, lit) && op >= outLen
    ensures !RoomForLiterals(len, outLen)
  {
  }

  lemma {:induction false} LiteralsEnd(len: nat, op: int, lit: int)
    requires AllLiterals(len, op, lit)
    ensures (if lit == 0 then op - 1 else op) == Longest(len)
  {
  }

  lemma {:induction false} RoomLeft(input: seq<Byte>, out: seq<Byte>, ip: int, op: int, lit: int, outLen: nat)
    requires OpenRun(input, out, ip, op, lit)
    ensures 0 <= ip <= |input|
    ensures Roomy(|input|, outLen) ==> op + 4 < outLen
  {
  }

  lemma {:induction false} SizeAtEnd(input: seq<Byte>, out: seq<Byte>, ip: int, op: int, lit: int)
    requires OpenRun(input, out, ip, op, lit)
    ensures (if lit == 0 then op - 1 else op) <= Longest(ip)
  {
  }

  // ----- how short it must be -----

  ghost predicate AllSame(input: seq<Byte>) {
    forall i, j :: 0 <= i < |input| && 0 <= j < |input| ==> input[i] == input[j]
  }

  /** What the hash of three and of four or more equal bytes is made from. */
  function Three(b: int): int { b * 0x1_0101 }
  function Four(b: int): int { b * 0x101_0101 }

  lemma {:induction false} HashesSame(input: seq<Byte>, ip: int)
    requires AllSame(input) && 0 <= ip && ip + 2 < |input|
    ensures var b := input[0];
            Next(First(input, ip), input, ip) == Three(b) && Next(Three(b), input, ip) == Four(b)
            && Next(Four(b), input, ip) == Four(b)
  {
  }

  /** What three bytes for every longest reference, and some more, are enough for. */
  function Short(len: nat): nat { 3 * (len / MAX_REF) + 9 }

  /** Where the compressor stands in an input of len equal bytes: behind the first one or two; behind m of the longest
      references; or almost at the end. slot is the entry of the hash table that the next three bytes lead to. */
  ghost predicate SameRun(len: nat, b: int, ip: int, op: int, lit: int, hval: int, slot: int) {
    && (ip == 0 ==> op == 1 && lit == 0)
    && (ip == 1 ==> op == 2 && lit == 1 && hval == Three(b))
    && (ip >= 2 ==> hval == Four(b) && slot == ip - 1)
    && (ip >= 2 ==> Behind(len, ip, op, lit))
    && 0 <= ip <= len
  }

  ghost predicate Behind(len: nat, ip: int, op: int, lit: int) {
    || (ip == 2 && op == 3 && lit == 2)
    || (exists m: nat :: m > 0 && ip == 2 + MAX_REF * m && op == 4 + 3 * m && lit == 0)
    || (ip >= len - 4 && AtEnd(len, ip, op, lit))
  }

  predicate AtEnd(len: nat, ip: int, op: int, lit: int) {
    op + (len - ip) <= Short(len) && lit + (len - ip) < MAX_LIT
  }

  lemma {:induction false} EndIsNear(len: nat, ip: int, op: int, lit: int)
    requires Behind(len, ip, op, lit) && len - 4 <= ip <= len
    ensures AtEnd(len, ip, op, lit)
  {
    if m: nat :| m > 0 && ip == 2 + MAX_REF * m && op == 4 + 3 * m && lit == 0 {
      assert len / MAX_REF >= m;
    }
  }

  lemma {:induction false} SameRunEnds(len: nat, b: int, ip: int, op: int, lit: int, hval: int, slot: int)
    requires SameRun(len, b, ip, op, lit, hval, slot) && ip >= len - 2
    ensures AtEnd(len, ip, op, lit)
  {
    if ip >= 2 { EndIsNear(len, ip, op, lit); }
  }

  /** One more literal is written at the start and near the end only. */
  lemma {:induction false} LiteralBehind(len: nat, ip: int, op: int, lit: int)
    requires Behind(len, ip, op, lit) && len - 4 <= ip < len
    ensures lit + 1 < MAX_LIT && Behind(len, ip + 1, op + 1, lit + 1)
  {
    EndIsNear(len, ip, op, lit);
  }

  /** A reference costs three bytes more than the run before it, and is as long as can be. */
  lemma {:induction false} ReferenceBehind(len: nat, ip0: int, op0: int, lit0: int, ip: int, op: int)
    requires Behind(len, ip0, op0, lit0) && 2 <= ip0 && ip0 + 4 < len
    requires ip0 < ip <= len && ip - ip0 <= MAX_REF && (ip - ip0 == MAX_REF || ip >= len - 2)
    requires op == (if lit0 == 0 then op0 - 1 else op0) + (if ip - ip0 < 9 then 3 else 4)
    ensures Behind(len, ip, op, 0)
  {
    var m: nat := if ip0 == 2 then 0 else (ip0 - 2) / MAX_REF;
    if ip - ip0 == MAX_REF {
      assert ip == 2 + MAX_REF * (m + 1) && op == 4 + 3 * (m + 1);
    } else {
      assert len / MAX_REF >= m;
    }
  }

  lemma {:induction false} SameLiteral(len: nat, b: int, ip: int, op: int, lit: int, hval: int, slot: int, slot': int)
    requires SameRun(len, b, ip, op, lit, hval, slot) && ip < len - 2 && (ip <= 1 || ip + 4 >= len)
    requires ip >= 1 ==> slot' == ip
    ensures lit + 1 < MAX_LIT
    ensures SameRun(len, b, ip + 1, op + 1, lit + 1, if ip == 0 then Three(b) else Four(b), slot')
  {
    if ip >= 2 { LiteralBehind(len, ip, op, lit); }
  }

  lemma {:induction false} SameReference(input: seq<Byte>, ref: int, ip0: int, op0: int, lit0: int, hval: int,
                                         slot: int, ip: int, op: int)
    requires input != [] && AllSame(input) && SameRun(|input|, input[0], ip0, op0, lit0, hval, slot)
    requires LongMatch(input, ref, ip0, ip) && 0 < ref && ip0 + 4 < |input|
    requires op == (if lit0 == 0 then op0 - 1 else op0) + (if ip - ip0 < 9 then 3 else 4)
    ensures ip >= |input| - 2 ==> AtEnd(|input|, ip, op, 0)
    ensures SameRun(|input|, input[0], ip, op, 0, Four(input[0]), ip - 1)
  {
    hide Four, AtEnd;
    assert ip < |input| ==> input[ref + (ip - ip0)] == input[ip];
    ReferenceBehind(|input|, ip0, op0, lit0, ip, op);
    if ip >= |input| - 2 { EndIsNear(|input|, ip, op, 0); }
  }

  /** In an input of equal bytes the entry for the position before leads to a match. */
  lemma {:induction false} SameMatches(input: seq<Byte>, ip0: int, op0: int, lit0: int, hval: int, slot: int)
    requires AllSame(input) && 2 <= ip0 && ip0 + 4 < |input|
    requires SameRun(|input|, input[0], ip0, op0, lit0, hval, slot)
    ensures slot == ip0 - 1 && hval == Four(input[0])
    ensures input[slot] == input[ip0] && input[slot + 1] == input[ip0 + 1] && input[slot + 2] == input[ip0 + 2]
  {
    hide Four;
  }

  lemma {:induction false} SameHash(input: seq<Byte>, ip: int, op: int, lit: int, hval: int, slot: int)
    requires input != [] && AllSame(input) && SameRun(|input|, input[0], ip, op, lit, hval, slot) && ip + 2 < |input|
    requires ip == 0 ==> hval == First(input, 0)
    ensures Next(hval, input, ip) == if ip == 0 then Three(input[0]) else Four(input[0])
  {
    HashesSame(input, ip);
    hide First, Next, Three, Four;
  }

  // ----- the compressor -----

  /** The hash table starts with whatever is in memory. One more byte than outLen is written to in
      the worst case, so that the buffer has outLen + 1 bytes. */
  method Compress(input: seq<Byte>, out: array<Byte>, outLen: nat, idx: int -> int) returns (n: nat)
    requires out.Length == outLen + 1
    requires forall h :: 0 <= idx(h) < HSIZE
    modifies out
    ensures n > 0 ==> n <= outLen && Encodes(out[..n], input) && n <= Longest(|input|)
    ensures n > 0 && Distinct(input) ==> n == Longest(|input|)
    ensures n > 0 && LessThan104(|input|) ==> 100 * n < 104 * |input|
    ensures n > 0 && AllSame(input) ==> n <= Short(|input|)
    ensures Distinct(input) && |input| >= 2 ==> (n > 0 <==> RoomForLiterals(|input|, outLen))
    ensures input != [] && Roomy(|input|, outLen) ==> n > 0
  {
    hide OpenRun, Distinct, AllSame, AllLiterals, Encodes, Longest, LessThan104, SameRun, Short, First, RoomForLiterals,
         RoundIs, Usable, Next, Primed, Four;
    if |input| >= 2 { NoRoomAtAll(|input|); }
    if input == [] || outLen == 0 { return 0; }
    var htab := new int[HSIZE];
    var ip, op, lit, hval := 0, 1, 0, 0;
    NothingYet(input, out[..]);
    if |input| >= 2 {
      hval := First(input, 0);
      FirstPrimed(input, 0);
    }
    StartsSame(|input|, input[0], hval, htab[idx(Four(input[0]))]);
    var failed, ended := false, false;
    while ip < |input| - 2 && !ended
      invariant OpenRun(input, out[..], ip, op, lit) && 0 <= ip <= |input| && (ended ==> ip >= |input| - 2)
      invariant Distinct(input) ==> AllLiterals(ip, op, lit) && (|input| >= 2 ==> ip <= |input| - 2 && !ended)
      invariant AllSame(input) ==> if ended then AtEnd(|input|, ip, op, lit)
                                   else SameRun(|input|, input[0], ip, op, lit, hval, htab[idx(Four(input[0]))])
      invariant ip == 0 && |input| >= 2 ==> hval == First(input, 0)
      invariant !ended && |input| >= 2 ==> Primed(hval, input, ip)
      decreases |input| - ip, !ended
    {
      ghost var t0, ip0, op0, lit0, hval0 := htab[..], ip, op, lit, hval;
      ip, op, lit, hval, failed, ended := Round(input, out, outLen, idx, htab, ip, op, lit, hval);
      if failed {
        if Distinct(input) {
          NeverUsable(input, t0[idx(Next(hval0, input, ip0))], ip0);
          NoRoom(|input|, ip0, op0, lit0, outLen);
        }
        return 0;
      }
      if Distinct(input) {
        DistinctRound(input, idx, t0, ip0, op0, lit0, hval0, htab[..], ip, op, lit, hval, ended);
      }
      if AllSame(input) {
        SameRound(input, idx, t0, ip0, op0, lit0, hval0, htab[..], ip, op, lit, hval, ended);
      }
      RoundEnds(input, idx, t0, ip0, op0, lit0, hval0, htab[..], ip, op, lit, hval, ended);
    }
    RoomLeft(input, out[..], ip, op, lit, outLen);
    if Distinct(input) && |input| >= 2 { RoomIs(|input|, op, lit, outLen); }
    if op + 3 > outLen { return 0; }
    if AllSame(input) && !ended { SameRunEnds(|input|, input[0], ip, op, lit, hval, htab[idx(Four(input[0]))]); }
    n := Finish(input, out, outLen, ip, op, lit);
    LessThan104Exactly(|input|);
  }

  lemma {:induction false} StartsSame(len: nat, b: int, hval: int, slot: int)
    ensures SameRun(len, b, 0, 1, 0, hval, slot)
  {
  }

  /** What one round of the loop does: it enters the position in the table, and writes a reference exactly if the
      entry that was there offers a match; then the last two positions of the match are entered, unless it is the
      end of the loop. */
  ghost predicate RoundIs(input: seq<Byte>, idx: int -> int, t0: seq<int>, ip0: int, op0: int, lit0: int, hval0: int,
                          t: seq<int>, ip: int, op: int, lit: int, hval: int, ended: bool)
    requires |t0| == HSIZE && (forall h :: 0 <= idx(h) < HSIZE) && 0 <= ip0 < |input| - 2
  {
    var h := Next(hval0, input, ip0);
    var ref, t1 := t0[idx(h)], t0[idx(h) := ip0];
    if Usable(input, ref, ip0) then
      && LongMatch(input, ref, ip0, ip) && 2 <= ip && lit == 0
      && op == (if lit0 == 0 then op0 - 1 else op0) + (if ip - ip0 < 9 then 3 else 4)
      && ended == (ip >= |input| - 2)
      && t == (if ended then t1 else Reentered(input, idx, t1, ip))
      && (!ended ==> hval == Next(Next(First(input, ip - 2), input, ip - 2), input, ip - 1))
    else
      && ip == ip0 + 1 && !ended && t == t1 && hval == h
      && if lit0 + 1 == MAX_LIT then op == op0 + 2 && lit == 0 else op == op0 + 1 && lit == lit0 + 1
  }

  /** One round of the loop; ended says that it was left behind a match. */
  method Round(input: seq<Byte>, out: array<Byte>, outLen: nat, idx: int -> int, htab: array<int>, ip0: int, op0: int,
               lit0: int, hval0: int) returns (ip: int, op: int, lit: int, hval: int, failed: bool, ended: bool)
    requires out.Length == outLen + 1 && htab.Length == HSIZE
    requires forall h :: 0 <= idx(h) < HSIZE
    requires OpenRun(input, out[..], ip0, op0, lit0) && 0 <= ip0 < |input| - 2 && Primed(hval0, input, ip0)
    modifies out, htab
    ensures failed ==> !Roomy(|input|, outLen)
    ensures failed && !Usable(input, old(htab[idx(Next(hval0, input, ip0))]), ip0) ==> op0 >= outLen
    ensures !failed ==>
              && OpenRun(input, out[..], ip, op, lit) && ip0 < ip <= |input| && (!ended ==> Primed(hval, input, ip))
              && RoundIs(input, idx, old(htab[..]), ip0, op0, lit0, hval0, htab[..], ip, op, lit, hval, ended)
  {
    hide OpenRun, First, Next, Primed, Reentered, LongMatch;
    ip, op, lit, failed, ended := ip0, op0, lit0, false, false;
    var ref, found;
    hval, ref, found := Probe(input, idx, htab, ip, hval0);
    if 0 < ref < ip && ip + 4 < |input| { UsableIs(input, ref, ip); }
    RoomLeft(input, out[..], ip, op, lit, outLen);
    if found {
      ip, op, lit, failed := Reference(input, out, outLen, ref, ip, op, lit);
      if failed { return; }
      ended := ip >= |input| - 2;
      if !ended { hval := Reenter(input, idx, htab, ip); }
    } else {
      if op >= outLen {
        failed := true;
        return;
      }
      ip, op, lit := AddLiteral(input, out, ip, op, lit);
    }
  }

  lemma {:induction false} RoundEnds(input: seq<Byte>, idx: int -> int, t0: seq<int>, ip0: int, op0: int, lit0: int,
                                     hval0: int, t: seq<int>, ip: int, op: int, lit: int, hval: int, ended: bool)
    requires |t0| == HSIZE && (forall h :: 0 <= idx(h) < HSIZE) && 0 <= ip0 < |input| - 2
    requires RoundIs(input, idx, t0, ip0, op0, lit0, hval0, t, ip, op, lit, hval, ended)
    ensures ended ==> ip >= |input| - 2
  {
  }

  lemma {:induction false} DistinctRound(input: seq<Byte>, idx: int -> int, t0: seq<int>, ip0: int, op0: int, lit0: int,
                                         hval0: int, t: seq<int>, ip: int, op: int, lit: int, hval: int, ended: bool)
    requires |t0| == HSIZE && (forall h :: 0 <= idx(h) < HSIZE) && 0 <= ip0 < |input| - 2
    requires Distinct(input) && AllLiterals(ip0, op0, lit0)
    requires RoundIs(input, idx, t0, ip0, op0, lit0, hval0, t, ip, op, lit, hval, ended)
    ensures !ended && ip == ip0 + 1 && AllLiterals(ip, op, lit)
  {
    hide Next, Reentered, LongMatch, First;
    NeverUsable(input, t0[idx(Next(hval0, input, ip0))], ip0);
    NextLiteral(ip0, op0, lit0);
  }

  lemma {:induction false} NeverUsable(input: seq<Byte>, ref: int, ip: int)
    requires Distinct(input)
    ensures !Usable(input, ref, ip)
  {
    if Usable(input, ref, ip) {
      UsableIs(input, ref, ip);
      NoMatch(input, ref, ip);
    }
  }

  lemma {:induction false} SameRound(input: seq<Byte>, idx: int -> int, t0: seq<int>, ip0: int, op0: int, lit0: int,
                                     hval0: int, t: seq<int>, ip: int, op: int, lit: int, hval: int, ended: bool)
    requires |t0| == HSIZE && (forall h :: 0 <= idx(h) < HSIZE) && 0 <= ip0 < |input| - 2 && |t| == HSIZE
    requires AllSame(input) && (ip0 == 0 ==> hval0 == First(input, 0))
    requires SameRun(|input|, input[0], ip0, op0, lit0, hval0, t0[idx(Four(input[0]))])
    requires RoundIs(input, idx, t0, ip0, op0, lit0, hval0, t, ip, op, lit, hval, ended)
    ensures if ended then AtEnd(|input|, ip, op, lit)
            else SameRun(|input|, input[0], ip, op, lit, hval, t[idx(Four(input[0]))])
  {
    hide Next, First, AllSame, SameRun, Four, Three, AtEnd, LongMatch, Usable;
    var slot := t0[idx(Four(input[0]))];
    SameHash(input, ip0, op0, lit0, hval0, slot);
    var h := Next(hval0, input, ip0);
    var ref := t0[idx(h)];
    if Usable(input, ref, ip0) {
      UsableFar(input, ref, ip0);
      SameReference(input, ref, ip0, op0, lit0, hval0, slot, ip, op);
      if !ended {
        HashesSame(input, ip - 2);
        HashesSame(input, ip - 1);
      }
    } else {
      if 2 <= ip0 && ip0 + 4 < |input| {
        SameMatches(input, ip0, op0, lit0, hval0, slot);
        SameUsable(input, ip0);
      }
      SameLiteral(|input|, input[0], ip0, op0, lit0, hval0, slot, t[idx(Four(input[0]))]);
    }
  }

  lemma {:induction false} UsableFar(input: seq<Byte>, ref: int, ip: int)
    requires Usable(input, ref, ip)
    ensures 0 < ref < ip && ip + 4 < |input| && 2 <= ip
  {
  }

  lemma {:induction false} SameUsable(input: seq<Byte>, ip: int)
    requires AllSame(input) && 2 <= ip && ip + 4 < |input|
    ensures Usable(input, ip - 1, ip)
  {
    UsableIs(input, ip - 1, ip);
  }

  /** The position is entered in the table, and the entry that was there is looked at. */
  method Probe(input: seq<Byte>, idx: int -> int, htab: array<int>, ip: int, hval0: int)
    returns (hval: int, ref: int, found: bool)
    requires htab.Length == HSIZE && forall h :: 0 <= idx(h) < HSIZE
    requires 0 <= ip < |input| - 2 && Primed(hval0, input, ip)
    modifies htab
    ensures hval == Next(hval0, input, ip) && ref == old(htab[idx(hval)])
    ensures htab[..] == old(htab[..])[idx(hval) := ip]
    ensures found <==> Usable(input, ref, ip)
    ensures hval % 0x100_0000 == Trigram(input, ip) && Primed(hval, input, ip + 1)
  {
    hide Next, Primed, Trigram;
    NextPrimed(hval0, input, ip);
    hval := Next(hval0, input, ip);
    ref := htab[idx(hval)];
    htab[idx(hval)] := ip;
    if 0 < ref < ip && ip + 4 < |input| { UsableIs(input, ref, ip); }
    found := && 0 <= ip - ref - 1 < MAX_OFF
             && ip + 4 < |input|
             && ref > 0
             && input[ref] == input[ip] && input[ref + 1] == input[ip + 1]
             && input[ref + 2] == input[ip + 2];
  }

  /** The match that the entry of the table offers is one that the compressor takes. */
  predicate Usable(input: seq<Byte>, ref: int, ip: int) {
    && 0 <= ip && 0 <= ip - ref - 1 < MAX_OFF && ip + 4 < |input| && ref > 0
    && input[ref..ref + 3] == input[ip..ip + 3]
  }

  lemma {:induction false} UsableIs(input: seq<Byte>, ref: int, ip: int)
    requires 0 < ref < ip && ip + 4 < |input|
    ensures input[ref..ref + 3] == input[ip..ip + 3] <==>
              input[ref] == input[ip] && input[ref + 1] == input[ip + 1] && input[ref + 2] == input[ip + 2]
  {
    assert input[ref..ref + 3] == [input[ref], input[ref + 1], input[ref + 2]];
    assert input[ip..ip + 3] == [input[ip], input[ip + 1], input[ip + 2]];
  }

  /** Three bytes as a number. */
  function Trigram(input: seq<Byte>, ip: int): int
    requires 0 <= ip && ip + 2 < |input|
  {
    var a: int, b: int := input[ip], input[ip + 1];
    a * 0x1_0000 + b * 0x100 + input[ip + 2]
  }

  /** The low bytes of the hash value are the two bytes at ip, so that with the next one it is that of three. */
  predicate Primed(hval: int, input: seq<Byte>, ip: int)
    requires 0 <= ip
  {
    hval >= 0 && (ip + 1 < |input| ==> hval % 0x1_0000 == First(input, ip))
  }

  lemma {:induction false} FirstPrimed(input: seq<Byte>, ip: int)
    requires 0 <= ip && ip + 1 < |input|
    ensures Primed(First(input, ip), input, ip)
  {
  }

  lemma {:induction false} NextPrimed(hval: int, input: seq<Byte>, ip: int)
    requires 0 <= ip && ip + 2 < |input| && Primed(hval, input, ip)
    ensures Next(hval, input, ip) % 0x100_0000 == Trigram(input, ip)
    ensures Primed(Next(hval, input, ip), input, ip + 1)
  {
    NextNumber(hval, input[ip], input[ip + 1], input[ip + 2]);
  }

  lemma {:induction false} NextNumber(hval: int, a: Byte, b: Byte, c: Byte)
    requires hval >= 0 && hval % 0x1_0000 == (a as int) * 256 + b
    ensures var n := hval * 256 % 0x1_0000_0000 + c;
            n % 0x100_0000 == (a as int) * 0x1_0000 + (b as int) * 256 + c && n % 0x1_0000 == (b as int) * 256 + c
  {
    var h := hval * 256 % 0x1_0000_0000;
    LowBytes(hval);
    Second(a, b);
    AddByte(h, c, (hval % 0x1_0000) * 256);
  }

  lemma {:induction false} Second(a: Byte, b: Byte)
    ensures ((a as int) * 256 + b) % 256 == b
  {
  }

  lemma {:induction false} AddByte(h: int, c: Byte, low: int)
    requires h >= 0 && h % 0x100_0000 == low && low % 0x100 == 0
    ensures (h + c) % 0x100_0000 == low + c && (h + c) % 0x1_0000 == low % 0x1_0000 + c
  {
    AddToPage(h, c, low);
    AddToTwo(h, c, low);
  }

  lemma {:induction false} AddToPage(h: int, c: Byte, low: int)
    requires h >= 0 && h % 0x100_0000 == low && low % 0x100 == 0
    ensures (h + c) % 0x100_0000 == low + c
  {
    assert low <= 0x100_0000 - 0x100;
  }

  lemma {:induction false} AddToTwo(h: int, c: Byte, low: int)
    requires h >= 0 && h % 0x100_0000 == low && low % 0x100 == 0
    ensures (h + c) % 0x1_0000 == low % 0x1_0000 + c
  {
    var two := h % 0x1_0000;
    var k, m := h / 0x1_0000, low / 0x100;
    LowPage(h);
    assert low == 0x100 * m;
    LowTwo(m);
    assert two == low % 0x1_0000 <= 0x1_0000 - 0x100;
    assert h + c == 0x1_0000 * k + (two + c);
  }

  lemma {:induction false} LowPage(h: int) requires h >= 0 ensures h % 0x100_0000 % 0x1_0000 == h % 0x1_0000 {}

  lemma {:induction false} LowTwo(m: int)
    requires m >= 0
    ensures 0x100 * m % 0x1_0000 <= 0x1_0000 - 0x100
  {
    var q, r := m / 0x100, m % 0x100;
    assert 0x100 * m == 0x1_0000 * q + 0x100 * r;
  }

  lemma {:induction false} LowBytes(hval: int)
    requires hval >= 0
    ensures hval * 256 % 0x1_0000_0000 % 0x100_0000 == (hval % 0x1_0000) * 256
    ensures hval * 256 % 0x1_0000_0000 % 0x1_0000 == (hval % 0x100) * 256
    ensures hval % 0x100 == hval % 0x1_0000 % 0x100
  {
    var y := hval % 0x100_0000;
    Times256(hval);
    var k := hval / 0x100_0000;
    assert hval == 0x100_0000 * k + y;
    assert y % 0x1_0000 == hval % 0x1_0000 && y % 0x100 == hval % 0x100;
    Lower256(y);
  }

  lemma {:induction false} Times256(x: int)
    requires x >= 0
    ensures x * 256 % 0x1_0000_0000 == (x % 0x100_0000) * 256
  {
  }

  lemma {:induction false} Lower256(y: int)
    requires 0 <= y
    ensures y * 256 % 0x100_0000 == (y % 0x1_0000) * 256
    ensures y * 256 % 0x1_0000 == (y % 0x100) * 256
    ensures y % 0x1_0000 % 0x100 == y % 0x100
  {
    Lower256In24(y);
    Lower256In16(y);
  }

  lemma {:induction false} Lower256In24(y: int) requires y >= 0 ensures y * 256 % 0x100_0000 == (y % 0x1_0000) * 256 {}
  lemma {:induction false} Lower256In16(y: int) requires y >= 0 ensures y * 256 % 0x1_0000 == (y % 0x100) * 256 {}

  /** The table with the last two positions of the match before ip entered. */
  function Reentered(input: seq<Byte>, idx: int -> int, t: seq<int>, ip: int): (t': seq<int>)
    requires 2 <= ip < |input| && |t| == HSIZE && forall h :: 0 <= idx(h) < HSIZE
    ensures |t'| == |t|
  {
    var h := Next(First(input, ip - 2), input, ip - 2);
    if ip < |input| - 1 then t[idx(h) := ip - 2][idx(Next(h, input, ip - 1)) := ip - 1] else t
  }

  /** Behind a match: its last two positions are entered. */
  method Reenter(input: seq<Byte>, idx: int -> int, htab: array<int>, ip0: int) returns (hval: int)
    requires htab.Length == HSIZE && forall h :: 0 <= idx(h) < HSIZE
    requires 2 <= ip0 < |input| - 2
    modifies htab
    ensures hval == Next(Next(First(input, ip0 - 2), input, ip0 - 2), input, ip0 - 1) && Primed(hval, input, ip0)
    ensures htab[..] == Reentered(input, idx, old(htab[..]), ip0)
  {
    hide First, Next;
    var ip := ip0 - 2;
    FirstPrimed(input, ip);
    NextPrimed(First(input, ip), input, ip);
    NextPrimed(Next(First(input, ip), input, ip), input, ip + 1);
    hval := First(input, ip);
    hval := Next(hval, input, ip);
    htab[idx(hval)] := ip;
    ip := ip + 1;
    hval := Next(hval, input, ip);
    htab[idx(hval)] := ip;
    ip := ip + 1;
  }

  lemma {:induction false} NothingYet(input: seq<Byte>, out: seq<Byte>)
    requires out != []
    ensures OpenRun(input, out, 0, 1, 0) && AllLiterals(0, 1, 0)
  {
  }

  /** For every other length there is an input of which the compressor, with its own hash function, makes 104% or
      more, whatever is in the table. */
  method NotLessThan104(len: nat) returns (input: seq<Byte>, n: nat)
    requires len > 0 && !LessThan104(len)
    ensures |input| == len && n > 0 && 100 * n >= 104 * len
  {
    LessThan104Exactly(len);
    input := seq(len, i requires 0 <= i < len => i);
    var outLen := 2 * len + 10;
    var out := new Byte[outLen + 1];
    n := Compress(input, out, outLen, h => Idx(h));
  }

  /** The match found at ref is followed up to a difference, or the longest reference, or almost the end. */
  ghost predicate LongMatch(input: seq<Byte>, ref: int, ip0: int, ip: int) {
    && 0 <= ref < ip0 < ip <= |input| && ip - ip0 <= MAX_REF
    && (ip - ip0 == MAX_REF || ip >= |input| - 2 || (ip < |input| && input[ref + (ip - ip0)] != input[ip]))
  }

  /** A match found at ref: the run is closed and the back reference written. */
  method Reference(input: seq<Byte>, out: array<Byte>, outLen: nat, ref: int, ip0: int, op0: int, lit0: int)
    returns (ip: int, op: int, lit: int, failed: bool)
    requires out.Length == outLen + 1 && OpenRun(input, out[..], ip0, op0, lit0)
    requires 0 < ref && 0 <= ip0 - ref - 1 < MAX_OFF && ip0 + 4 < |input|
    requires input[ref] == input[ip0] && input[ref + 1] == input[ip0 + 1] && input[ref + 2] == input[ip0 + 2]
    modifies out
    ensures !failed ==> ip0 + 3 <= ip <= |input| && OpenRun(input, out[..], ip, op, lit)
    ensures !failed ==> LongMatch(input, ref, ip0, ip) && lit == 0
                        && op == (if lit0 == 0 then op0 - 1 else op0) + (if ip - ip0 < 9 then 3 else 4)
    ensures failed ==> !Roomy(|input|, outLen)
  {
    ip, op, lit, failed := ip0, op0, lit0, true;
    var maxlen := |input| - ip - 2;
    maxlen := if maxlen > MAX_REF then MAX_REF else maxlen;
    op := StopRun(input, out, ip, op, lit);
    if op + 3 + 1 >= outLen { return; }
    assert input[ref..ref + 3] == input[ip..ip + 3];
    var octets := MatchLength(input, ref, ip, maxlen);
    op := EmitRef(input, out, ip, ref, op, octets);
    ip := ip + octets;
    lit := 0;
    failed := false;
  }

  /** The last bytes, which are at most two, as literals. */
  method Finish(input: seq<Byte>, out: array<Byte>, outLen: nat, ip0: int, op0: int, lit0: int) returns (n: nat)
    requires out.Length == outLen + 1 && OpenRun(input, out[..], ip0, op0, lit0)
    requires input != [] && |input| - 2 <= ip0 && op0 + 3 <= outLen
    modifies out
    ensures 0 < n <= outLen && Encodes(out[..n], input) && n <= Longest(|input|)
    ensures AllLiterals(ip0, op0, lit0) ==> n == Longest(|input|)
    ensures lit0 + (|input| - ip0) < MAX_LIT ==> n <= op0 + (|input| - ip0)
  {
    hide OpenRun, AllLiterals, Encodes, Longest;
    var ip, op, lit := ip0, op0, lit0;
    RoomLeft(input, out[..], ip, op, lit, outLen);
    while ip < |input|
      invariant 0 <= ip <= |input| && OpenRun(input, out[..], ip, op, lit)
      invariant op + (|input| - ip) + (if lit + (|input| - ip) >= MAX_LIT then 1 else 0) <= outLen
      invariant AllLiterals(ip0, op0, lit0) ==> AllLiterals(ip, op, lit)
      invariant lit0 + (|input| - ip0) < MAX_LIT ==> op - op0 == ip - ip0 == lit - lit0
      decreases |input| - ip
    {
      if AllLiterals(ip, op, lit) { NextLiteral(ip, op, lit); }
      ip, op, lit := AddLiteral(input, out, ip, op, lit);
    }
    if AllLiterals(ip, op, lit) { LiteralsEnd(ip, op, lit); }
    SizeAtEnd(input, out[..], ip, op, lit);
    op := StopRun(input, out, ip, op, lit);
    assert input[..ip] == input;
    EncodesSomething(out[..op], input);
    return op;
  }

  /** Whatever the compressor makes of the input, the decompressor turns it back into the input, in any
      buffer that can hold it. */
  method RoundTrip(input: seq<Byte>, packed: array<Byte>, outLen: nat, idx: int -> int, out: array<Byte>)
    returns (n: nat, m: nat)
    requires packed.Length == outLen + 1 && packed != out && out.Length >= |input|
    requires forall h :: 0 <= idx(h) < HSIZE
    modifies packed, out
    ensures n > 0 ==> n <= outLen && m == |input| && out[..m] == input
    ensures n == 0 ==> input == [] || !Roomy(|input|, outLen)
  {
    m := 0;
    n := Compress(input, packed, outLen, idx);
    if n > 0 {
      LimitOnly(packed[..n], [], |input|, out.Length);
      var outcome;
      m, outcome := Decompress(packed[..n], out);
    }
  }
}

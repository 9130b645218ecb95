/** The LZF stream format, as the decompressor reads it. */
module LzfFormat {

  import opened Bytes

  const MAX_LIT: nat := 32
  const MAX_OFF: nat := 8192
  const MAX_REF: nat := 264

  /** E2BIG and EINVAL */
  datatype Outcome = Done(data: seq<Byte>) | TooBig | Invalid

  /** Copying n bytes from dist bytes back, one at a time, so that the copy may overlap its source. */
  function Copy(out: seq<Byte>, dist: nat, n: nat): (r: seq<Byte>)
    requires 1 <= dist <= |out|
    ensures |r| == |out| + n && r[..|out|] == out
    decreases n
  {
    if n == 0 then out else Copy(out + [out[|out| - dist]], dist, n - 1)
  }

  /** The size of the first token of s, or 0 if s ends before the token does. */
  function TokenSize(s: seq<Byte>): (n: nat)
    requires s != []
    ensures n <= |s|
  {
    var ctrl: int := s[0];
    if ctrl < 32 then (if |s| < ctrl + 2 then 0 else ctrl + 2)
    else if ctrl / 32 < 7 then (if |s| < 2 then 0 else 2)
    else if |s| < 3 then 0 else 3
  }

  /** Length and distance of a back reference. */
  function RefLen(s: seq<Byte>): nat
    requires s != [] && s[0] >= 32 && TokenSize(s) > 0
  {
    var len: int := s[0] / 32;
    2 + len + if len == 7 then s[1] else 0
  }

  function RefDist(s: seq<Byte>): nat
    requires s != [] && s[0] >= 32 && TokenSize(s) > 0
  {
    var high: int := s[0] % 32;
    high * 256 + s[TokenSize(s) - 1] + 1
  }

  /** What the tokens of s append to out, with every check in the order in which it is made. */
  function Decode(s: seq<Byte>, out: seq<Byte>, limit: nat): (r: Outcome)
    decreases |s|
  {
    if s == [] then Done(out)
    else if s[0] < 32 then
      if |out| + s[0] + 1 > limit then TooBig
      else if TokenSize(s) == 0 then Invalid
      else Decode(s[s[0] + 2..], out + s[1..s[0] + 2], limit)
    else if TokenSize(s) == 0 then Invalid
    else if |out| + RefLen(s) > limit then TooBig
    else if RefDist(s) > |out| then Invalid
    else Decode(s[TokenSize(s)..], Copy(out, RefDist(s), RefLen(s)), limit)
  }

  lemma {:induction false} DecodeGrows(s: seq<Byte>, out: seq<Byte>, limit: nat)
    ensures Decode(s, out, limit).Done? ==> |out| <= |Decode(s, out, limit).data|
    ensures Decode(s, out, limit).Done? && s != [] ==> |out| < |Decode(s, out, limit).data| <= limit
    decreases |s|
  {
    if s != [] && TokenSize(s) > 0 {
      if s[0] < 32 {
        if |out| + s[0] + 1 <= limit { DecodeGrows(s[s[0] + 2..], out + s[1..s[0] + 2], limit); }
      } else if |out| + RefLen(s) <= limit && RefDist(s) <= |out| {
        DecodeGrows(s[TokenSize(s)..], Copy(out, RefDist(s), RefLen(s)), limit);
      }
    }
  }

  /** A stream that decodes does so for every buffer that is large enough. */
  lemma {:induction false} LimitOnly(s: seq<Byte>, out: seq<Byte>, a: nat, b: nat)
    requires Decode(s, out, a).Done? && |Decode(s, out, a).data| <= b
    ensures Decode(s, out, b) == Decode(s, out, a)
    decreases |s|
  {
    if s != [] {
      if s[0] < 32 {
        DecodeGrows(s[s[0] + 2..], out + s[1..s[0] + 2], a);
        LimitOnly(s[s[0] + 2..], out + s[1..s[0] + 2], a, b);
      } else {
        DecodeGrows(s[TokenSize(s)..], Copy(out, RefDist(s), RefLen(s)), a);
        LimitOnly(s[TokenSize(s)..], Copy(out, RefDist(s), RefLen(s)), a, b);
      }
    }
  }

  /** Streams of whole tokens decode one after the other. */
  lemma {:induction false} DecodeAppend(s: seq<Byte>, t: seq<Byte>, out: seq<Byte>, limit: nat)
    requires Decode(s, out, limit).Done?
    ensures Decode(s + t, out, limit) == Decode(t, Decode(s, out, limit).data, limit)
    decreases |s|
  {
    if s == [] {
      assert s + t == t;
    } else {
      FirstToken(s, t);
      if s[0] < 32 {
        DecodeAppend(s[s[0] + 2..], t, out + s[1..s[0] + 2], limit);
      } else {
        DecodeAppend(s[TokenSize(s)..], t, Copy(out, RefDist(s), RefLen(s)), limit);
      }
    }
  }

  lemma {:induction false} FirstToken(s: seq<Byte>, t: seq<Byte>)
    requires s != [] && TokenSize(s) > 0
    ensures (s + t)[0] == s[0] && TokenSize(s + t) == TokenSize(s)
    ensures (s + t)[TokenSize(s)..] == s[TokenSize(s)..] + t && (s + t)[1..TokenSize(s)] == s[1..TokenSize(s)]
    ensures s[0] >= 32 ==> RefDist(s + t) == RefDist(s) && RefLen(s + t) == RefLen(s)
  {
  }

  // ----- what the compressor writes -----

  /** s decodes to data, given room. */
  ghost predicate Encodes(s: seq<Byte>, data: seq<Byte>) {
    Decode(s, [], |data|) == Done(data)
  }

  lemma {:induction false} EncodesSomething(s: seq<Byte>, data: seq<Byte>)
    requires Encodes(s, data) && data != []
    ensures s != []
  {
  }

  lemma {:induction false} EncodesThen(s: seq<Byte>, t: seq<Byte>, data: seq<Byte>, data': seq<Byte>)
    requires Encodes(s, data) && |data| <= |data'| && Decode(t, data, |data'|) == Done(data')
    ensures Encodes(s + t, data')
  {
    LimitOnly(s, [], |data|, |data'|);
    DecodeAppend(s, t, [], |data'|);
  }

  /** A closed run of 1 to 32 literals. */
  lemma {:induction false} EncodesRun(s: seq<Byte>, run: seq<Byte>, data: seq<Byte>)
    requires Encodes(s, data) && 1 <= |run| <= MAX_LIT
    ensures Encodes(s + ([|run| - 1] + run), data + run)
  {
    var t := [|run| - 1] + run;
    assert t[1..|run| + 1] == run && t[|run| + 1..] == [];
    EncodesThen(s, t, data, data + run);
  }

  /** The bytes of a back reference as the compressor writes them; off is the distance minus one and
      len the number of bytes minus two. */
  function RefToken(off: nat, len: nat): (t: seq<Byte>)
    requires off < MAX_OFF && 1 <= len <= MAX_REF - 2
  {
    if len < 7 then [off / 256 + len * 32, off % 256] else [off / 256 + 7 * 32, len - 7, off % 256]
  }

  lemma {:induction false} RefTokenIs(off: nat, len: nat)
    requires off < MAX_OFF && 1 <= len <= MAX_REF - 2
    ensures var t := RefToken(off, len);
            t[0] >= 32 && TokenSize(t) == |t| && RefDist(t) == off + 1 && RefLen(t) == len + 2
  {
    var t := RefToken(off, len);
    var l := if len < 7 then len else 7;
    assert t[0] == off / 256 + l * 32 && off / 256 < 32;
    assert t[0] / 32 == l && t[0] % 32 == off / 256;
  }

  lemma {:induction false} EncodesRef(s: seq<Byte>, data: seq<Byte>, off: nat, len: nat)
    requires Encodes(s, data) && off < MAX_OFF && 1 <= len <= MAX_REF - 2 && off < |data|
    ensures Encodes(s + RefToken(off, len), Copy(data, off + 1, len + 2))
  {
    var t := RefToken(off, len);
    RefTokenIs(off, len);
    hide RefToken, RefDist, RefLen, TokenSize;
    assert t[|t|..] == [];
    EncodesThen(s, t, data, Copy(data, off + 1, len + 2));
  }

  /** Copying from where the same bytes stand reproduces them, also when the copy overlaps. */
  lemma {:induction false} CopyMatch(input: seq<Byte>, ip: nat, dist: nat, n: nat)
    requires 1 <= dist <= ip && ip + n <= |input|
    requires input[ip - dist..ip - dist + n] == input[ip..ip + n]
    ensures Copy(input[..ip], dist, n) == input[..ip + n]
    decreases n
  {
    if n > 0 {
      var r := ip - dist;
      assert input[r] == input[r..r + n][0] == input[ip..ip + n][0] == input[ip];
      assert input[..ip] + [input[r]] == input[..ip + 1];
      assert input[r + 1..r + n] == input[r..r + n][1..] && input[ip + 1..ip + n] == input[ip..ip + n][1..];
      CopyMatch(input, ip + 1, dist, n - 1);
    }
  }

  // ----- the bits of the format -----

  /** A control byte below 32 is followed by one literal more than it says. */
  lemma {:induction false} LiteralBits(c: bv8, s: seq<Byte>)
    requires s != [] && s[0] == c as int
    ensures c & 0xe0 == 0 <==> s[0] < 32
    ensures c & 0xe0 == 0 && |s| >= 34 ==> TokenSize(s) == ((c & 0x1f) as int) + 2
  {
  }

  /** LLLooooo oooooooo and 111ooooo LLLLLLLL oooooooo, taken apart with shifts and masks. */
  lemma {:induction false} RefBits(c: bv8, d: bv8, e: bv8, s: seq<Byte>)
    requires |s| >= 3 && s[0] == c as int && s[1] == d as int && s[2] == e as int && c & 0xe0 != 0
    ensures c >> 5 != 7 ==> TokenSize(s) == 2 && RefLen(s) == ((c >> 5) as int) + 2
                            && RefDist(s) == (((((c & 0x1f) as bv16) << 8) | (d as bv16)) as int) + 1
    ensures c >> 5 == 7 ==> TokenSize(s) == 3 && RefLen(s) == (d as int) + 9
                            && RefDist(s) == (((((c & 0x1f) as bv16) << 8) | (e as bv16)) as int) + 1
  {
    ControlBits(c);
    OffsetBits(c, d);
    OffsetBits(c, e);
  }

  lemma {:induction false} ControlBits(c: bv8)
    ensures (c >> 5) as int == (c as int) / 32 && (c & 0xe0 != 0 <==> (c as int) >= 32)
  {
  }

  lemma {:induction false} OffsetBits(c: bv8, d: bv8)
    ensures ((((c & 0x1f) as bv16) << 8) | (d as bv16)) as int == (c as int) % 32 * 256 + (d as int)
  {
  }

  // ----- the two errors -----

  /** A stream that decodes, into a buffer that is too small, is E2BIG and nothing else. */
  lemma {:induction false} TooSmall(s: seq<Byte>, out: seq<Byte>, a: nat, b: nat)
    requires Decode(s, out, a).Done? && |out| <= b < |Decode(s, out, a).data|
    ensures Decode(s, out, b) == TooBig
    decreases |s|
  {
    if s != [] {
      if s[0] < 32 {
        if |out| + s[0] + 1 <= b { TooSmall(s[s[0] + 2..], out + s[1..s[0] + 2], a, b); }
      } else if |out| + RefLen(s) <= b {
        TooSmall(s[TokenSize(s)..], Copy(out, RefDist(s), RefLen(s)), a, b);
      }
    }
  }

  /** k bytes of s are whole tokens. */
  predicate Boundary(s: seq<Byte>, k: nat)
    decreases |s|
  {
    k == 0 || (s != [] && 0 < TokenSize(s) <= k && Boundary(s[TokenSize(s)..], k - TokenSize(s)))
  }

  lemma {:induction false} CutToken(s: seq<Byte>, k: nat)
    requires s != [] && TokenSize(s) > 0 && 0 < k <= |s|
    ensures TokenSize(s[..k]) == if k < TokenSize(s) then 0 else TokenSize(s)
    ensures k >= TokenSize(s) && s[0] >= 32 ==> RefLen(s[..k]) == RefLen(s) && RefDist(s[..k]) == RefDist(s)
    ensures k >= TokenSize(s) ==> s[..k][TokenSize(s)..] == s[TokenSize(s)..][..k - TokenSize(s)]
    ensures k >= TokenSize(s) && s[0] < 32 ==> s[..k][1..s[0] + 2] == s[1..s[0] + 2]
  {
  }

  /** Cut between two tokens it decodes to a front of the data, and cut anywhere else it is EINVAL. */
  lemma {:induction false} CutStream(s: seq<Byte>, out: seq<Byte>, limit: nat, k: nat)
    requires Decode(s, out, limit).Done? && k <= |s|
    ensures var r := Decode(s[..k], out, limit);
            if Boundary(s, k) then r.Done? && r.data <= Decode(s, out, limit).data else r == Invalid
    decreases |s|
  {
    if k == 0 {
      DecodeExtends(s, out, limit);
    } else {
      CutToken(s, k);
      if s[0] < 32 {
        DecodeGrows(s[s[0] + 2..], out + s[1..s[0] + 2], limit);
        if k >= TokenSize(s) { CutStream(s[TokenSize(s)..], out + s[1..s[0] + 2], limit, k - TokenSize(s)); }
      } else if k >= TokenSize(s) {
        CutStream(s[TokenSize(s)..], Copy(out, RefDist(s), RefLen(s)), limit, k - TokenSize(s));
      }
    }
  }

  lemma {:induction false} DecodeExtends(s: seq<Byte>, out: seq<Byte>, limit: nat)
    requires Decode(s, out, limit).Done?
    ensures out <= Decode(s, out, limit).data
    decreases |s|
  {
    if s != [] {
      if s[0] < 32 {
        DecodeExtends(s[s[0] + 2..], out + s[1..s[0] + 2], limit);
      } else {
        DecodeExtends(s[TokenSize(s)..], Copy(out, RefDist(s), RefLen(s)), limit);
      }
    }
  }
}

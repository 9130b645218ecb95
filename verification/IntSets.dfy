/** The set of integers of intset.c: a sorted run of integers in a byte array, all of the same width. */
module IntSets {
  import opened Bytes
  import opened IntCoding
  import Slices

  predicate Sorted(vs: seq<int>) {
    forall i, j :: 0 <= i < j < |vs| ==> vs[i] < vs[j]
  }

  ghost function ElementsOf(vs: seq<int>): set<int> { set v | v in vs }

  /** pos is where value is, or where it belongs. */
  ghost predicate Position(vs: seq<int>, value: int, found: bool, pos: nat) {
    && pos <= |vs| && (found <==> value in vs)
    && (found ==> pos < |vs| && vs[pos] == value)
    && (!found ==> (forall i :: 0 <= i < pos ==> vs[i] < value) && (forall i :: pos <= i < |vs| ==> value < vs[i]))
  }

  /** The bytes with one slot replaced. */
  function Put(s: seq<Byte>, e: nat, i: nat, t: seq<Byte>): (r: seq<Byte>)
    requires e * (i + 1) <= |s| && |t| == e
    ensures |r| == |s|
  {
    SlotBounds(e, i);
    s[..e * i] + t + s[e * (i + 1)..]
  }

  lemma {:induction false} SlotPut(s: seq<Byte>, e: nat, i: nat, t: seq<Byte>)
    requires e * (i + 1) <= |s| && |t| == e
    ensures Slot(Put(s, e, i, t), e, i) == t
  {
    SlotBounds(e, i);
  }

  /** Slots of any width that lie before or behind the bytes replaced. */
  lemma {:induction false} SlotKept(s: seq<Byte>, e: nat, i: nat, t: seq<Byte>, f: nat, j: nat)
    requires e * (i + 1) <= |s| && |t| == e && f * (j + 1) <= |s|
    requires f * (j + 1) <= e * i || e * (i + 1) <= f * j
    ensures Slot(Put(s, e, i, t), f, j) == Slot(s, f, j)
  {
    SlotBounds(e, i);
    SlotBounds(f, j);
  }

  lemma {:induction false} SlotsFit(e: nat, i: nat, n: nat)
    requires i < n
    ensures 0 <= e * i && e * (i + 1) <= e * n
  {
    SlotBounds(e, i);
    Product(e, n - i - 1);
    assert e * n == e * (i + 1) + e * (n - i - 1);
  }

  method WriteBytes(a: array<Byte>, start: nat, bytes: seq<Byte>)
    requires start + |bytes| <= a.Length
    modifies a
    ensures a[..] == old(a[..start]) + bytes + old(a[start + |bytes|..])
  {
    ghost var c := a[..];
    var k := 0;
    while k < |bytes|
      invariant 0 <= k <= |bytes|
      invariant forall j :: 0 <= j < a.Length ==> a[j] == if start <= j < start + k then bytes[j - start] else c[j]
    {
      a[start + k] := bytes[k];
      k := k + 1;
    }
  }

  class IntSet {
    var encoding: nat
    var length: nat
    var contents: array<Byte>

    ghost predicate Shape()
      reads this, contents
    {
      IsEncoding(encoding) && contents.Length == encoding * length
    }

    ghost function Elements(): seq<int>
      requires Shape()
      reads this, contents
    {
      Values(contents[..], encoding, length)
    }

    ghost predicate Valid()
      reads this, contents
    {
      Shape() && Sorted(Elements())
    }

    /** intsetNew */
    constructor ()
      ensures Valid() && Elements() == [] && fresh(contents)
    {
      encoding, length := INT16, 0;
      contents := new Byte[0];
    }

    /** _intsetGetEncoded */
    method GetEncoded(pos: nat, enc: nat) returns (v: int)
      requires IsEncoding(enc) && enc * (pos + 1) <= contents.Length
      ensures v == Decoded(Slot(contents[..], enc, pos))
    {
      SlotBounds(enc, pos);
      assert contents[..][enc * pos..enc * (pos + 1)] == contents[enc * pos..enc * (pos + 1)];
      v := Decoded(contents[enc * pos..enc * (pos + 1)]);
    }

    /** _intsetSet */
    method SetAt(pos: nat, value: int)
      requires IsEncoding(encoding) && encoding * (pos + 1) <= contents.Length && InRange(value, encoding)
      modifies contents
      ensures contents[..] == Put(old(contents[..]), encoding, pos, Encoded(value, encoding))
    {
      SlotBounds(encoding, pos);
      WriteBytes(contents, encoding * pos, Encoded(value, encoding));
    }

    /** intsetResize: room for len integers of the width set, and what was there kept as far as it fits. */
    method Resize(len: nat)
      requires IsEncoding(encoding)
      modifies this`contents
      ensures fresh(contents) && contents.Length == encoding * len
      ensures forall i :: 0 <= i < old(contents.Length) && i < encoding * len ==> contents[i] == old(contents[i])
    {
      Product(encoding, len);
      ghost var before := contents[..];
      var more := new Byte[encoding * len](_ => 0);
      var i := 0;
      while i < more.Length && i < contents.Length
        invariant 0 <= i <= more.Length && i <= contents.Length && contents[..] == before
        invariant forall j :: 0 <= j < i ==> more[j] == before[j]
      {
        more[i] := contents[i];
        i := i + 1;
      }
      contents := more;
    }

    /** intsetSearch */
    method Search(value: int) returns (found: bool, pos: nat)
      requires Valid()
      ensures Position(Elements(), value, found, pos)
    {
      hide Values, Decoded, Slot;
      ghost var vs := Elements();
      if length == 0 { return false, 0; }
      var last := Get(length - 1);
      if value > last { return false, length; }
      var first := Get(0);
      if value < first { return false, 0; }
      var min, max, mid, cur := 0, length - 1, -1, -1;
      while max >= min
        invariant 0 <= min <= max + 1 <= length
        invariant forall i :: 0 <= i < min ==> vs[i] < value
        invariant forall i :: max < i < length ==> value < vs[i]
        invariant mid == -1 ==> min == 0 && max == length - 1
        invariant mid != -1 ==> cur != value
        decreases max - min
      {
        mid := (min + max) / 2;
        cur := Get(mid);
        if value > cur {
          min := mid + 1;
        } else if value < cur {
          max := mid - 1;
        } else {
          break;
        }
      }
      if value == cur { return true, mid; } else { return false, min; }
    }

    /** _intsetGet */
    method Get(pos: nat) returns (v: int)
      requires Shape() && pos < length
      ensures v == Elements()[pos]
    {
      ValueAt(contents[..], encoding, length, pos);
      v := GetEncoded(pos, encoding);
    }

    /** intsetUpgradeAndAdd: all values rewritten in the wider encoding, the last one first, in the same bytes; the
        new value is smaller or greater than all of them. */
    method UpgradeAndAdd(value: int)
      requires Valid() && InRange(value, INT64) && ValueEncoding(value) > encoding
      modifies this, contents
      ensures Valid() && fresh(contents) && encoding == ValueEncoding(value) > old(encoding)
      ensures Elements() == if value < 0 then [value] + old(Elements()) else old(Elements()) + [value]
    {
      hide Values, Decoded, Slot, Encoded, Put, Rewritten, OldSlot, NewSlot;
      ghost var vs := Elements();
      var curenc, newenc, prepend := encoding, ValueEncoding(value), if value < 0 then 1 else 0;
      OutsideAll(contents[..], encoding, length, value);
      Doubles(curenc, newenc);
      encoding := newenc;
      WiderThan(curenc, newenc, length);
      ghost var old0 := contents[..];
      Resize(length + 1);
      ghost var c := contents[..];
      assert c[..|old0|] == old0;
      SamePrefix(old0, c, curenc, length);
      RewriteStart(c, curenc, newenc, length, prepend, vs);
      var k := length;
      while k > 0
        invariant 0 <= k <= length && contents.Length == newenc * (length + 1)
        invariant Rewritten(contents[..], curenc, newenc, length, k, prepend, vs)
        modifies contents
      {
        k := k - 1;
        RewriteNext(contents[..], curenc, newenc, length, k, prepend, vs);
        var v := GetEncoded(k, curenc);
        SetAt(k + prepend, v);
      }
      AddLast(contents[..], curenc, newenc, length, prepend, vs, value);
      if prepend == 1 { SetAt(0, value); } else { SetAt(length, value); }
      length := length + 1;
    }

    /** intsetMoveTail: the slots from up to the end moved to to, which may overlap. */
    method MoveTail(from: nat, to: nat)
      requires IsEncoding(encoding) && from <= length && encoding * length <= contents.Length
      requires encoding * (to + length - from) <= contents.Length
      modifies contents
      ensures contents[..] == Moved(old(contents[..]), encoding, length, from, to)
    {
      SlotsBetween(encoding, from, length);
      SlotsBetween(encoding, to, to + length - from);
      MoveBytes(contents, encoding * from, encoding * to, encoding * length - encoding * from);
    }

    /** intsetAdd */
    method Add(value: int) returns (success: bool)
      requires Valid() && InRange(value, INT64)
      modifies this, contents
      ensures Valid() && (contents == old(contents) || fresh(contents))
      ensures success <==> value !in old(Elements())
      ensures ElementsOf(Elements()) == ElementsOf(old(Elements())) + {value}
      ensures !success ==> Elements() == old(Elements())
      ensures encoding == WiderOf(old(encoding), ValueEncoding(value))
    {
      hide Values, Decoded, Slot, Encoded, Put, Moved;
      ghost var vs := Elements();
      var valenc := ValueEncoding(value);
      if valenc > encoding {
        OutsideAll(contents[..], encoding, length, value);
        UpgradeAndAdd(value);
        return true;
      }
      var found, pos := Search(value);
      if found {
        return false;
      }
      Insert(pos, value);
      return true;
    }

    /** The rest of intsetAdd: room for one more, and the tail moved up. */
    method Insert(pos: nat, value: int)
      requires Valid() && InRange(value, encoding) && Position(Elements(), value, false, pos)
      modifies this, contents
      ensures Valid() && fresh(contents) && encoding == old(encoding)
      ensures Elements() == old(Elements())[..pos] + [value] + old(Elements())[pos..]
    {
      hide Values, Decoded, Slot, Encoded, Put, Moved;
      ghost var vs, before := Elements(), contents[..];
      SlotBounds(encoding, length);
      Resize(length + 1);
      assert contents[..][..|before|] == before;
      ghost var c := contents[..];
      Inserted(before, c, encoding, length, pos, value);
      SortedInsert(vs, pos, value);
      if pos < length { MoveTail(pos, pos + 1); }
      SetAt(pos, value);
      length := length + 1;
    }

    /** intsetRemove */
    method Remove(value: int) returns (success: bool)
      requires Valid() && InRange(value, INT64)
      modifies this, contents
      ensures Valid() && (contents == old(contents) || fresh(contents))
      ensures success <==> value in old(Elements())
      ensures ElementsOf(Elements()) == ElementsOf(old(Elements())) - {value} && encoding == old(encoding)
    {
      hide Values, Decoded, Slot, Encoded, Put, Moved;
      success := false;
      var valenc := ValueEncoding(value);
      OutsideIfWider(contents[..], encoding, length, value);
      if valenc <= encoding {
        var found, pos := Search(value);
        if found {
          success := true;
          Cut(pos);
        }
      }
    }

    method Cut(pos: nat)
      requires Valid() && pos < length
      modifies this, contents
      ensures Valid() && fresh(contents) && Elements() == old(Elements())[..pos] + old(Elements())[pos + 1..]
              && encoding == old(encoding)
    {
      hide Values, Decoded, Slot, Encoded, Put, Moved;
      ghost var before := contents[..];
      var len := length;
      Removed(before, encoding, length, pos);
      SortedRemove(Elements(), pos);
      if pos < len - 1 { MoveTail(pos + 1, pos); }
      ghost var c := contents[..];
      SlotBounds(encoding, len - 1);
      Resize(len - 1);
      assert contents[..] == c[..encoding * (len - 1)];
      length := len - 1;
    }

    /** intsetFind */
    method Find(value: int) returns (found: bool)
      requires Valid() && InRange(value, INT64)
      ensures found <==> value in Elements()
    {
      hide Values, Decoded, Slot, Encoded, Put, Moved;
      OutsideIfWider(contents[..], encoding, length, value);
      if ValueEncoding(value) > encoding { return false; }
      var pos;
      found, pos := Search(value);
    }
  }

  // ----- any run of operations -----

  function WiderOf(e: nat, e': nat): nat { if e' > e then e' else e }

  /** The widest of e and the encodings of the values added. */
  function Widest(e: nat, ops: seq<Op>): nat
    requires forall op <- ops :: InRange(op.value, INT64)
  {
    if ops == [] then e else
    var before, last := Widest(e, ops[..|ops| - 1]), ops[|ops| - 1];
    if last.DoAdd? then WiderOf(before, ValueEncoding(last.value)) else before
  }

  datatype Op = DoAdd(value: int) | DoRemove(value: int) | DoFind(value: int)

  /** What a set does and answers. */
  function SetDo(s: set<int>, op: Op): (set<int>, bool) {
    match op
    case DoAdd(v) => (s + {v}, v !in s)
    case DoRemove(v) => (s - {v}, v in s)
    case DoFind(v) => (s, v in s)
  }

  function SetRun(s: set<int>, ops: seq<Op>): (set<int>, seq<bool>) {
    if ops == [] then (s, []) else
    var (t, replies) := SetRun(s, ops[..|ops| - 1]);
    (SetDo(t, ops[|ops| - 1]).0, replies + [SetDo(t, ops[|ops| - 1]).1])
  }

  /** Over every run the byte array answers as a finite set of integers does, whatever encodings it goes through. */
  method Run(s: IntSet, ops: seq<Op>) returns (replies: seq<bool>)
    requires s.Valid() && forall op <- ops :: InRange(op.value, INT64)
    modifies s, s.contents
    ensures s.Valid()
    ensures (ElementsOf(s.Elements()), replies) == SetRun(ElementsOf(old(s.Elements())), ops)
    ensures s.encoding == Widest(old(s.encoding), ops)
  {
    hide ElementsOf, Sorted, Values, Decoded, SetDo;
    replies := [];
    var i := 0;
    while i < |ops|
      invariant 0 <= i <= |ops| && s.Valid() && (s.contents == old(s.contents) || fresh(s.contents))
      invariant (ElementsOf(s.Elements()), replies) == SetRun(ElementsOf(old(s.Elements())), ops[..i])
      invariant s.encoding == Widest(old(s.encoding), ops[..i])
    {
      assert ops[..i + 1][..i] == ops[..i];
      var reply := Do(s, ops[i]);
      replies := replies + [reply];
      i := i + 1;
    }
    assert ops[..i] == ops;
  }

  method Do(s: IntSet, op: Op) returns (reply: bool)
    requires s.Valid() && InRange(op.value, INT64)
    modifies s, s.contents
    ensures s.Valid() && (s.contents == old(s.contents) || fresh(s.contents))
    ensures (ElementsOf(s.Elements()), reply) == SetDo(ElementsOf(old(s.Elements())), op)
    ensures s.encoding == if op.DoAdd? then WiderOf(old(s.encoding), ValueEncoding(op.value)) else old(s.encoding)
  {
    hide Sorted, Values, Decoded;
    match op {
      case DoAdd(v) => reply := s.Add(v);
      case DoRemove(v) => reply := s.Remove(v);
      case DoFind(v) => reply := s.Find(v);
    }
  }

  /** The bytes after the slots from..n are moved to to. */
  function Moved(s: seq<Byte>, e: nat, n: nat, from: nat, to: nat): (r: seq<Byte>)
    requires from <= n && e * n <= |s| && e * (to + n - from) <= |s|
    ensures |r| == |s|
  {
    SlotsBetween(e, from, n);
    SlotsBetween(e, to, to + n - from);
    MovedBytes(s, e * from, e * to, e * n - e * from)
  }

  function MovedBytes(s: seq<Byte>, src: nat, dst: nat, bytes: nat): (r: seq<Byte>)
    requires src + bytes <= |s| && dst + bytes <= |s|
    ensures |r| == |s|
  {
    s[..dst] + s[src..src + bytes] + s[dst + bytes..]
  }

  lemma {:induction false} SlotsBetween(e: nat, i: nat, n: nat)
    requires i <= n
    ensures 0 <= e * i <= e * n && e * n - e * i == e * (n - i)
  {
    Product(e, i);
    Product(e, n - i);
    assert e * n == e * i + e * (n - i);
  }

  /** memmove */
  method MoveBytes(a: array<Byte>, src: nat, dst: nat, bytes: nat)
    requires src + bytes <= a.Length && dst + bytes <= a.Length
    modifies a
    ensures a[..] == MovedBytes(old(a[..]), src, dst, bytes)
  {
    ghost var s := a[..];
    forall k | 0 <= k < bytes {
      a[dst + k] := a[src + k];
    }
    assert forall j :: 0 <= j < a.Length ==> a[j] == if dst <= j < dst + bytes then s[src + (j - dst)] else s[j];
    assert forall j :: 0 <= j < a.Length ==> a[j] == MovedBytes(s, src, dst, bytes)[j];
  }

  /** Slots k and up hold their values in the new encoding, moved by prepend; those below k hold theirs in the old. */
  ghost predicate Rewritten(c: seq<Byte>, oe: nat, ne: nat, n: nat, k: nat, p: nat, vs: seq<int>) {
    && IsEncoding(oe) && IsEncoding(ne) && 2 * oe <= ne && |c| == ne * (n + 1) && |vs| == n && k <= n && p <= 1
    && (forall i: nat :: i < k ==> OldSlot(c, oe, i, vs))
    && (forall i: nat :: k <= i < n ==> NewSlot(c, ne, i, p, vs))
  }

  ghost predicate OldSlot(c: seq<Byte>, e: nat, i: nat, vs: seq<int>) {
    i < |vs| && e * (i + 1) <= |c| && IsEncoding(e) && Decoded(Slot(c, e, i)) == vs[i] && InRange(vs[i], e)
  }

  ghost predicate NewSlot(c: seq<Byte>, e: nat, i: nat, p: nat, vs: seq<int>) {
    i < |vs| && e * (i + p + 1) <= |c| && IsEncoding(e) && Decoded(Slot(c, e, i + p)) == vs[i]
  }

  lemma {:induction false} Doubles(oe: nat, ne: nat)
    requires IsEncoding(oe) && IsEncoding(ne) && oe < ne
    ensures 2 * oe <= ne
  {
  }

  lemma {:induction false} WiderThan(oe: nat, ne: nat, n: nat)
    requires 2 * oe <= ne
    ensures oe * n <= ne * n && ne * (n + 1) == ne * n + ne
  {
    SlotBounds(ne, n);
    Product(ne - oe, n);
    assert ne * n == oe * n + (ne - oe) * n;
  }

  /** The values are where they were in the bytes that there is more room behind now. */
  lemma {:induction false} SamePrefix(s: seq<Byte>, c: seq<Byte>, e: nat, n: nat)
    requires IsEncoding(e) && |s| == e * n && s <= c
    ensures forall i: nat :: i < n ==> OldSlot(c, e, i, Values(s, e, n))
  {
    forall i: nat | i < n ensures OldSlot(c, e, i, Values(s, e, n)) {
      SlotsFit(e, i, n);
      ValueAt(s, e, n, i);
      ValuesInRange(s, e, n, i);
      assert Slot(s, e, i) == Slot(c, e, i);
    }
  }

  lemma {:induction false} OldKept(c: seq<Byte>, ne: nat, at: nat, t: seq<Byte>, oe: nat, i: nat, vs: seq<int>)
    requires ne * (at + 1) <= |c| && |t| == ne && OldSlot(c, oe, i, vs) && oe * (i + 1) <= ne * at
    ensures OldSlot(Put(c, ne, at, t), oe, i, vs)
  {
    SlotKept(c, ne, at, t, oe, i);
    hide Put, Slot, Decoded;
  }

  lemma {:induction false} NewKept(c: seq<Byte>, ne: nat, at: nat, t: seq<Byte>, i: nat, p: nat, vs: seq<int>)
    requires ne * (at + 1) <= |c| && |t| == ne && NewSlot(c, ne, i, p, vs) && i + p != at
    ensures NewSlot(Put(c, ne, at, t), ne, i, p, vs)
  {
    if i + p < at { SlotOrder(ne, i + p, at); } else { SlotOrder(ne, at, i + p); }
    SlotKept(c, ne, at, t, ne, i + p);
    hide Put, Slot, Decoded;
  }

  lemma {:induction false} NewWritten(c: seq<Byte>, ne: nat, i: nat, p: nat, vs: seq<int>)
    requires IsEncoding(ne) && i < |vs| && ne * (i + p + 1) <= |c| && InRange(vs[i], ne)
    ensures NewSlot(Put(c, ne, i + p, Encoded(vs[i], ne)), ne, i, p, vs)
  {
    SlotPut(c, ne, i + p, Encoded(vs[i], ne));
    DecodedEncoded(vs[i], ne);
    hide Put, Slot, Decoded, Encoded;
  }

  lemma {:induction false} RewriteStart(c: seq<Byte>, oe: nat, ne: nat, n: nat, p: nat, vs: seq<int>)
    requires IsEncoding(oe) && IsEncoding(ne) && 2 * oe <= ne && |c| == ne * (n + 1) && |vs| == n && p <= 1
    requires forall i: nat :: i < n ==> OldSlot(c, oe, i, vs)
    ensures Rewritten(c, oe, ne, n, n, p, vs)
  {
  }

  /** The slot that is written next lies behind all that is still to be read, and in front of all that is written. */
  lemma {:induction false} RewriteNext(c: seq<Byte>, oe: nat, ne: nat, n: nat, k: nat, p: nat, vs: seq<int>)
    requires Rewritten(c, oe, ne, n, k + 1, p, vs) && k < n
    ensures oe * (k + 1) <= |c| && ne * (k + p + 1) <= |c| && InRange(vs[k], ne)
    ensures Decoded(Slot(c, oe, k)) == vs[k]
    ensures Rewritten(Put(c, ne, k + p, Encoded(vs[k], ne)), oe, ne, n, k, p, vs)
  {
    hide Put, Slot, Decoded, Encoded, NewSlot;
    assert OldSlot(c, oe, k, vs);
    Wider(vs[k], oe, ne);
    SlotsFit(ne, k + p, n + 1);
    NewWritten(c, ne, k, p, vs);
    var t := Encoded(vs[k], ne);
    var c' := Put(c, ne, k + p, t);
    hide Put, Slot, Decoded, Encoded, OldSlot, NewSlot;
    forall i: nat | i < k ensures OldSlot(c', oe, i, vs) {
      Behind(oe, ne, i, k, p);
      OldKept(c, ne, k + p, t, oe, i, vs);
    }
    forall i: nat | k <= i < n ensures NewSlot(c', ne, i, p, vs) {
      if i != k { NewKept(c, ne, k + p, t, i, p, vs); }
    }
  }

  lemma {:induction false} Behind(oe: nat, ne: nat, i: nat, k: nat, p: nat)
    requires 2 * oe <= ne && i < k
    ensures oe * (i + 1) <= ne * (k + p)
  {
    SlotOrder(oe, i, k);
    Product(ne - oe, k);
    Product(ne, p);
    assert ne * (k + p) == oe * k + (ne - oe) * k + ne * p;
  }

  /** A value that needs a wider encoding is outside the range of all that fit the one in use. */
  lemma {:induction false} OutsideAll(s: seq<Byte>, e: nat, n: nat, value: int)
    requires IsEncoding(e) && |s| == e * n && InRange(value, INT64) && ValueEncoding(value) > e
    ensures forall i :: 0 <= i < n ==> if value < 0 then value < Values(s, e, n)[i] else Values(s, e, n)[i] < value
  {
    assert !InRange(value, e);
    forall i | 0 <= i < n ensures if value < 0 then value < Values(s, e, n)[i] else Values(s, e, n)[i] < value {
      ValuesInRange(s, e, n, i);
    }
  }

  /** All rewritten, and the new value put at the beginning or the end. */
  lemma {:induction false} AddLast(c: seq<Byte>, oe: nat, ne: nat, n: nat, p: nat, vs: seq<int>, value: int)
    requires Rewritten(c, oe, ne, n, 0, p, vs) && InRange(value, ne)
    ensures var at := if p == 1 then 0 else n;
            ne * (at + 1) <= |c| &&
            Values(Put(c, ne, at, Encoded(value, ne)), ne, n + 1) == if p == 1 then [value] + vs else vs + [value]
  {
    hide Put, Slot, Decoded, Encoded, Values, NewSlot, OldSlot;
    var at := if p == 1 then 0 else n;
    SlotsFit(ne, at, n + 1);
    var result := if p == 1 then [value] + vs else vs + [value];
    NewWritten(c, ne, at, 0, result);
    var t := Encoded(value, ne);
    var c' := Put(c, ne, at, t);
    forall i: nat | i < n + 1 ensures NewSlot(c', ne, i, 0, result) {
      if i != at {
        NewKept(c, ne, at, t, i - p, p, vs);
        Renamed(c', ne, i - p, p, vs, result);
      }
    }
    FromSlots(c', ne, n + 1, result);
  }

  lemma {:induction false} Renamed(c: seq<Byte>, e: nat, i: nat, p: nat, vs: seq<int>, ws: seq<int>)
    requires NewSlot(c, e, i, p, vs) && i + p < |ws| && ws[i + p] == vs[i]
    ensures NewSlot(c, e, i + p, 0, ws)
  {
  }

  lemma {:induction false} FromSlots(c: seq<Byte>, e: nat, n: nat, vs: seq<int>)
    requires IsEncoding(e) && |c| == e * n && |vs| == n && forall i: nat :: i < n ==> NewSlot(c, e, i, 0, vs)
    ensures Values(c, e, n) == vs
  {
    hide Slot, Decoded, Values;
    forall i: nat | i < n ensures Values(c, e, n)[i] == vs[i] {
      assert NewSlot(c, e, i, 0, vs);
      ValueAt(c, e, n, i);
    }
  }

  lemma {:induction false} ToSlots(c: seq<Byte>, e: nat, n: nat)
    requires IsEncoding(e) && |c| >= e * n
    ensures forall i: nat :: i < n ==> NewSlot(c, e, i, 0, Values(c, e, n))
  {
    hide Slot, Decoded, Values;
    forall i: nat | i < n ensures NewSlot(c, e, i, 0, Values(c, e, n)) {
      ValueAt(c, e, n, i);
    }
  }

  lemma {:induction false} OutsideIfWider(s: seq<Byte>, e: nat, n: nat, value: int)
    requires IsEncoding(e) && |s| == e * n && InRange(value, INT64)
    ensures ValueEncoding(value) > e ==> value !in Values(s, e, n)
  {
    if ValueEncoding(value) > e { OutsideAll(s, e, n, value); }
  }

  lemma {:induction false} SlotIs(s: seq<Byte>, e: nat, i: nat)
    requires e * (i + 1) <= |s|
    ensures 0 <= e * i && e * i + e <= |s| && Slot(s, e, i) == s[e * i..e * i + e]
  {
    SlotBounds(e, i);
  }

  lemma {:induction false} BytesMoved(s: seq<Byte>, src: nat, dst: nat, bytes: nat, a: nat, b: nat)
    requires src + bytes <= |s| && dst + bytes <= |s| && a <= b
    ensures b <= dst ==> MovedBytes(s, src, dst, bytes)[a..b] == s[a..b]
    ensures dst <= a && b <= dst + bytes ==> MovedBytes(s, src, dst, bytes)[a..b] == s[src + (a - dst)..src + (b - dst)]
  {
    var r := MovedBytes(s, src, dst, bytes);
    assert r[0..dst] == s[0..dst] && r[dst..dst + bytes] == s[src..src + bytes];
    hide MovedBytes;
    if b <= dst {
      Slices.Inner(r, 0, dst, a, b);
      Slices.Inner(s, 0, dst, a, b);
    }
    if dst <= a && b <= dst + bytes {
      Slices.Inner(r, dst, dst + bytes, a - dst, b - dst);
      Slices.Inner(s, src, src + bytes, a - dst, b - dst);
    }
  }

  /** Where a slot is after the move. */
  lemma {:induction false} SlotMoved(s: seq<Byte>, e: nat, n: nat, from: nat, to: nat, i: nat, vs: seq<int>)
    requires from <= n && e * n <= |s| && e * (to + n - from) <= |s| && |vs| == n && NewSlot(s, e, i, 0, vs)
    ensures from <= i ==>
              && e * (i - from + to + 1) <= |s|
              && Decoded(Slot(Moved(s, e, n, from, to), e, i - from + to)) == vs[i]
    ensures i < to && e * (i + 1) <= |s| ==> Decoded(Slot(Moved(s, e, n, from, to), e, i)) == vs[i]
  {
    SlotsBetween(e, from, n);
    SlotsBetween(e, to, to + n - from);
    var src, dst, bytes := e * from, e * to, e * n - e * from;
    var m := Moved(s, e, n, from, to);
    assert m == MovedBytes(s, src, dst, bytes);
    hide Moved, MovedBytes, Slot, Decoded;
    if from <= i {
      var j := i - from + to;
      SlotsFit(e, j, to + n - from);
      SlotsBetween(e, from, i);
      SlotsBetween(e, to, j);
      SlotsFit(e, i - from, n - from);
      SlotBounds(e, i);
      SlotBounds(e, j);
      BytesMoved(s, src, dst, bytes, e * j, e * j + e);
      assert src + (e * j - dst) == e * i && src + (e * j + e - dst) == e * i + e;
      SlotIs(m, e, j);
      SlotIs(s, e, i);
    }
    if i < to {
      SlotOrder(e, i, to);
      SlotBounds(e, i);
      BytesMoved(s, src, dst, bytes, e * i, e * i + e);
      SlotIs(m, e, i);
      SlotIs(s, e, i);
    }
  }

  /** The tail moved up by one and the value put into the gap. */
  lemma {:induction false} Inserted(before: seq<Byte>, c: seq<Byte>, e: nat, n: nat, pos: nat, value: int)
    requires IsEncoding(e) && |before| == e * n && |c| == e * (n + 1) && before <= c && pos <= n && InRange(value, e)
    ensures e * n <= |c| && e * (pos + 1 + n - pos) <= |c| && e * (pos + 1) <= |c|
    ensures var vs := Values(before, e, n);
            var m := if pos < n then Moved(c, e, n, pos, pos + 1) else c;
            Values(Put(m, e, pos, Encoded(value, e)), e, n + 1) == vs[..pos] + [value] + vs[pos..]
  {
    hide Values, Decoded, Slot, Encoded, Put, Moved, NewSlot;
    SlotBounds(e, n);
    SlotsFit(e, pos, n + 1);
    assert pos + 1 + n - pos == n + 1;
    var vs := Values(before, e, n);
    var m := if pos < n then Moved(c, e, n, pos, pos + 1) else c;
    var result := vs[..pos] + [value] + vs[pos..];
    ToSlots(before, e, n);
    NewWritten(m, e, pos, 0, result);
    var t := Encoded(value, e);
    var r := Put(m, e, pos, t);
    forall i: nat | i < n + 1 ensures NewSlot(r, e, i, 0, result) {
      if i < pos {
        InFront(before, c, e, n, i, vs);
        if pos < n { MovedSlots(c, e, n, pos, pos + 1, i, vs); }
        Same(m, e, i, vs, result);
        NewKept(m, e, pos, t, i, 0, result);
      } else if i > pos {
        InFront(before, c, e, n, i - 1, vs);
        MovedSlots(c, e, n, pos, pos + 1, i - 1, vs);
        Renamed(m, e, i - 1, 1, vs, result);
        NewKept(m, e, pos, t, i, 0, result);
      }
    }
    FromSlots(r, e, n + 1, result);
  }

  lemma {:induction false} Same(c: seq<Byte>, e: nat, i: nat, vs: seq<int>, ws: seq<int>)
    requires NewSlot(c, e, i, 0, vs) && i < |ws| && ws[i] == vs[i]
    ensures NewSlot(c, e, i, 0, ws)
  {
  }

  lemma {:induction false} InFront(s: seq<Byte>, c: seq<Byte>, e: nat, n: nat, i: nat, vs: seq<int>)
    requires |s| == e * n && s <= c && i < n && NewSlot(s, e, i, 0, vs)
    ensures NewSlot(c, e, i, 0, vs)
  {
    SlotsFit(e, i, n);
    assert Slot(s, e, i) == Slot(c, e, i);
    hide Decoded;
  }

  lemma {:induction false} MovedSlots(s: seq<Byte>, e: nat, n: nat, from: nat, to: nat, i: nat, vs: seq<int>)
    requires from <= n && e * n <= |s| && e * (to + n - from) <= |s| && |vs| == n && NewSlot(s, e, i, 0, vs)
    ensures from <= i && from <= to ==> NewSlot(Moved(s, e, n, from, to), e, i, to - from, vs)
    ensures i < to && i < from ==> NewSlot(Moved(s, e, n, from, to), e, i, 0, vs)
  {
    SlotMoved(s, e, n, from, to, i, vs);
    hide Slot, Decoded, Moved;
    if from <= i && from <= to { assert i - from + to == i + (to - from); }
  }

  lemma {:induction false} SortedInsert(vs: seq<int>, pos: nat, value: int)
    requires Sorted(vs) && Position(vs, value, false, pos)
    ensures Sorted(vs[..pos] + [value] + vs[pos..])
    ensures ElementsOf(vs[..pos] + [value] + vs[pos..]) == ElementsOf(vs) + {value}
  {
    InsertedElements(vs, pos, value);
    hide ElementsOf;
    var ws := vs[..pos] + [value] + vs[pos..];
    assert forall i :: 0 <= i < |ws| ==> ws[i] == if i < pos then vs[i] else if i == pos then value else vs[i - 1];
  }

  lemma {:induction false} InsertedElements(vs: seq<int>, pos: nat, value: int)
    requires pos <= |vs|
    ensures ElementsOf(vs[..pos] + [value] + vs[pos..]) == ElementsOf(vs) + {value}
  {
    assert vs == vs[..pos] + vs[pos..];
  }

  lemma {:induction false} SortedRemove(vs: seq<int>, pos: nat)
    requires Sorted(vs) && pos < |vs|
    ensures Sorted(vs[..pos] + vs[pos + 1..])
    ensures ElementsOf(vs[..pos] + vs[pos + 1..]) == ElementsOf(vs) - {vs[pos]}
  {
    var ws := vs[..pos] + vs[pos + 1..];
    assert forall i :: 0 <= i < |ws| ==> ws[i] == vs[if i < pos then i else i + 1];
    forall v | v in ElementsOf(vs) && v != vs[pos] ensures v in ElementsOf(ws) {
      var i :| 0 <= i < |vs| && vs[i] == v;
      assert ws[if i < pos then i else i - 1] == v;
    }
  }

  /** The tail moved down over the slot, and the last slot cut off. */
  lemma {:induction false} Removed(s: seq<Byte>, e: nat, n: nat, pos: nat)
    requires IsEncoding(e) && |s| == e * n && pos < n
    ensures pos + 1 <= n && e * (pos + n - (pos + 1)) <= |s| && 0 <= e * (n - 1) <= |s|
    ensures var vs := Values(s, e, n);
            var m := if pos < n - 1 then Moved(s, e, n, pos + 1, pos) else s;
            Values(m[..e * (n - 1)], e, n - 1) == vs[..pos] + vs[pos + 1..]
  {
    hide Values, Decoded, Slot, Moved, NewSlot;
    SlotBounds(e, n - 1);
    assert pos + n - (pos + 1) == n - 1;
    var vs := Values(s, e, n);
    var m := if pos < n - 1 then Moved(s, e, n, pos + 1, pos) else s;
    var r, result := m[..e * (n - 1)], vs[..pos] + vs[pos + 1..];
    ToSlots(s, e, n);
    forall i: nat | i < n - 1 ensures NewSlot(r, e, i, 0, result) {
      if i < pos {
        if pos < n - 1 { MovedSlots(s, e, n, pos + 1, pos, i, vs); }
        Same(m, e, i, vs, result);
      } else {
        MovedDown(s, e, n, pos, i, vs, result);
      }
      Within(m, e, n - 1, i, result);
    }
    FromSlots(r, e, n - 1, result);
  }

  lemma {:induction false} MovedDown(s: seq<Byte>, e: nat, n: nat, pos: nat, i: nat, vs: seq<int>, ws: seq<int>)
    requires IsEncoding(e) && |s| == e * n && pos < n && pos <= i < n - 1 && |vs| == n
    requires e * (pos + n - (pos + 1)) <= |s| && NewSlot(s, e, i + 1, 0, vs) && i < |ws| && ws[i] == vs[i + 1]
    ensures NewSlot(Moved(s, e, n, pos + 1, pos), e, i, 0, ws)
  {
    SlotMoved(s, e, n, pos + 1, pos, i + 1, vs);
    hide Slot, Decoded, Moved;
    assert i + 1 - (pos + 1) + pos == i;
  }

  lemma {:induction false} Within(s: seq<Byte>, e: nat, n: nat, i: nat, vs: seq<int>)
    requires i < n && 0 <= e * n <= |s| && NewSlot(s, e, i, 0, vs)
    ensures NewSlot(s[..e * n], e, i, 0, vs)
  {
    SlotsFit(e, i, n);
    assert Slot(s[..e * n], e, i) == Slot(s, e, i);
    hide Decoded;
  }
}

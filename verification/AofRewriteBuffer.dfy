/** The list of blocks that collects what happens while the child rewrites the file. */
module AofRewriteBuffer {
  import opened Bytes

  const BLOCK_SIZE: nat := 10485760

  /** The bytes used of all blocks, one after the other. */
  function Flat(blocks: seq<seq<Byte>>): seq<Byte> {
    if blocks == [] then [] else Flat(blocks[..|blocks| - 1]) + blocks[|blocks| - 1]
  }

  /** No block is empty, and all but the last are full. */
  predicate Packed(blocks: seq<seq<Byte>>) {
    && (forall i :: 0 <= i < |blocks| ==> 0 < |blocks[i]| <= BLOCK_SIZE)
    && (forall i :: 0 <= i < |blocks| - 1 ==> |blocks[i]| == BLOCK_SIZE)
  }

  lemma {:induction false} FlatSize(blocks: seq<seq<Byte>>)
    requires Packed(blocks)
    ensures |Flat(blocks)| == if blocks == [] then 0 else (|blocks| - 1) * BLOCK_SIZE + |blocks[|blocks| - 1]|
  {
    if blocks != [] { FlatSize(blocks[..|blocks| - 1]); }
  }

  lemma {:induction false} FlatSnoc(blocks: seq<seq<Byte>>, b: seq<Byte>)
    ensures Flat(blocks + [b]) == Flat(blocks) + b
  {
    assert (blocks + [b])[..|blocks|] == blocks;
  }

  lemma {:induction false} FlatTop(blocks: seq<seq<Byte>>, more: seq<Byte>)
    requires blocks != []
    ensures var n := |blocks| - 1; Flat(blocks[n := blocks[n] + more]) == Flat(blocks) + more
  {
    var n := |blocks| - 1;
    assert blocks[n := blocks[n] + more][..n] == blocks[..n];
  }

  /** The same, but the last block may be a new one with nothing in it yet. */
  predicate Open(blocks: seq<seq<Byte>>) {
    Packed(blocks) || (blocks != [] && blocks[|blocks| - 1] == [] && Full(blocks[..|blocks| - 1]))
  }

  predicate Full(blocks: seq<seq<Byte>>) {
    forall i :: 0 <= i < |blocks| ==> |blocks[i]| == BLOCK_SIZE
  }

  lemma {:induction false} OpenNew(blocks: seq<seq<Byte>>)
    requires Full(blocks)
    ensures Open(blocks + [[]]) && !Packed(blocks + [[]]) && Flat(blocks + [[]]) == Flat(blocks)
  {
    FlatSnoc(blocks, []);
    assert (blocks + [[]])[..|blocks|] == blocks;
    assert (blocks + [[]])[|blocks|] == [];
  }

  /** As much of s as the last block has room for; the block is full if anything is left of s. */
  method Fill(blocks: seq<seq<Byte>>, s: seq<Byte>) returns (blocks': seq<seq<Byte>>, s': seq<Byte>)
    requires Open(blocks) && blocks != [] && s != []
    ensures Packed(blocks') && Flat(blocks') + s' == Flat(blocks) + s
    ensures |s'| <= |s| && (!Packed(blocks) ==> |s'| < |s|) && (s' != [] ==> Full(blocks'))
  {
    var n := |blocks| - 1;
    var free := BLOCK_SIZE - |blocks[n]|;
    var len := if free < |s| then free else |s|;
    FlatTop(blocks, s[..len]);
    assert s == s[..len] + s[len..];
    blocks', s' := blocks[n := blocks[n] + s[..len]], s[len..];
    hide Flat;
    assert forall i :: 0 <= i < n ==> blocks'[i] == blocks[..n][i];
  }

  class RewriteBuffer {
    var blocks: seq<seq<Byte>>

    constructor ()
      ensures Valid() && Contents() == []
    {
      blocks := [];
    }

    ghost predicate Valid()
      reads this
    {
      Packed(blocks)
    }

    ghost function Contents(): seq<Byte>
      reads this
    {
      Flat(blocks)
    }

    /** aofRewriteBufferReset */
    method Reset()
      modifies this
      ensures Valid() && Contents() == []
    {
      blocks := [];
    }

    /** aofRewriteBufferSize */
    method Size() returns (size: nat)
      requires Valid()
      ensures size == |Contents()|
    {
      FlatSize(blocks);
      if blocks == [] { return 0; }
      size := (|blocks| - 1) * BLOCK_SIZE;
      size := size + |blocks[|blocks| - 1]|;
    }

    /** aofRewriteBufferAppend: into what is free of the last block, then into new blocks. */
    method Append(s0: seq<Byte>)
      requires Valid()
      modifies this
      ensures Valid() && Contents() == old(Contents()) + s0
    {
      var s := s0;
      assert blocks == [] || blocks[..|blocks| - 1] + [blocks[|blocks| - 1]] == blocks;
      while s != []
        invariant old(Contents()) + s0 == Contents() + s
        invariant Open(blocks) && (s == [] ==> Packed(blocks))
        decreases |s|, Packed(blocks)
      {
        hide Flat;
        if blocks != [] {
          blocks, s := Fill(blocks, s);
        }
        if s != [] {
          OpenNew(blocks);
          blocks := blocks + [[]];
        }
      }
    }

    /** aofRewriteBufferWrite to a file that holds out0. The write of block failing comes up short; -1 is
        returned then. */
    method Write(out0: seq<Byte>, failing: nat, short: nat) returns (out: seq<Byte>, count: int)
      requires Valid()
      ensures count == -1 || (count == |Contents()| && out == out0 + Contents())
      ensures failing >= |blocks| ==> count != -1
    {
      out, count := out0, 0;
      var i := 0;
      assert blocks[..|blocks|] == blocks;
      while i < |blocks|
        invariant 0 <= i <= |blocks| && i <= failing
        invariant count == |Flat(blocks[..i])| && out == out0 + Flat(blocks[..i])
      {
        assert blocks[..i + 1][..i] == blocks[..i];
        if i == failing {
          out := out + blocks[i][..if short < |blocks[i]| then short else |blocks[i]| - 1];
          return out, -1;
        }
        out := out + blocks[i];
        count := count + |blocks[i]|;
        i := i + 1;
      }
    }
  }
}

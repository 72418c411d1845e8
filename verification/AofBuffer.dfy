/**
 The rewrite buffer of `aof.c`: what the parent logs while a child rewrites the file,
 kept in a list of blocks of fixed size.
 */
module AofBuffer {
  import opened AofFormat

  /** AOF_RW_BUF_BLOCK_SIZE. */
  const BLOCK_SIZE: nat := 10 * 1024 * 1024

  /** A block: `buf` holds the bytes in use. */
  datatype Block = Block(used: nat, free: nat, buf: Bytes)

  predicate BlockOk(b: Block) {
    b.used == |b.buf| && b.used + b.free == BLOCK_SIZE
  }

  /** All blocks but the last are full. */
  predicate BlocksOk(blocks: seq<Block>) {
    && (forall i | 0 <= i < |blocks| :: BlockOk(blocks[i]))
    && (forall i | 0 <= i < |blocks| - 1 :: blocks[i].free == 0)
  }

  function Content(blocks: seq<Block>): Bytes {
    if blocks == [] then [] else Content(blocks[..|blocks| - 1]) + blocks[|blocks| - 1].buf
  }

  lemma {:induction false} FullContent(blocks: seq<Block>)
    requires forall i | 0 <= i < |blocks| :: BlockOk(blocks[i]) && blocks[i].free == 0
    ensures |Content(blocks)| == |blocks| * BLOCK_SIZE
  {
    if blocks != [] {
      var front := blocks[..|blocks| - 1];
      FullContent(front);
      assert |Content(blocks)| == |Content(front)| + BLOCK_SIZE;
      hide Content;
      assert |front| * BLOCK_SIZE + BLOCK_SIZE == |blocks| * BLOCK_SIZE;
    }
  }

  class RewriteBuffer {
    var blocks: seq<Block>

    predicate Valid()
      reads this
    {
      BlocksOk(blocks)
    }

    constructor ()
      ensures Valid() && Content(blocks) == []
    {
      blocks := [];
    }

    /** `aofRewriteBufferReset`. */
    method Reset()
      modifies this
      ensures Valid() && Content(blocks) == []
    {
      blocks := [];
    }

    /** `aofRewriteBufferSize`, which looks at the last block only. */
    method Size() returns (size: nat)
      requires Valid()
      ensures size == |Content(blocks)|
    {
      if |blocks| == 0 {
        return 0;
      }
      FullContent(blocks[..|blocks| - 1]);
      size := (|blocks| - 1) * BLOCK_SIZE;
      size := size + blocks[|blocks| - 1].used;
    }

    /** One `memcpy` into the last block, of as much as fits. */
    method FillLast(s: Bytes) returns (rest: Bytes)
      requires Valid() && |blocks| > 0
      modifies this
      ensures Valid() && |blocks| == old(|blocks|)
      ensures Content(blocks) + rest == old(Content(blocks)) + s
      ensures rest != [] ==> blocks[|blocks| - 1].free == 0
      ensures |rest| == if |s| <= old(blocks[|blocks| - 1].free) then 0 else |s| - old(blocks[|blocks| - 1].free)
    {
      var last := blocks[|blocks| - 1];
      var thislen := if last.free < |s| then last.free else |s|;
      rest := s;
      if thislen > 0 {
        blocks := blocks[|blocks| - 1 := Block(last.used + thislen, last.free - thislen, last.buf + s[..thislen])];
        rest := s[thislen..];
        assert blocks[..|blocks| - 1] == old(blocks)[..|blocks| - 1];
      }
    }

    /** `aofRewriteBufferAppend`. */
    method Append(data: Bytes)
      requires Valid()
      modifies this
      ensures Valid() && Content(blocks) == old(Content(blocks)) + data
    {
      var s := data;
      while |s| > 0
        invariant Valid() && Content(blocks) + s == old(Content(blocks)) + data
        decreases |s|, if |blocks| > 0 && blocks[|blocks| - 1].free > 0 then 0 else 1
      {
        if |blocks| > 0 {
          s := FillLast(s);
        }
        if |s| > 0 {
          ghost var before := blocks;
          blocks := blocks + [Block(0, BLOCK_SIZE, [])];
          assert blocks[..|blocks| - 1] == before;
        }
      }
    }

    /** `aofRewriteBufferWrite` to a file that takes `room` more bytes: -1 after a short write. */
    method Write(file: Bytes, room: nat) returns (file': Bytes, count: int)
      requires Valid()
      ensures |Content(blocks)| <= room ==> file' == file + Content(blocks) && count == |Content(blocks)|
      ensures |Content(blocks)| > room ==> file' == file + Content(blocks)[..room] && count == -1
    {
      file', count := file, 0;
      var i := 0;
      while i < |blocks|
        invariant 0 <= i <= |blocks| && count <= room
        invariant file' == file + Content(blocks[..i]) && count == |Content(blocks[..i])|
      {
        assert blocks[..i + 1][..i] == blocks[..i];
        if blocks[i].used > 0 {
          if count + blocks[i].used > room {
            ContentPrefix(blocks, i + 1);
            file' := file' + blocks[i].buf[..room - count];
            assert file' == file + Content(blocks)[..room];
            return file', -1;
          }
          file' := file' + blocks[i].buf;
          count := count + blocks[i].used;
        }
        i := i + 1;
      }
      assert blocks[..i] == blocks;
    }
  }

  lemma {:induction false} ContentPrefix(blocks: seq<Block>, i: nat)
    requires i <= |blocks|
    ensures Content(blocks[..i]) <= Content(blocks)
    decreases |blocks|
  {
    if i == |blocks| {
      assert blocks[..i] == blocks;
    } else {
      var n := |blocks| - 1;
      assert blocks[..n][..i] == blocks[..i];
      ContentPrefix(blocks[..n], i);
    }
  }
}

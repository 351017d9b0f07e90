/** Which blocks of a disk are worth uploading. */
module SparseBlocks {
  import opened Bytes
  import opened Options

  const BLOCK_SIZE: nat := 512 * 1024

  datatype Block = Block(index: nat, data: Bytes)

  /** A file with holes: what it reads as, and which of its bytes are backed. */
  datatype Disk = Disk(content: Bytes, backed: seq<bool>)

  /** Holes read as zeros. */
  ghost predicate Sparse(disk: Disk) {
    && |disk.backed| == |disk.content|
    && forall i :: 0 <= i < |disk.content| && !disk.backed[i] ==> disk.content[i] == 0
  }

  /** `SEEK_DATA`: the first backed byte from here on, if there is one. */
  function SeekData(backed: seq<bool>, offset: nat): (start: Option<nat>)
    ensures start.Some? ==>
              && offset <= start.value < |backed| && backed[start.value]
              && forall i :: offset <= i < start.value ==> !backed[i]
    ensures start.None? ==> forall i :: offset <= i < |backed| ==> !backed[i]
    decreases |backed| - offset
  {
    if offset >= |backed| then None else if backed[offset] then Some(offset) else SeekData(backed, offset + 1)
  }

  /** `SEEK_HOLE`: the first byte from here on that is not backed, or the end. */
  function SeekHole(backed: seq<bool>, start: nat): (end: nat)
    requires start <= |backed|
    ensures start <= end <= |backed| && forall i :: start <= i < end ==> backed[i]
    ensures start < |backed| && backed[start] ==> start < end
    decreases |backed| - start
  {
    if start == |backed| || !backed[start] then start else SeekHole(backed, start + 1)
  }

  function ByteAt(content: Bytes, i: nat): byte {
    if i < |content| then content[i] else 0
  }

  /** A block of a disk, the last one filled up with zeros. */
  function BlockAt(content: Bytes, index: nat): (data: Bytes)
    ensures |data| == BLOCK_SIZE
  {
    seq<byte>(BLOCK_SIZE, i requires 0 <= i < BLOCK_SIZE => ByteAt(content, index * BLOCK_SIZE + i))
  }

  predicate AllZero(data: Bytes) {
    forall i :: 0 <= i < |data| ==> data[i] == 0
  }

  function Blocks(size: nat): nat {
    (size + BLOCK_SIZE - 1) / BLOCK_SIZE
  }

  /** The blocks that hold anything but zeros, from one on. */
  function NonZeroFrom(content: Bytes, index: nat): seq<Block>
    decreases Blocks(|content|) - index
  {
    if index >= Blocks(|content|) then []
    else
      (if AllZero(BlockAt(content, index)) then [] else [Block(index, BlockAt(content, index))]) + NonZeroFrom(content, index + 1)
  }

  function OnlyNonZero(blocks: seq<Block>): seq<Block> {
    if blocks == [] then []
    else OnlyNonZero(blocks[..|blocks| - 1]) + if AllZero(blocks[|blocks| - 1].data) then [] else [blocks[|blocks| - 1]]
  }

  /** Blocks with nothing backed in them hold nothing but zeros. */
  lemma {:induction false} HolesAreSkipped(disk: Disk, index: nat, start: nat)
    requires Sparse(disk) && index * BLOCK_SIZE <= start <= |disk.content|
    requires forall i :: index * BLOCK_SIZE <= i < start ==> !disk.backed[i]
    requires start < |disk.content| ==> disk.backed[start]
    ensures var next := if start < |disk.content| then start / BLOCK_SIZE else Blocks(|disk.content|);
            NonZeroFrom(disk.content, index) == NonZeroFrom(disk.content, next)
    decreases start - index * BLOCK_SIZE
  {
    var size := |disk.content|;
    if index < Blocks(size) && (start == size || index < start / BLOCK_SIZE) {
      assert (index + 1) * BLOCK_SIZE <= start || start == size;
      forall i | 0 <= i < BLOCK_SIZE
        ensures BlockAt(disk.content, index)[i] == 0
      {
        var at := index * BLOCK_SIZE + i;
        assert at < size ==> at < start && !disk.backed[at] && disk.content[at] == 0;
        assert ByteAt(disk.content, at) == 0;
      }
      assert [] + NonZeroFrom(disk.content, index + 1) == NonZeroFrom(disk.content, index + 1);
      if (index + 1) * BLOCK_SIZE <= start {
        HolesAreSkipped(disk, index + 1, start);
      }
    }
  }

  lemma OneMoreBlock(blocks: seq<Block>, content: Bytes, index: nat)
    requires index < Blocks(|content|)
    ensures OnlyNonZero(blocks + [Block(index, BlockAt(content, index))]) + NonZeroFrom(content, index + 1) ==
            OnlyNonZero(blocks) + NonZeroFrom(content, index)
  {
    hide BlockAt, AllZero;
    var one := Block(index, BlockAt(content, index));
    assert (blocks + [one])[..|blocks|] == blocks;
    var kept := if AllZero(one.data) then [] else [one];
    var rest := NonZeroFrom(content, index + 1);
    assert OnlyNonZero(blocks) + kept + rest == OnlyNonZero(blocks) + (kept + rest);
  }

  method TakeRange(content: Bytes, from: nat, to: nat, before: seq<Block>) returns (blocks: seq<Block>)
    requires from <= to <= Blocks(|content|)
    ensures OnlyNonZero(blocks) + NonZeroFrom(content, to) == OnlyNonZero(before) + NonZeroFrom(content, from)
  {
    hide BlockAt, NonZeroFrom, OnlyNonZero;
    blocks := before;
    for index := from to to
      invariant OnlyNonZero(blocks) + NonZeroFrom(content, index) == OnlyNonZero(before) + NonZeroFrom(content, from)
    {
      OneMoreBlock(blocks, content, index);
      blocks := blocks + [Block(index, BlockAt(content, index))];
    }
  }

  /** Read the blocks that anything is backed in, passing over the holes between them. */
  method AllocatedBlocks(disk: Disk) returns (blocks: seq<Block>)
    requires Sparse(disk)
    ensures OnlyNonZero(blocks) == NonZeroFrom(disk.content, 0)
  {
    hide NonZeroFrom, OnlyNonZero, Sparse;
    blocks := [];
    var offset, size := 0, |disk.content|;
    ghost var block: nat := 0;
    NoBlocks(disk.content);
    while offset < size
      invariant offset == block * BLOCK_SIZE && block <= Blocks(size)
      invariant OnlyNonZero(blocks) + NonZeroFrom(disk.content, block) == NonZeroFrom(disk.content, 0)
      decreases size - offset
    {
      SameLengths(disk);
      var start := SeekData(disk.backed, offset);
      HolesAreSkipped(disk, block, if start.Some? then start.value else size);
      if start.None? {
        break;
      }
      var end := SeekHole(disk.backed, start.value);
      blocks := TakeRange(disk.content, start.value / BLOCK_SIZE, (end + BLOCK_SIZE - 1) / BLOCK_SIZE, blocks);
      block := (end + BLOCK_SIZE - 1) / BLOCK_SIZE;
      offset := (end + BLOCK_SIZE - 1) / BLOCK_SIZE * BLOCK_SIZE;
    }
    NoBlocks(disk.content);
    assert OnlyNonZero(blocks) + [] == OnlyNonZero(blocks);
  }

  lemma NoBlocks(content: Bytes)
    ensures forall index: nat :: index >= Blocks(|content|) ==> NonZeroFrom(content, index) == []
    ensures OnlyNonZero([]) == [] && OnlyNonZero([]) + NonZeroFrom(content, 0) == NonZeroFrom(content, 0)
  {
  }

  lemma SameLengths(disk: Disk)
    requires Sparse(disk)
    ensures |disk.backed| == |disk.content|
  {
  }

  /** Read a disk that is decompressed on the fly, block after block. */
  method DecompressedBlocks(content: Bytes) returns (blocks: seq<Block>)
    ensures OnlyNonZero(blocks) == NonZeroFrom(content, 0)
  {
    hide NonZeroFrom, OnlyNonZero;
    NoBlocks(content);
    blocks := TakeRange(content, 0, Blocks(|content|), []);
    assert OnlyNonZero(blocks) + [] == OnlyNonZero(blocks);
  }

  /** Yield each block that holds anything but zeros. How a disk is stored, compressed or in extents
      with holes between them, makes no difference to what is yielded. */
  method DataBlocks(disk: Disk, compressed: bool) returns (yielded: seq<Block>)
    requires Sparse(disk)
    ensures yielded == NonZeroFrom(disk.content, 0)
  {
    hide NonZeroFrom, Sparse;
    var blocks;
    if compressed {
      blocks := DecompressedBlocks(disk.content);
    } else {
      blocks := AllocatedBlocks(disk);
    }
    yielded := [];
    for i := 0 to |blocks|
      invariant yielded == OnlyNonZero(blocks[..i])
    {
      assert blocks[..i + 1][..i] == blocks[..i];
      if !AllZero(blocks[i].data) {
        yielded := yielded + [blocks[i]];
      } else {
        assert yielded + [] == yielded;
      }
    }
    assert blocks[..|blocks|] == blocks;
  }

  // What the yielded blocks make.

  function ZeroBlock(): (data: Bytes)
    ensures |data| == BLOCK_SIZE && AllZero(data)
  {
    seq<byte>(BLOCK_SIZE, _ => 0)
  }

  lemma ZerosAreEqual(data: Bytes)
    requires |data| == BLOCK_SIZE && AllZero(data)
    ensures data == ZeroBlock()
  {
  }

  /** The blocks of a snapshot nothing was written to. */
  function Blank(count: nat): (image: seq<Bytes>)
    ensures |image| == count && forall i :: 0 <= i < count ==> image[i] == ZeroBlock()
  {
    seq(count, _ => ZeroBlock())
  }

  function WriteAll(image: seq<Bytes>, blocks: seq<Block>): (after: seq<Bytes>)
    requires forall i :: 0 <= i < |blocks| ==> blocks[i].index < |image|
    ensures |after| == |image|
    decreases |blocks|
  {
    if blocks == [] then image else WriteAll(image[blocks[0].index := blocks[0].data], blocks[1..])
  }

  /** This is a block of the disk, not before this one, and has something in it. */
  ghost predicate Worthwhile(content: Bytes, from: nat, block: Block) {
    from <= block.index < Blocks(|content|) && block.data == BlockAt(content, block.index) && !AllZero(block.data)
  }

  /** Blocks are yielded in strictly increasing order, and only those with something in them. */
  lemma {:induction false} YieldedInOrder(content: Bytes, from: nat)
    ensures forall i :: 0 <= i < |NonZeroFrom(content, from)| ==> Worthwhile(content, from, NonZeroFrom(content, from)[i])
    ensures forall i, j :: 0 <= i < j < |NonZeroFrom(content, from)| ==>
              NonZeroFrom(content, from)[i].index < NonZeroFrom(content, from)[j].index
    decreases Blocks(|content|) - from
  {
    hide BlockAt, AllZero, Blocks;
    if from < Blocks(|content|) {
      YieldedInOrder(content, from + 1);
      var blocks, rest := NonZeroFrom(content, from), NonZeroFrom(content, from + 1);
      if AllZero(BlockAt(content, from)) {
        assert blocks == rest;
      } else {
        assert blocks == [Block(from, BlockAt(content, from))] + rest;
        assert forall i :: 0 < i < |blocks| ==> blocks[i] == rest[i - 1];
      }
      forall i | 0 <= i < |rest|
        ensures Worthwhile(content, from, rest[i]) && from < rest[i].index
      {
        assert Worthwhile(content, from + 1, rest[i]);
      }
    }
  }

  lemma WritesFirst(image: seq<Bytes>, block: Block, rest: seq<Block>)
    requires block.index < |image| && forall i :: 0 <= i < |rest| ==> rest[i].index < |image|
    ensures forall i :: 0 <= i < |[block] + rest| ==> ([block] + rest)[i].index < |image|
    ensures WriteAll(image, [block] + rest) == WriteAll(image[block.index := block.data], rest)
  {
    assert ([block] + rest)[1..] == rest;
  }

  lemma NextYield(content: Bytes, from: nat)
    requires from < Blocks(|content|)
    ensures NonZeroFrom(content, from) ==
            if AllZero(BlockAt(content, from)) then NonZeroFrom(content, from + 1)
            else [Block(from, BlockAt(content, from))] + NonZeroFrom(content, from + 1)
  {
    hide BlockAt, AllZero, Blocks;
    assert [] + NonZeroFrom(content, from + 1) == NonZeroFrom(content, from + 1);
  }

  lemma {:induction false} WritesFrom(content: Bytes, from: nat, image: seq<Bytes>)
    requires |image| == Blocks(|content|) && from <= |image|
    requires forall i :: from <= i < |image| ==> image[i] == ZeroBlock()
    requires forall i :: 0 <= i < |NonZeroFrom(content, from)| ==> NonZeroFrom(content, from)[i].index < |image|
    ensures forall i :: 0 <= i < |image| ==>
              WriteAll(image, NonZeroFrom(content, from))[i] == if i < from then image[i] else BlockAt(content, i)
    decreases |image| - from
  {
    hide BlockAt, AllZero, ZeroBlock, Blocks, NonZeroFrom, WriteAll;
    if from == |image| {
      NothingToWrite(content, image);
    } else {
      var data, rest := BlockAt(content, from), NonZeroFrom(content, from + 1);
      NextYield(content, from);
      YieldedInOrder(content, from + 1);
      forall i | 0 <= i < |rest|
        ensures rest[i].index < |image|
      {
        assert Worthwhile(content, from + 1, rest[i]);
      }
      if AllZero(data) {
        ZerosAreEqual(data);
        WritesFrom(content, from + 1, image);
      } else {
        WritesFirst(image, Block(from, data), rest);
        WritesFrom(content, from + 1, image[from := data]);
      }
    }
  }

  lemma NothingToWrite(content: Bytes, image: seq<Bytes>)
    requires |image| == Blocks(|content|)
    ensures NonZeroFrom(content, |image|) == [] && WriteAll(image, []) == image
  {
  }

  /** Writing what was yielded over zeros makes the disk, filled up with zeros to a whole block. */
  lemma YieldedBlocksMakeTheDisk(content: Bytes)
    ensures forall i :: 0 <= i < |NonZeroFrom(content, 0)| ==> NonZeroFrom(content, 0)[i].index < Blocks(|content|)
    ensures var image := WriteAll(Blank(Blocks(|content|)), NonZeroFrom(content, 0));
            && |content| <= |image| * BLOCK_SIZE < |content| + BLOCK_SIZE
            && (forall i :: 0 <= i < |image| ==> |image[i]| == BLOCK_SIZE)
            && forall i, k :: 0 <= i < |image| && 0 <= k < BLOCK_SIZE ==> image[i][k] == ByteAt(content, i * BLOCK_SIZE + k)
  {
    hide NonZeroFrom, WriteAll, ZeroBlock;
    YieldedInOrder(content, 0);
    var count := Blocks(|content|);
    forall i | 0 <= i < |NonZeroFrom(content, 0)|
      ensures NonZeroFrom(content, 0)[i].index < count
    {
      assert Worthwhile(content, 0, NonZeroFrom(content, 0)[i]);
    }
    WritesFrom(content, 0, Blank(count));
    var image := WriteAll(Blank(count), NonZeroFrom(content, 0));
    assert forall i :: 0 <= i < |image| ==> image[i] == BlockAt(content, i);
  }
}

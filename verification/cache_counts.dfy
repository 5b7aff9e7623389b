/**
  How many bytes a read or a write through the cache transfers, block by block, with the
  unsigned arithmetic of the source.
 */
module CacheCounts {
  import opened CacheModel

  /** size_t is 64 bits wide. */
  function Unsigned(x: int): int { x % 0x1_0000_0000_0000_0000 }

  /** What a read of a flat file transfers. */
  function FlatReadCount(pos: nat, count: nat, len: nat): int {
    if pos <= len then Min(count, len - pos) else 0
  }

  /** What a cached read transfers: behind the end of the file but in its last block, the
      bytes left are computed by an unsigned subtraction that wraps. */
  function ReadCount(pos: nat, count: nat, len: nat): int {
    if pos <= len then Min(count, len - pos)
    else if BlockStart(pos) >= len then 0
    else Min(count, BlockStart(pos) + 4096 - pos)
  }

  /** What a cached write transfers: it cannot go past the last block of the file. */
  function WriteCount(pos: nat, count: nat, len: nat): int {
    if pos >= RoundUp(len) then 0 else Min(count, RoundUp(len) - pos)
  }

  /** The bytes that one round of the read loop copies. */
  function ReadChunk(offset: nat, count: nat, valid: nat): int {
    Min(Min(4096 - offset % 4096, count), Unsigned(valid - offset % 4096))
  }

  lemma BlockStartIs(offset: nat)
    ensures BlockStart(offset) == offset - offset % 4096 && BlockStart(offset) % 4096 == 0 && 0 <= BlockStart(offset)
  {
  }

  lemma NextBlock(offset: nat)
    ensures BlockStart(BlockStart(offset) + 4096) == BlockStart(offset) + 4096
    ensures forall x | offset <= x < BlockStart(offset) + 4096 :: BlockStart(x) == BlockStart(offset)
  {
  }

  /** A cached read transfers what a flat file would exactly when nothing is asked for, or
      the position is not behind the end, or its block is. */
  lemma ReadIsFlat(pos: nat, count: nat, len: nat)
    ensures ReadCount(pos, count, len) == FlatReadCount(pos, count, len) <==>
        count == 0 || pos <= len || BlockStart(pos) >= len
  {
    BlockStartIs(pos);
  }

  /** One byte in the file and a position behind it: the read returns a byte that the file
      does not have. */
  lemma ReadBehindEnd()
    ensures ReadCount(5, 10, 1) == 10 && FlatReadCount(5, 10, 1) == 0
  {
    BlockStartIs(5);
  }

  lemma ReadStep(offset: nat, count: nat, len: nat, valid: nat)
    requires count > 0 && (BlockStart(offset) < len ==> valid == Min(4096, len - BlockStart(offset)))
    ensures BlockStart(offset) >= len ==> ReadCount(offset, count, len) == 0
    ensures var full, n := Min(4096 - offset % 4096, count), ReadChunk(offset, count, valid);
            BlockStart(offset) < len ==>
              && 0 <= n <= full && full > 0
              && (n < full ==> ReadCount(offset, count, len) == n)
              && (n == full ==> ReadCount(offset, count, len) == n + ReadCount(offset + n, count - n, len))
              && (offset <= len ==> offset + n <= len && offset % 4096 + n <= valid)
  {
    BlockStartIs(offset);
    NextBlock(offset);
    var w := offset % 4096;
    if BlockStart(offset) < len && w <= valid {
      assert Unsigned(valid - w) == valid - w;
    } else if BlockStart(offset) < len {
      assert Unsigned(valid - w) == valid - w + 0x1_0000_0000_0000_0000;
    }
  }

  lemma RoundUpIs(len: nat)
    ensures len <= RoundUp(len) < len + 4096 && RoundUp(len) % 4096 == 0
  {
  }

  /** A file that grows inside its last block still ends in that block. */
  lemma RoundUpSame(len: nat, len': nat)
    requires len <= len' <= RoundUp(len)
    ensures RoundUp(len') == RoundUp(len)
  {
    RoundUpIs(len);
    RoundUpIs(len');
  }

  lemma WriteStep(offset: nat, count: nat, len: nat)
    requires count > 0
    ensures BlockStart(offset) >= len ==> WriteCount(offset, count, len) == 0
    ensures var n := Min(4096 - offset % 4096, count);
            BlockStart(offset) < len ==>
              && n > 0 && offset + n <= RoundUp(len) && offset % 4096 + n <= 4096
              && RoundUp(Max(len, offset + n)) == RoundUp(len)
              && WriteCount(offset, count, len) == n + WriteCount(offset + n, count - n, Max(len, offset + n))
  {
    BlockStartIs(offset);
    RoundUpIs(len);
    if BlockStart(offset) < len {
      BlocksApart(BlockStart(offset), RoundUp(len));
      RoundUpSame(len, Max(len, offset + Min(4096 - offset % 4096, count)));
    } else {
      BlocksReach(BlockStart(offset), RoundUp(len), len);
    }
  }

  lemma BlocksReach(a: int, b: int, len: int)
    requires a % 4096 == 0 && b % 4096 == 0 && len <= a && b < len + 4096
    ensures a >= b
  {
  }

  lemma ReadNothing(pos: nat, len: nat)
    ensures ReadCount(pos, 0, len) == 0 && WriteCount(pos, 0, len) == 0
  {
    RoundUpIs(len);
    BlockStartIs(pos);
  }
}

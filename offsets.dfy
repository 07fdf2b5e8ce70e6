/** The offset space of the random prober (myio.c:128-133). */
module Offsets {
  import opened Common

  /** The last byte offset at which a full read of `ioSize` bytes can start (myio.c:128). */
  function MaxOffset(fileSize: nat, ioSize: nat): (m: nat)
    requires ioSize <= fileSize
    ensures m + ioSize == fileSize
  {
    fileSize - ioSize
  }

  /**
   * The block count of myio.c:129: whole blocks in `maxOffset`, plus one for a remainder.
   * `max_offset` is never negative here, so C's truncating `/` and `%` agree with Dafny's.
   * The result is the ceiling of `max_offset / BLOCK_SIZE`, and it is 0 when `max_offset` is 0.
   */
  function NumBlocks(maxOffset: nat): (n: nat)
    ensures n * BLOCK_SIZE >= maxOffset
    ensures maxOffset > 0 ==> (n - 1) * BLOCK_SIZE < maxOffset
    ensures n == 0 <==> maxOffset == 0
  {
    maxOffset / BLOCK_SIZE + (if maxOffset % BLOCK_SIZE != 0 then 1 else 0)
  }

  /**
   * The offset step of myio.c:132-133: the draw is reduced modulo the block count and
   * scaled to a byte offset; the draw is any non-negative value. C leaves a remainder by
   * zero undefined, hence the precondition.
   */
  function BlockOffset(draw: nat, numBlocks: nat): (offset: nat)
    requires numBlocks > 0
    ensures offset % BLOCK_SIZE == 0
    ensures offset + BLOCK_SIZE <= numBlocks * BLOCK_SIZE
  {
    (draw % numBlocks) * BLOCK_SIZE
  }

  /**
   * Whenever the offset step is defined, every drawn offset is block-aligned and strictly
   * below `max_offset`, so the read of `io_size` bytes that follows stays inside the file,
   * whether or not `max_offset` is a multiple of the block size.
   */
  lemma OffsetStaysInFile(fileSize: nat, ioSize: nat, draw: nat)
    requires ioSize <= fileSize
    requires NumBlocks(MaxOffset(fileSize, ioSize)) > 0
    ensures var offset := BlockOffset(draw, NumBlocks(MaxOffset(fileSize, ioSize)));
      offset % BLOCK_SIZE == 0 && offset < MaxOffset(fileSize, ioSize) && offset + ioSize <= fileSize
  {
  }

  /** The offset step is undefined exactly when the file holds one probe and nothing more. */
  lemma NoBlocksIffNoSlack(fileSize: nat, ioSize: nat)
    requires ioSize <= fileSize
    ensures NumBlocks(MaxOffset(fileSize, ioSize)) == 0 <==> fileSize == ioSize
  {
  }

  /**
   * Corrected count: the number of block-aligned offsets in [0, max_offset], which is
   * at least one (offset 0) for every non-negative `max_offset`.
   */
  function AlignedOffsetCount(maxOffset: nat): (n: nat)
    ensures n > 0
    ensures (n - 1) * BLOCK_SIZE <= maxOffset < n * BLOCK_SIZE
  {
    maxOffset / BLOCK_SIZE + 1
  }

  /**
   * With the corrected count the offset step is always defined, never passes `max_offset`,
   * and reaches every block-aligned offset up to and including `max_offset`.
   */
  lemma CorrectedOffsetsCoverRange(maxOffset: nat)
    ensures forall draw: nat :: BlockOffset(draw, AlignedOffsetCount(maxOffset)) <= maxOffset
    ensures forall o: nat :: o <= maxOffset && o % BLOCK_SIZE == 0 ==>
      BlockOffset(o / BLOCK_SIZE, AlignedOffsetCount(maxOffset)) == o
  {
    var n := AlignedOffsetCount(maxOffset);
    forall draw: nat ensures BlockOffset(draw, n) <= maxOffset {
      assert draw % n <= n - 1;
      assert (draw % n) * BLOCK_SIZE <= (n - 1) * BLOCK_SIZE;
    }
    forall o: nat | o <= maxOffset && o % BLOCK_SIZE == 0
      ensures BlockOffset(o / BLOCK_SIZE, n) == o
    {
      assert o / BLOCK_SIZE < n;
      assert (o / BLOCK_SIZE) % n == o / BLOCK_SIZE;
    }
  }

  /**
   * The count as written falls one short of the aligned offsets in range exactly when
   * `max_offset` is a multiple of the block size: at 0 it leaves no block at all, and above 0
   * the aligned offset `max_offset` itself is never drawn.
   */
  lemma AsWrittenCountMissesAlignedEnd(maxOffset: nat)
    ensures NumBlocks(maxOffset) == AlignedOffsetCount(maxOffset) - (if maxOffset % BLOCK_SIZE == 0 then 1 else 0)
    ensures maxOffset > 0 && maxOffset % BLOCK_SIZE == 0 ==>
      forall draw: nat :: BlockOffset(draw, NumBlocks(maxOffset)) != maxOffset
  {
    if maxOffset > 0 && maxOffset % BLOCK_SIZE == 0 {
      var n := NumBlocks(maxOffset);
      forall draw: nat ensures BlockOffset(draw, n) != maxOffset {
        assert draw % n <= n - 1;
        assert (draw % n) * BLOCK_SIZE <= (n - 1) * BLOCK_SIZE;
      }
    }
  }
}

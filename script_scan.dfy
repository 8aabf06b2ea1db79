/**
 * The `ChunkFactory` inside `Main.create` of dvr-recover.py: it reads the
 * image block by block, keeps the chunks in a list, and starts from block 0
 * with `old_clock` 0.
 */
module ScriptScan {
  import opened Wrappers
  import PackHeader
  import opened ChunkScan

  datatype ScanError =
    | SeekFailed  // FileReaderError: the image is empty, so no part holds offset 0
    | ShortRead   // UnexpectedResultError: a read returned fewer bytes than a block

  class Factory {
    var chunks: seq<Found>
    var currentBlock: nat
    var clock: Option<nat>
    var oldClock: nat
    var chunk: Option<Pending>
    const blocksize: nat
    const minChunkSize: int
    const maxGap: nat

    /** `__init__`: no chunks, block 0, clocks 0, nothing open. */
    constructor (blocksize: nat, minChunkSize: int, maxGap: nat)
      ensures chunks == [] && currentBlock == 0 && oldClock == 0 && chunk.None?
      ensures this.blocksize == blocksize && this.minChunkSize == minChunkSize && this.maxGap == maxGap
    {
      chunks := [];
      currentBlock := 0;
      clock := Some(0);
      oldClock := 0;
      chunk := None;
      this.blocksize := blocksize;
      this.minChunkSize := minChunkSize;
      this.maxGap := maxGap;
    }

    /** The scan variables the fields hold. */
    function Variables(): State
      reads this`chunks, this`chunk, this`oldClock
    {
      State(chunks, chunk, Some(oldClock))
    }

    /** `split`: records the open chunk, keeps it when it has at least `min_chunk_size` blocks, and closes it. */
    method Split()
      modifies this
      ensures Variables() == ChunkScan.Split(old(Variables()), currentBlock, Some(minChunkSize))
      ensures currentBlock == old(currentBlock) && clock == old(clock)
    {
      if chunk.Some? {
        var found := Found(chunk.value.blockStart, currentBlock - 1 - chunk.value.blockStart, chunk.value.clockStart, oldClock);
        if found.blockSize >= minChunkSize {
          chunks := chunks + [found];
        }
        chunk := None;
      }
    }

    /** The loop body of `run` for a whole block read at `current_block`. */
    method ScanBlock(buf: seq<bv8>)
      requires |buf| >= PackHeader.HeaderLength
      modifies this
      ensures Variables() == Step(old(Variables()), currentBlock, PackHeader.MpegHeader(buf), maxGap, Some(minChunkSize))
      ensures currentBlock == old(currentBlock)
    {
      clock := PackHeader.MpegHeader(buf);
      if clock.None? {
        Split();
      } else {
        if chunk.None? {
          chunk := Some(Pending(currentBlock, clock.value));
        } else {
          if clock.value < oldClock || clock.value - oldClock > maxGap {
            Split();
          }
        }
        oldClock := clock.value;
      }
    }

    /**
     * `run`: on an image of `size` bytes, seeks to offset 0, scans `blocks`,
     * the `size / blocksize` successive reads of `blocksize` bytes from
     * block 0, then splits at the block the loop stopped on.  The seek fails
     * on an empty image; a read of the wrong length stops the run with an
     * error after the blocks before it.
     */
    method Run(size: nat, blocks: seq<seq<bv8>>) returns (error: Option<ScanError>)
      requires blocksize >= PackHeader.HeaderLength && |blocks| == size / blocksize
      modifies this
      ensures var k := FirstShort(blocks, blocksize);
        var s0 := State(old(chunks), None, Some(old(oldClock)));
        (error == Some(SeekFailed) <==> size == 0)
        && (error == Some(SeekFailed) ==> Variables() == s0)
        && (error.None? <==> size > 0 && k == |blocks|)
        && (error.None? ==> Variables() == Finish(s0, Clocks(Full, blocks), 0, maxGap, Some(minChunkSize)))
        && (error == Some(ShortRead) ==> Variables() == Scan(s0, Clocks(Full, blocks[..k]), 0, k, maxGap, Some(minChunkSize)))
    {
      chunk := None;
      ghost var s0 := Variables();
      if size == 0 {
        return Some(SeekFailed);
      }
      error := ScanBlocks(blocks, s0);
      if error.None? {
        assert blocks[..|blocks|] == blocks;
        Split();
      }
    }

    /**
     * The loop of `run`: scans `blocks` from block 0 and stops with an error
     * at the first read of the wrong length.
     */
    method ScanBlocks(blocks: seq<seq<bv8>>, ghost s0: State) returns (error: Option<ScanError>)
      requires blocksize >= PackHeader.HeaderLength
      requires s0 == Variables() && chunk.None?
      modifies this
      ensures var k := FirstShort(blocks, blocksize);
        (error.None? <==> k == |blocks|) && (error.Some? ==> error == Some(ShortRead))
        && Variables() == Scan(s0, Clocks(Full, blocks[..k]), 0, k, maxGap, Some(minChunkSize))
        && (error.None? ==> currentBlock == LastBlock(0, k) || chunk.None?)
    {
      var i := 0;
      while i < |blocks|
        invariant 0 <= i <= |blocks| && i <= FirstShort(blocks, blocksize)
        invariant Variables() == Scan(s0, Clocks(Full, blocks[..i]), 0, i, maxGap, Some(minChunkSize))
        invariant i == 0 ==> chunk.None?
        invariant i > 0 ==> currentBlock == i - 1
      {
        currentBlock := i;
        var buf := blocks[i];
        if |buf| != blocksize {
          return Some(ShortRead);
        }
        ScanAt(blocks, i, s0);
        assert i < FirstShort(blocks, blocksize);
        i := i + 1;
      }
      error := None;
    }

    /** The scan of the whole block `i`, after the blocks before it. */
    method ScanAt(blocks: seq<seq<bv8>>, i: nat, ghost s0: State)
      requires blocksize >= PackHeader.HeaderLength && i < |blocks| && |blocks[i]| == blocksize
      requires Ready(s0) && i <= FirstShort(blocks, blocksize) && currentBlock == i
      requires Variables() == Scan(s0, Clocks(Full, blocks[..i]), 0, i, maxGap, Some(minChunkSize))
      modifies this
      ensures currentBlock == i
      ensures Variables() == Scan(s0, Clocks(Full, blocks[..i + 1]), 0, i + 1, maxGap, Some(minChunkSize))
    {
      ScanBlock(blocks[i]);
      ScanNextBlock(Full, s0, blocks, 0, i, maxGap, Some(minChunkSize));
    }
  }
}

/**
 * The `ChunkFactory` of dvrrecover/harddisk.py: the same block scan, with
 * the chunks saved into the chunk table and the scan variables saved into
 * the state table from time to time, so that a later run resumes where the
 * last checkpoint was taken.
 */
module HarddiskScan {
  import opened Wrappers
  import Bits
  import PackHeader
  import opened ChunkScan
  import opened Database
  import opened StateTable

  datatype ScanError =
    | CreateError  // no saved position, but the chunk table is not empty
    | SeekFailed   // FileReaderError: no part of the image holds the offset of the first block
    | ShortRead    // UnexpectedResultError: a read returned fewer bytes than a block

  /** The exception `mpeg_header` raises as written. */
  datatype HeaderError = TypeError

  /**
   * `mpeg_header` of this file as written: after the start-code test it
   * shifts `buf[4]`, a one-character string, before `ord`, which raises a
   * TypeError; so no block with a start code ever yields a clock.
   */
  function MpegHeaderAsWritten(buf: seq<bv8>): (r: Result<Option<nat>, HeaderError>)
    requires |buf| >= PackHeader.HeaderLength
    ensures r.Ok? ==> r.value.None?
  {
    if !PackHeader.HasStartCode(buf) then Ok(None) else Err(TypeError)
  }

  /** The header of every clock makes the code as written fail, where the intended decoder returns the clock. */
  lemma AsWrittenFailsOnEveryHeader(c: nat)
    requires c < Bits.Pow2(33)
    ensures MpegHeaderAsWritten(PackHeader.PackHeaderFor(c)) == Err(TypeError)
    ensures PackHeader.MpegHeader(PackHeader.PackHeaderFor(c)) == Some(c)
  {
    PackHeader.EncodedIsPackHeader(c);
    PackHeader.HeaderRoundTrip(c);
  }

  /** The state keys `save_state` writes (`time_elapsed` aside). */
  const StateKeys: Keys := Keys("current_block", "block_start", "clock_start", "old_clock")

  lemma StateKeysDistinct()
    ensures Distinct(StateKeys)
  {
    assert StateKeys.blockStart[0] != StateKeys.clockStart[0];
  }

  /** What `save_state` writes under these keys, `load_state` reads back. */
  lemma LoadAfterSaveHere(t: map<string, Value>, current: Option<nat>, chunk: Option<Pending>, oldClock: Option<nat>)
    requires chunk.Some? ==> oldClock.Some?
    ensures var t' := Saved(StateKeys, t, current, chunk, oldClock);
      Consistent(StateKeys, t')
      && AsNat(Query(t', StateKeys.position)) == current
      && LoadedChunk(StateKeys, t', None) == chunk
      && LoadedClock(StateKeys, t') == oldClock
  {
    StateKeysDistinct();
    LoadAfterSave(StateKeys, t, current, chunk, oldClock, None);
  }

  class Factory {
    var currentBlock: Option<nat>
    var clock: Option<nat>
    var oldClock: Option<nat>
    var chunk: Option<Pending>
    const db: DatabaseManager
    const blocksize: nat
    const minChunkSize: int
    const maxGap: nat

    /** `__init__`: block 0, `old_clock` 0, nothing open. */
    constructor (db: DatabaseManager, blocksize: nat, minChunkSize: int, maxGap: nat)
      ensures currentBlock == Some(0) && oldClock == Some(0) && chunk.None?
      ensures this.db == db && this.blocksize == blocksize && this.minChunkSize == minChunkSize && this.maxGap == maxGap
    {
      currentBlock := Some(0);
      clock := Some(0);
      oldClock := Some(0);
      chunk := None;
      this.db := db;
      this.blocksize := blocksize;
      this.minChunkSize := minChunkSize;
      this.maxGap := maxGap;
    }

    /** The scan variables the fields hold; the chunks found are in the chunk table. */
    function Variables(): State
      reads this
    {
      State([], chunk, oldClock)
    }

    /** `save_state`: writes the position, the open chunk (NULL when none) and `old_clock`. */
    method SaveState()
      modifies db
      ensures db.state == Saved(StateKeys, old(db.state), currentBlock, chunk, oldClock)
      ensures db.chunks == old(db.chunks) && db.settings == old(db.settings)
    {
      var blockStart: Option<nat> := if chunk.Some? then Some(chunk.value.blockStart) else None;
      var clockStart: Option<nat> := if chunk.Some? then Some(chunk.value.clockStart) else None;
      db.StateInsert(StateKeys.position, Stored(currentBlock));
      db.StateInsert(StateKeys.blockStart, Stored(blockStart));
      db.StateInsert(StateKeys.clockStart, Stored(clockStart));
      db.StateInsert(StateKeys.oldClock, Stored(oldClock));
    }

    /** `load_state`: reads the position and `old_clock`, and recreates the open chunk when both its fields are stored. */
    method LoadState()
      requires Consistent(StateKeys, db.state)
      modifies this
      ensures currentBlock == AsNat(Query(db.state, StateKeys.position))
      ensures chunk == LoadedChunk(StateKeys, db.state, old(chunk))
      ensures oldClock == LoadedClock(StateKeys, db.state)
    {
      currentBlock := AsNat(db.StateQuery(StateKeys.position));
      var blockStart := AsNat(db.StateQuery(StateKeys.blockStart));
      var clockStart := AsNat(db.StateQuery(StateKeys.clockStart));
      if blockStart.Some? && clockStart.Some? {
        chunk := Some(Pending(blockStart.value, clockStart.value));
      }
      oldClock := AsNat(db.StateQuery(StateKeys.oldClock));
    }

    /** `check_timer`: when the timer has run out (`fires`), a checkpoint of the variables is saved. */
    method CheckTimer(fires: bool)
      modifies db
      ensures db.state == if fires then Saved(StateKeys, old(db.state), currentBlock, chunk, oldClock) else old(db.state)
      ensures db.chunks == old(db.chunks) && db.settings == old(db.settings)
    {
      if fires {
        SaveState();
      }
    }

    /** `finished`: the state table is emptied and the changes committed. */
    method Finished()
      modifies db
      ensures db.state == map[] && db.chunks == old(db.chunks) && db.settings == old(db.settings)
    {
      db.StateReset();
    }

    /**
     * `split`: records the open chunk and saves it as a new row when it has
     * at least `min_chunk_size` blocks; the chunk is closed either way.
     */
    method Split()
      requires currentBlock.Some? && (chunk.Some? ==> oldClock.Some?)
      modifies this, db
      ensures currentBlock == old(currentBlock) && clock == old(clock)
      ensures db.state == old(db.state) && db.settings == old(db.settings)
      ensures Variables() == ChunkScan.Split(old(Variables()), currentBlock.value, Some(minChunkSize)).(saved := [])
      ensures db.chunks == Inserted(old(db.chunks), Rows(ChunkScan.Split(old(Variables()), currentBlock.value, Some(minChunkSize)).saved))
    {
      if chunk.Some? {
        var found := Found(chunk.value.blockStart, currentBlock.value - 1 - chunk.value.blockStart, chunk.value.clockStart, oldClock.value);
        if found.blockSize >= minChunkSize {
          var saved := db.ChunkSave(Chunk(None, RowOf(found), true));
          assert Rows([found]) == [RowOf(found)];
          assert Inserted(old(db.chunks), [RowOf(found)]) == old(db.chunks)[NextId(old(db.chunks)) := RowOf(found)];
        }
        chunk := None;
      }
    }

    /**
     * `run`: loads the saved state; without a saved position it starts at
     * block 0, but only on an empty chunk table.  It clears the state table,
     * seeks to the first block, which fails when that offset is not inside
     * the image of `size` bytes, and scans `blocks[first..]` (the reads from block `first` on), taking
     * a checkpoint before every block `b` where `fires(b)` (the 30-second
     * timer of `check_timer`), then splits at the block it stopped on and
     * clears the state table again.  A read of the wrong length stops the
     * run with an error; the table then holds the chunks split off before
     * that block and the last checkpoint, if any was taken.
     */
    method Run(size: nat, blocks: seq<seq<bv8>>, fires: nat -> bool) returns (error: Option<ScanError>)
      requires blocksize >= PackHeader.HeaderLength && |blocks| == size / blocksize
      requires Consistent(StateKeys, db.state)
      requires chunk.Some? ==> Query(db.state, StateKeys.oldClock).Int?
      modifies this, db
      ensures var loaded := AsNat(Query(old(db.state), StateKeys.position));
        (error == Some(CreateError) <==> loaded.None? && |old(db.chunks)| != 0)
        && (error == Some(CreateError) ==> db.chunks == old(db.chunks) && db.state == old(db.state))
      ensures error != Some(CreateError) ==>
        var first := StartBlock(StateKeys, old(db.state));
        (error == Some(SeekFailed) <==> first * blocksize >= size)
        && (error == Some(SeekFailed) ==> db.chunks == old(db.chunks) && db.state == map[])
      ensures error != Some(CreateError) && error != Some(SeekFailed) ==>
        var first := StartBlock(StateKeys, old(db.state));
        var rest := From(blocks, first);
        var k := FirstShort(rest, blocksize);
        var s0 := State([], LoadedChunk(StateKeys, old(db.state), old(chunk)), LoadedClock(StateKeys, old(db.state)));
        (error.None? <==> k == |rest|)
        && (error.None? ==>
              db.state == map[]
              && db.chunks == Inserted(old(db.chunks), Rows(Finish(s0, Clocks(Full, rest), first, maxGap, Some(minChunkSize)).saved)))
        && (error == Some(ShortRead) ==>
              db.chunks == Inserted(old(db.chunks), Rows(Scan(s0, Clocks(Full, rest[..k]), first, k, maxGap, Some(minChunkSize)).saved))
              && CheckedAt(StateKeys, Full, db.state, s0, rest, first, k, maxGap, Some(minChunkSize)))
      ensures db.settings == old(db.settings)
    {
      LoadState();
      if currentBlock.None? {
        if db.ChunkCount() != 0 {
          return Some(CreateError);
        }
        currentBlock := Some(0);
      }
      db.StateReset();
      if currentBlock.value * blocksize >= size {
        return Some(SeekFailed);
      }
      error := ScanFrom(currentBlock.value, From(blocks, currentBlock.value), fires);
    }

    /** The loop of `run` over the reads `rest` from block `first`, the final split and `finished`. */
    method ScanFrom(first: nat, rest: seq<seq<bv8>>, fires: nat -> bool) returns (error: Option<ScanError>)
      requires blocksize >= PackHeader.HeaderLength
      requires currentBlock == Some(first) && Ready(Variables()) && db.state == map[]
      modifies this, db
      ensures var k := FirstShort(rest, blocksize);
        var s0 := old(Variables());
        (error.None? <==> k == |rest|) && (error.Some? ==> error == Some(ShortRead))
        && (error.None? ==>
              db.state == map[]
              && db.chunks == Inserted(old(db.chunks), Rows(Finish(s0, Clocks(Full, rest), first, maxGap, Some(minChunkSize)).saved)))
        && (error.Some? ==>
              db.chunks == Inserted(old(db.chunks), Rows(Scan(s0, Clocks(Full, rest[..k]), first, k, maxGap, Some(minChunkSize)).saved))
              && CheckedAt(StateKeys, Full, db.state, s0, rest, first, k, maxGap, Some(minChunkSize)))
      ensures db.settings == old(db.settings)
    {
      ghost var s0 := Variables();
      ghost var t0 := db.chunks;
      var i := 0;
      while i < |rest|
        invariant 0 <= i <= |rest| && i <= FirstShort(rest, blocksize)
        invariant Scanned(s0, t0, rest, first, i)
        invariant currentBlock == Some(LastBlock(first, i))
        invariant db.settings == old(db.settings)
      {
        var short := Visit(first, rest, i, fires(first + i), s0, t0);
        if short {
          return Some(ShortRead);
        }
        assert LastBlock(first, i + 1) == first + i && i < FirstShort(rest, blocksize);
        i := i + 1;
      }
      assert rest[..i] == rest;
      ghost var before := Scan(s0, Clocks(Full, rest), first, i, maxGap, Some(minChunkSize));
      Split();
      InsertSplit(t0, before, LastBlock(first, i), Some(minChunkSize));
      Finished();
      error := None;
    }

    /** The variables and the chunk table after the reads `rest[..i]`, and a checkpoint before one of them in the state table. */
    ghost predicate Scanned(s0: State, t0: map<int, Row>, rest: seq<seq<bv8>>, first: nat, i: nat)
      reads this, db
    {
      Ready(s0) && i <= |rest| && (forall j :: 0 <= j < i ==> |rest[j]| >= PackHeader.HeaderLength)
      && (var s := Scan(s0, Clocks(Full, rest[..i]), first, i, maxGap, Some(minChunkSize));
          Variables() == s.(saved := []) && db.chunks == Inserted(t0, Rows(s.saved)))
      && CheckedAt(StateKeys, Full, db.state, s0, rest, first, i, maxGap, Some(minChunkSize))
    }

    /** One pass of the loop of `run`: `check_timer`, the read of block `first + i`, and its scan when it is whole. */
    method Visit(first: nat, rest: seq<seq<bv8>>, i: nat, fire: bool, ghost s0: State, ghost t0: map<int, Row>) returns (short: bool)
      requires blocksize >= PackHeader.HeaderLength && i < |rest| && i <= FirstShort(rest, blocksize)
      requires Scanned(s0, t0, rest, first, i)
      modifies this, db
      ensures short <==> |rest[i]| != blocksize
      ensures currentBlock == Some(first + i) && db.settings == old(db.settings)
      ensures short ==> Scanned(s0, t0, rest, first, i)
      ensures !short ==> Scanned(s0, t0, rest, first, i + 1)
    {
      currentBlock := Some(first + i);
      TimerAt(first, rest, i, fire, s0, t0);
      var buf := rest[i];
      if |buf| != blocksize {
        return true;
      }
      ScanAt(first, rest, i, s0, t0);
      short := false;
    }

    /** `check_timer` before block `first + i` keeps a checkpoint in the state table. */
    method TimerAt(first: nat, rest: seq<seq<bv8>>, i: nat, fire: bool, ghost s0: State, ghost t0: map<int, Row>)
      requires i < |rest| && currentBlock == Some(first + i)
      requires Scanned(s0, t0, rest, first, i)
      modifies db
      ensures Scanned(s0, t0, rest, first, i) && db.settings == old(db.settings)
    {
      ghost var t := db.state;
      CheckTimer(fire);
      if fire {
        StateKeysDistinct();
        CheckpointTaken(StateKeys, Full, t, s0, rest, first, i, maxGap, Some(minChunkSize));
      }
    }

    /** The scan of the whole block `first + i`. */
    method ScanAt(first: nat, rest: seq<seq<bv8>>, i: nat, ghost s0: State, ghost t0: map<int, Row>)
      requires blocksize >= PackHeader.HeaderLength && i < |rest| && |rest[i]| == blocksize
      requires currentBlock == Some(first + i) && Scanned(s0, t0, rest, first, i)
      modifies this, db
      ensures currentBlock == old(currentBlock) && db.settings == old(db.settings)
      ensures Scanned(s0, t0, rest, first, i + 1)
    {
      ScanBlock(rest[i]);
      AdvanceScan(Full, s0, t0, rest, first, i, maxGap, Some(minChunkSize));
      CheckedGrows(StateKeys, Full, db.state, s0, rest, first, i, maxGap, Some(minChunkSize));
    }

    /** The loop body of `run` for a whole block read at `current_block`. */
    method ScanBlock(buf: seq<bv8>)
      requires |buf| >= PackHeader.HeaderLength
      requires currentBlock.Some? && (chunk.Some? ==> oldClock.Some?)
      modifies this, db
      ensures currentBlock == old(currentBlock) && db.state == old(db.state) && db.settings == old(db.settings)
      ensures var s := Step(old(Variables()), currentBlock.value, PackHeader.MpegHeader(buf), maxGap, Some(minChunkSize));
        Variables() == s.(saved := []) && db.chunks == Inserted(old(db.chunks), Rows(s.saved))
    {
      clock := PackHeader.MpegHeader(buf);
      if clock.None? {
        Split();
      } else {
        if chunk.None? {
          chunk := Some(Pending(currentBlock.value, clock.value));
        } else {
          if clock.value < oldClock.value || clock.value - oldClock.value > maxGap {
            Split();
          }
        }
        oldClock := clock;
      }
    }
  }
}

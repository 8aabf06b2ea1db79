/**
 * The `ChunkFactory` of dvrrecover/chunkfactory.py: the resumable block scan
 * of dvrrecover/harddisk.py with three differences.  It decodes with the
 * 32-entry bit table (SCR bit 32 is never read), it saves every chunk it
 * ends whatever its size, and it names its variables `block_cur`,
 * `clock_cur` and `clock_old`.  The state keys it asks for by those names
 * are not among the keys of dvrrecover/state.py, and the chunk accessors
 * it calls are not defined on `Chunk`; this model takes the names as the
 * keys and saves a chunk as a new row of the chunk table.
 */
module FactoryScan {
  import opened Wrappers
  import PackHeader
  import opened ChunkScan
  import opened Database
  import opened StateTable

  /** The two reasons `run` raises ChunkFactoryError. */
  datatype ScanError =
    | ScanFinished  // no saved position, but the chunk table is not empty
    | SeekFailed    // FileReaderError: no part of the image holds the offset of the first block
    | ShortRead     // a read returned fewer bytes than a block

  /** The state keys `save_state` writes, under the names chunkfactory.py gives them. */
  const StateKeys: Keys := Keys("block_cur", "block_start", "clock_start", "clock_old")

  lemma StateKeysDistinct()
    ensures Distinct(StateKeys)
  {
    assert StateKeys.position[0] != StateKeys.oldClock[0];
    assert StateKeys.blockStart[0] != StateKeys.clockStart[0];
  }

  /** What `save_state` writes under these keys, `load_state` reads back. */
  lemma {:induction false} LoadAfterSaveHere(t: map<string, Value>, current: Option<nat>, chunk: Option<Pending>, oldClock: Option<nat>)
    requires chunk.Some? ==> oldClock.Some?
    ensures var t' := Saved(StateKeys, t, current, chunk, oldClock);
      Consistent(StateKeys, t')
      && AsNat(Query(t', StateKeys.position)) == current
      && LoadedChunk(StateKeys, t', None) == chunk
      && LoadedClock(StateKeys, t') == oldClock
  {
    StateKeysDistinct();
    LoadAfterSave(StateKeys, t, current, chunk, oldClock, None);
  }

  class Factory {
    var blockCur: Option<nat>
    var clockCur: Option<nat>
    var clockOld: Option<nat>
    var chunk: Option<Pending>
    const db: DatabaseManager
    const blocksize: nat
    const maxGap: nat

    /** `__init__`: no position, no clocks, nothing open. */
    constructor (db: DatabaseManager, blocksize: nat, maxGap: nat)
      ensures blockCur.None? && clockCur.None? && clockOld.None? && chunk.None?
      ensures this.db == db && this.blocksize == blocksize && this.maxGap == maxGap
    {
      blockCur := None;
      clockCur := None;
      clockOld := None;
      chunk := None;
      this.db := db;
      this.blocksize := blocksize;
      this.maxGap := maxGap;
    }

    /** The scan variables the fields hold; the chunks found are in the chunk table. */
    function Variables(): State
      reads this
    {
      State([], chunk, clockOld)
    }

    /** `save_state`: writes the position, the open chunk (NULL when none) and `clock_old`. */
    method SaveState()
      modifies db
      ensures db.state == Saved(StateKeys, old(db.state), blockCur, chunk, clockOld)
      ensures db.chunks == old(db.chunks) && db.settings == old(db.settings)
    {
      var blockStart: Option<nat> := if chunk.Some? then Some(chunk.value.blockStart) else None;
      var clockStart: Option<nat> := if chunk.Some? then Some(chunk.value.clockStart) else None;
      db.StateInsert(StateKeys.position, Stored(blockCur));
      db.StateInsert(StateKeys.blockStart, Stored(blockStart));
      db.StateInsert(StateKeys.clockStart, Stored(clockStart));
      db.StateInsert(StateKeys.oldClock, Stored(clockOld));
    }

    /** `load_state`: reads the position and `clock_old`, and recreates the open chunk when both its fields are stored. */
    method LoadState()
      requires Consistent(StateKeys, db.state)
      modifies this
      ensures blockCur == AsNat(Query(db.state, StateKeys.position))
      ensures chunk == LoadedChunk(StateKeys, db.state, old(chunk))
      ensures clockOld == LoadedClock(StateKeys, db.state)
      ensures clockCur == old(clockCur)
    {
      blockCur := AsNat(db.StateQuery(StateKeys.position));
      var blockStart := AsNat(db.StateQuery(StateKeys.blockStart));
      var clockStart := AsNat(db.StateQuery(StateKeys.clockStart));
      if blockStart.Some? && clockStart.Some? {
        chunk := Some(Pending(blockStart.value, clockStart.value));
      }
      clockOld := AsNat(db.StateQuery(StateKeys.oldClock));
    }

    /** `check_timer`: when 30 seconds have passed (`fires`), the variables are saved. */
    method CheckTimer(fires: bool)
      modifies db
      ensures db.state == if fires then Saved(StateKeys, old(db.state), blockCur, chunk, clockOld) else old(db.state)
      ensures db.chunks == old(db.chunks) && db.settings == old(db.settings)
    {
      if fires {
        SaveState();
      }
    }

    /** `finished`: the state table is emptied and the changes committed. */
    method Finished()
      modifies db
      ensures db.state == map[] && db.chunks == old(db.chunks) && db.settings == old(db.settings)
    {
      db.StateReset();
    }

    /** `new_chunk`, called only with no chunk open: a chunk opens at `block_cur` with `clock_start = clock_cur`. */
    method NewChunk()
      requires chunk.None? && blockCur.Some? && clockCur.Some?
      modifies this
      ensures chunk == Some(Pending(old(blockCur).value, old(clockCur).value))
      ensures blockCur == old(blockCur) && clockCur == old(clockCur) && clockOld == old(clockOld)
    {
      chunk := Some(Pending(blockCur.value, clockCur.value));
    }

    /**
     * `end_chunk`: records the open chunk with `block_size = block_cur - 1 -
     * block_start` and `clock_end = clock_old`, saves it as a new row of any
     * size, and closes it.
     */
    method EndChunk()
      requires blockCur.Some? && (chunk.Some? ==> clockOld.Some?)
      modifies this, db
      ensures blockCur == old(blockCur) && clockCur == old(clockCur)
      ensures db.state == old(db.state) && db.settings == old(db.settings)
      ensures Variables() == ChunkScan.Split(old(Variables()), blockCur.value, None).(saved := [])
      ensures db.chunks == Inserted(old(db.chunks), Rows(ChunkScan.Split(old(Variables()), blockCur.value, None).saved))
    {
      if chunk.Some? {
        var found := Found(chunk.value.blockStart, blockCur.value - 1 - chunk.value.blockStart, chunk.value.clockStart, clockOld.value);
        var saved := db.ChunkSave(Chunk(None, RowOf(found), true));
        assert Rows([found]) == [RowOf(found)];
        assert Inserted(old(db.chunks), [RowOf(found)]) == old(db.chunks)[NextId(old(db.chunks)) := RowOf(found)];
        chunk := None;
      }
    }

    /**
     * `run`: loads the saved state; without a saved position it starts at
     * block 0, but only on an empty chunk table.  It clears the state table,
     * seeks to the first block, which fails when that offset is not inside
     * the image of `size` bytes, and scans `blocks[first..]` (the reads from block `first` on), saving
     * the variables before every block `b` where `fires(b)` (the 30-second
     * timer), then ends the open chunk at the block it stopped on and
     * clears the state table again.  A read of the wrong length stops the
     * run; the table then holds the chunks ended before that block and the
     * last checkpoint, if any was taken.
     */
    method Run(size: nat, blocks: seq<seq<bv8>>, fires: nat -> bool) returns (error: Option<ScanError>)
      requires blocksize >= PackHeader.HeaderLength && |blocks| == size / blocksize
      requires Consistent(StateKeys, db.state)
      requires chunk.Some? ==> Query(db.state, StateKeys.oldClock).Int?
      modifies this, db
      ensures var loaded := AsNat(Query(old(db.state), StateKeys.position));
        (error == Some(ScanFinished) <==> loaded.None? && |old(db.chunks)| != 0)
        && (error == Some(ScanFinished) ==> db.chunks == old(db.chunks) && db.state == old(db.state))
      ensures error != Some(ScanFinished) ==>
        var first := StartBlock(StateKeys, old(db.state));
        (error == Some(SeekFailed) <==> first * blocksize >= size)
        && (error == Some(SeekFailed) ==> db.chunks == old(db.chunks) && db.state == map[])
      ensures error != Some(ScanFinished) && error != Some(SeekFailed) ==>
        var first := StartBlock(StateKeys, old(db.state));
        var rest := From(blocks, first);
        var k := FirstShort(rest, blocksize);
        var s0 := State([], LoadedChunk(StateKeys, old(db.state), old(chunk)), LoadedClock(StateKeys, old(db.state)));
        (error.None? <==> k == |rest|)
        && (error.None? ==>
              db.state == map[]
              && db.chunks == Inserted(old(db.chunks), Rows(Finish(s0, Clocks(Truncated, rest), first, maxGap, None).saved)))
        && (error == Some(ShortRead) ==>
              db.chunks == Inserted(old(db.chunks), Rows(Scan(s0, Clocks(Truncated, rest[..k]), first, k, maxGap, None).saved))
              && CheckedAt(StateKeys, Truncated, db.state, s0, rest, first, k, maxGap, None))
      ensures db.settings == old(db.settings)
    {
      LoadState();
      if blockCur.None? {
        if db.ChunkCount() != 0 {
          return Some(ScanFinished);
        }
        blockCur := Some(0);
      }
      db.StateReset();
      if blockCur.value * blocksize >= size {
        return Some(SeekFailed);
      }
      error := ScanFrom(blockCur.value, From(blocks, blockCur.value), fires);
    }

    /** The loop of `run` over the reads `rest` from block `first`, the final `end_chunk` and `finished`. */
    method ScanFrom(first: nat, rest: seq<seq<bv8>>, fires: nat -> bool) returns (error: Option<ScanError>)
      requires blocksize >= PackHeader.HeaderLength
      requires blockCur == Some(first) && Ready(Variables()) && db.state == map[]
      modifies this, db
      ensures var k := FirstShort(rest, blocksize);
        var s0 := old(Variables());
        (error.None? <==> k == |rest|) && (error.Some? ==> error == Some(ShortRead))
        && (error.None? ==>
              db.state == map[]
              && db.chunks == Inserted(old(db.chunks), Rows(Finish(s0, Clocks(Truncated, rest), first, maxGap, None).saved)))
        && (error.Some? ==>
              db.chunks == Inserted(old(db.chunks), Rows(Scan(s0, Clocks(Truncated, rest[..k]), first, k, maxGap, None).saved))
              && CheckedAt(StateKeys, Truncated, db.state, s0, rest, first, k, maxGap, None))
      ensures db.settings == old(db.settings)
    {
      ghost var s0 := Variables();
      ghost var t0 := db.chunks;
      var i := 0;
      while i < |rest|
        invariant 0 <= i <= |rest| && i <= FirstShort(rest, blocksize)
        invariant Scanned(s0, t0, rest, first, i)
        invariant blockCur == Some(LastBlock(first, i))
        invariant db.settings == old(db.settings)
      {
        var short := Visit(first, rest, i, fires(first + i), s0, t0);
        if short {
          return Some(ShortRead);
        }
        assert LastBlock(first, i + 1) == first + i && i < FirstShort(rest, blocksize);
        i := i + 1;
      }
      assert rest[..i] == rest;
      ghost var before := Scan(s0, Clocks(Truncated, rest), first, i, maxGap, None);
      EndChunk();
      InsertSplit(t0, before, LastBlock(first, i), None);
      Finished();
      error := None;
    }

    /** The variables and the chunk table after the reads `rest[..i]`, and a checkpoint before one of them in the state table. */
    ghost predicate Scanned(s0: State, t0: map<int, Row>, rest: seq<seq<bv8>>, first: nat, i: nat)
      reads this, db
    {
      Ready(s0) && i <= |rest| && (forall j :: 0 <= j < i ==> |rest[j]| >= PackHeader.HeaderLength)
      && (var s := Scan(s0, Clocks(Truncated, rest[..i]), first, i, maxGap, None);
          Variables() == s.(saved := []) && db.chunks == Inserted(t0, Rows(s.saved)))
      && CheckedAt(StateKeys, Truncated, db.state, s0, rest, first, i, maxGap, None)
    }

    /** One pass of the loop of `run`: `check_timer`, the read of block `first + i`, and its scan when it is whole. */
    method Visit(first: nat, rest: seq<seq<bv8>>, i: nat, fire: bool, ghost s0: State, ghost t0: map<int, Row>) returns (short: bool)
      requires blocksize >= PackHeader.HeaderLength && i < |rest| && i <= FirstShort(rest, blocksize)
      requires Scanned(s0, t0, rest, first, i)
      modifies this, db
      ensures short <==> |rest[i]| != blocksize
      ensures blockCur == Some(first + i) && db.settings == old(db.settings)
      ensures short ==> Scanned(s0, t0, rest, first, i)
      ensures !short ==> Scanned(s0, t0, rest, first, i + 1)
    {
      blockCur := Some(first + i);
      TimerAt(first, rest, i, fire, s0, t0);
      var buf := rest[i];
      if |buf| != blocksize {
        return true;
      }
      ScanAt(first, rest, i, s0, t0);
      short := false;
    }

    /** `check_timer` before block `first + i` keeps a checkpoint in the state table. */
    method TimerAt(first: nat, rest: seq<seq<bv8>>, i: nat, fire: bool, ghost s0: State, ghost t0: map<int, Row>)
      requires i < |rest| && blockCur == Some(first + i)
      requires Scanned(s0, t0, rest, first, i)
      modifies db
      ensures Scanned(s0, t0, rest, first, i) && db.settings == old(db.settings)
    {
      ghost var t := db.state;
      CheckTimer(fire);
      if fire {
        StateKeysDistinct();
        CheckpointTaken(StateKeys, Truncated, t, s0, rest, first, i, maxGap, None);
      }
    }

    /** The scan of the whole block `first + i`. */
    method ScanAt(first: nat, rest: seq<seq<bv8>>, i: nat, ghost s0: State, ghost t0: map<int, Row>)
      requires blocksize >= PackHeader.HeaderLength && i < |rest| && |rest[i]| == blocksize
      requires blockCur == Some(first + i) && Scanned(s0, t0, rest, first, i)
      modifies this, db
      ensures blockCur == old(blockCur) && db.settings == old(db.settings)
      ensures Scanned(s0, t0, rest, first, i + 1)
    {
      ScanBlock(rest[i]);
      AdvanceScan(Truncated, s0, t0, rest, first, i, maxGap, None);
      CheckedGrows(StateKeys, Truncated, db.state, s0, rest, first, i, maxGap, None);
    }

    /** The loop body of `run` for a whole block read at `block_cur`. */
    method ScanBlock(buf: seq<bv8>)
      requires |buf| >= PackHeader.HeaderLength
      requires blockCur.Some? && (chunk.Some? ==> clockOld.Some?)
      modifies this, db
      ensures blockCur == old(blockCur) && db.state == old(db.state) && db.settings == old(db.settings)
      ensures var s := Step(old(Variables()), blockCur.value, PackHeader.FactoryMpegHeader(buf), maxGap, None);
        Variables() == s.(saved := []) && db.chunks == Inserted(old(db.chunks), Rows(s.saved))
    {
      clockCur := PackHeader.FactoryMpegHeader(buf);
      if clockCur.None? {
        EndChunk();
      } else {
        if chunk.None? {
          NewChunk();
        } else {
          if clockCur.value < clockOld.value || clockCur.value - clockOld.value > maxGap {
            EndChunk();
          }
        }
        clockOld := clockCur;
      }
    }
  }
}

/**
 * The block scan shared by the three Python chunk finders (`ChunkFactory` in
 * dvr-recover.py, dvrrecover/harddisk.py and dvrrecover/chunkfactory.py),
 * specified on the sequence of per-block clocks (`None` for a block without a
 * pack header).
 *
 * At a block without a header, or at a header whose clock steps backwards or
 * by more than the gap, the open chunk is split off.  The recorded size is
 * `current_block - 1 - block_start` and no chunk is opened at the block that
 * split it.  dvr-recover.py and harddisk.py keep only chunks of at least
 * `min_chunk_size` blocks; chunkfactory.py keeps every chunk.
 */
module ChunkScan {
  import opened Wrappers
  import PackHeader
  import Database

  /** A chunk once it has been split off: the fields the scanners set. */
  datatype Found = Found(blockStart: nat, blockSize: int, clockStart: nat, clockEnd: nat)

  /** The open chunk: `block_start` and `clock_start`. */
  datatype Pending = Pending(blockStart: nat, clockStart: nat)

  /** The scanner's variables: the chunks kept so far, the open chunk and `old_clock`. */
  datatype State = State(saved: seq<Found>, chunk: Option<Pending>, oldClock: Option<nat>)

  /** `delta < 0 or delta > max_gap` with `delta = clock - old_clock`. */
  predicate Breaks(oldClock: nat, clock: nat, gap: nat)
  {
    clock < oldClock || clock - oldClock > gap
  }

  /** An open chunk always has an `old_clock` to compare with. */
  predicate Ready(s: State)
  {
    s.chunk.Some? ==> s.oldClock.Some?
  }

  /** Whether a split-off chunk is kept: always without a minimum size, else when it is large enough. */
  predicate Keeps(minSize: Option<int>, f: Found)
  {
    minSize.None? || f.blockSize >= minSize.value
  }

  /** `split` / `end_chunk` at block `current`: the open chunk is recorded, kept if large enough, and closed. */
  function Split(s: State, current: int, minSize: Option<int>): (s': State)
    requires Ready(s)
    ensures s'.chunk.None? && s'.oldClock == s.oldClock
    ensures s.chunk.None? ==> s' == s
  {
    match s.chunk
    case None => s
    case Some(p) =>
      var f := Found(p.blockStart, current - 1 - p.blockStart, p.clockStart, s.oldClock.value);
      State(if Keeps(minSize, f) then s.saved + [f] else s.saved, None, s.oldClock)
  }

  /** The loop body of `run` at block `current`, whose header gave `clock`. */
  function Step(s: State, current: nat, clock: Option<nat>, gap: nat, minSize: Option<int>): (s': State)
    requires Ready(s)
    ensures Ready(s')
    ensures s'.oldClock == if clock.Some? then clock else s.oldClock
    ensures clock.Some? && s.chunk.Some? && Breaks(s.oldClock.value, clock.value, gap) ==> s'.chunk.None?
  {
    match clock
    case None => Split(s, current, minSize)
    case Some(c) =>
      var s1 :=
        if s.chunk.None? then s.(chunk := Some(Pending(current, c)))
        else if Breaks(s.oldClock.value, c, gap) then Split(s, current, minSize)
        else s;
      s1.(oldClock := Some(c))
  }

  /** The variables after the blocks `first` to `first + n - 1`, whose clocks are `clocks[..n]`. */
  function Scan(s0: State, clocks: seq<Option<nat>>, first: nat, n: nat, gap: nat, minSize: Option<int>): (s: State)
    requires Ready(s0) && n <= |clocks|
    ensures Ready(s)
  {
    if n == 0 then s0
    else Step(Scan(s0, clocks, first, n - 1, gap, minSize), first + n - 1, clocks[n - 1], gap, minSize)
  }

  /** Which copy of `mpeg_header` a scanner calls. */
  datatype Decoder =
    | Full       // the 33-bit table of dvr-recover.py, also the one harddisk.py spells out
    | Truncated  // the 32-entry table of chunkfactory.py, which never reads SCR bit 32

  /** The clock of a whole block, or None when it does not start with a pack header. */
  function BlockClock(d: Decoder, buf: seq<bv8>): Option<nat>
    requires |buf| >= PackHeader.HeaderLength
  {
    if d == Full then PackHeader.MpegHeader(buf) else PackHeader.FactoryMpegHeader(buf)
  }

  /** The clocks of whole blocks. */
  function Clocks(d: Decoder, blocks: seq<seq<bv8>>): (clocks: seq<Option<nat>>)
    requires forall i :: 0 <= i < |blocks| ==> |blocks[i]| >= PackHeader.HeaderLength
    ensures |clocks| == |blocks|
    ensures forall i :: 0 <= i < |blocks| ==> clocks[i] == BlockClock(d, blocks[i])
  {
    seq(|blocks|, i requires 0 <= i < |blocks| => BlockClock(d, blocks[i]))
  }

  /** A scan of `n` blocks depends only on their clocks. */
  lemma {:induction false} ScanSamePrefix(s0: State, a: seq<Option<nat>>, b: seq<Option<nat>>, first: nat, n: nat,
                                          gap: nat, minSize: Option<int>)
    requires Ready(s0) && n <= |a| && n <= |b| && a[..n] == b[..n]
    ensures Scan(s0, a, first, n, gap, minSize) == Scan(s0, b, first, n, gap, minSize)
  {
    if n > 0 {
      assert a[..n - 1] == b[..n - 1] && a[n - 1] == a[..n][n - 1];
      ScanSamePrefix(s0, a, b, first, n - 1, gap, minSize);
    }
  }

  /** Scanning one more whole block is one more step. */
  lemma ScanNextBlock(d: Decoder, s0: State, blocks: seq<seq<bv8>>, first: nat, i: nat, gap: nat, minSize: Option<int>)
    requires Ready(s0) && i < |blocks|
    requires forall j :: 0 <= j <= i ==> |blocks[j]| >= PackHeader.HeaderLength
    ensures Scan(s0, Clocks(d, blocks[..i + 1]), first, i + 1, gap, minSize)
      == Step(Scan(s0, Clocks(d, blocks[..i]), first, i, gap, minSize), first + i, BlockClock(d, blocks[i]), gap, minSize)
  {
    var a, b := Clocks(d, blocks[..i]), Clocks(d, blocks[..i + 1]);
    assert a == b[..i] by {
      forall j | 0 <= j < i
        ensures a[j] == b[j]
      {
        assert blocks[..i][j] == blocks[..i + 1][j];
      }
    }
    ScanSamePrefix(s0, a, b, first, i, gap, minSize);
    assert b[i] == BlockClock(d, blocks[i]) by {
      assert blocks[..i + 1][i] == blocks[i];
    }
  }

  /** A step appends to the chunks kept so far what it would keep from none. */
  lemma StepKeepsEarlier(s: State, current: nat, clock: Option<nat>, gap: nat, minSize: Option<int>)
    requires Ready(s)
    ensures var t := Step(s.(saved := []), current, clock, gap, minSize);
      Step(s, current, clock, gap, minSize) == t.(saved := s.saved + t.saved)
  {
  }

  /** The row `chunk_save` stores for a split-off chunk; `concat` stays NULL. */
  function RowOf(f: Found): Database.Row
  {
    Database.Row(Some(f.blockStart), Some(f.blockSize), Some(f.clockStart), Some(f.clockEnd), None)
  }

  /** The rows of the chunks, in order. */
  function Rows(found: seq<Found>): (rows: seq<Database.Row>)
    ensures |rows| == |found| && forall i :: 0 <= i < |found| ==> rows[i] == RowOf(found[i])
  {
    seq(|found|, i requires 0 <= i < |found| => RowOf(found[i]))
  }

  /** The first block shorter or longer than `blocksize`, or `|blocks|` when all are whole. */
  function FirstShort(blocks: seq<seq<bv8>>, blocksize: nat): (k: nat)
    ensures k <= |blocks|
    ensures forall i :: 0 <= i < k ==> |blocks[i]| == blocksize
    ensures k < |blocks| ==> |blocks[k]| != blocksize
  {
    if blocks == [] then 0
    else if |blocks[0]| != blocksize then 0
    else 1 + FirstShort(blocks[1..], blocksize)
  }

  /** The reads from block `first` to the last whole block of the image. */
  function From(blocks: seq<seq<bv8>>, first: nat): seq<seq<bv8>>
  {
    if first <= |blocks| then blocks[first..] else []
  }

  /** Saving the chunks of one more step after those of the steps before saves the chunks of all of them. */
  lemma InsertStep(t: map<int, Database.Row>, s: State, current: nat, clock: Option<nat>, gap: nat, minSize: Option<int>)
    requires Ready(s)
    ensures Database.Inserted(Database.Inserted(t, Rows(s.saved)), Rows(Step(s.(saved := []), current, clock, gap, minSize).saved))
      == Database.Inserted(t, Rows(Step(s, current, clock, gap, minSize).saved))
  {
    var step := Step(s.(saved := []), current, clock, gap, minSize);
    StepKeepsEarlier(s, current, clock, gap, minSize);
    assert Rows(s.saved + step.saved) == Rows(s.saved) + Rows(step.saved);
    Database.InsertedConcat(t, Rows(s.saved), Rows(step.saved));
  }

  /** One more block: its step, saved after the chunks of the blocks before, is the scan of one block more. */
  lemma AdvanceScan(d: Decoder, s0: State, t0: map<int, Database.Row>, rest: seq<seq<bv8>>, first: nat, i: nat,
                    gap: nat, minSize: Option<int>)
    requires Ready(s0) && i < |rest| && forall j :: 0 <= j <= i ==> |rest[j]| >= PackHeader.HeaderLength
    ensures var before := Scan(s0, Clocks(d, rest[..i]), first, i, gap, minSize);
      var step := Step(before.(saved := []), first + i, BlockClock(d, rest[i]), gap, minSize);
      var after := Scan(s0, Clocks(d, rest[..i + 1]), first, i + 1, gap, minSize);
      step.(saved := []) == after.(saved := [])
      && Database.Inserted(Database.Inserted(t0, Rows(before.saved)), Rows(step.saved)) == Database.Inserted(t0, Rows(after.saved))
  {
    var before := Scan(s0, Clocks(d, rest[..i]), first, i, gap, minSize);
    var clock := BlockClock(d, rest[i]);
    var after := Scan(s0, Clocks(d, rest[..i + 1]), first, i + 1, gap, minSize);
    ScanNextBlock(d, s0, rest, first, i, gap, minSize);
    assert after == Step(before, first + i, clock, gap, minSize);
    StepKeepsEarlier(before, first + i, clock, gap, minSize);
    InsertStep(t0, before, first + i, clock, gap, minSize);
  }

  /** The same for the final split. */
  lemma InsertSplit(t: map<int, Database.Row>, s: State, current: int, minSize: Option<int>)
    requires Ready(s)
    ensures Database.Inserted(Database.Inserted(t, Rows(s.saved)), Rows(Split(s.(saved := []), current, minSize).saved))
      == Database.Inserted(t, Rows(Split(s, current, minSize).saved))
  {
    var last := Split(s.(saved := []), current, minSize);
    assert Split(s, current, minSize) == last.(saved := s.saved + last.saved);
    assert Rows(s.saved + last.saved) == Rows(s.saved) + Rows(last.saved);
    Database.InsertedConcat(t, Rows(s.saved), Rows(last.saved));
  }

  /** The block the loop variable is left on: the last block read, or `first` when none was read. */
  function LastBlock(first: nat, count: nat): nat
  {
    if count == 0 then first else first + count - 1
  }

  /** `run` from block `first`: the scan, then the final `split` at the block the loop stopped on. */
  function Finish(s0: State, clocks: seq<Option<nat>>, first: nat, gap: nat, minSize: Option<int>): State
    requires Ready(s0)
  {
    Split(Scan(s0, clocks, first, |clocks|, gap, minSize), LastBlock(first, |clocks|), minSize)
  }

  /** The first `n` blocks of a scan, followed by the rest, are the whole scan. */
  lemma {:induction false} ScanSplit(s0: State, clocks: seq<Option<nat>>, first: nat, a: nat, n: nat, gap: nat, minSize: Option<int>)
    requires Ready(s0) && a <= n <= |clocks|
    ensures Scan(s0, clocks, first, n, gap, minSize)
      == Scan(Scan(s0, clocks, first, a, gap, minSize), clocks[a..], first + a, n - a, gap, minSize)
  {
    if n > a {
      ScanSplit(s0, clocks, first, a, n - 1, gap, minSize);
      assert clocks[a..][n - a - 1] == clocks[n - 1];
    }
  }

  /**
   * A run that stops before block `b` and resumes there from the saved
   * open chunk and `old_clock` finds the same chunks as a run that never
   * stopped.
   */
  lemma Resume(s0: State, clocks: seq<Option<nat>>, b: nat, gap: nat, minSize: Option<int>)
    requires Ready(s0) && b < |clocks|
    ensures Finish(s0, clocks, 0, gap, minSize)
      == Finish(Scan(s0, clocks, 0, b, gap, minSize), clocks[b..], b, gap, minSize)
  {
    var n := |clocks|;
    ScanSplit(s0, clocks, 0, b, n, gap, minSize);
    assert |clocks[b..]| == n - b && LastBlock(b, n - b) == LastBlock(0, n);
    assert Scan(s0, clocks, 0, n, gap, minSize)
      == Scan(Scan(s0, clocks, 0, b, gap, minSize), clocks[b..], b, |clocks[b..]|, gap, minSize);
  }

  // ---------------------------------------------------------------------------
  // What a scan from the first block finds
  // ---------------------------------------------------------------------------

  /** Blocks `k` and `k + 1` both have a header and the step between them does not split. */
  predicate Continues(clocks: seq<Option<nat>>, gap: nat, k: nat)
    requires k + 1 < |clocks|
  {
    clocks[k].Some? && clocks[k + 1].Some? && !Breaks(clocks[k].value, clocks[k + 1].value, gap)
  }

  /** Blocks `start` to `last` all have headers, no step between them splits, and the clocks at the ends are `c0` and `c1`. */
  predicate Fits(clocks: seq<Option<nat>>, gap: nat, start: nat, last: int, c0: nat, c1: nat)
  {
    start <= last < |clocks|
    && (forall k :: start <= k <= last ==> clocks[k].Some?)
    && (forall k :: start <= k < last ==> Continues(clocks, gap, k))
    && clocks[start] == Some(c0) && clocks[last] == Some(c1)
  }

  /**
   * A chunk split off before block `n`: its size counts the blocks after the
   * first, the split block follows it, and that block does not continue it.
   */
  predicate SplitOk(clocks: seq<Option<nat>>, gap: nat, n: nat, f: Found)
  {
    f.blockSize >= 0
    && Fits(clocks, gap, f.blockStart, f.blockStart + f.blockSize, f.clockStart, f.clockEnd)
    && f.blockStart + f.blockSize + 1 < n
    && f.blockStart + f.blockSize + 1 < |clocks|
    && !Continues(clocks, gap, f.blockStart + f.blockSize)
  }

  /** Between two kept chunks lies at least the block that split the first one. */
  predicate Separated(saved: seq<Found>)
  {
    forall i, j :: 0 <= i < j < |saved| ==> saved[i].blockStart + saved[i].blockSize + 1 < saved[j].blockStart
  }

  /** The invariant of a scan from block 0 after `n` blocks. */
  predicate Inv(clocks: seq<Option<nat>>, gap: nat, minSize: Option<int>, n: nat, s: State)
  {
    (forall i :: 0 <= i < |s.saved| ==> SplitOk(clocks, gap, n, s.saved[i]) && Keeps(minSize, s.saved[i]))
    && Separated(s.saved)
    && (s.chunk.Some? ==>
          var p := s.chunk.value;
          p.blockStart < n && s.oldClock.Some?
          && Fits(clocks, gap, p.blockStart, n - 1, p.clockStart, s.oldClock.value)
          && forall i :: 0 <= i < |s.saved| ==> s.saved[i].blockStart + s.saved[i].blockSize + 1 < p.blockStart)
  }

  /** Splitting at block `n`, which does not continue the open chunk, keeps the invariant. */
  lemma SplitInv(clocks: seq<Option<nat>>, gap: nat, minSize: Option<int>, n: nat, s: State)
    requires n < |clocks| && Ready(s) && Inv(clocks, gap, minSize, n, s)
    requires s.chunk.Some? ==> !Continues(clocks, gap, n - 1)
    ensures Inv(clocks, gap, minSize, n + 1, Split(s, n, minSize))
  {
    if s.chunk.Some? {
      var p := s.chunk.value;
      var f := Found(p.blockStart, n - 1 - p.blockStart, p.clockStart, s.oldClock.value);
      assert SplitOk(clocks, gap, n + 1, f);
    }
  }

  /** Block `n` opens a chunk. */
  lemma OpenInv(clocks: seq<Option<nat>>, gap: nat, minSize: Option<int>, n: nat, s: State, c: nat)
    requires n < |clocks| && Ready(s) && Inv(clocks, gap, minSize, n, s)
    requires clocks[n] == Some(c) && s.chunk.None?
    ensures Inv(clocks, gap, minSize, n + 1, State(s.saved, Some(Pending(n, c)), Some(c)))
  {
    assert Fits(clocks, gap, n, n, c, c);
  }

  /** Block `n` continues the open chunk. */
  lemma ExtendInv(clocks: seq<Option<nat>>, gap: nat, minSize: Option<int>, n: nat, s: State, c: nat)
    requires n < |clocks| && Ready(s) && Inv(clocks, gap, minSize, n, s)
    requires clocks[n] == Some(c) && s.chunk.Some? && !Breaks(s.oldClock.value, c, gap)
    ensures Inv(clocks, gap, minSize, n + 1, s.(oldClock := Some(c)))
  {
    var p := s.chunk.value;
    assert Continues(clocks, gap, n - 1);
    assert Fits(clocks, gap, p.blockStart, n, p.clockStart, c);
  }

  /** The loop body keeps the invariant. */
  lemma StepInv(clocks: seq<Option<nat>>, gap: nat, minSize: Option<int>, n: nat, s: State)
    requires n < |clocks| && Ready(s) && Inv(clocks, gap, minSize, n, s)
    ensures Inv(clocks, gap, minSize, n + 1, Step(s, n, clocks[n], gap, minSize))
  {
    match clocks[n]
    case None =>
      SplitInv(clocks, gap, minSize, n, s);
    case Some(c) =>
      if s.chunk.None? {
        OpenInv(clocks, gap, minSize, n, s, c);
      } else if Breaks(s.oldClock.value, c, gap) {
        SplitInv(clocks, gap, minSize, n, s);
      } else {
        ExtendInv(clocks, gap, minSize, n, s, c);
      }
  }

  /** The invariant holds after every prefix of a scan from block 0 with no chunk open. */
  lemma {:induction false} ScanInv(s0: State, clocks: seq<Option<nat>>, gap: nat, minSize: Option<int>, n: nat)
    requires s0.saved == [] && s0.chunk.None? && n <= |clocks|
    ensures Inv(clocks, gap, minSize, n, Scan(s0, clocks, 0, n, gap, minSize))
  {
    if n > 0 {
      ScanInv(s0, clocks, gap, minSize, n - 1);
      StepInv(clocks, gap, minSize, n - 1, Scan(s0, clocks, 0, n - 1, gap, minSize));
    }
  }

  /**
   * What `run` from block 0 records.  Every chunk split off during the loop
   * is a run of header blocks without a clock break, of `block_size + 1`
   * blocks, followed by the block that split it, which does not continue it
   * and belongs to no chunk (so a chunk opened right after a jump does not
   * reach back to the jump block); only chunks of at least the minimum size
   * are kept.  The chunk still open after the last block is recorded with `block_size` two less than the
   * number of blocks it spans, because the loop variable stays on the last
   * block.
   */
  lemma FinishShape(s0: State, clocks: seq<Option<nat>>, gap: nat, minSize: Option<int>)
    requires s0.saved == [] && s0.chunk.None?
    ensures var s := Scan(s0, clocks, 0, |clocks|, gap, minSize);
      (forall i :: 0 <= i < |s.saved| ==> SplitOk(clocks, gap, |clocks|, s.saved[i]) && Keeps(minSize, s.saved[i]))
      && Separated(s.saved)
      && (s.chunk.None? ==> Finish(s0, clocks, 0, gap, minSize).saved == s.saved)
      && (s.chunk.Some? ==>
            var p := s.chunk.value;
            var f := Found(p.blockStart, |clocks| - 2 - p.blockStart, p.clockStart, s.oldClock.value);
            Fits(clocks, gap, p.blockStart, f.blockStart + f.blockSize + 1, f.clockStart, f.clockEnd)
            && (forall i :: 0 <= i < |s.saved| ==> s.saved[i].blockStart + s.saved[i].blockSize + 1 < p.blockStart)
            && Finish(s0, clocks, 0, gap, minSize).saved == if Keeps(minSize, f) then s.saved + [f] else s.saved)
  {
    ScanInv(s0, clocks, gap, minSize, |clocks|);
  }
}

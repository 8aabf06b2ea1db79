/**
 * The checkpoint that the resumable scanners of dvrrecover/harddisk.py and
 * dvrrecover/chunkfactory.py keep in the state table: the block to resume
 * at, the open chunk's `block_start` and `clock_start` (NULL when no chunk
 * is open) and the previous clock, each under its own key.
 */
module StateTable {
  import opened Wrappers
  import PackHeader
  import opened ChunkScan
  import opened Database

  /** The four keys a scanner saves its variables under. */
  datatype Keys = Keys(position: string, blockStart: string, clockStart: string, oldClock: string)

  predicate Distinct(k: Keys)
  {
    k.position != k.blockStart && k.position != k.clockStart && k.position != k.oldClock
    && k.blockStart != k.clockStart && k.blockStart != k.oldClock && k.clockStart != k.oldClock
  }

  /** A Python value as stored: a number, or NULL for None. */
  function Stored(v: Option<nat>): Value
  {
    if v.Some? then Int(v.value) else Null
  }

  /** A stored value that is NULL or a number that is not negative. */
  predicate NullOrNat(v: Value)
  {
    v.Null? || (v.Int? && v.i >= 0)
  }

  /** What `state_query` hands back: a number, or None for NULL. */
  function AsNat(v: Value): Option<nat>
    requires NullOrNat(v)
  {
    if v.Int? then Some(v.i) else None
  }

  /** The value of a key, NULL when absent. */
  function Query(t: map<string, Value>, key: string): Value
  {
    if key in t then t[key] else Null
  }

  /** A state table as a scanner leaves it: position and clocks not negative, and an open chunk only with a previous clock. */
  predicate Consistent(k: Keys, t: map<string, Value>)
  {
    NullOrNat(Query(t, k.position)) && NullOrNat(Query(t, k.blockStart))
    && NullOrNat(Query(t, k.clockStart)) && NullOrNat(Query(t, k.oldClock))
    && (Query(t, k.blockStart).Int? && Query(t, k.clockStart).Int? ==> Query(t, k.oldClock).Int?)
  }

  /** The table after `save_state` of these variables. */
  function Saved(k: Keys, t: map<string, Value>, current: Option<nat>, chunk: Option<Pending>, oldClock: Option<nat>): map<string, Value>
  {
    t[k.position := Stored(current)]
     [k.blockStart := if chunk.Some? then Int(chunk.value.blockStart) else Null]
     [k.clockStart := if chunk.Some? then Int(chunk.value.clockStart) else Null]
     [k.oldClock := Stored(oldClock)]
  }

  /** The open chunk `load_state` recreates: only when both its fields are stored; else the chunk the scanner had. */
  function LoadedChunk(k: Keys, t: map<string, Value>, prior: Option<Pending>): Option<Pending>
    requires Consistent(k, t)
  {
    var bs, cs := Query(t, k.blockStart), Query(t, k.clockStart);
    if bs.Int? && cs.Int? then Some(Pending(bs.i, cs.i)) else prior
  }

  /** The previous clock `load_state` sets. */
  function LoadedClock(k: Keys, t: map<string, Value>): Option<nat>
    requires Consistent(k, t)
  {
    AsNat(Query(t, k.oldClock))
  }

  /** The block `run` starts at: the saved position, or block 0 without one. */
  function StartBlock(k: Keys, t: map<string, Value>): nat
    requires Consistent(k, t)
  {
    var v := Query(t, k.position);
    if v.Int? then v.i else 0
  }

  /** What `save_state` writes, `load_state` reads back; a fresh scanner has no chunk of its own to keep. */
  lemma LoadAfterSave(k: Keys, t: map<string, Value>, current: Option<nat>, chunk: Option<Pending>, oldClock: Option<nat>, prior: Option<Pending>)
    requires Distinct(k)
    requires chunk.Some? ==> oldClock.Some?
    requires chunk.Some? || prior.None?
    ensures var t' := Saved(k, t, current, chunk, oldClock);
      Consistent(k, t')
      && AsNat(Query(t', k.position)) == current
      && LoadedChunk(k, t', prior) == chunk
      && LoadedClock(k, t') == oldClock
  {
  }

  /** The table holds the scan variables `s` and the position `position` under the four keys. */
  predicate Holds(k: Keys, t: map<string, Value>, position: nat, s: State)
  {
    Query(t, k.position) == Int(position)
    && Query(t, k.blockStart) == (if s.chunk.Some? then Int(s.chunk.value.blockStart) else Null)
    && Query(t, k.clockStart) == (if s.chunk.Some? then Int(s.chunk.value.clockStart) else Null)
    && Query(t, k.oldClock) == Stored(s.oldClock)
  }

  /** After `save_state` the table holds the saved variables, whatever it held before. */
  lemma SavedHolds(k: Keys, t: map<string, Value>, position: nat, s: State)
    requires Distinct(k)
    ensures Holds(k, Saved(k, t, Some(position), s.chunk, s.oldClock), position, s)
  {
  }

  /** `load_state` from a table holding a checkpoint resumes the scan at its position with its variables. */
  lemma ResumeFromCheckpoint(k: Keys, t: map<string, Value>, position: nat, s: State)
    requires Ready(s) && Holds(k, t, position, s)
    ensures Consistent(k, t) && StartBlock(k, t) == position
    ensures LoadedChunk(k, t, None) == s.chunk && LoadedClock(k, t) == s.oldClock
  {
  }

  /** The table holds the checkpoint taken before block `first + b`, after the reads `rest[..b]`. */
  predicate CheckpointAt(k: Keys, d: Decoder, t: map<string, Value>, s0: State, rest: seq<seq<bv8>>, first: nat, b: nat,
                         gap: nat, minSize: Option<int>)
  {
    Ready(s0) && b <= |rest| && (forall j :: 0 <= j < b ==> |rest[j]| >= PackHeader.HeaderLength)
    && Holds(k, t, first + b, Scan(s0, Clocks(d, rest[..b]), first, b, gap, minSize))
  }

  /** The table is empty or holds the checkpoint taken before one of the blocks `first` to `first + n`. */
  predicate CheckedAt(k: Keys, d: Decoder, t: map<string, Value>, s0: State, rest: seq<seq<bv8>>, first: nat, n: nat,
                      gap: nat, minSize: Option<int>)
  {
    t == map[] || exists b :: 0 <= b <= n && CheckpointAt(k, d, t, s0, rest, first, b, gap, minSize)
  }

  /** A checkpoint before block `first + i` replaces whatever the table held. */
  lemma CheckpointTaken(k: Keys, d: Decoder, t: map<string, Value>, s0: State, rest: seq<seq<bv8>>, first: nat, i: nat,
                        gap: nat, minSize: Option<int>)
    requires Distinct(k) && Ready(s0) && i < |rest| && forall j :: 0 <= j < i ==> |rest[j]| >= PackHeader.HeaderLength
    ensures var s := Scan(s0, Clocks(d, rest[..i]), first, i, gap, minSize);
      CheckedAt(k, d, Saved(k, t, Some(first + i), s.chunk, s.oldClock), s0, rest, first, i, gap, minSize)
  {
    var s := Scan(s0, Clocks(d, rest[..i]), first, i, gap, minSize);
    SavedHolds(k, t, first + i, s);
    assert CheckpointAt(k, d, Saved(k, t, Some(first + i), s.chunk, s.oldClock), s0, rest, first, i, gap, minSize);
  }

  /** A checkpoint before one of the first blocks is one before one of more blocks. */
  lemma CheckedGrows(k: Keys, d: Decoder, t: map<string, Value>, s0: State, rest: seq<seq<bv8>>, first: nat, i: nat,
                     gap: nat, minSize: Option<int>)
    requires CheckedAt(k, d, t, s0, rest, first, i, gap, minSize)
    ensures CheckedAt(k, d, t, s0, rest, first, i + 1, gap, minSize)
  {
    if t != map[] {
      var b :| 0 <= b <= i && CheckpointAt(k, d, t, s0, rest, first, b, gap, minSize);
    }
  }
}

/**
 * The SQLite tables of dvrrecover/database.py as maps: the chunk table keyed
 * by its integer primary key, and the two key/value tables `state` and
 * `setting`, whose keys replace on conflict.  SQL NULL is `None` in a chunk
 * row and `Null` in the key/value tables.
 */
module Database {
  import opened Wrappers

  /** The five data columns of a chunk row. */
  datatype Row = Row(blockStart: Option<int>, blockSize: Option<int>, clockStart: Option<int>,
                     clockEnd: Option<int>, concat: Option<int>)

  /** A `Chunk` object (dvrrecover/chunk.py): its id, its columns and whether it is still to be inserted. */
  datatype Chunk = Chunk(id: Option<int>, row: Row, isNew: bool)

  /** A value stored in the state or setting table. */
  datatype Value = Null | Int(i: int) | Text(s: string)

  datatype DbError =
    | IntegrityError   // an INSERT with an id that is already taken
    | MultipleConcats  // several rows name the same chunk in `concat`

  /** A fresh `Chunk()`: every column NULL, to be inserted. */
  function NewChunk(): Chunk
  {
    Chunk(None, Row(None, None, None, None, None), true)
  }

  /** A non-empty set of keys has a member to pick. */
  lemma NonEmpty(keys: set<int>)
    requires keys != {}
    ensures exists k :: k in keys
  {
    if forall k :: k !in keys {
      assert false;
    }
  }

  /** The largest key of a non-empty table. */
  ghost function MaxKey(keys: set<int>): (m: int)
    requires keys != {}
    ensures m in keys && forall k :: k in keys ==> k <= m
  {
    NonEmpty(keys);
    var x :| x in keys;
    var rest := keys - {x};
    assert forall k :: k in keys ==> k == x || k in rest;
    if rest == {} then x
    else
      var m' := MaxKey(rest);
      if x > m' then x else m'
  }

  /** The row id SQLite gives an INSERT without an id: one more than the largest, or 1 in an empty table. */
  ghost function NextId(t: map<int, Row>): int
  {
    if t == map[] then 1 else MaxKey(t.Keys) + 1
  }

  /** The table after inserting `rows` one by one without ids. */
  ghost function Inserted(t: map<int, Row>, rows: seq<Row>): map<int, Row>
    decreases |rows|
  {
    if rows == [] then t else Inserted(t[NextId(t) := rows[0]], rows[1..])
  }

  /** Inserting one more row after `rows` inserts it under the next id. */
  lemma {:induction false} InsertedAppend(t: map<int, Row>, rows: seq<Row>, r: Row)
    ensures Inserted(t, rows + [r]) == var t' := Inserted(t, rows); t'[NextId(t') := r]
    decreases |rows|
  {
    if rows == [] {
      assert [] + [r] == [r];
    } else {
      assert (rows + [r])[1..] == rows[1..] + [r];
      InsertedAppend(t[NextId(t) := rows[0]], rows[1..], r);
    }
  }

  /** Inserting `a` and then `b` is inserting `a + b`. */
  lemma {:induction false} InsertedConcat(t: map<int, Row>, a: seq<Row>, b: seq<Row>)
    ensures Inserted(t, a + b) == Inserted(Inserted(t, a), b)
    decreases |a|
  {
    if a == [] {
      assert a + b == b;
    } else {
      assert (a + b)[0] == a[0] && (a + b)[1..] == a[1..] + b;
      InsertedConcat(t[NextId(t) := a[0]], a[1..], b);
    }
  }

  /** Every insert without an id adds a row: the count grows by the number of rows inserted. */
  lemma {:induction false} InsertedCount(t: map<int, Row>, rows: seq<Row>)
    ensures |Inserted(t, rows)| == |t| + |rows|
    decreases |rows|
  {
    if rows != [] {
      NextIdFresh(t);
      InsertedCount(t[NextId(t) := rows[0]], rows[1..]);
    }
  }

  /** The next id is above every id in use. */
  lemma NextIdFresh(t: map<int, Row>)
    ensures NextId(t) !in t && forall k :: k in t ==> k < NextId(t)
  {
    if t != map[] {
      var m := MaxKey(t.Keys);
    }
  }

  /** The rows `rows` hold as a table keyed 1, 2, ... */
  function Numbered(rows: seq<Row>): (t: map<int, Row>)
    ensures forall i :: i in t <==> 1 <= i <= |rows|
  {
    if rows == [] then map[] else Numbered(rows[..|rows| - 1])[|rows| := rows[|rows| - 1]]
  }

  /** Inserting into a table numbered 1 to n continues the numbering. */
  lemma {:induction false} InsertedNumbered(done: seq<Row>, rows: seq<Row>)
    ensures Inserted(Numbered(done), rows) == Numbered(done + rows)
    decreases |rows|
  {
    if rows == [] {
      assert done + rows == done;
    } else {
      NumberedNext(done, rows[0]);
      InsertedNumbered(done + [rows[0]], rows[1..]);
      assert done + [rows[0]] + rows[1..] == done + rows;
    }
  }

  /** The next id of a table numbered 1 to n is n + 1. */
  lemma NumberedNext(done: seq<Row>, r: Row)
    ensures var t := Numbered(done); t[NextId(t) := r] == Numbered(done + [r])
  {
    var t := Numbered(done);
    if done == [] {
      assert t == map[];
    } else {
      assert |done| in t;
      assert MaxKey(t.Keys) == |done|;
    }
    assert (done + [r])[..|done|] == done;
  }

  /** Rows inserted into an empty chunk table get the ids 1, 2, ... in order. */
  lemma InsertedIntoEmpty(rows: seq<Row>)
    ensures Inserted(map[], rows) == Numbered(rows)
  {
    InsertedNumbered([], rows);
    assert [] + rows == rows;
  }

  // ---------------------------------------------------------------------------
  // chunk_fix_multiple_concats
  // ---------------------------------------------------------------------------

  /** Row `k` names in `concat` a chunk that another row also names. */
  predicate Shared(t: map<int, Row>, k: int)
    requires k in t
  {
    t[k].concat.Some? && exists k2 :: k2 in t && k2 != k && t[k2].concat == t[k].concat
  }

  /** The table after `chunk_fix_multiple_concats`: every shared `concat` set to NULL. */
  function FixedConcats(t: map<int, Row>): (t': map<int, Row>)
  {
    map k | k in t :: if Shared(t, k) then t[k].(concat := None) else t[k]
  }

  /** No two rows name the same chunk in `concat`. */
  predicate UniqueConcats(t: map<int, Row>)
  {
    forall k1, k2 :: k1 in t && k2 in t && k1 != k2 && t[k1].concat.Some? ==> t[k1].concat != t[k2].concat
  }

  /** The fix keeps every row and every column except `concat`, and clears exactly the shared ones. */
  lemma FixChangesOnlyShared(t: map<int, Row>)
    ensures var t' := FixedConcats(t);
      t'.Keys == t.Keys
      && forall k :: k in t ==>
           t'[k].(concat := t[k].concat) == t[k]
           && (t'[k].concat == if Shared(t, k) then None else t[k].concat)
  {
  }

  /** Afterwards no two rows share a `concat`. */
  lemma FixLeavesUnique(t: map<int, Row>)
    ensures UniqueConcats(FixedConcats(t))
  {
    var t' := FixedConcats(t);
    forall k1, k2 | k1 in t' && k2 in t' && k1 != k2 && t'[k1].concat.Some?
      ensures t'[k1].concat != t'[k2].concat
    {
      if t'[k1].concat == t'[k2].concat {
        assert false;
      }
    }
  }

  /** A table without shared concats is left as it is. */
  lemma FixOfUnique(t: map<int, Row>)
    requires UniqueConcats(t)
    ensures FixedConcats(t) == t
  {
    forall k | k in t
      ensures !Shared(t, k)
    {
    }
  }

  /** A second fix changes nothing. */
  lemma FixIdempotent(t: map<int, Row>)
    ensures FixedConcats(FixedConcats(t)) == FixedConcats(t)
  {
    FixLeavesUnique(t);
    FixOfUnique(FixedConcats(t));
  }

  /** The rows whose `concat` names chunk `id`. */
  function Referencing(t: map<int, Row>, id: int): set<int>
  {
    set k | k in t && t[k].concat == Some(id)
  }

  /** In a table without shared concats, at most one row names any chunk. */
  lemma UniqueReferences(t: map<int, Row>, id: int)
    requires UniqueConcats(t)
    ensures |Referencing(t, id)| <= 1
  {
    var refs := Referencing(t, id);
    if refs != {} {
      NonEmpty(refs);
      var k1 :| k1 in refs;
      forall k | k in refs
        ensures k in {k1}
      {
        if k != k1 {
          assert false;
        }
      }
      SubsetCard(refs, {k1});
    }
  }

  /** `ORDER BY clock_start`: NULL sorts before every number. */
  predicate Before(a: Option<int>, b: Option<int>)
  {
    a.None? || (b.Some? && a.value <= b.value)
  }

  /** `ids` lists rows of `t` in ascending `clock_start`. */
  predicate SortedByClock(t: map<int, Row>, ids: seq<int>)
  {
    forall i, j :: 0 <= i < j < |ids| && ids[i] in t && ids[j] in t ==> Before(t[ids[i]].clockStart, t[ids[j]].clockStart)
  }

  /** The ids of stored chunks (0 for a chunk without one). */
  function IdsOf(chunks: seq<Chunk>): (ids: seq<int>)
    ensures |ids| == |chunks|
    ensures forall i :: 0 <= i < |chunks| && chunks[i].id.Some? ==> ids[i] == chunks[i].id.value
  {
    if chunks == [] then []
    else IdsOf(chunks[..|chunks| - 1]) + [if chunks[|chunks| - 1].id.Some? then chunks[|chunks| - 1].id.value else 0]
  }

  /** Row `k` of `t` has the smallest `clock_start` among the keys `keys`. */
  predicate Least(t: map<int, Row>, keys: set<int>, k: int)
    requires keys <= t.Keys
  {
    k in keys && forall k2 :: k2 in keys ==> Before(t[k].clockStart, t[k2].clockStart)
  }

  /** Among any rows one has the smallest `clock_start`. */
  lemma {:induction false} LeastExists(t: map<int, Row>, keys: set<int>)
    requires keys <= t.Keys && keys != {}
    ensures exists k :: Least(t, keys, k)
    decreases keys
  {
    NonEmpty(keys);
    var x :| x in keys;
    if keys != {x} {
      LeastExists(t, keys - {x});
      var m :| Least(t, keys - {x}, m);
      if Before(t[x].clockStart, t[m].clockStart) {
        assert Least(t, keys, x);
      } else {
        assert Least(t, keys, m);
      }
    } else {
      assert Least(t, keys, x);
    }
  }

  class DatabaseManager {
    var chunks: map<int, Row>
    var state: map<string, Value>
    var settings: map<string, Value>

    /** `open` on a new database file: `init_db` creates the three tables, all empty. */
    constructor ()
      ensures chunks == map[] && state == map[] && settings == map[]
    {
      chunks := map[];
      state := map[];
      settings := map[];
    }

    /** `chunk_count`: the number of rows, zero exactly for an empty table. */
    function ChunkCount(): (count: nat)
      reads this
      ensures count == |chunks.Keys|
      ensures count == 0 <==> chunks == map[]
    {
      |chunks|
    }

    /** `chunk_load`: the row with that id as a stored chunk, or None. */
    function ChunkLoad(id: int): (chunk: Option<Chunk>)
      reads this
      ensures chunk.Some? <==> id in chunks
      ensures chunk.Some? ==> chunk.value == Chunk(Some(id), chunks[id], false)
    {
      if id in chunks then Some(Chunk(Some(id), chunks[id], false)) else None
    }

    /**
     * `chunk_save`: a new chunk is inserted, under its own id or, without
     * one, under the next row id, and comes back stored with that id; an id
     * already in use fails.  A stored chunk updates the row with its id and
     * nothing else.
     */
    method ChunkSave(chunk: Chunk) returns (result: Result<Chunk, DbError>)
      modifies this
      ensures state == old(state) && settings == old(settings)
      ensures chunk.isNew && chunk.id.None? ==>
        result == Ok(chunk.(id := Some(NextId(old(chunks))), isNew := false))
        && chunks == old(chunks)[NextId(old(chunks)) := chunk.row]
      ensures chunk.isNew && chunk.id.Some? ==>
        if chunk.id.value in old(chunks) then result == Err(IntegrityError) && chunks == old(chunks)
        else result == Ok(chunk.(isNew := false)) && chunks == old(chunks)[chunk.id.value := chunk.row]
      ensures !chunk.isNew ==>
        result == Ok(chunk)
        && chunks == if chunk.id.Some? && chunk.id.value in old(chunks) then old(chunks)[chunk.id.value := chunk.row] else old(chunks)
    {
      if chunk.isNew {
        var id;
        if chunk.id.Some? {
          id := chunk.id.value;
          if id in chunks {
            return Err(IntegrityError);
          }
        } else {
          id := NewRowId();
        }
        chunks := chunks[id := chunk.row];
        result := Ok(chunk.(id := Some(id), isNew := false));
      } else {
        if chunk.id.Some? && chunk.id.value in chunks {
          chunks := chunks[chunk.id.value := chunk.row];
        }
        result := Ok(chunk);
      }
    }

    /** The id SQLite picks for a row inserted without one. */
    method NewRowId() returns (id: int)
      ensures id == NextId(chunks)
    {
      if chunks == map[] {
        return 1;
      }
      var rest := chunks.Keys;
      NonEmpty(rest);
      var top :| top in rest;
      rest := rest - {top};
      while rest != {}
        invariant rest <= chunks.Keys && top in chunks
        invariant forall k :: k in chunks && k !in rest ==> k <= top
        decreases rest
      {
        NonEmpty(rest);
        var k :| k in rest;
        if k > top {
          top := k;
        }
        rest := rest - {k};
      }
      var m := MaxKey(chunks.Keys);
      id := top + 1;
    }

    /** `chunk_delete_id`: removes the row with that id, if any, and no other. */
    method ChunkDeleteId(id: Option<int>)
      modifies this
      ensures chunks == if id.Some? then old(chunks) - {id.value} else old(chunks)
      ensures state == old(state) && settings == old(settings)
    {
      if id.Some? {
        chunks := chunks - {id.value};
      }
    }

    /** `chunk_delete`: removes the row of the chunk's id. */
    method ChunkDelete(chunk: Chunk)
      modifies this
      ensures chunks == if chunk.id.Some? then old(chunks) - {chunk.id.value} else old(chunks)
      ensures state == old(state) && settings == old(settings)
    {
      ChunkDeleteId(chunk.id);
    }

    /** `chunk_reset`: every row is deleted. */
    method ChunkReset()
      modifies this
      ensures chunks == map[] && ChunkCount() == 0
      ensures state == old(state) && settings == old(settings)
    {
      chunks := map[];
    }

    /** `chunk_reset_concat`: `concat` becomes NULL in every row; nothing else changes. */
    method ChunkResetConcat()
      modifies this
      ensures chunks.Keys == old(chunks).Keys
      ensures forall k :: k in chunks ==> chunks[k] == old(chunks)[k].(concat := None)
      ensures state == old(state) && settings == old(settings)
    {
      chunks := map k | k in chunks :: chunks[k].(concat := None);
    }

    /** `chunk_query_ids`: every id exactly once, in ascending `clock_start`. */
    method ChunkQueryIds() returns (ids: seq<int>)
      ensures multiset(ids) == multiset(chunks.Keys) && |ids| == ChunkCount()
      ensures SortedByClock(chunks, ids)
    {
      ids := [];
      var rest := chunks.Keys;
      while rest != {}
        invariant rest <= chunks.Keys
        invariant forall i :: 0 <= i < |ids| ==> ids[i] in chunks
        invariant multiset(ids) + multiset(rest) == multiset(chunks.Keys)
        invariant SortedByClock(chunks, ids)
        invariant forall i, k :: 0 <= i < |ids| && k in rest ==> Before(chunks[ids[i]].clockStart, chunks[k].clockStart)
        decreases rest
      {
        LeastExists(chunks, rest);
        var k :| Least(chunks, rest, k);
        ids := ids + [k];
        rest := rest - {k};
      }
    }

    /** `chunk_query`: `chunk_load` of every id in the order of `chunk_query_ids`. */
    method ChunkQuery() returns (result: seq<Chunk>)
      ensures multiset(IdsOf(result)) == multiset(chunks.Keys)
      ensures SortedByClock(chunks, IdsOf(result))
      ensures forall i :: 0 <= i < |result| ==> result[i].id.Some? && ChunkLoad(result[i].id.value) == Some(result[i])
    {
      var ids := ChunkQueryIds();
      result := [];
      var i := 0;
      while i < |ids|
        invariant 0 <= i <= |ids| && |result| == i && IdsOf(result) == ids[..i]
        invariant forall j :: 0 <= j < i ==> result[j].id.Some? && ChunkLoad(result[j].id.value) == Some(result[j])
      {
        assert ids[i] in multiset(chunks.Keys);
        result := result + [ChunkLoad(ids[i]).value];
        i := i + 1;
      }
      assert ids[..i] == ids;
    }

    /**
     * `chunk_query_concat`: the one stored chunk whose `concat` names this
     * chunk, None when no row does, and an error when several rows do.
     */
    method ChunkQueryConcat(chunk: Chunk) returns (result: Result<Option<Chunk>, DbError>)
      ensures chunk.id.None? ==> result == Ok(None)
      ensures chunk.id.Some? ==>
        var refs := Referencing(chunks, chunk.id.value);
        (refs == {} <==> result == Ok(None))
        && (|refs| >= 2 <==> result == Err(MultipleConcats))
        && (result.Ok? && result.value.Some? ==>
              result.value.value.id.Some?
              && refs == {result.value.value.id.value}
              && ChunkLoad(result.value.value.id.value) == result.value)
    {
      if chunk.id.None? {
        return Ok(None);
      }
      var id := chunk.id.value;
      var found: Option<int> := None;
      var rest := chunks.Keys;
      while rest != {}
        invariant rest <= chunks.Keys
        invariant found.None? ==> forall k :: k in Referencing(chunks, id) ==> k in rest
        invariant found.Some? ==>
          found.value in Referencing(chunks, id) && found.value !in rest
          && forall k :: k in Referencing(chunks, id) && k != found.value ==> k in rest
        decreases rest
      {
        NonEmpty(rest);
        var k :| k in rest;
        rest := rest - {k};
        if chunks[k].concat == Some(id) {
          if found.Some? {
            assert {found.value, k} <= Referencing(chunks, id);
            assert |{found.value, k}| == 2;
            SubsetCard({found.value, k}, Referencing(chunks, id));
            return Err(MultipleConcats);
          }
          found := Some(k);
        }
      }
      if found.None? {
        assert forall k :: k !in Referencing(chunks, id);
        assert Referencing(chunks, id) == {};
        return Ok(None);
      }
      assert forall k :: k in Referencing(chunks, id) <==> k == found.value;
      assert Referencing(chunks, id) == {found.value};
      result := Ok(ChunkLoad(found.value));
    }

    /** `chunk_fix_multiple_concats`: the table becomes `FixedConcats` of itself. */
    method ChunkFixMultipleConcats()
      modifies this
      ensures chunks == FixedConcats(old(chunks))
      ensures state == old(state) && settings == old(settings)
    {
      chunks := FixedConcats(chunks);
    }

    /** `state_reset`: the state table becomes empty. */
    method StateReset()
      modifies this
      ensures state == map[] && chunks == old(chunks) && settings == old(settings)
    {
      state := map[];
    }

    /** `state_query`: the stored value, or NULL when the key is absent. */
    function StateQuery(key: string): (value: Value)
      reads this
      ensures key !in state ==> value == Null
    {
      if key in state then state[key] else Null
    }

    /** `state_delete`: removes that key only. */
    method StateDelete(key: string)
      modifies this
      ensures state == old(state) - {key} && chunks == old(chunks) && settings == old(settings)
    {
      state := state - {key};
    }

    /** `state_insert`: stores the value, replacing any earlier value of that key; other keys keep theirs. */
    method StateInsert(key: string, value: Value)
      modifies this
      ensures StateQuery(key) == value
      ensures forall k :: k != key ==> StateQuery(k) == old(StateQuery(k))
      ensures state == old(state)[key := value] && chunks == old(chunks) && settings == old(settings)
    {
      state := state[key := value];
    }

    /** `setting_reset`: the setting table becomes empty. */
    method SettingReset()
      modifies this
      ensures settings == map[] && chunks == old(chunks) && state == old(state)
    {
      settings := map[];
    }

    /** `setting_query`: the stored value, or NULL when the key is absent. */
    function SettingQuery(key: string): (value: Value)
      reads this
      ensures key !in settings ==> value == Null
    {
      if key in settings then settings[key] else Null
    }

    /** `setting_delete`: removes that key only. */
    method SettingDelete(key: string)
      modifies this
      ensures settings == old(settings) - {key} && chunks == old(chunks) && state == old(state)
    {
      settings := settings - {key};
    }

    /** `setting_insert`: stores the value, replacing any earlier value of that key; other keys keep theirs. */
    method SettingInsert(key: string, value: Value)
      modifies this
      ensures SettingQuery(key) == value
      ensures forall k :: k != key ==> SettingQuery(k) == old(SettingQuery(k))
      ensures settings == old(settings)[key := value] && chunks == old(chunks) && state == old(state)
    {
      settings := settings[key := value];
    }
  }

  /** A subset is no larger than its superset. */
  lemma SubsetCard(a: set<int>, b: set<int>)
    requires a <= b
    ensures |a| <= |b|
  {
    if a != {} {
      NonEmpty(a);
      var x :| x in a;
      SubsetCard(a - {x}, b - {x});
    }
  }

  /** After the fix, looking up the chunk that continues any chunk never fails. */
  lemma QueryConcatAfterFix(t: map<int, Row>, id: int)
    ensures |Referencing(FixedConcats(t), id)| <= 1
  {
    FixLeavesUnique(t);
    UniqueReferences(FixedConcats(t), id);
  }
}

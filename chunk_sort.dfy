/**
 * `sort` and `reset` of dvr-recover.py: the chunk list sorted by a key with
 * Python's stable `list.sort`, and the linker that follows each chunk with
 * the chunk whose recording most likely continues it.
 *
 * The linker works on the list sorted by `clock_start`.  Chunks are named by
 * their position in that list, which is how the source tells them apart
 * (`is` and `in` on chunk objects compare identities).
 */
module ChunkSort {
  import opened Wrappers
  import ChunkFile

  type Chunk = ChunkFile.Chunk

  // ---------------------------------------------------------------------------
  // list.sort(key=...)
  // ---------------------------------------------------------------------------

  /** The two sort keys: `clock_start` for `sort`, `block_start` for `reset`. */
  datatype Key = ClockStart | BlockStart

  function KeyOf(key: Key, c: Chunk): int
  {
    match key
    case ClockStart => c.clockStart
    case BlockStart => c.blockStart
  }

  predicate SortedBy(key: Key, cs: seq<Chunk>)
  {
    forall i, j :: 0 <= i < j < |cs| ==> KeyOf(key, cs[i]) <= KeyOf(key, cs[j])
  }

  /** `x` placed after every element whose key is not larger than its own. */
  function InsertBy(key: Key, s: seq<Chunk>, x: Chunk): seq<Chunk>
  {
    if s == [] then [x]
    else if KeyOf(key, x) < KeyOf(key, s[0]) then [x] + s
    else [s[0]] + InsertBy(key, s[1..], x)
  }

  /** `list.sort(key=...)`: a stable sort, here as insertion of each element in turn. */
  function SortBy(key: Key, cs: seq<Chunk>): seq<Chunk>
  {
    if cs == [] then [] else InsertBy(key, SortBy(key, cs[..|cs| - 1]), cs[|cs| - 1])
  }

  /** The elements with key `v`, in their order. */
  function WithKey(key: Key, v: int, cs: seq<Chunk>): seq<Chunk>
  {
    if cs == [] then []
    else (if KeyOf(key, cs[0]) == v then [cs[0]] else []) + WithKey(key, v, cs[1..])
  }

  lemma {:induction false} InsertCount(key: Key, s: seq<Chunk>, x: Chunk)
    ensures multiset(InsertBy(key, s, x)) == multiset(s) + multiset{x}
  {
    if s != [] && KeyOf(key, x) >= KeyOf(key, s[0]) {
      InsertCount(key, s[1..], x);
      assert s == [s[0]] + s[1..];
    }
  }

  lemma {:induction false} InsertSorted(key: Key, s: seq<Chunk>, x: Chunk)
    requires SortedBy(key, s)
    ensures SortedBy(key, InsertBy(key, s, x))
  {
    if s == [] {
    } else if KeyOf(key, x) < KeyOf(key, s[0]) {
      ConsSorted(key, x, s);
    } else {
      SortedTail(key, s);
      InsertSorted(key, s[1..], x);
      InsertAbove(key, s[1..], x, KeyOf(key, s[0]));
      ConsSorted(key, s[0], InsertBy(key, s[1..], x));
    }
  }

  /** A chunk whose key is at most every key of a sorted list can go in front of it. */
  lemma ConsSorted(key: Key, h: Chunk, r: seq<Chunk>)
    requires SortedBy(key, r)
    requires forall i :: 0 <= i < |r| ==> KeyOf(key, h) <= KeyOf(key, r[i])
    ensures SortedBy(key, [h] + r)
  {
    var c := [h] + r;
    forall i, j | 0 <= i < j < |c|
      ensures KeyOf(key, c[i]) <= KeyOf(key, c[j])
    {
      assert c[j] == r[j - 1];
      if i > 0 {
        assert c[i] == r[i - 1];
      }
    }
  }

  /** Inserting a chunk keeps every key at or above a bound that the chunk and the list respect. */
  lemma {:induction false} InsertAbove(key: Key, s: seq<Chunk>, x: Chunk, lo: int)
    requires forall i :: 0 <= i < |s| ==> lo <= KeyOf(key, s[i])
    requires lo <= KeyOf(key, x)
    ensures forall i :: 0 <= i < |InsertBy(key, s, x)| ==> lo <= KeyOf(key, InsertBy(key, s, x)[i])
  {
    if s != [] && KeyOf(key, x) >= KeyOf(key, s[0]) {
      InsertAbove(key, s[1..], x, lo);
      ConsAbove(key, s[0], InsertBy(key, s[1..], x), lo);
    } else if s != [] {
      ConsAbove(key, x, s, lo);
    }
  }

  lemma ConsAbove(key: Key, h: Chunk, r: seq<Chunk>, lo: int)
    requires lo <= KeyOf(key, h) && forall i :: 0 <= i < |r| ==> lo <= KeyOf(key, r[i])
    ensures forall i :: 0 <= i < |[h] + r| ==> lo <= KeyOf(key, ([h] + r)[i])
  {
    forall i | 0 <= i < |[h] + r|
      ensures lo <= KeyOf(key, ([h] + r)[i])
    {
      if i > 0 {
        assert ([h] + r)[i] == r[i - 1];
      }
    }
  }

  /** The sorted list is in key order and holds the same chunks. */
  lemma {:induction false} SortBySorted(key: Key, cs: seq<Chunk>)
    ensures SortedBy(key, SortBy(key, cs))
    ensures multiset(SortBy(key, cs)) == multiset(cs)
  {
    if cs != [] {
      var init := cs[..|cs| - 1];
      SortBySorted(key, init);
      InsertSorted(key, SortBy(key, init), cs[|cs| - 1]);
      InsertCount(key, SortBy(key, init), cs[|cs| - 1]);
      assert init + [cs[|cs| - 1]] == cs;
    }
  }

  lemma {:induction false} WithKeyAppend(key: Key, v: int, a: seq<Chunk>, b: seq<Chunk>)
    ensures WithKey(key, v, a + b) == WithKey(key, v, a) + WithKey(key, v, b)
  {
    if a == [] {
      assert a + b == b;
    } else {
      var head := if KeyOf(key, a[0]) == v then [a[0]] else [];
      assert (a + b)[0] == a[0] && (a + b)[1..] == a[1..] + b;
      WithKeyAppend(key, v, a[1..], b);
      assert head + (WithKey(key, v, a[1..]) + WithKey(key, v, b)) == (head + WithKey(key, v, a[1..])) + WithKey(key, v, b);
    }
  }

  lemma {:induction false} WithKeyAbove(key: Key, v: int, s: seq<Chunk>)
    requires forall i :: 0 <= i < |s| ==> KeyOf(key, s[i]) > v
    ensures WithKey(key, v, s) == []
  {
    if s != [] {
      WithKeyAbove(key, v, s[1..]);
    }
  }

  lemma {:induction false} InsertStable(key: Key, v: int, s: seq<Chunk>, x: Chunk)
    requires SortedBy(key, s)
    ensures WithKey(key, v, InsertBy(key, s, x)) == WithKey(key, v, s) + WithKey(key, v, [x])
  {
    if s == [] {
    } else if KeyOf(key, x) < KeyOf(key, s[0]) {
      InsertFrontStable(key, v, s, x);
    } else {
      SortedTail(key, s);
      InsertStable(key, v, s[1..], x);
      InsertAfterHeadStable(key, v, s, x);
    }
  }

  /** `x` inserted after the head of the list keeps the order of each key when the insertion into the tail does. */
  lemma InsertAfterHeadStable(key: Key, v: int, s: seq<Chunk>, x: Chunk)
    requires s != [] && KeyOf(key, x) >= KeyOf(key, s[0])
    requires WithKey(key, v, InsertBy(key, s[1..], x)) == WithKey(key, v, s[1..]) + WithKey(key, v, [x])
    ensures WithKey(key, v, InsertBy(key, s, x)) == WithKey(key, v, s) + WithKey(key, v, [x])
  {
    assert [s[0]] + s[1..] == s;
    ConsWithKey(key, v, s[0], s[1..], InsertBy(key, s[1..], x), [x]);
  }

  /** Putting the same chunk in front of two lists keeps an equation between their chunks with key `v`. */
  lemma ConsWithKey(key: Key, v: int, h: Chunk, t: seq<Chunk>, r: seq<Chunk>, u: seq<Chunk>)
    requires WithKey(key, v, r) == WithKey(key, v, t) + WithKey(key, v, u)
    ensures WithKey(key, v, [h] + r) == WithKey(key, v, [h] + t) + WithKey(key, v, u)
  {
    WithKeyAppend(key, v, [h], r);
    WithKeyAppend(key, v, [h], t);
    Regroup(WithKey(key, v, [h] + r), WithKey(key, v, [h] + t), WithKey(key, v, [h]),
            WithKey(key, v, r), WithKey(key, v, t), WithKey(key, v, u));
  }

  /** `a + (b + c)` read as `(a + b) + c`, with each part named. */
  lemma Regroup<T>(lhs: seq<T>, rhs: seq<T>, a: seq<T>, r: seq<T>, b: seq<T>, c: seq<T>)
    requires lhs == a + r && r == b + c && rhs == a + b
    ensures lhs == rhs + c
  {
    assert a + (b + c) == (a + b) + c;
  }

  /** The tail of a sorted list is sorted, and no key in it is below the head's. */
  lemma SortedTail(key: Key, s: seq<Chunk>)
    requires SortedBy(key, s) && s != []
    ensures SortedBy(key, s[1..])
    ensures forall i :: 0 <= i < |s[1..]| ==> KeyOf(key, s[0]) <= KeyOf(key, s[1..][i])
  {
  }

  /** `x` inserted in front of a sorted list whose keys are all larger. */
  lemma InsertFrontStable(key: Key, v: int, s: seq<Chunk>, x: Chunk)
    requires SortedBy(key, s) && s != [] && KeyOf(key, x) < KeyOf(key, s[0])
    ensures WithKey(key, v, [x] + s) == WithKey(key, v, s) + WithKey(key, v, [x])
  {
    WithKeyAppend(key, v, [x], s);
    if KeyOf(key, x) == v {
      forall i | 0 <= i < |s|
        ensures KeyOf(key, s[i]) > v
      {
        assert KeyOf(key, s[0]) <= KeyOf(key, s[i]);
      }
      WithKeyAbove(key, v, s);
    } else {
      assert WithKey(key, v, [x]) == [] + WithKey(key, v, [x][1..]);
    }
  }

  /** The sort is stable: the chunks with any one key keep their relative order. */
  lemma {:induction false} SortByStable(key: Key, v: int, cs: seq<Chunk>)
    ensures WithKey(key, v, SortBy(key, cs)) == WithKey(key, v, cs)
  {
    if cs != [] {
      var init, last := cs[..|cs| - 1], cs[|cs| - 1];
      assert WithKey(key, v, SortBy(key, cs)) == WithKey(key, v, init) + WithKey(key, v, [last]) by {
        assert SortBy(key, cs) == InsertBy(key, SortBy(key, init), last);
        SortByStable(key, v, init);
        SortBySorted(key, init);
        InsertStable(key, v, SortBy(key, init), last);
      }
      assert WithKey(key, v, cs) == WithKey(key, v, init) + WithKey(key, v, [last]) by {
        assert init + [last] == cs;
        WithKeyAppend(key, v, init, [last]);
      }
    }
  }

  // ---------------------------------------------------------------------------
  // The linker: sort and find_next_part
  // ---------------------------------------------------------------------------

  /** `chunk2.clock_start - chunk.clock_end`: how far `b` starts after `a` ends. */
  function Delta(a: Chunk, b: Chunk): int
  {
    b.clockStart - a.clockEnd
  }

  /** `b` may continue `a`: it starts no earlier than `a` ends and at most `gap` later. */
  predicate Admissible(a: Chunk, b: Chunk, gap: int)
  {
    0 <= Delta(a, b) <= gap
  }

  /** Some chunk not yet placed may continue chunk `cur`. */
  predicate HasCandidate(sorted: seq<Chunk>, gap: int, placed: seq<nat>, cur: nat)
    requires cur < |sorted|
  {
    exists x :: 0 <= x < |sorted| && x !in placed && Admissible(sorted[cur], sorted[x], gap)
  }

  /**
   * Chunk `j` is the one `find_next_part` picks after `cur`: not yet placed,
   * admissible, with the smallest delta, and the first in sorted order among
   * those with that delta.
   */
  predicate Chosen(sorted: seq<Chunk>, gap: int, placed: seq<nat>, cur: nat, j: nat)
    requires cur < |sorted|
  {
    && j < |sorted| && j !in placed && Admissible(sorted[cur], sorted[j], gap)
    && forall x :: 0 <= x < |sorted| && x !in placed && Admissible(sorted[cur], sorted[x], gap) ==>
         Delta(sorted[cur], sorted[j]) <= Delta(sorted[cur], sorted[x])
         && (x < j ==> Delta(sorted[cur], sorted[j]) < Delta(sorted[cur], sorted[x]))
  }

  /** Chunk `j` is the first one in sorted order not yet placed. */
  predicate Least(placed: seq<nat>, j: nat)
  {
    j !in placed && forall x: nat :: x < j ==> x in placed
  }

  /**
   * Entry `k` of the linked list is chunk `order[k]` of the sorted list.  If
   * the entry before it can be continued, it is the continuation picked by
   * `find_next_part` and marked `concat`; otherwise it is the next chunk of
   * the outer loop, the first one not yet placed, with `concat` cleared.
   */
  predicate StepOk(sorted: seq<Chunk>, gap: int, order: seq<nat>, result: seq<Chunk>, k: nat)
  {
    && k < |order| && k < |result| && order[k] < |sorted| && (k > 0 ==> order[k - 1] < |sorted|)
    && result[k] == sorted[order[k]].(concat := result[k].concat)
    && if k > 0 && HasCandidate(sorted, gap, order[..k], order[k - 1])
       then result[k].concat && Chosen(sorted, gap, order[..k], order[k - 1], order[k])
       else !result[k].concat && Least(order[..k], order[k])
  }

  /** `result` is the list `sort` builds from `sorted`, chunk `order[k]` at entry `k`. */
  predicate Chained(sorted: seq<Chunk>, gap: int, order: seq<nat>, result: seq<Chunk>)
  {
    && |order| == |result|
    && (forall k :: 0 <= k < |order| ==> StepOk(sorted, gap, order, result, k))
    && (forall x :: 0 <= x < |sorted| ==> x in order)
  }

  predicate Increasing(tmp: seq<nat>)
  {
    forall a, b :: 0 <= a < b < |tmp| ==> tmp[a] < tmp[b]
  }

  /**
   * The lists of the linker at the head of its outer loop, about to visit
   * `tmp[i]`: every chunk before position `i` is placed, none after it, every
   * chunk not placed is still in `tmp`, and the last chain has ended.
   */
  predicate Outer(sorted: seq<Chunk>, gap: int, tmp: seq<nat>, i: nat, order: seq<nat>, result: seq<Chunk>)
  {
    && Increasing(tmp) && i <= |tmp|
    && (forall a :: 0 <= a < |tmp| ==> tmp[a] < |sorted|)
    && (forall a :: 0 <= a < i ==> tmp[a] in order)
    && (forall a :: i <= a < |tmp| ==> tmp[a] !in order)
    && (forall x :: 0 <= x < |sorted| && x !in order ==> x in tmp)
    && |order| == |result|
    && (forall k :: 0 <= k < |order| ==> StepOk(sorted, gap, order, result, k))
    && (|order| > 0 ==> order[|order| - 1] < |sorted| && !HasCandidate(sorted, gap, order, order[|order| - 1]))
  }

  /**
   * The lists while a chain is followed from the chunk at position `i` of
   * `tmp`: as in `Outer`, with `tmp[i]` placed and the chain open.
   */
  predicate Inner(sorted: seq<Chunk>, gap: int, tmp: seq<nat>, i: nat, order: seq<nat>, result: seq<Chunk>)
  {
    && Increasing(tmp) && i < |tmp|
    && (forall a :: 0 <= a < |tmp| ==> tmp[a] < |sorted|)
    && (forall a :: 0 <= a <= i ==> tmp[a] in order)
    && (forall a :: i < a < |tmp| ==> tmp[a] !in order)
    && (forall x :: 0 <= x < |sorted| && x !in order ==> x in tmp)
    && |order| == |result| && |order| > 0
    && (forall k :: 0 <= k < |order| ==> StepOk(sorted, gap, order, result, k))
  }

  /** A chunk of `tmp` that `find_next_part` considers after `cur`. */
  predicate Eligible(sorted: seq<Chunk>, gap: int, placed: seq<nat>, cur: nat, x: nat)
    requires cur < |sorted|
  {
    x < |sorted| && x !in placed && Admissible(sorted[cur], sorted[x], gap)
  }

  /**
   * The `for chunk2 in tmp` loop of `find_next_part`: the position in `tmp`
   * of the first eligible chunk with the smallest delta, if there is one.
   */
  method Candidate(sorted: seq<Chunk>, gap: int, tmp: seq<nat>, placed: seq<nat>, cur: nat) returns (next: Option<nat>)
    requires cur < |sorted| && cur in placed
    requires forall a :: 0 <= a < |tmp| ==> tmp[a] < |sorted|
    ensures next.None? ==> forall a :: 0 <= a < |tmp| ==> !Eligible(sorted, gap, placed, cur, tmp[a])
    ensures next.Some? ==> next.value < |tmp| && Eligible(sorted, gap, placed, cur, tmp[next.value])
    ensures next.Some? ==> forall a :: 0 <= a < |tmp| && Eligible(sorted, gap, placed, cur, tmp[a]) ==>
      Delta(sorted[cur], sorted[tmp[next.value]]) <= Delta(sorted[cur], sorted[tmp[a]])
      && (a < next.value ==> Delta(sorted[cur], sorted[tmp[next.value]]) < Delta(sorted[cur], sorted[tmp[a]]))
  {
    var chunk := sorted[cur];
    next := None;
    for q := 0 to |tmp|
      invariant next.None? ==> forall a :: 0 <= a < q ==> !Eligible(sorted, gap, placed, cur, tmp[a])
      invariant next.Some? ==> next.value < q && Eligible(sorted, gap, placed, cur, tmp[next.value])
      invariant next.Some? ==> forall a :: 0 <= a < q && Eligible(sorted, gap, placed, cur, tmp[a]) ==>
        Delta(chunk, sorted[tmp[next.value]]) <= Delta(chunk, sorted[tmp[a]])
        && (a < next.value ==> Delta(chunk, sorted[tmp[next.value]]) < Delta(chunk, sorted[tmp[a]]))
    {
      var x := tmp[q];
      if x == cur || x in placed {
        continue;
      }
      var delta := sorted[x].clockStart - chunk.clockEnd;
      if delta < 0 || delta > gap {
        continue;
      }
      if next.None? {
        next := Some(q);
      } else {
        var oldDelta := sorted[tmp[next.value]].clockStart - chunk.clockEnd;
        if delta < oldDelta {
          next := Some(q);
        }
      }
    }
  }

  /** `tmp.remove` of the chunk at position `p`. */
  function RemoveAt(tmp: seq<nat>, p: nat): (r: seq<nat>)
    requires p < |tmp|
    ensures |r| == |tmp| - 1
    ensures forall a :: 0 <= a < |r| ==> r[a] == if a < p then tmp[a] else tmp[a + 1]
  {
    tmp[..p] + tmp[p + 1..]
  }

  lemma StepOkAppend(sorted: seq<Chunk>, gap: int, order: seq<nat>, result: seq<Chunk>, k: nat, j: nat, c: Chunk)
    requires StepOk(sorted, gap, order, result, k)
    ensures StepOk(sorted, gap, order + [j], result + [c], k)
  {
    assert (order + [j])[..k] == order[..k];
  }

  /** Visiting `tmp[i]` in the outer loop places the first chunk not yet placed. */
  lemma OuterVisit(sorted: seq<Chunk>, gap: int, tmp: seq<nat>, i: nat, order: seq<nat>, result: seq<Chunk>)
    requires Outer(sorted, gap, tmp, i, order, result) && i < |tmp|
    ensures Inner(sorted, gap, tmp, i, order + [tmp[i]], result + [sorted[tmp[i]].(concat := false)])
  {
    var j := tmp[i];
    var order', result' := order + [j], result + [sorted[j].(concat := false)];
    forall k | 0 <= k < |order|
      ensures StepOk(sorted, gap, order', result', k)
    {
      StepOkAppend(sorted, gap, order, result, k, j, sorted[j].(concat := false));
    }
    var k := |order|;
    assert order'[..k] == order;
    assert Least(order, j);
    assert StepOk(sorted, gap, order', result', k);
  }

  /** A chain ends when no chunk of `tmp` is eligible: the outer loop moves on. */
  lemma InnerNone(sorted: seq<Chunk>, gap: int, tmp: seq<nat>, i: nat, order: seq<nat>, result: seq<Chunk>, cur: nat)
    requires Inner(sorted, gap, tmp, i, order, result) && cur == order[|order| - 1] && cur < |sorted|
    requires forall a :: 0 <= a < |tmp| ==> !Eligible(sorted, gap, order, cur, tmp[a])
    ensures Outer(sorted, gap, tmp, i + 1, order, result)
  {
  }

  /** Every entry placed so far keeps its step when another entry is placed after it. */
  lemma StepsAppend(sorted: seq<Chunk>, gap: int, order: seq<nat>, result: seq<Chunk>, j: nat, c: Chunk)
    requires forall k :: 0 <= k < |order| ==> StepOk(sorted, gap, order, result, k)
    ensures forall k :: 0 <= k < |order| ==> StepOk(sorted, gap, order + [j], result + [c], k)
  {
    forall k | 0 <= k < |order|
      ensures StepOk(sorted, gap, order + [j], result + [c], k)
    {
      StepOkAppend(sorted, gap, order, result, k, j, c);
    }
  }

  /**
   * Taking the chunk at position `p > i` out of `tmp` and placing it keeps
   * `tmp` increasing, with the placed chunks up to `i` and the unplaced ones
   * after it.
   */
  lemma RemoveKeepsTmp(sorted: seq<Chunk>, tmp: seq<nat>, i: nat, order: seq<nat>, p: nat)
    requires Increasing(tmp) && i < |tmp| && p < |tmp|
    requires forall a :: 0 <= a < |tmp| ==> tmp[a] < |sorted|
    requires forall a :: 0 <= a <= i ==> tmp[a] in order
    requires forall a :: i < a < |tmp| ==> tmp[a] !in order
    requires forall x :: 0 <= x < |sorted| && x !in order ==> x in tmp
    requires tmp[p] !in order
    ensures i < p
    ensures var tmp', order' := RemoveAt(tmp, p), order + [tmp[p]];
      && Increasing(tmp') && i < |tmp'|
      && (forall a :: 0 <= a < |tmp'| ==> tmp'[a] < |sorted|)
      && (forall a :: 0 <= a <= i ==> tmp'[a] in order')
      && (forall a :: i < a < |tmp'| ==> tmp'[a] !in order')
      && (forall x :: 0 <= x < |sorted| && x !in order' ==> x in tmp')
  {
    var tmp', order' := RemoveAt(tmp, p), order + [tmp[p]];
    RemoveIncreasing(tmp, p);
    forall x | 0 <= x < |sorted| && x !in order'
      ensures x in tmp'
    {
      RemoveKeepsOthers(tmp, p, x);
    }
    forall a | i < a < |tmp'|
      ensures tmp'[a] !in order'
    {
      var b := if a < p then a else a + 1;
      assert tmp'[a] == tmp[b] && b != p;
    }
  }

  /** Taking an element out of an increasing sequence leaves it increasing. */
  lemma RemoveIncreasing(tmp: seq<nat>, p: nat)
    requires Increasing(tmp) && p < |tmp|
    ensures Increasing(RemoveAt(tmp, p))
  {
    var r := RemoveAt(tmp, p);
    forall a, b | 0 <= a < b < |r|
      ensures r[a] < r[b]
    {
      var a', b' := if a < p then a else a + 1, if b < p then b else b + 1;
      assert r[a] == tmp[a'] && r[b] == tmp[b'] && a' < b';
    }
  }

  /** Taking the element at `p` out of a sequence keeps every other value in it. */
  lemma RemoveKeepsOthers(tmp: seq<nat>, p: nat, x: nat)
    requires p < |tmp| && x in tmp && x != tmp[p]
    ensures x in RemoveAt(tmp, p)
  {
    var b :| 0 <= b < |tmp| && tmp[b] == x;
    if b < p {
      assert RemoveAt(tmp, p)[b] == x;
    } else {
      assert RemoveAt(tmp, p)[b - 1] == x;
    }
  }

  /** The position the `for chunk2 in tmp` loop returns holds the chunk `find_next_part` picks. */
  lemma CandidateChosen(sorted: seq<Chunk>, gap: int, tmp: seq<nat>, order: seq<nat>, cur: nat, p: nat)
    requires cur < |sorted| && p < |tmp| && Increasing(tmp) && Eligible(sorted, gap, order, cur, tmp[p])
    requires forall x :: 0 <= x < |sorted| && x !in order ==> x in tmp
    requires forall a :: 0 <= a < |tmp| && Eligible(sorted, gap, order, cur, tmp[a]) ==>
      Delta(sorted[cur], sorted[tmp[p]]) <= Delta(sorted[cur], sorted[tmp[a]])
      && (a < p ==> Delta(sorted[cur], sorted[tmp[p]]) < Delta(sorted[cur], sorted[tmp[a]]))
    ensures Chosen(sorted, gap, order, cur, tmp[p])
  {
    var j := tmp[p];
    forall x | 0 <= x < |sorted| && x !in order && Admissible(sorted[cur], sorted[x], gap)
      ensures Delta(sorted[cur], sorted[j]) <= Delta(sorted[cur], sorted[x])
      ensures x < j ==> Delta(sorted[cur], sorted[j]) < Delta(sorted[cur], sorted[x])
    {
      var b :| 0 <= b < |tmp| && tmp[b] == x;
      assert Eligible(sorted, gap, order, cur, tmp[b]);
    }
  }

  /** The chunk `find_next_part` picks continues the chain and leaves `tmp`. */
  lemma InnerSome(sorted: seq<Chunk>, gap: int, tmp: seq<nat>, i: nat, order: seq<nat>, result: seq<Chunk>, cur: nat, p: nat)
    requires Inner(sorted, gap, tmp, i, order, result) && cur == order[|order| - 1] && cur < |sorted|
    requires p < |tmp| && Eligible(sorted, gap, order, cur, tmp[p])
    requires forall a :: 0 <= a < |tmp| && Eligible(sorted, gap, order, cur, tmp[a]) ==>
      Delta(sorted[cur], sorted[tmp[p]]) <= Delta(sorted[cur], sorted[tmp[a]])
      && (a < p ==> Delta(sorted[cur], sorted[tmp[p]]) < Delta(sorted[cur], sorted[tmp[a]]))
    ensures i < p
    ensures Inner(sorted, gap, RemoveAt(tmp, p), i, order + [tmp[p]], result + [sorted[tmp[p]].(concat := true)])
  {
    var j := tmp[p];
    var order', result' := order + [j], result + [sorted[j].(concat := true)];
    RemoveKeepsTmp(sorted, tmp, i, order, p);
    StepsAppend(sorted, gap, order, result, j, sorted[j].(concat := true));
    CandidateChosen(sorted, gap, tmp, order, cur, p);
    var k := |order|;
    assert order'[..k] == order;
    assert StepOk(sorted, gap, order', result', k);
  }

  /**
   * `find_next_part(chunk)` with `chunk` the last chunk placed: follows the
   * chain from it, placing each continuation with `concat` set and taking it
   * out of `tmp`, until no chunk can continue the last one.
   */
  method FindNextPart(sorted: seq<Chunk>, gap: int, tmp: seq<nat>, i: nat, order: seq<nat>, result: seq<Chunk>, chunk: nat)
    returns (tmp': seq<nat>, order': seq<nat>, result': seq<Chunk>)
    requires Inner(sorted, gap, tmp, i, order, result) && chunk == order[|order| - 1]
    ensures Outer(sorted, gap, tmp', i + 1, order', result') && |tmp'| <= |tmp|
    decreases |tmp|
  {
    assert StepOk(sorted, gap, order, result, |order| - 1);
    var next := Candidate(sorted, gap, tmp, order, chunk);
    match next {
      case None =>
        InnerNone(sorted, gap, tmp, i, order, result, chunk);
        tmp', order', result' := tmp, order, result;
      case Some(p) =>
        var nextPart := tmp[p];
        InnerSome(sorted, gap, tmp, i, order, result, chunk, p);
        tmp', order', result' :=
          FindNextPart(sorted, gap, RemoveAt(tmp, p), i, order + [nextPart], result + [sorted[nextPart].(concat := true)], nextPart);
    }
  }

  /**
   * The linking loop of `sort` on the list already sorted by `clock_start`:
   * each chunk of `tmp` not yet taken starts a new entry with `concat`
   * cleared, followed by its chain.
   */
  method Link(sorted: seq<Chunk>, gap: int) returns (result: seq<Chunk>, order: seq<nat>)
    ensures Chained(sorted, gap, order, result)
  {
    var tmp: seq<nat> := seq(|sorted|, x => x);
    var placed: seq<nat> := [];
    result := [];
    forall x | 0 <= x < |sorted|
      ensures x in tmp
    {
      assert tmp[x] == x;
    }
    var i := 0;
    while i < |tmp|
      invariant Outer(sorted, gap, tmp, i, placed, result)
      decreases |tmp| - i
    {
      var chunk := tmp[i];
      OuterVisit(sorted, gap, tmp, i, placed, result);
      tmp, placed, result :=
        FindNextPart(sorted, gap, tmp, i, placed + [chunk], result + [sorted[chunk].(concat := false)], chunk);
      i := i + 1;
    }
    order := placed;
  }

  // ---------------------------------------------------------------------------
  // What the linked list is
  // ---------------------------------------------------------------------------

  lemma ChosenUnique(sorted: seq<Chunk>, gap: int, placed: seq<nat>, cur: nat, j1: nat, j2: nat)
    requires cur < |sorted|
    requires Chosen(sorted, gap, placed, cur, j1) && Chosen(sorted, gap, placed, cur, j2)
    ensures j1 == j2
  {
  }

  lemma LeastUnique(placed: seq<nat>, j1: nat, j2: nat)
    requires Least(placed, j1) && Least(placed, j2)
    ensures j1 == j2
  {
  }

  /** Two linked lists of the same sorted list agree entry by entry as far as both go. */
  lemma {:induction false} ChainedPrefix(sorted: seq<Chunk>, gap: int, o1: seq<nat>, r1: seq<Chunk>,
                                         o2: seq<nat>, r2: seq<Chunk>, k: nat)
    requires Chained(sorted, gap, o1, r1) && Chained(sorted, gap, o2, r2)
    requires k <= |o1| && k <= |o2|
    ensures o1[..k] == o2[..k] && r1[..k] == r2[..k]
  {
    if k > 0 {
      var m := k - 1;
      ChainedPrefix(sorted, gap, o1, r1, o2, r2, m);
      assert StepOk(sorted, gap, o1, r1, m) && StepOk(sorted, gap, o2, r2, m);
      if m > 0 {
        assert o1[m - 1] == o1[..m][m - 1] == o2[..m][m - 1] == o2[m - 1];
      }
      if m > 0 && HasCandidate(sorted, gap, o1[..m], o1[m - 1]) {
        ChosenUnique(sorted, gap, o1[..m], o1[m - 1], o1[m], o2[m]);
      } else {
        LeastUnique(o1[..m], o1[m], o2[m]);
      }
      assert o1[..k] == o1[..m] + [o1[m]] && o2[..k] == o2[..m] + [o2[m]];
      assert r1[..k] == r1[..m] + [r1[m]] && r2[..k] == r2[..m] + [r2[m]];
    }
  }

  /** `sort` has one possible outcome: the linked list of a sorted list is unique. */
  lemma ChainedUnique(sorted: seq<Chunk>, gap: int, o1: seq<nat>, r1: seq<Chunk>, o2: seq<nat>, r2: seq<Chunk>)
    requires Chained(sorted, gap, o1, r1) && Chained(sorted, gap, o2, r2)
    ensures o1 == o2 && r1 == r2
  {
    ChainedPermutation(sorted, gap, o1, r1);
    ChainedPermutation(sorted, gap, o2, r2);
    ChainedPrefix(sorted, gap, o1, r1, o2, r2, |o1|);
    assert o1[..|o1|] == o1 && o2[..|o2|] == o2;
    assert r1[..|r1|] == r1 && r2[..|r2|] == r2;
  }

  /**
   * Each entry marked `concat` continues the entry before it: it starts no
   * earlier than that one ends and at most `gap` later.  The first entry is
   * the first chunk of the sorted list and starts a recording.
   */
  lemma ChainedLinks(sorted: seq<Chunk>, gap: int, order: seq<nat>, result: seq<Chunk>)
    requires Chained(sorted, gap, order, result)
    ensures forall k :: 0 <= k < |result| && result[k].concat ==> k > 0 && Admissible(result[k - 1], result[k], gap)
    ensures |result| > 0 ==> |sorted| > 0 && order[0] == 0 && result[0] == sorted[0].(concat := false)
  {
    forall k | 0 <= k < |result| && result[k].concat
      ensures k > 0 && Admissible(result[k - 1], result[k], gap)
    {
      assert StepOk(sorted, gap, order, result, k);
      assert StepOk(sorted, gap, order, result, k - 1);
    }
    if |result| > 0 {
      assert StepOk(sorted, gap, order, result, 0);
      assert 0 !in order[..0];
    }
  }

  function Members(o: seq<nat>): set<nat>
  {
    set x | x in o
  }

  lemma {:induction false} DistinctMembers(o: seq<nat>)
    requires forall a, b :: 0 <= a < b < |o| ==> o[a] != o[b]
    ensures |Members(o)| == |o|
  {
    if o != [] {
      var m := |o| - 1;
      DistinctMembers(o[..m]);
      assert Members(o) == Members(o[..m]) + {o[m]};
    }
  }

  /**
   * The linked list holds every chunk of the sorted list exactly once, with
   * only its `concat` flag changed.
   */
  lemma ChainedPermutation(sorted: seq<Chunk>, gap: int, order: seq<nat>, result: seq<Chunk>)
    requires Chained(sorted, gap, order, result)
    ensures |result| == |sorted|
    ensures forall a, b :: 0 <= a < b < |order| ==> order[a] != order[b]
    ensures forall k :: 0 <= k < |order| ==> order[k] < |sorted| && result[k].(concat := sorted[order[k]].concat) == sorted[order[k]]
  {
    forall a, b | 0 <= a < b < |order|
      ensures order[a] != order[b]
    {
      assert StepOk(sorted, gap, order, result, b);
      assert order[a] in order[..b];
    }
    forall k | 0 <= k < |order|
      ensures order[k] < |sorted| && result[k].(concat := sorted[order[k]].concat) == sorted[order[k]]
    {
      assert StepOk(sorted, gap, order, result, k);
    }
    var all: seq<nat> := seq(|sorted|, x => x);
    DistinctMembers(order);
    DistinctMembers(all);
    forall x | x in Members(all)
      ensures x in Members(order)
    {
      assert x == all[x];
    }
    forall x | x in Members(order)
      ensures x in Members(all)
    {
      assert x == all[x];
    }
    assert Members(order) == Members(all);
  }
}

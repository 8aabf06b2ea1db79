/**
 * The block scanner of the C tool (analysis.c): `analyze_stream` reads the
 * input one block at a time, extracts the pack-header timestamp of each
 * block, and groups runs of blocks into fragments; `merge_fragments` is the
 * unfinished linking step.
 *
 * The scan is specified on the sequence of per-block clocks (`None` for a
 * block without a valid pack header) by the fold `Run`; `SegmentShape`
 * characterises its result independently of the fold. Both are stated for
 * any cut relation on clocks; the scanner's is `CutsOf(rule)`, with the C
 * code's timestamp difference, which can drop a borrow, or the corrected
 * one, which `ByteCutIsJump` shows to cut exactly at a jump.
 */
module Analysis {
  import opened Wrappers
  import opened Bits
  import opened PackHeader
  import opened MpegTime
  import opened DoublyLinkedList

  /** `struct mpeg_fragment` with its two timestamps as clock values. */
  datatype Span = Span(blockStart: nat, blockSize: nat, clockStart: nat, clockEnd: nat)
  {
    function End(): nat { blockStart + blockSize }
  }

  /** A fragment that has been started but not yet ended. */
  datatype Open = Open(start: nat, clock: nat)

  /**
   * The scanner's variables after some blocks: the fragments appended to the
   * result list, the current fragment (NULL as `None`) and `time_old`, the
   * timestamp of the previous block (NULL as `None`).
   */
  datatype Scan = Scan(done: seq<Span>, open: Option<Open>, prev: Option<nat>)

  /** A clock step a scanner should refuse to bridge: backwards, or forwards by more than `gap`. */
  predicate Jump(prev: nat, cur: nat, gap: nat)
  {
    cur < prev || cur - prev > gap
  }

  /**
   * How the scanner subtracts two timestamps: with `mpeg_timestamp_diff` as
   * written, or with the borrow carried through every byte.
   */
  datatype Subtraction = AsWritten | Corrected

  /** The scanner's parameters: its subtraction and the maximal gap `max_gap`. */
  datatype Rule = Rule(sub: Subtraction, gap: nat)

  /** The scanner cuts between clocks `prev` and `cur`: its test on their five-byte timestamps fires. */
  predicate Cuts(prev: nat, cur: nat, rule: Rule)
  {
    ByteCut(rule.sub, ToBytes(cur, Width), ToBytes(prev, Width), ToBytes(rule.gap, Width))
  }

  /**
   * The cut test of `rule` as a relation on clocks. The scan below is stated
   * for any such relation `cuts`: `cuts(prev, cur)` says the scanner ends the
   * fragment between a block with clock `prev` and the next with clock `cur`.
   */
  function CutsOf(rule: Rule): (nat, nat) -> bool
  {
    (prev: nat, cur: nat) => Cuts(prev, cur, rule)
  }

  /** The scanner's variables are consistent with `n` blocks read. */
  predicate Ready(s: Scan, n: nat)
  {
    s.open.Some? ==> s.open.value.start < n && s.prev.Some?
  }

  /** The fragments after ending the current one, if any, before block `b`. */
  function Close(s: Scan, b: nat): seq<Span>
    requires Ready(s, b)
  {
    if s.open.Some? then
      s.done + [Span(s.open.value.start, b - s.open.value.start, s.open.value.clock, s.prev.value)]
    else s.done
  }

  /** The loop body of `analyze_stream` for block `b`, whose timestamp is `clock`. */
  function Step(s: Scan, b: nat, clock: Option<nat>, cuts: (nat, nat) -> bool): (s': Scan)
    requires Ready(s, b)
    ensures Ready(s', b + 1) && s'.prev == clock
  {
    match clock
    case Some(c) =>
      if s.open.None? || cuts(s.prev.value, c) then
        Scan(Close(s, b), Some(Open(b, c)), clock)
      else
        s.(prev := clock)
    case None =>
      Scan(Close(s, b), None, None)
  }

  /** The scanner's variables after the first `n` blocks. */
  function Run(clocks: seq<Option<nat>>, n: nat, cuts: (nat, nat) -> bool): (s: Scan)
    requires n <= |clocks|
    ensures Ready(s, n)
  {
    if n == 0 then Scan([], None, None)
    else Step(Run(clocks, n - 1, cuts), n - 1, clocks[n - 1], cuts)
  }

  /** The fragments of the whole input: the scan, then the fragment still open at the end. */
  function Segment(clocks: seq<Option<nat>>, cuts: (nat, nat) -> bool): seq<Span>
  {
    Close(Run(clocks, |clocks|, cuts), |clocks|)
  }

  /** Blocks `k` and `k + 1` both have a header and the scanner does not cut between them. */
  predicate Continues(clocks: seq<Option<nat>>, cuts: (nat, nat) -> bool, k: nat)
    requires k + 1 < |clocks|
  {
    clocks[k].Some? && clocks[k + 1].Some? && !cuts(clocks[k].value, clocks[k + 1].value)
  }

  /** Every block of `sp` has a header, and the scanner cuts between none of them. */
  predicate Fits(clocks: seq<Option<nat>>, cuts: (nat, nat) -> bool, sp: Span)
  {
    0 < sp.blockSize && sp.End() <= |clocks|
    && (forall k :: sp.blockStart <= k < sp.End() ==> clocks[k].Some?)
    && (forall k :: sp.blockStart <= k < sp.End() - 1 ==> Continues(clocks, cuts, k))
    && clocks[sp.blockStart] == Some(sp.clockStart)
    && clocks[sp.End() - 1] == Some(sp.clockEnd)
  }

  /** A fragment may begin at block `b`: the input starts there, or it follows a headerless block or a cut. */
  predicate StartsAt(clocks: seq<Option<nat>>, cuts: (nat, nat) -> bool, b: nat)
    requires b < |clocks|
  {
    b == 0 || !Continues(clocks, cuts, b - 1)
  }

  /** A fragment may end before block `e`: the input ends there, or a headerless block or a cut follows. */
  predicate EndsAt(clocks: seq<Option<nat>>, cuts: (nat, nat) -> bool, e: nat)
    requires 0 < e <= |clocks|
  {
    e == |clocks| || !Continues(clocks, cuts, e - 1)
  }

  /** Block `b` lies inside fragment `i`. */
  predicate Covers(spans: seq<Span>, i: nat, b: nat)
    requires i < |spans|
  {
    spans[i].blockStart <= b < spans[i].End()
  }

  /** A fragment is a maximal run of continuous header blocks. */
  predicate SpanOk(clocks: seq<Option<nat>>, cuts: (nat, nat) -> bool, sp: Span)
  {
    Fits(clocks, cuts, sp) && StartsAt(clocks, cuts, sp.blockStart) && EndsAt(clocks, cuts, sp.End())
  }

  /** Fragments follow each other in block order without overlapping. */
  predicate Ordered(spans: seq<Span>)
  {
    forall i, j :: 0 <= i < j < |spans| ==> spans[i].End() <= spans[j].blockStart
  }

  /** The fragments appended to the result after `n` blocks. */
  predicate DoneOk(clocks: seq<Option<nat>>, cuts: (nat, nat) -> bool, n: nat, done: seq<Span>)
  {
    (forall i :: 0 <= i < |done| ==> SpanOk(clocks, cuts, done[i]) && done[i].End() < n)
    && Ordered(done)
  }

  /** `time_old` is the previous block's timestamp, and a header block leaves a fragment open. */
  predicate PrevOk(clocks: seq<Option<nat>>, n: nat, s: Scan)
    requires n <= |clocks|
  {
    s.prev == (if n == 0 then None else clocks[n - 1])
    && (n > 0 && clocks[n - 1].Some? ==> s.open.Some?)
  }

  /** The current fragment runs continuously from a possible start up to the last block read. */
  predicate OpenOk(clocks: seq<Option<nat>>, cuts: (nat, nat) -> bool, n: nat, s: Scan)
  {
    s.open.Some? ==>
      var o := s.open.value;
      o.start < n && s.prev.Some?
      && Fits(clocks, cuts, Span(o.start, n - o.start, o.clock, s.prev.value))
      && StartsAt(clocks, cuts, o.start)
      && (forall i :: 0 <= i < |s.done| ==> s.done[i].End() <= o.start)
  }

  /** Every header block before `n` lies in an appended fragment or in the current one. */
  predicate Covered(clocks: seq<Option<nat>>, n: nat, s: Scan)
    requires n <= |clocks|
  {
    forall b :: 0 <= b < n && clocks[b].Some? ==>
      (exists i :: 0 <= i < |s.done| && Covers(s.done, i, b))
      || (s.open.Some? && s.open.value.start <= b)
  }

  /** The invariant of the scan after `n` blocks. */
  predicate Inv(clocks: seq<Option<nat>>, cuts: (nat, nat) -> bool, n: nat, s: Scan)
    requires n <= |clocks|
  {
    DoneOk(clocks, cuts, n, s.done) && PrevOk(clocks, n, s) && OpenOk(clocks, cuts, n, s) && Covered(clocks, n, s)
  }

  /** Ending the current fragment before block `n` appends a maximal run after the others. */
  lemma CloseOk(clocks: seq<Option<nat>>, cuts: (nat, nat) -> bool, n: nat, s: Scan)
    requires n <= |clocks| && Ready(s, n) && DoneOk(clocks, cuts, n, s.done) && OpenOk(clocks, cuts, n, s)
    requires s.open.Some? && n < |clocks| ==> !Continues(clocks, cuts, n - 1)
    ensures DoneOk(clocks, cuts, n + 1, Close(s, n))
    ensures forall i :: 0 <= i < |Close(s, n)| ==> Close(s, n)[i].End() <= n
  {
    if s.open.Some? {
      var o := s.open.value;
      var sp := Span(o.start, n - o.start, o.clock, s.prev.value);
      assert SpanOk(clocks, cuts, sp) by {
        assert Fits(clocks, cuts, sp) && StartsAt(clocks, cuts, o.start);
      }
      AppendDone(clocks, cuts, n, s.done, sp);
    } else {
      DoneGrow(clocks, cuts, n, s.done);
    }
  }

  /** A maximal run ending at block `n` and starting after the others extends the result. */
  lemma AppendDone(clocks: seq<Option<nat>>, cuts: (nat, nat) -> bool, n: nat, done: seq<Span>, sp: Span)
    requires DoneOk(clocks, cuts, n, done) && SpanOk(clocks, cuts, sp) && sp.End() == n
    requires forall i :: 0 <= i < |done| ==> done[i].End() <= sp.blockStart
    ensures DoneOk(clocks, cuts, n + 1, done + [sp])
    ensures forall i :: 0 <= i < |done + [sp]| ==> (done + [sp])[i].End() <= n
  {
    var d := done + [sp];
    forall i | 0 <= i < |d|
      ensures SpanOk(clocks, cuts, d[i]) && d[i].End() <= n
    {
      if i < |done| {
        assert d[i] == done[i];
      }
    }
    forall i, j | 0 <= i < j < |d|
      ensures d[i].End() <= d[j].blockStart
    {
      assert d[i] == done[i];
      if j < |done| {
        assert d[j] == done[j];
      }
    }
  }

  /** The appended fragments stay valid when one more block is read. */
  lemma DoneGrow(clocks: seq<Option<nat>>, cuts: (nat, nat) -> bool, n: nat, done: seq<Span>)
    requires DoneOk(clocks, cuts, n, done)
    ensures DoneOk(clocks, cuts, n + 1, done)
    ensures forall i :: 0 <= i < |done| ==> done[i].End() <= n
  {
  }

  /** Ending the current fragment keeps every header block read so far inside a fragment. */
  lemma CloseCovers(clocks: seq<Option<nat>>, cuts: (nat, nat) -> bool, n: nat, s: Scan)
    requires n <= |clocks| && Ready(s, n) && Inv(clocks, cuts, n, s)
    ensures forall b :: 0 <= b < n && clocks[b].Some? ==>
      exists i :: 0 <= i < |Close(s, n)| && Covers(Close(s, n), i, b)
  {
    var d := Close(s, n);
    forall b | 0 <= b < n && clocks[b].Some?
      ensures exists i :: 0 <= i < |d| && Covers(d, i, b)
    {
      if s.open.Some? && s.open.value.start <= b {
        assert Covers(d, |s.done|, b);
      } else {
        var i :| 0 <= i < |s.done| && Covers(s.done, i, b);
        assert Covers(d, i, b);
      }
    }
  }

  /** Block `n` opens a new fragment. */
  lemma StepCutInv(clocks: seq<Option<nat>>, cuts: (nat, nat) -> bool, n: nat, s: Scan, c: nat)
    requires n < |clocks| && Ready(s, n) && Inv(clocks, cuts, n, s)
    requires clocks[n] == Some(c) && (s.open.None? || cuts(s.prev.value, c))
    ensures Inv(clocks, cuts, n + 1, Scan(Close(s, n), Some(Open(n, c)), Some(c)))
  {
    CutStarts(clocks, cuts, n, s, c);
    CloseOk(clocks, cuts, n, s);
    CloseCovers(clocks, cuts, n, s);
    CutOpenOk(clocks, cuts, n, Close(s, n), c);
    CutCovered(clocks, n, Close(s, n), c);
  }

  /** The fragment opened at block `n` runs continuously up to it and starts after the others. */
  lemma CutOpenOk(clocks: seq<Option<nat>>, cuts: (nat, nat) -> bool, n: nat, done: seq<Span>, c: nat)
    requires n < |clocks| && clocks[n] == Some(c) && StartsAt(clocks, cuts, n)
    requires forall i :: 0 <= i < |done| ==> done[i].End() <= n
    ensures OpenOk(clocks, cuts, n + 1, Scan(done, Some(Open(n, c)), Some(c)))
  {
    assert Fits(clocks, cuts, Span(n, 1, c, c));
  }

  /** With the header blocks before `n` in appended fragments, the fragment opened at `n` covers the rest. */
  lemma CutCovered(clocks: seq<Option<nat>>, n: nat, done: seq<Span>, c: nat)
    requires n < |clocks| && clocks[n] == Some(c)
    requires forall b :: 0 <= b < n && clocks[b].Some? ==> exists i :: 0 <= i < |done| && Covers(done, i, b)
    ensures Covered(clocks, n + 1, Scan(done, Some(Open(n, c)), Some(c)))
  {
  }

  /** A block that opens a new fragment may begin one. */
  lemma CutStarts(clocks: seq<Option<nat>>, cuts: (nat, nat) -> bool, n: nat, s: Scan, c: nat)
    requires n < |clocks| && Ready(s, n) && PrevOk(clocks, n, s)
    requires clocks[n] == Some(c) && (s.open.None? || cuts(s.prev.value, c))
    ensures StartsAt(clocks, cuts, n)
    ensures s.open.Some? && n < |clocks| ==> !Continues(clocks, cuts, n - 1)
  {
  }

  /** Block `n` continues the current fragment. */
  lemma StepExtendInv(clocks: seq<Option<nat>>, cuts: (nat, nat) -> bool, n: nat, s: Scan, c: nat)
    requires n < |clocks| && Ready(s, n) && Inv(clocks, cuts, n, s)
    requires clocks[n] == Some(c) && s.open.Some? && s.prev.Some? && !cuts(s.prev.value, c)
    ensures Inv(clocks, cuts, n + 1, s.(prev := Some(c)))
  {
    var o := s.open.value;
    DoneGrow(clocks, cuts, n, s.done);
    ExtendFits(clocks, cuts, Span(o.start, n - o.start, o.clock, s.prev.value), c);
    ExtendCovered(clocks, n, s, c);
  }

  /** A run followed by a header block the scanner does not cut before grows by that block. */
  lemma ExtendFits(clocks: seq<Option<nat>>, cuts: (nat, nat) -> bool, sp: Span, c: nat)
    requires Fits(clocks, cuts, sp) && sp.End() < |clocks| && clocks[sp.End()] == Some(c)
    requires !cuts(sp.clockEnd, c)
    ensures Fits(clocks, cuts, Span(sp.blockStart, sp.blockSize + 1, sp.clockStart, c))
  {
    assert Continues(clocks, cuts, sp.End() - 1);
  }

  /** Block `n` joins the current fragment, so every header block up to it stays covered. */
  lemma ExtendCovered(clocks: seq<Option<nat>>, n: nat, s: Scan, c: nat)
    requires n < |clocks| && Covered(clocks, n, s) && s.open.Some? && s.open.value.start <= n
    ensures Covered(clocks, n + 1, s.(prev := Some(c)))
  {
  }

  /** A block without a header ends the current fragment. */
  lemma StepGapInv(clocks: seq<Option<nat>>, cuts: (nat, nat) -> bool, n: nat, s: Scan)
    requires n < |clocks| && Ready(s, n) && Inv(clocks, cuts, n, s) && clocks[n].None?
    ensures Inv(clocks, cuts, n + 1, Scan(Close(s, n), None, None))
  {
    var t := Scan(Close(s, n), None, None);
    CloseOk(clocks, cuts, n, s);
    assert Covered(clocks, n + 1, t) by {
      CloseCovers(clocks, cuts, n, s);
      forall b | 0 <= b < n + 1 && clocks[b].Some?
        ensures exists i :: 0 <= i < |t.done| && Covers(t.done, i, b)
      {
        assert b < n;
      }
    }
    assert PrevOk(clocks, n + 1, t);
  }

  lemma StepInv(clocks: seq<Option<nat>>, cuts: (nat, nat) -> bool, n: nat, s: Scan)
    requires n < |clocks| && Ready(s, n) && Inv(clocks, cuts, n, s)
    ensures Inv(clocks, cuts, n + 1, Step(s, n, clocks[n], cuts))
  {
    match clocks[n]
    case Some(c) =>
      if s.open.None? || s.prev.None? || cuts(s.prev.value, c) {
        StepCutInv(clocks, cuts, n, s, c);
      } else {
        StepExtendInv(clocks, cuts, n, s, c);
      }
    case None =>
      StepGapInv(clocks, cuts, n, s);
  }

  lemma RunStep(clocks: seq<Option<nat>>, cuts: (nat, nat) -> bool, n: nat)
    requires 0 < n <= |clocks| && Inv(clocks, cuts, n - 1, Run(clocks, n - 1, cuts))
    ensures Inv(clocks, cuts, n, Run(clocks, n, cuts))
  {
    StepInv(clocks, cuts, n - 1, Run(clocks, n - 1, cuts));
  }

  /** The invariant holds after every prefix of the input. */
  lemma {:induction false} RunInv(clocks: seq<Option<nat>>, cuts: (nat, nat) -> bool, n: nat)
    requires n <= |clocks|
    ensures Inv(clocks, cuts, n, Run(clocks, n, cuts))
  {
    if n > 0 {
      RunInv(clocks, cuts, n - 1);
      RunStep(clocks, cuts, n);
    }
  }

  /**
   * The fragments are exactly the maximal runs of header blocks without a
   * cut: each one is such a run, they are in block order, and every block
   * with a header lies in one of them.
   */
  lemma SegmentShape(clocks: seq<Option<nat>>, cuts: (nat, nat) -> bool)
    ensures var spans := Segment(clocks, cuts);
      (forall i :: 0 <= i < |spans| ==> SpanOk(clocks, cuts, spans[i]))
      && Ordered(spans)
      && (forall b :: 0 <= b < |clocks| && clocks[b].Some? ==>
            exists i :: 0 <= i < |spans| && Covers(spans, i, b))
  {
    RunInv(clocks, cuts, |clocks|);
    CloseOk(clocks, cuts, |clocks|, Run(clocks, |clocks|, cuts));
    CloseCovers(clocks, cuts, |clocks|, Run(clocks, |clocks|, cuts));
  }

  /** The clocks of consecutive header blocks with timestamps `vals`. */
  function Headers(vals: seq<nat>): seq<Option<nat>>
  {
    seq(|vals|, i requires 0 <= i < |vals| => Some(vals[i]))
  }

  /** The clocks of `k` consecutive blocks without a header. */
  function Headerless(k: nat): seq<Option<nat>>
  {
    seq(k, i => None)
  }

  /** Starting from clock `p`, each value of `vals` continues from the one before it. */
  predicate Steady(p: nat, vals: seq<nat>, cuts: (nat, nat) -> bool)
    decreases |vals|
  {
    |vals| > 0 ==> !cuts(p, vals[0]) && Steady(vals[0], vals[1..], cuts)
  }

  /** The last of `p` followed by `vals`. */
  function Last(p: nat, vals: seq<nat>): nat
  {
    if vals == [] then p else vals[|vals| - 1]
  }

  /** Header blocks that continue the current fragment only move `time_old` along. */
  lemma {:induction false} RunSteady(clocks: seq<Option<nat>>, cuts: (nat, nat) -> bool, n: nat, vals: seq<nat>)
    requires n + |vals| <= |clocks| && clocks[n..n + |vals|] == Headers(vals)
    requires var s := Run(clocks, n, cuts); s.open.Some? && Steady(s.prev.value, vals, cuts)
    ensures var s := Run(clocks, n, cuts);
      Run(clocks, n + |vals|, cuts) == s.(prev := Some(Last(s.prev.value, vals)))
    decreases |vals|
  {
    if |vals| > 0 {
      HeadersFirst(clocks, n, vals);
      var s := Run(clocks, n, cuts);
      RunContinues(clocks, cuts, n, vals[0]);
      assert Steady(vals[0], vals[1..], cuts);
      RunSteady(clocks, cuts, n + 1, vals[1..]);
      assert Last(vals[0], vals[1..]) == Last(s.prev.value, vals);
    }
  }

  /** Header blocks with timestamps `vals` start with the first of them, and the rest follow. */
  lemma HeadersFirst(clocks: seq<Option<nat>>, n: nat, vals: seq<nat>)
    requires 0 < |vals| && n + |vals| <= |clocks| && clocks[n..n + |vals|] == Headers(vals)
    ensures clocks[n] == Some(vals[0]) && clocks[n + 1..n + |vals|] == Headers(vals[1..])
  {
    assert clocks[n] == clocks[n..n + |vals|][0];
    assert clocks[n + 1..n + |vals|] == clocks[n..n + |vals|][1..];
  }

  /** A header block the scanner does not cut before only moves `time_old` along. */
  lemma RunContinues(clocks: seq<Option<nat>>, cuts: (nat, nat) -> bool, n: nat, c: nat)
    requires n < |clocks| && clocks[n] == Some(c)
    requires var s := Run(clocks, n, cuts); s.open.Some? && !cuts(s.prev.value, c)
    ensures Run(clocks, n + 1, cuts) == Run(clocks, n, cuts).(prev := Some(c))
  {
  }

  /** A block without a header ends the current fragment, and the ones after it change nothing. */
  lemma {:induction false} RunHeaderless(clocks: seq<Option<nat>>, cuts: (nat, nat) -> bool, n: nat, k: nat)
    requires 0 < k && n + k <= |clocks| && clocks[n..n + k] == Headerless(k)
    ensures Run(clocks, n + k, cuts) == Scan(Close(Run(clocks, n, cuts), n), None, None)
    decreases k
  {
    assert clocks[n + k - 1] == clocks[n..n + k][k - 1];
    if k > 1 {
      assert clocks[n..n + k - 1] == clocks[n..n + k][..k - 1];
      RunHeaderless(clocks, cuts, n, k - 1);
    }
  }

  /** The number of distinct 33-bit clock values. */
  const ClockRange: nat := 0x2_0000_0000

  lemma ClockRangeIsPow2()
    ensures Pow2(33) == ClockRange
  {
    assert Pow2(8) == 256;
    Pow2Add(8, 8);
    assert Pow2(16) == 0x1_0000;
    Pow2Add(16, 16);
    assert Pow2(32) == 0x1_0000_0000;
    Pow2Add(32, 1);
  }

  /** Every clock fits in 33 bits. */
  predicate InRange(clocks: seq<Option<nat>>)
  {
    forall b :: 0 <= b < |clocks| && clocks[b].Some? ==> clocks[b].value < ClockRange
  }

  lemma HeaderClockInRange(block: seq<bv8>)
    requires |block| >= HeaderLength
    ensures MpegHeader(block).Some? ==> MpegHeader(block).value < ClockRange
  {
    ClockRangeIsPow2();
  }

  // ---------------------------------------------------------------------------
  // From the input stream to the clocks of its blocks
  // ---------------------------------------------------------------------------

  /** The whole blocks of the stream, in order; a trailing partial block is not read. */
  function Blocks(stream: seq<bv8>, blocksize: nat): (blocks: seq<seq<bv8>>)
    requires 0 < blocksize
    ensures forall b :: 0 <= b < |blocks| ==> |blocks[b]| == blocksize
    decreases |stream|
  {
    if |stream| < blocksize then []
    else [stream[..blocksize]] + Blocks(stream[blocksize..], blocksize)
  }

  /** The stream holds `|stream| / blocksize` whole blocks. */
  lemma {:induction false} BlocksLength(stream: seq<bv8>, blocksize: nat)
    requires 0 < blocksize
    ensures |Blocks(stream, blocksize)| == |stream| / blocksize
    decreases |stream|
  {
    if |stream| < blocksize {
      DivModUnique(|stream|, blocksize, 0, |stream|);
    } else {
      var rest := stream[blocksize..];
      BlocksLength(rest, blocksize);
      DivModUnique(|stream|, blocksize, |rest| / blocksize + 1, |rest| % blocksize);
    }
  }

  lemma BlockOffset(b: nat, blocksize: nat)
    requires b > 0
    ensures b * blocksize == (b - 1) * blocksize + blocksize
  {
  }

  lemma SliceOfRest(stream: seq<bv8>, k: nat, lo: nat, hi: nat)
    requires k <= |stream| && lo <= hi <= |stream| - k
    ensures stream[k..][lo..hi] == stream[lo + k..hi + k]
  {
  }

  /** Block `b` is the `blocksize` bytes at offset `b * blocksize` of the stream. */
  lemma {:induction false} BlockAt(stream: seq<bv8>, blocksize: nat, b: nat)
    requires 0 < blocksize && b < |Blocks(stream, blocksize)|
    ensures var lo := b * blocksize;
      lo + blocksize <= |stream| && Blocks(stream, blocksize)[b] == stream[lo..lo + blocksize]
  {
    if b > 0 {
      var rest := stream[blocksize..];
      BlockAt(rest, blocksize, b - 1);
      var lo := (b - 1) * blocksize;
      BlockOffset(b, blocksize);
      SliceOfRest(stream, blocksize, lo, lo + blocksize);
    }
  }

  /** The clock of every whole block, `None` where the block does not start with a valid pack header. */
  function Clocks(stream: seq<bv8>, blocksize: nat): (clocks: seq<Option<nat>>)
    requires HeaderLength <= blocksize
    ensures |clocks| == |Blocks(stream, blocksize)| && InRange(clocks)
    ensures forall b :: 0 <= b < |clocks| ==> clocks[b] == MpegHeader(Blocks(stream, blocksize)[b])
  {
    var blocks := Blocks(stream, blocksize);
    ClockRangeIsPow2();
    seq(|blocks|, b requires 0 <= b < |blocks| => MpegHeader(blocks[b]))
  }

  // ---------------------------------------------------------------------------
  // The cut test on five-byte timestamps
  // ---------------------------------------------------------------------------

  /** Five bytes hold every clock. */
  lemma WidthHoldsClocks()
    ensures Pow256(Width) == 0x100_0000_0000
  {
    assert Pow256(2) == 0x1_0000;
  }

  /** A clock of at most 33 bits survives its conversion to five bytes. */
  lemma ClockBytes(c: nat)
    requires c < ClockRange
    ensures Value(ToBytes(c, Width)) == c
  {
    WidthHoldsClocks();
    ValueOfToBytes(c, Width);
  }

  /** The difference of two timestamps under subtraction `sub`. */
  function TimeDiff(sub: Subtraction, t1: seq<uint8>, t2: seq<uint8>): (d: seq<uint8>)
    requires |t1| == Width && |t2| == Width
    ensures |d| == Width
  {
    match sub
    case AsWritten => DiffAsWritten(t1, t2)
    case Corrected => ExactDiff(t1, t2)
  }

  /**
   * The test of `analyze_stream`: cut when the current timestamp is below the
   * previous one, or when their difference exceeds the maximal gap.
   */
  predicate ByteCut(sub: Subtraction, cur: seq<uint8>, prev: seq<uint8>, maxGap: seq<uint8>)
    requires |cur| == Width && |prev| == Width && |maxGap| == Width
  {
    Compare(cur, prev) < 0 || Compare(TimeDiff(sub, cur, prev), maxGap) > 0
  }

  /** With the corrected subtraction, the cut test on 33-bit clocks is exactly a jump. */
  lemma ByteCutIsJump(cur: nat, prev: nat, gap: nat)
    requires cur < ClockRange && prev < ClockRange && gap < 0x1_0000_0000
    ensures Cuts(prev, cur, Rule(Corrected, gap)) <==> Jump(prev, cur, gap)
  {
    var tc, tp, tg := ToBytes(cur, Width), ToBytes(prev, Width), ToBytes(gap, Width);
    WidthHoldsClocks();
    ClockBytes(cur);
    ClockBytes(prev);
    ClockBytes(gap);
    CompareIsValueOrder(tc, tp);
    CompareIsValueOrder(ExactDiff(tc, tp), tg);
  }

  /**
   * With the default gap of 90000 ticks, clocks 0x101 and 0x10100 are 65535
   * ticks apart, yet the test as written cuts there: its difference reads
   * 131071.
   */
  lemma ByteCutAsWrittenCounterexample()
    ensures !Jump(0x101, 0x10100, 90000) && !Cuts(0x101, 0x10100, Rule(Corrected, 90000))
    ensures Cuts(0x101, 0x10100, Rule(AsWritten, 90000))
  {
    CounterexampleBytes();
    DiffAsWrittenCounterexample();
    CompareIsValueOrder([0x00, 0x00, 0x01, 0xFF, 0xFF], [0x00, 0x00, 0x01, 0x5F, 0x90]);
    ValueOfFive([0x00, 0x00, 0x01, 0x5F, 0x90]);
    ClockRangeIsPow2();
    ByteCutIsJump(0x10100, 0x101, 90000);
  }

  lemma CounterexampleBytes()
    ensures ToBytes(0x10100, Width) == [0x00, 0x00, 0x01, 0x01, 0x00]
    ensures ToBytes(0x101, Width) == [0x00, 0x00, 0x00, 0x01, 0x01]
    ensures ToBytes(90000, Width) == [0x00, 0x00, 0x01, 0x5F, 0x90]
  {
    ValueOfFive([0x00, 0x00, 0x01, 0x01, 0x00]);
    ValueOfFive([0x00, 0x00, 0x00, 0x01, 0x01]);
    ValueOfFive([0x00, 0x00, 0x01, 0x5F, 0x90]);
    ToBytesOfValue([0x00, 0x00, 0x01, 0x01, 0x00]);
    ToBytesOfValue([0x00, 0x00, 0x00, 0x01, 0x01]);
    ToBytesOfValue([0x00, 0x00, 0x01, 0x5F, 0x90]);
  }

  // ---------------------------------------------------------------------------
  // analyze_stream
  // ---------------------------------------------------------------------------

  /** `struct mpeg_fragment`: a block range and its first and last timestamp. */
  datatype Fragment = Fragment(blockStart: nat, blockSize: nat, timeStart: seq<uint8>, timeEnd: seq<uint8>)

  /** The fragment `analyze_stream` stores for a span of the specification. */
  function AsFragment(sp: Span): Fragment
  {
    Fragment(sp.blockStart, sp.blockSize, ToBytes(sp.clockStart, Width), ToBytes(sp.clockEnd, Width))
  }

  function AsFragments(spans: seq<Span>): (r: seq<Fragment>)
    ensures |r| == |spans| && forall i :: 0 <= i < |spans| ==> r[i] == AsFragment(spans[i])
  {
    seq(|spans|, i requires 0 <= i < |spans| => AsFragment(spans[i]))
  }

  /** The bytes of a timestamp, `None` for NULL. */
  function Stamp(time: array?<uint8>): Option<seq<uint8>>
    reads time
  {
    if time == null then None else Some(time[..])
  }

  /** The five bytes of a clock, `None` for no clock. */
  function StampOf(clock: Option<nat>): Option<seq<uint8>>
  {
    if clock.None? then None else Some(ToBytes(clock.value, Width))
  }

  /** The scanner's C variables hold the scan state `s`. */
  predicate Holds(s: Scan, fragments: seq<Fragment>, fragment: Option<Fragment>, timeOld: Option<seq<uint8>>)
  {
    fragments == AsFragments(s.done)
    && (fragment.Some? <==> s.open.Some?)
    && (fragment.Some? ==>
          fragment.value.blockStart == s.open.value.start
          && fragment.value.timeStart == ToBytes(s.open.value.clock, Width))
    && timeOld == StampOf(s.prev)
  }

  /** Ending the current fragment appends it, with its size and last timestamp filled in. */
  lemma CloseHolds(s: Scan, b: nat, fragments: seq<Fragment>, fragment: Option<Fragment>, timeOld: Option<seq<uint8>>)
    requires Ready(s, b) && Holds(s, fragments, fragment, timeOld)
    ensures fragment.Some? ==> fragment.value.blockStart <= b && timeOld.Some?
    ensures AsFragments(Close(s, b))
      == if fragment.None? then fragments
         else fragments + [fragment.value.(blockSize := b - fragment.value.blockStart, timeEnd := timeOld.value)]
  {
  }

  /** Fills in the size and the last timestamp of `fragment` and appends it to the list. */
  method EndFragment(fragments: DList<Fragment>, fragment: Fragment, timeOld: array<uint8>, blockCurrent: nat)
    requires fragments.Valid() && timeOld.Length == Width && fragment.blockStart <= blockCurrent
    modifies fragments, fragments.Nodes
    ensures fragments.Valid()
    ensures fragments.Contents == old(fragments.Contents)
      + [fragment.(blockSize := blockCurrent - fragment.blockStart, timeEnd := timeOld[..])]
    ensures forall i :: 0 <= i < |fragments.Nodes| ==> fragments.Nodes[i] in old(fragments.Nodes) || fresh(fragments.Nodes[i])
  {
    var timeEnd := Copy(timeOld);
    var _ := fragments.Append(fragment.(blockSize := blockCurrent - fragment.blockStart, timeEnd := timeEnd[..]));
  }

  /** Ends the current fragment, if there is one, before block `blockCurrent`. */
  method EndOpen(fragments: DList<Fragment>, fragment: Option<Fragment>, timeOld: array?<uint8>, blockCurrent: nat,
                 ghost s: Scan)
    requires fragments.Valid() && Ready(s, blockCurrent) && Holds(s, fragments.Contents, fragment, Stamp(timeOld))
    modifies fragments, fragments.Nodes
    ensures fragments.Valid() && forall i :: 0 <= i < |fragments.Nodes| ==> fragments.Nodes[i] in old(fragments.Nodes) || fresh(fragments.Nodes[i])
    ensures fragments.Contents == AsFragments(Close(s, blockCurrent))
  {
    CloseHolds(s, blockCurrent, fragments.Contents, fragment, Stamp(timeOld));
    if fragment.Some? {
      EndFragment(fragments, fragment.value, timeOld, blockCurrent);
    }
  }

  /**
   * The cut test of `analyze_stream` on the current and the previous
   * timestamp: `mpeg_timestamp_diff` for `AsWritten`, the difference with the
   * borrow carried through for `Corrected`.
   */
  method IsCut(timeCurrent: array<uint8>, timeOld: array<uint8>, maxGap: array<uint8>, sub: Subtraction)
    returns (cut: bool)
    requires timeCurrent.Length == Width && timeOld.Length == Width && maxGap.Length == Width
    ensures cut == ByteCut(sub, timeCurrent[..], timeOld[..], maxGap[..])
  {
    if Compare(timeCurrent[..], timeOld[..]) < 0 {
      cut := true;
    } else {
      var timeDiff;
      if sub == AsWritten {
        timeDiff := Diff(timeCurrent, timeOld);
      } else {
        timeDiff := DiffExact(timeCurrent, timeOld);
      }
      cut := Compare(timeDiff[..], maxGap[..]) > 0;
    }
  }

  /**
   * Whether a block with a valid header starts a new fragment: always when
   * no fragment is open, otherwise when the cut test fires.
   */
  method StartsFragment(fragment: Option<Fragment>, timeCurrent: array<uint8>, timeOld: array?<uint8>,
                        maxGap: array<uint8>, sub: Subtraction, ghost gap: nat, ghost s: Scan, ghost b: nat,
                        ghost c: nat)
    returns (cut: bool)
    requires timeCurrent[..] == ToBytes(c, Width) && maxGap[..] == ToBytes(gap, Width)
    requires Ready(s, b) && (fragment.Some? <==> s.open.Some?) && Stamp(timeOld) == StampOf(s.prev)
    ensures cut <==> s.open.None? || Cuts(s.prev.value, c, Rule(sub, gap))
  {
    cut := fragment.None?;
    if !cut {
      cut := IsCut(timeCurrent, timeOld, maxGap, sub);
    }
  }

  /** The loop body of `analyze_stream` for block `b`, which has a valid header with clock `c`. */
  method ScanHeader(fragments: DList<Fragment>, timeCurrent: array<uint8>, b: nat,
                    maxGap: array<uint8>, sub: Subtraction, ghost gap: nat, fragment: Option<Fragment>,
                    timeOld: array?<uint8>, ghost s: Scan, ghost c: nat)
    returns (fragment': Option<Fragment>)
    requires fragments.Valid() && timeCurrent[..] == ToBytes(c, Width) && maxGap[..] == ToBytes(gap, Width)
    requires Ready(s, b) && Holds(s, fragments.Contents, fragment, Stamp(timeOld))
    modifies fragments, fragments.Nodes
    ensures fragments.Valid()
    ensures forall i :: 0 <= i < |fragments.Nodes| ==> fragments.Nodes[i] in old(fragments.Nodes) || fresh(fragments.Nodes[i])
    ensures Holds(Step(s, b, Some(c), CutsOf(Rule(sub, gap))), fragments.Contents, fragment', Some(ToBytes(c, Width)))
  {
    fragment' := fragment;
    var cut := StartsFragment(fragment, timeCurrent, timeOld, maxGap, sub, gap, s, b, c);
    if cut {
      EndOpen(fragments, fragment, timeOld, b, s);
      var timeStart := Copy(timeCurrent);
      fragment' := Some(Fragment(b, 0, timeStart[..], []));
    }
  }

  /** The loop body of `analyze_stream` for block `b`, returning the block's timestamp, the next `time_old`. */
  method ScanBlock(fragments: DList<Fragment>, block: seq<bv8>, b: nat,
                   maxGap: array<uint8>, sub: Subtraction, ghost gap: nat, fragment: Option<Fragment>,
                   timeOld: array?<uint8>, ghost clocks: seq<Option<nat>>)
    returns (fragment': Option<Fragment>, timeCurrent: array?<uint8>)
    requires |block| >= HeaderLength && fragments.Valid() && maxGap[..] == ToBytes(gap, Width)
    requires b < |clocks| && clocks[b] == MpegHeader(block)
    requires Holds(Run(clocks, b, CutsOf(Rule(sub, gap))), fragments.Contents, fragment, Stamp(timeOld))
    modifies fragments, fragments.Nodes
    ensures fragments.Valid()
    ensures forall i :: 0 <= i < |fragments.Nodes| ==> fragments.Nodes[i] in old(fragments.Nodes) || fresh(fragments.Nodes[i])
    ensures timeCurrent == null || fresh(timeCurrent)
    ensures Holds(Run(clocks, b + 1, CutsOf(Rule(sub, gap))), fragments.Contents, fragment', Stamp(timeCurrent))
  {
    ghost var cuts := CutsOf(Rule(sub, gap));
    ghost var s := Run(clocks, b, cuts);
    ghost var clock := clocks[b];
    assert Run(clocks, b + 1, cuts) == Step(s, b, clock, cuts);
    if b > 0 {
      assert s.prev == clocks[b - 1];
    }
    timeCurrent := Extract(block);
    if timeCurrent != null {
      fragment' := ScanHeader(fragments, timeCurrent, b, maxGap, sub, gap, fragment, timeOld, s, clock.value);
    } else {
      EndOpen(fragments, fragment, timeOld, b, s);
      fragment' := None;
    }
  }

  /**
   * Reads the stream block by block and returns its fragments in a new list.
   * `analysis.c` is this method with `AsWritten`: `ByteCutAsWrittenCounterexample`
   * shows a step it cuts that is no jump, and with `Corrected` the fragments
   * are the maximal runs without a jump (`SegmentShape`, `ByteCutIsJump`).
   */
  method AnalyzeStream(stream: seq<bv8>, blocksize: nat, gapsize: nat, sub: Subtraction)
    returns (fragments: DList<Fragment>)
    requires HeaderLength <= blocksize && gapsize < 0x1_0000_0000
    ensures fresh(fragments) && fragments.Valid()
    ensures fragments.Contents == AsFragments(Segment(Clocks(stream, blocksize), CutsOf(Rule(sub, gapsize))))
  {
    var maxGap := FromInt(gapsize);
    fragments := new DList<Fragment>();
    ScanStream(fragments, stream, blocksize, maxGap, sub, gapsize);
  }

  /** The read loop of `analyze_stream` and the end of the fragment still open after it. */
  method ScanStream(fragments: DList<Fragment>, stream: seq<bv8>, blocksize: nat, maxGap: array<uint8>,
                    sub: Subtraction, ghost gap: nat)
    requires HeaderLength <= blocksize && maxGap[..] == ToBytes(gap, Width)
    requires fragments.Valid() && fragments.Contents == []
    modifies fragments, fragments.Nodes
    ensures fragments.Valid()
    ensures fragments.Contents == AsFragments(Segment(Clocks(stream, blocksize), CutsOf(Rule(sub, gap))))
  {
    var timeOld: array?<uint8> := null;
    var fragment: Option<Fragment> := None;
    var blockCurrent := 0;
    var rest := stream;
    ghost var blocks := Blocks(stream, blocksize);
    ghost var clocks := Clocks(stream, blocksize);
    ghost var cuts := CutsOf(Rule(sub, gap));
    while |rest| >= blocksize
      invariant blockCurrent <= |blocks| && blocks[blockCurrent..] == Blocks(rest, blocksize)
      invariant fragments.Valid() && forall i :: 0 <= i < |fragments.Nodes| ==> fresh(fragments.Nodes[i])
      invariant Holds(Run(clocks, blockCurrent, cuts), fragments.Contents, fragment, Stamp(timeOld))
      decreases |rest|
    {
      assert blocks[blockCurrent] == rest[..blocksize];
      var timeCurrent;
      fragment, timeCurrent := ScanBlock(fragments, rest[..blocksize], blockCurrent, maxGap, sub, gap, fragment,
                                         timeOld, clocks);
      timeOld := timeCurrent;
      blockCurrent := blockCurrent + 1;
      rest := rest[blocksize..];
    }
    assert Blocks(rest, blocksize) == [];
    assert blockCurrent == |clocks|;
    EndOpen(fragments, fragment, timeOld, blockCurrent, Run(clocks, blockCurrent, cuts));
  }

  // ---------------------------------------------------------------------------
  // The block size, which main.c passes on unchecked
  // ---------------------------------------------------------------------------

  /**
   * The stream left after `k` more turns of the read loop: each turn reads
   * `blocksize` bytes, and the loop stops at the first short read.
   */
  function AfterReads(rest: seq<bv8>, blocksize: nat, k: nat): (r: seq<bv8>)
    ensures |r| <= |rest|
    decreases k
  {
    if k == 0 || |rest| < blocksize then rest else AfterReads(rest[blocksize..], blocksize, k - 1)
  }

  /** With a positive block size the loop has read every whole block after `|stream| / blocksize` turns, and stops. */
  lemma {:induction false} ReadsEnd(stream: seq<bv8>, blocksize: nat)
    requires 0 < blocksize
    ensures var rest := AfterReads(stream, blocksize, |Blocks(stream, blocksize)|);
      |rest| < blocksize && |rest| == |stream| % blocksize
    decreases |stream|
  {
    BlocksLength(stream, blocksize);
    if |stream| >= blocksize {
      var rest := stream[blocksize..];
      ReadsEnd(rest, blocksize);
      BlocksLength(rest, blocksize);
      DivModUnique(|stream|, blocksize, |rest| / blocksize + 1, |rest| % blocksize);
    } else {
      DivModUnique(|stream|, blocksize, 0, |stream|);
    }
  }

  /**
   * With block size 0, `fread` returns 0, which equals the block size, and
   * consumes nothing: after any number of turns the loop is where it began,
   * and its condition still holds, so `analyze_stream` never returns.
   */
  lemma {:induction false} ZeroBlockSizeNeverEnds(stream: seq<bv8>, k: nat)
    ensures AfterReads(stream, 0, k) == stream
    decreases k
  {
    if k > 0 {
      assert stream[0..] == stream;
      ZeroBlockSizeNeverEnds(stream, k - 1);
    }
  }

  /** The pack start code `00 00 01 BA`. */
  const StartCode: seq<bv8> := [0x00, 0x00, 0x01, 0xBA]

  /**
   * How many bytes of a buffer `mpeg_is_valid` reads at least: the four of
   * the start code, and byte 4 as well when they match.
   */
  function ValidityReach(buffer: seq<bv8>): (n: nat)
    requires |buffer| >= 4
    ensures n == 4 || n == 5
  {
    if buffer[..4] == StartCode then 5 else 4
  }

  /**
   * A block of four bytes holding the start code passes the first test, and
   * the marker test then reads byte 4, past the end of the block that
   * `analyze_stream` allocated.
   */
  lemma ShortBlockOverRead()
    ensures ValidityReach(StartCode) > |StartCode|
  {
    assert StartCode[..4] == StartCode;
  }

  /**
   * `analyze_file` with the block size checked: a block shorter than a pack
   * header is refused with NULL, as a failed `fopen` is; otherwise the
   * stream is analysed.  The loop then always ends and every header test
   * reads inside its block.
   */
  method AnalyzeChecked(stream: seq<bv8>, blocksize: nat, gapsize: nat, sub: Subtraction)
    returns (fragments: Option<DList<Fragment>>)
    requires gapsize < 0x1_0000_0000
    ensures fragments.None? <==> blocksize < HeaderLength
    ensures fragments.Some? ==> fresh(fragments.value) && fragments.value.Valid()
    ensures fragments.Some? ==>
      fragments.value.Contents == AsFragments(Segment(Clocks(stream, blocksize), CutsOf(Rule(sub, gapsize))))
  {
    if blocksize < HeaderLength {
      return None;
    }
    var result := AnalyzeStream(stream, blocksize, gapsize, sub);
    fragments := Some(result);
  }

  /**
   * `merge_fragments`: drains a copy of the list item by item. Linking the
   * fragments into recordings is not written in the C tool, so the result is
   * always a new, empty list, and the original list is left as it was.
   */
  method MergeFragments(original: DList<Fragment>) returns (result: DList<Fragment>)
    requires original.Valid()
    ensures fresh(result) && result.Valid() && result.Contents == []
    ensures original.Valid() && original.Nodes == old(original.Nodes) && original.Contents == old(original.Contents)
  {
    result := new DList<Fragment>();
    var fragments := original.Copy();
    label Copied:
    var item := fragments.first;
    while item != null
      invariant fresh(fragments) && fragments.Valid() && fragments != result
      invariant forall n :: n in fragments.Nodes ==> fresh(n)
      invariant item == fragments.first
      invariant unchanged@Copied(result)
      invariant unchanged(original) && unchanged(original.Nodes)
      decreases |fragments.Nodes|
    {
      fragments.Remove(item);
      item := fragments.first;
    }
  }
}

/**
 * The test of the C scanner (tests/analysis.c) as a proof: a stream of 50
 * blocks of 2048 bytes holding four runs of header blocks, two of them
 * separated by headerless blocks and two by a clock jump, scanned with a
 * gap of 90000 and the C code's timestamp difference.
 */
module AnalysisTest {
  import opened Wrappers
  import opened PackHeader
  import opened DoublyLinkedList
  import opened MpegTime
  import opened Analysis

  const TestGap: nat := 90000
  /** The C scanner with the test's gap. */
  const TestRule: Rule := Rule(AsWritten, TestGap)
  /** The C scanner's cut test on clocks. */
  const TestCuts: (nat, nat) -> bool := CutsOf(TestRule)
  const TestFragment1: seq<nat> := [5000, 5100, 5300, 6000, 7000]
  const TestFragment2: seq<nat> := [8000, 9000, 10000, 11000, 12000]
  /** 500000, 500001, ..., 500019. */
  function TestFragment3(): seq<nat>
  {
    seq(20, i => 500000 + i)
  }

  const TestFragment4: seq<nat> := [1000000, 1090000]

  /** The clocks of the 50 test blocks: 5 header blocks, 5 without, 5 + 20 with, 13 without, 2 with. */
  function TestClocks(): seq<Option<nat>>
  {
    Headers(TestFragment1) + Headerless(5) + Headers(TestFragment2) + Headers(TestFragment3())
      + Headerless(13) + Headers(TestFragment4)
  }

  /** The five bytes of a timestamp, as a number. */
  function Spelled(t: seq<uint8>): nat
    requires |t| == Width
  {
    t[0] as nat * 0x1_0000_0000 + t[1] as nat * 0x100_0000 + t[2] as nat * 0x1_0000 + t[3] as nat * 0x100 + t[4] as nat
  }

  /** The test's cut decision between two clocks is the C test on their bytes. */
  lemma CutOnBytes(prev: nat, cur: nat, p: seq<uint8>, c: seq<uint8>)
    requires |p| == Width && |c| == Width && prev == Spelled(p) && cur == Spelled(c)
    ensures Cuts(prev, cur, TestRule) == ByteCut(AsWritten, c, p, [0x00, 0x00, 0x01, 0x5F, 0x90])
  {
    var g: seq<uint8> := [0x00, 0x00, 0x01, 0x5F, 0x90];
    ValueOfFive(p);
    ValueOfFive(c);
    ValueOfFive(g);
    ToBytesOfValue(p);
    ToBytesOfValue(c);
    ToBytesOfValue(g);
  }

  /** Clocks 500000 + i and 500001 + i differ in the last byte only, so the C difference is 1. */
  lemma CountingStep(i: nat)
    requires i < 19
    ensures !Cuts(500000 + i, 500001 + i, TestRule)
  {
    var p: seq<uint8> := [0x00, 0x00, 0x07, 0xA1, (0x20 + i) as uint8];
    var c: seq<uint8> := [0x00, 0x00, 0x07, 0xA1, (0x21 + i) as uint8];
    var g: seq<uint8> := [0x00, 0x00, 0x01, 0x5F, 0x90];
    CutOnBytes(500000 + i, 500001 + i, p, c);
    ValueOfFive(p);
    ValueOfFive(c);
    ValueOfFive(g);
    CompareIsValueOrder(c, p);
    DiffExactWithoutBorrow(c, p);
    CompareIsValueOrder(DiffAsWritten(c, p), g);
  }

  /** The test's cut relation is the C test with the test's gap. */
  lemma TestCutsAre(prev: nat, cur: nat)
    ensures TestCuts(prev, cur) == Cuts(prev, cur, TestRule)
  {
  }

  /** Clocks rising by one per block from 500000 never cut. */
  lemma {:induction false} CountingIsSteady(i: nat, k: nat)
    requires i + k <= 19
    ensures Steady(500000 + i, seq(k, j => 500000 + i + 1 + j), TestCuts)
    decreases k
  {
    if k > 0 {
      assert seq(k, j => 500000 + i + 1 + j)[1..] == seq(k - 1, j => 500000 + (i + 1) + 1 + j);
      CountingStep(i);
      TestCutsAre(500000 + i, 500001 + i);
      CountingIsSteady(i + 1, k - 1);
    }
  }

  lemma SliceLeft<T>(a: seq<T>, b: seq<T>, lo: nat, hi: nat)
    requires lo <= hi <= |a|
    ensures (a + b)[lo..hi] == a[lo..hi]
  {
  }

  lemma SliceRight<T>(a: seq<T>, b: seq<T>, lo: nat, hi: nat)
    requires |a| <= lo <= hi <= |a| + |b|
    ensures (a + b)[lo..hi] == b[lo - |a|..hi - |a|]
  {
  }

  /** Where the pieces of the test stream lie. */
  lemma TestLayout()
    ensures var c := TestClocks();
      |c| == 50 && c[0] == Some(5000) && c[10] == Some(8000) && c[15] == Some(500000)
      && c[48] == Some(1000000) && c[49] == Some(1090000)
  {
  }

  lemma TestSlicesLow()
    ensures var c := TestClocks();
      c[1..5] == Headers(TestFragment1[1..]) && c[5..10] == Headerless(5) && c[11..15] == Headers(TestFragment2[1..])
  {
    var p1, p2 := Headers(TestFragment1), Headers(TestFragment2);
    var low := p1 + Headerless(5) + p2;
    var high := Headers(TestFragment3()) + Headerless(13) + Headers(TestFragment4);
    assert TestClocks() == low + high;
    SliceLeft(low, high, 1, 5);
    SliceLeft(p1 + Headerless(5), p2, 1, 5);
    SliceLeft(p1, Headerless(5), 1, 5);
    SliceLeft(low, high, 5, 10);
    SliceLeft(p1 + Headerless(5), p2, 5, 10);
    SliceRight(p1, Headerless(5), 5, 10);
    SliceLeft(low, high, 11, 15);
    SliceRight(p1 + Headerless(5), p2, 11, 15);
  }

  lemma TestSlicesHigh()
    ensures var c := TestClocks();
      c[16..35] == Headers(TestFragment3()[1..]) && c[35..48] == Headerless(13)
  {
    var low := Headers(TestFragment1) + Headerless(5) + Headers(TestFragment2);
    var p3 := Headers(TestFragment3());
    var c := TestClocks();
    assert c == low + p3 + Headerless(13) + Headers(TestFragment4);
    SliceLeft(low + p3 + Headerless(13), Headers(TestFragment4), 16, 35);
    SliceLeft(low + p3, Headerless(13), 16, 35);
    SliceRight(low, p3, 16, 35);
    assert p3[1..20] == Headers(TestFragment3()[1..]);
    SliceLeft(low + p3 + Headerless(13), Headers(TestFragment4), 35, 48);
    SliceRight(low + p3, Headerless(13), 35, 48);
    assert |low| == 15 && |p3| == 20;
    assert c[16..35] == p3[1..20];
    assert c[35..48] == Headerless(13)[0..13];
  }

  // Each step of the test decided on its bytes; one lemma per step keeps the evaluation small.

  lemma NoCut5000To5100()
    ensures !Cuts(5000, 5100, TestRule)
  {
    CutOnBytes(5000, 5100, [0x00, 0x00, 0x00, 0x13, 0x88], [0x00, 0x00, 0x00, 0x13, 0xEC]);
  }

  lemma NoCut5100To5300()
    ensures !Cuts(5100, 5300, TestRule)
  {
    CutOnBytes(5100, 5300, [0x00, 0x00, 0x00, 0x13, 0xEC], [0x00, 0x00, 0x00, 0x14, 0xB4]);
  }

  lemma NoCut5300To6000()
    ensures !Cuts(5300, 6000, TestRule)
  {
    CutOnBytes(5300, 6000, [0x00, 0x00, 0x00, 0x14, 0xB4], [0x00, 0x00, 0x00, 0x17, 0x70]);
  }

  lemma NoCut6000To7000()
    ensures !Cuts(6000, 7000, TestRule)
  {
    CutOnBytes(6000, 7000, [0x00, 0x00, 0x00, 0x17, 0x70], [0x00, 0x00, 0x00, 0x1B, 0x58]);
  }

  lemma NoCut8000To9000()
    ensures !Cuts(8000, 9000, TestRule)
  {
    CutOnBytes(8000, 9000, [0x00, 0x00, 0x00, 0x1F, 0x40], [0x00, 0x00, 0x00, 0x23, 0x28]);
  }

  lemma NoCut9000To10000()
    ensures !Cuts(9000, 10000, TestRule)
  {
    CutOnBytes(9000, 10000, [0x00, 0x00, 0x00, 0x23, 0x28], [0x00, 0x00, 0x00, 0x27, 0x10]);
  }

  lemma NoCut10000To11000()
    ensures !Cuts(10000, 11000, TestRule)
  {
    CutOnBytes(10000, 11000, [0x00, 0x00, 0x00, 0x27, 0x10], [0x00, 0x00, 0x00, 0x2A, 0xF8]);
  }

  lemma NoCut11000To12000()
    ensures !Cuts(11000, 12000, TestRule)
  {
    CutOnBytes(11000, 12000, [0x00, 0x00, 0x00, 0x2A, 0xF8], [0x00, 0x00, 0x00, 0x2E, 0xE0]);
  }

  lemma Cut12000To500000()
    ensures Cuts(12000, 500000, TestRule)
  {
    CutOnBytes(12000, 500000, [0x00, 0x00, 0x00, 0x2E, 0xE0], [0x00, 0x00, 0x07, 0xA1, 0x20]);
  }

  lemma NoCut1000000To1090000()
    ensures !Cuts(1000000, 1090000, TestRule)
  {
    CutOnBytes(1000000, 1090000, [0x00, 0x00, 0x0F, 0x42, 0x40], [0x00, 0x00, 0x10, 0xA1, 0xD0]);
  }

  /** Within the first two runs the C test never cuts. */
  lemma TestSteadyLow()
    ensures Steady(5000, TestFragment1[1..], TestCuts)
    ensures Steady(8000, TestFragment2[1..], TestCuts)
  {
    NoCut5000To5100();
    NoCut5100To5300();
    NoCut5300To6000();
    NoCut6000To7000();
    assert Steady(6000, [7000], TestCuts);
    assert Steady(5300, [6000, 7000], TestCuts);
    assert Steady(5100, [5300, 6000, 7000], TestCuts);
    assert TestFragment1[1..] == [5100, 5300, 6000, 7000];
    NoCut8000To9000();
    NoCut9000To10000();
    NoCut10000To11000();
    NoCut11000To12000();
    assert Steady(11000, [12000], TestCuts);
    assert Steady(10000, [11000, 12000], TestCuts);
    assert Steady(9000, [10000, 11000, 12000], TestCuts);
    assert TestFragment2[1..] == [9000, 10000, 11000, 12000];
  }

  lemma TestSteadyHigh()
    ensures Steady(500000, TestFragment3()[1..], TestCuts)
  {
    assert TestFragment3()[1..] == seq(19, j => 500000 + 0 + 1 + j);
    CountingIsSteady(0, 19);
  }

  /** The first fragment, ended by the gap of five headerless blocks. */
  lemma TestFirstFragment()
    ensures Run(TestClocks(), 10, TestCuts) == Scan([Span(0, 5, 5000, 7000)], None, None)
  {
    TestLayout();
    TestSlicesLow();
    TestSteadyLow();
    FirstRun(TestClocks(), TestCuts);
  }

  /** Five header blocks that never cut, then five without a header, make one fragment. */
  lemma FirstRun(c: seq<Option<nat>>, cuts: (nat, nat) -> bool)
    requires |c| == 50 && c[0] == Some(5000) && c[1..5] == Headers(TestFragment1[1..]) && c[5..10] == Headerless(5)
    requires Steady(5000, TestFragment1[1..], cuts)
    ensures Run(c, 10, cuts) == Scan([Span(0, 5, 5000, 7000)], None, None)
  {
    assert Run(c, 1, cuts) == Scan([], Some(Open(0, 5000)), Some(5000));
    RunSteady(c, cuts, 1, TestFragment1[1..]);
    RunHeaderless(c, cuts, 5, 5);
  }

  /** The second fragment, still open after block 14. */
  lemma TestSecondFragment()
    ensures Run(TestClocks(), 15, TestCuts)
      == Scan([Span(0, 5, 5000, 7000)], Some(Open(10, 8000)), Some(12000))
  {
    var c := TestClocks();
    TestLayout();
    TestSlicesLow();
    TestSteadyLow();
    TestFirstFragment();
    assert Run(c, 11, TestCuts) == Scan([Span(0, 5, 5000, 7000)], Some(Open(10, 8000)), Some(8000));
    RunSteady(c, TestCuts, 11, TestFragment2[1..]);
  }

  /**
   * The jump from 12000 to 500000 starts the third fragment, still open after
   * block 34 (the clocks and the fragment's later values are passed by name).
   */
  lemma TestThirdFragment(c: seq<Option<nat>>, vals: seq<nat>)
    requires c == TestClocks() && vals == TestFragment3()[1..]
    ensures Run(c, 35, TestCuts)
      == Scan([Span(0, 5, 5000, 7000), Span(10, 5, 8000, 12000)], Some(Open(15, 500000)), Some(500019))
  {
    TestSlicesHigh();
    TestSteadyHigh();
    TestThirdStart();
    RunSteady(c, TestCuts, 16, vals);
    assert vals[18] == 500019;
  }

  /** The jump from 12000 to 500000 at block 15 closes the second fragment and opens the third. */
  lemma TestThirdStart()
    ensures Run(TestClocks(), 16, TestCuts)
      == Scan([Span(0, 5, 5000, 7000), Span(10, 5, 8000, 12000)], Some(Open(15, 500000)), Some(500000))
  {
    TestLayout();
    TestSecondFragment();
    Cut12000To500000();
    TestCutsAre(12000, 500000);
    ThirdStart(TestClocks(), TestCuts);
  }

  /** A cut at block 15 after the open second fragment closes it and opens the third. */
  lemma ThirdStart(c: seq<Option<nat>>, cuts: (nat, nat) -> bool)
    requires 16 <= |c| && c[15] == Some(500000) && cuts(12000, 500000)
    requires Run(c, 15, cuts) == Scan([Span(0, 5, 5000, 7000)], Some(Open(10, 8000)), Some(12000))
    ensures Run(c, 16, cuts)
      == Scan([Span(0, 5, 5000, 7000), Span(10, 5, 8000, 12000)], Some(Open(15, 500000)), Some(500000))
  {
  }

  /** The 13 headerless blocks end the third fragment. */
  lemma TestSecondGap()
    ensures Run(TestClocks(), 48, TestCuts)
      == Scan([Span(0, 5, 5000, 7000), Span(10, 5, 8000, 12000), Span(15, 20, 500000, 500019)], None, None)
  {
    TestSlicesHigh();
    TestThirdFragment(TestClocks(), TestFragment3()[1..]);
    GapAfterThird(TestClocks());
  }

  /** Headerless blocks 35 to 47 after the open third fragment close it. */
  lemma GapAfterThird(c: seq<Option<nat>>)
    requires 48 <= |c| && c[35..48] == Headerless(13)
    requires Run(c, 35, TestCuts)
      == Scan([Span(0, 5, 5000, 7000), Span(10, 5, 8000, 12000)], Some(Open(15, 500000)), Some(500019))
    ensures Run(c, 48, TestCuts)
      == Scan([Span(0, 5, 5000, 7000), Span(10, 5, 8000, 12000), Span(15, 20, 500000, 500019)], None, None)
  {
    RunHeaderless(c, TestCuts, 35, 13);
  }

  /**
   * The test stream yields exactly the four expected fragments; in the last
   * one the step of exactly 90000 does not cut.
   */
  lemma TestSegments()
    ensures Segment(TestClocks(), TestCuts)
      == [Span(0, 5, 5000, 7000), Span(10, 5, 8000, 12000), Span(15, 20, 500000, 500019),
          Span(48, 2, 1000000, 1090000)]
  {
    TestLayout();
    TestSecondGap();
    NoCut1000000To1090000();
  }

  /** The block size of the test stream. */
  const TestBlockSize: nat := 2048

  function Zeros(n: nat): seq<bv8>
  {
    seq(n, i => 0)
  }

  /** A test block with a header: the pack header for `t`, then zero bytes. */
  function HeaderBlock(t: nat): seq<bv8>
  {
    PackHeaderFor(t) + Zeros(TestBlockSize - HeaderLength)
  }

  function HeaderBlocks(vals: seq<nat>): seq<seq<bv8>>
  {
    seq(|vals|, i requires 0 <= i < |vals| => HeaderBlock(vals[i]))
  }

  function ZeroBlocks(k: nat): seq<seq<bv8>>
  {
    seq(k, i => Zeros(TestBlockSize))
  }

  /** The blocks of the test stream, as the C test writes them to its temporary file. */
  function TestBlocks(): seq<seq<bv8>>
  {
    HeaderBlocks(TestFragment1) + ZeroBlocks(5) + HeaderBlocks(TestFragment2) + HeaderBlocks(TestFragment3())
      + ZeroBlocks(13) + HeaderBlocks(TestFragment4)
  }

  /** The blocks written one after the other. */
  function Flatten(blocks: seq<seq<bv8>>): (stream: seq<bv8>)
  {
    if blocks == [] then [] else blocks[0] + Flatten(blocks[1..])
  }

  /** Cutting a stream written from blocks of one size gives back those blocks. */
  lemma {:induction false} BlocksOfFlatten(blocks: seq<seq<bv8>>, blocksize: nat)
    requires 0 < blocksize && forall i :: 0 <= i < |blocks| ==> |blocks[i]| == blocksize
    ensures Blocks(Flatten(blocks), blocksize) == blocks
  {
    if blocks != [] {
      BlocksOfFlatten(blocks[1..], blocksize);
      var stream := Flatten(blocks);
      assert stream[..blocksize] == blocks[0];
      assert stream[blocksize..] == Flatten(blocks[1..]);
    }
  }

  /** The clock of each block. */
  function HeaderClocks(blocks: seq<seq<bv8>>): seq<Option<nat>>
    requires forall i :: 0 <= i < |blocks| ==> |blocks[i]| >= HeaderLength
  {
    seq(|blocks|, i requires 0 <= i < |blocks| => MpegHeader(blocks[i]))
  }

  lemma HeaderClocksAppend(a: seq<seq<bv8>>, b: seq<seq<bv8>>)
    requires forall i :: 0 <= i < |a| ==> |a[i]| >= HeaderLength
    requires forall i :: 0 <= i < |b| ==> |b[i]| >= HeaderLength
    ensures HeaderClocks(a + b) == HeaderClocks(a) + HeaderClocks(b)
  {
  }

  /** Each header block decodes to its timestamp. */
  lemma HeaderBlocksClocks(vals: seq<nat>)
    requires forall i :: 0 <= i < |vals| ==> vals[i] < ClockRange
    ensures HeaderClocks(HeaderBlocks(vals)) == Headers(vals)
  {
    ClockRangeIsPow2();
    forall i | 0 <= i < |vals| ensures MpegHeader(HeaderBlock(vals[i])) == Some(vals[i]) {
      HeaderRoundTrip(vals[i]);
      HeaderPrefix(HeaderBlock(vals[i]), PackHeaderFor(vals[i]));
    }
  }

  /** A block of zero bytes has no start code. */
  lemma ZeroBlocksClocks(k: nat)
    ensures HeaderClocks(ZeroBlocks(k)) == Headerless(k)
  {
    assert Zeros(TestBlockSize)[3] == 0;
  }

  /** The clocks of the test blocks are the ones the test writes. */
  lemma TestBlocksClocks()
    ensures forall i :: 0 <= i < |TestBlocks()| ==> |TestBlocks()[i]| == TestBlockSize
    ensures HeaderClocks(TestBlocks()) == TestClocks()
  {
    var p1, p2, p3, p4 := HeaderBlocks(TestFragment1), HeaderBlocks(TestFragment2),
                          HeaderBlocks(TestFragment3()), HeaderBlocks(TestFragment4);
    HeaderBlocksClocks(TestFragment1);
    HeaderBlocksClocks(TestFragment2);
    HeaderBlocksClocks(TestFragment3());
    HeaderBlocksClocks(TestFragment4);
    ZeroBlocksClocks(5);
    ZeroBlocksClocks(13);
    HeaderClocksAppend(p1, ZeroBlocks(5));
    HeaderClocksAppend(p1 + ZeroBlocks(5), p2);
    HeaderClocksAppend(p1 + ZeroBlocks(5) + p2, p3);
    HeaderClocksAppend(p1 + ZeroBlocks(5) + p2 + p3, ZeroBlocks(13));
    HeaderClocksAppend(p1 + ZeroBlocks(5) + p2 + p3 + ZeroBlocks(13), p4);
  }

  /** The clocks `analyze_stream` reads from the test file. */
  lemma TestStreamClocks()
    ensures Clocks(Flatten(TestBlocks()), TestBlockSize) == TestClocks()
  {
    TestBlocksClocks();
    BlocksOfFlatten(TestBlocks(), TestBlockSize);
  }

  /** `analyze_stream` on the test file returns the four fragments the test expects, in order. */
  method AnalyzeTestStream() returns (fragments: DList<Fragment>)
    ensures fragments.Contents
      == AsFragments([Span(0, 5, 5000, 7000), Span(10, 5, 8000, 12000), Span(15, 20, 500000, 500019),
                      Span(48, 2, 1000000, 1090000)])
  {
    TestStreamClocks();
    TestSegments();
    fragments := AnalyzeStream(Flatten(TestBlocks()), TestBlockSize, TestGap, AsWritten);
  }
}

/**
 * The Program Stream pack header of ISO/IEC 13818-1 (MPEG-2 Systems),
 * section 2.5.3.3, as the recovery tools read it: a start code, four marker
 * fields, and the 33-bit system_clock_reference_base spread over bytes 4..8
 * around the marker bits. The 9-bit SCR extension is never read.
 */
module PackHeader {
  import opened Wrappers
  import opened Bits

  /** Number of leading bytes a block must have for the header to be read. */
  const HeaderLength: nat := 9

  predicate HasStartCode(buf: seq<bv8>)
    requires |buf| >= HeaderLength
  {
    buf[0] == 0x00 && buf[1] == 0x00 && buf[2] == 0x01 && buf[3] == 0xBA
  }

  /** '01' in bits 7..6 of byte 4, and bit 2 of bytes 4, 6 and 8 set. */
  predicate HasMarkers(buf: seq<bv8>)
    requires |buf| >= HeaderLength
  {
    (buf[4] >> 6) & 3 == 1 &&
    (buf[4] >> 2) & 1 == 1 &&
    (buf[6] >> 2) & 1 == 1 &&
    (buf[8] >> 2) & 1 == 1
  }

  predicate IsPackHeader(buf: seq<bv8>)
    requires |buf| >= HeaderLength
  {
    HasStartCode(buf) && HasMarkers(buf)
  }

  /** The byte with only bit k set. */
  function Mask(k: nat): bv8
    requires k < 8
  {
    if k == 0 then 0x01 else if k == 1 then 0x02 else if k == 2 then 0x04 else if k == 3 then 0x08
    else if k == 4 then 0x10 else if k == 5 then 0x20 else if k == 6 then 0x40 else 0x80
  }

  /** Bit k of a byte, as 0 or 1. */
  function ByteBit(b: bv8, k: nat): (bit: nat)
    requires k < 8
    ensures bit < 2
  {
    if b & Mask(k) == 0 then 0 else 1
  }

  /** A bit position in a header: byte offset and bit within that byte. */
  datatype Location = Location(offset: nat, bit: nat)
  {
    predicate InHeader() { 4 <= offset < HeaderLength && bit < 8 }
  }

  /**
   * Where SCR bit i lives. Bits 0..4 sit in bits 3..7 of byte 8, 5..12 fill
   * byte 7, 13..14 and 15..19 sit around the marker in byte 6, 20..27 fill
   * byte 5, 28..29 and 30..32 sit around the marker in byte 4.
   */
  function ScrLocation(i: nat): (loc: Location)
    requires i < 33
    ensures loc.InHeader()
  {
    if i < 5 then Location(8, i + 3)
    else if i < 13 then Location(7, i - 5)
    else if i < 15 then Location(6, i - 13)
    else if i < 20 then Location(6, i - 12)
    else if i < 28 then Location(5, i - 20)
    else if i < 30 then Location(4, i - 28)
    else Location(4, i - 27)
  }

  /** The marker bits; no SCR bit is stored on one. */
  predicate IsMarkerBit(loc: Location)
  {
    loc == Location(4, 7) || loc == Location(4, 6) || loc == Location(4, 2) ||
    loc == Location(6, 2) || loc == Location(8, 2)
  }

  lemma ScrLocationsDistinct(i: nat, j: nat)
    requires i < 33 && j < 33
    ensures ScrLocation(i) == ScrLocation(j) <==> i == j
    ensures !IsMarkerBit(ScrLocation(i))
  {
  }

  function BitAt(buf: seq<bv8>, loc: Location): (b: nat)
    requires |buf| >= HeaderLength && loc.InHeader()
    ensures b < 2
  {
    ByteBit(buf[loc.offset], loc.bit)
  }

  /** The first n SCR bits of the header, bit i weighted 2^i. */
  function ClockSum(buf: seq<bv8>, n: nat): (clock: nat)
    requires |buf| >= HeaderLength && n <= 33
    ensures clock < Pow2(n)
  {
    if n == 0 then 0
    else
      BitTimesWeight(BitAt(buf, ScrLocation(n - 1)), Pow2(n - 1));
      ClockSum(buf, n - 1) + BitAt(buf, ScrLocation(n - 1)) * Pow2(n - 1)
  }

  /**
   * dvr-recover.py mpeg_header: the 33-bit clock of a pack header, or None
   * when the start code or a marker field is wrong.
   */
  function MpegHeader(buf: seq<bv8>): (clock: Option<nat>)
    requires |buf| >= HeaderLength
    ensures clock.Some? <==> IsPackHeader(buf)
    ensures clock.Some? ==> clock.value < Pow2(33)
  {
    if !HasStartCode(buf) then None
    else if !HasMarkers(buf) then None
    else Some(ClockSum(buf, 33))
  }

  /**
   * dvrrecover/chunkfactory.py mpeg_header: the same checks, but its bit
   * table stops after 32 entries, so SCR bit 32 (bit 5 of byte 4) is never read.
   */
  function FactoryMpegHeader(buf: seq<bv8>): (clock: Option<nat>)
    requires |buf| >= HeaderLength
    ensures clock.Some? <==> IsPackHeader(buf)
    ensures clock.Some? ==> clock.value < Pow2(32)
  {
    if !HasStartCode(buf) then None
    else if !HasMarkers(buf) then None
    else Some(ClockSum(buf, 32))
  }

  // ---------------------------------------------------------------------------
  // A pack header built from a clock value, by writing each clock bit into
  // its place: the inverse of the decoders.
  // ---------------------------------------------------------------------------

  /** A byte with bit k replaced by v; every other bit is kept. */
  function PutBit(b: bv8, k: nat, v: nat): (r: bv8)
    requires k < 8 && v < 2
    ensures ByteBit(r, k) == v
    ensures forall k' :: 0 <= k' < 8 && k' != k ==> ByteBit(r, k') == ByteBit(b, k')
  {
    if v == 1 then SetBit(b, k); b | Mask(k) else ClearBit(b, k); b & !Mask(k)
  }

  lemma SetBit(b: bv8, k: nat)
    requires k < 8
    ensures ByteBit(b | Mask(k), k) == 1
    ensures forall k' :: 0 <= k' < 8 && k' != k ==> ByteBit(b | Mask(k), k') == ByteBit(b, k')
  {
  }

  lemma ClearBit(b: bv8, k: nat)
    requires k < 8
    ensures ByteBit(b & !Mask(k), k) == 0
    ensures forall k' :: 0 <= k' < 8 && k' != k ==> ByteBit(b & !Mask(k), k') == ByteBit(b, k')
  {
  }

  /** Start code, marker bits set, every clock bit zero. */
  const BlankHeader: seq<bv8> := [0x00, 0x00, 0x01, 0xBA, 0x44, 0x00, 0x04, 0x00, 0x04]

  /** The markers of HasMarkers, bit by bit. */
  lemma MarkersByBits(buf: seq<bv8>)
    requires |buf| >= HeaderLength
    ensures HasMarkers(buf) <==>
      ByteBit(buf[4], 7) == 0 && ByteBit(buf[4], 6) == 1 && ByteBit(buf[4], 2) == 1 &&
      ByteBit(buf[6], 2) == 1 && ByteBit(buf[8], 2) == 1
  {
  }

  /** The blank header with SCR bits 0..n-1 of c written in. */
  function EncodeBits(c: nat, n: nat): (buf: seq<bv8>)
    requires n <= 33
    ensures |buf| == HeaderLength && buf[..4] == BlankHeader[..4]
  {
    if n == 0 then BlankHeader
    else
      var prev := EncodeBits(c, n - 1);
      var loc := ScrLocation(n - 1);
      prev[loc.offset := PutBit(prev[loc.offset], loc.bit, NatBit(c, n - 1))]
  }

  lemma {:induction false} EncodeBitsSpec(c: nat, n: nat)
    requires n <= 33
    ensures forall i :: 0 <= i < n ==> BitAt(EncodeBits(c, n), ScrLocation(i)) == NatBit(c, i)
    ensures forall loc: Location :: loc.InHeader() && IsMarkerBit(loc) ==>
      BitAt(EncodeBits(c, n), loc) == BitAt(BlankHeader, loc)
  {
    if n > 0 {
      EncodeBitsSpec(c, n - 1);
      var prev := EncodeBits(c, n - 1);
      var buf := EncodeBits(c, n);
      var last := ScrLocation(n - 1);
      forall i | 0 <= i < n
        ensures BitAt(buf, ScrLocation(i)) == NatBit(c, i)
      {
        ScrLocationsDistinct(i, n - 1);
      }
      forall loc: Location | loc.InHeader() && IsMarkerBit(loc)
        ensures BitAt(buf, loc) == BitAt(BlankHeader, loc)
      {
        ScrLocationsDistinct(n - 1, n - 1);
        assert loc != last;
      }
    }
  }

  /** The 9-byte pack header start whose SCR base is c (extension bits zero). */
  function PackHeaderFor(c: nat): (buf: seq<bv8>)
    ensures |buf| == HeaderLength
  {
    EncodeBits(c, 33)
  }

  lemma EncodedIsPackHeader(c: nat)
    ensures IsPackHeader(PackHeaderFor(c))
    ensures forall i :: 0 <= i < 33 ==> BitAt(PackHeaderFor(c), ScrLocation(i)) == NatBit(c, i)
  {
    EncodeBitsSpec(c, 33);
    var buf := PackHeaderFor(c);
    assert buf[0] == buf[..4][0] && buf[1] == buf[..4][1] && buf[2] == buf[..4][2] && buf[3] == buf[..4][3];
    assert BitAt(buf, Location(4, 7)) == BitAt(BlankHeader, Location(4, 7));
    assert BitAt(buf, Location(4, 6)) == BitAt(BlankHeader, Location(4, 6));
    assert BitAt(buf, Location(4, 2)) == BitAt(BlankHeader, Location(4, 2));
    assert BitAt(buf, Location(6, 2)) == BitAt(BlankHeader, Location(6, 2));
    assert BitAt(buf, Location(8, 2)) == BitAt(BlankHeader, Location(8, 2));
    MarkersByBits(buf);
  }

  /** Bits that spell c in the SCR places make ClockSum spell c modulo 2^n. */
  lemma {:induction false} ClockSumOfBits(buf: seq<bv8>, n: nat, c: nat)
    requires |buf| >= HeaderLength && n <= 33
    requires forall i :: 0 <= i < n ==> BitAt(buf, ScrLocation(i)) == NatBit(c, i)
    ensures ClockSum(buf, n) == c % Pow2(n)
  {
    if n > 0 {
      ClockSumOfBits(buf, n - 1, c);
      ModPow2Step(c, n - 1);
    }
  }

  /** Decoding a header built from a 33-bit clock gives that clock back. */
  lemma HeaderRoundTrip(c: nat)
    requires c < Pow2(33)
    ensures MpegHeader(PackHeaderFor(c)) == Some(c)
  {
    EncodedIsPackHeader(c);
    ClockSumOfBits(PackHeaderFor(c), 33, c);
    DivModUnique(c, Pow2(33), 0, c);
  }

  /** Only the first `HeaderLength` bytes of a block decide its clock. */
  lemma HeaderPrefix(buf: seq<bv8>, buf': seq<bv8>)
    requires |buf| >= HeaderLength && |buf'| >= HeaderLength && buf[..HeaderLength] == buf'[..HeaderLength]
    ensures MpegHeader(buf) == MpegHeader(buf')
  {
    forall k | 0 <= k < HeaderLength ensures buf[k] == buf'[k] {
      assert buf[k] == buf[..HeaderLength][k];
    }
    SameBitsSameSum(buf, buf', 33);
  }

  /** Flipping a marker bit of a valid header makes it invalid. */
  lemma MarkerFlipInvalidates(buf: seq<bv8>, loc: Location)
    requires |buf| >= HeaderLength && IsPackHeader(buf)
    requires loc.InHeader() && IsMarkerBit(loc)
    ensures !IsPackHeader(buf[loc.offset := buf[loc.offset] ^ Mask(loc.bit)])
  {
  }

  /** Altering any start-code byte of a valid header makes it invalid. */
  lemma StartCodeChangeInvalidates(buf: seq<bv8>, k: nat, x: bv8)
    requires |buf| >= HeaderLength && IsPackHeader(buf) && k < 4 && x != buf[k]
    ensures !IsPackHeader(buf[k := x])
  {
    var buf' := buf[k := x];
    assert buf'[k] == x;
  }

  /** chunkfactory.py reads the low 32 clock bits only: its value is the full clock modulo 2^32. */
  lemma FactoryDropsTopBit(buf: seq<bv8>)
    requires |buf| >= HeaderLength && IsPackHeader(buf)
    ensures FactoryMpegHeader(buf).value == MpegHeader(buf).value % Pow2(32)
    ensures MpegHeader(buf).value == FactoryMpegHeader(buf).value + BitAt(buf, Location(4, 5)) * Pow2(32)
  {
    var low := ClockSum(buf, 32);
    DivModUnique(ClockSum(buf, 33), Pow2(32), BitAt(buf, Location(4, 5)), low);
  }

  /** Bit 5 of byte 4 is never read by the 32-bit reader. */
  lemma FactoryIgnoresBit32(buf: seq<bv8>)
    requires |buf| >= HeaderLength
    ensures FactoryMpegHeader(buf[4 := buf[4] ^ 0x20]) == FactoryMpegHeader(buf)
  {
    var buf' := buf[4 := buf[4] ^ 0x20];
    forall i | 0 <= i < 32 ensures BitAt(buf', ScrLocation(i)) == BitAt(buf, ScrLocation(i)) {
      var loc := ScrLocation(i);
      if loc.offset == 4 {
        XorKeepsBit(buf[4], loc.bit);
      }
    }
    SameBitsSameSum(buf, buf', 32);
  }

  /** Flipping bit 5 of a byte leaves its other bits alone. */
  lemma XorKeepsBit(b: bv8, k: nat)
    requires k < 8 && k != 5
    ensures ByteBit(b ^ 0x20, k) == ByteBit(b, k)
  {
  }

  lemma {:induction false} SameBitsSameSum(buf: seq<bv8>, buf': seq<bv8>, n: nat)
    requires |buf| >= HeaderLength && |buf'| >= HeaderLength && n <= 33
    requires forall i :: 0 <= i < n ==> BitAt(buf, ScrLocation(i)) == BitAt(buf', ScrLocation(i))
    ensures ClockSum(buf, n) == ClockSum(buf', n)
  {
    if n > 0 {
      SameBitsSameSum(buf, buf', n - 1);
    }
  }

  /** The value of bits lo..lo+w-1 of a byte. */
  function BitField(b: bv8, lo: nat, w: nat): (v: nat)
    requires lo + w <= 8
    ensures v < Pow2(w)
  {
    if w == 0 then 0
    else
      BitTimesWeight(ByteBit(b, lo + w - 1), Pow2(w - 1));
      BitField(b, lo, w - 1) + ByteBit(b, lo + w - 1) * Pow2(w - 1)
  }

  /** A bit times a weight is at most the weight. */
  lemma BitTimesWeight(bit: nat, weight: nat)
    requires bit < 2
    ensures bit * weight <= weight
  {
  }

  /** A run of w SCR bits stored at consecutive bits of one byte adds that byte field, scaled. */
  lemma {:induction false} ClockSumRun(buf: seq<bv8>, a: nat, offset: nat, lo: nat, w: nat)
    requires |buf| >= HeaderLength && a + w <= 33 && lo + w <= 8 && 4 <= offset < HeaderLength
    requires forall i :: a <= i < a + w ==> ScrLocation(i) == Location(offset, lo + i - a)
    ensures ClockSum(buf, a + w) == ClockSum(buf, a) + Pow2(a) * BitField(buf[offset], lo, w)
  {
    if w > 0 {
      ClockSumRun(buf, a, offset, lo, w - 1);
      RunBit(buf, a, offset, lo, w);
    }
  }

  /** The step of `ClockSumRun`: SCR bit a + w - 1 is bit lo + w - 1 of the byte. */
  lemma RunBit(buf: seq<bv8>, a: nat, offset: nat, lo: nat, w: nat)
    requires |buf| >= HeaderLength && 0 < w && a + w <= 33 && lo + w <= 8 && 4 <= offset < HeaderLength
    requires ScrLocation(a + w - 1) == Location(offset, lo + w - 1)
    requires ClockSum(buf, a + w - 1) == ClockSum(buf, a) + Pow2(a) * BitField(buf[offset], lo, w - 1)
    ensures ClockSum(buf, a + w) == ClockSum(buf, a) + Pow2(a) * BitField(buf[offset], lo, w)
  {
    var k := w - 1;
    var bit := ByteBit(buf[offset], lo + k);
    var total, sum, field, f := ClockSum(buf, a + w), ClockSum(buf, a + k), BitField(buf[offset], lo, w), BitField(buf[offset], lo, k);
    assert total == sum + bit * Pow2(a + k);
    assert field == f + bit * Pow2(k);
    Pow2Add(a, k);
    RunStep(total, sum, ClockSum(buf, a), Pow2(a), field, f, Pow2(k), bit, Pow2(a + k));
  }

  /** One more bit of a run: the arithmetic of the step of `ClockSumRun`. */
  lemma RunStep(total: int, sum: int, base: int, p: int, field: int, f: int, q: int, bit: int, weight: int)
    requires sum == base + p * f && weight == p * q
    requires total == sum + bit * weight && field == f + bit * q
    ensures total == base + p * field
  {
    assert p * (f + bit * q) == p * f + p * (bit * q);
    assert p * (bit * q) == bit * (p * q);
  }

  /** The clock, field by field, as the bytes of the header hold it. */
  lemma ClockFields(buf: seq<bv8>)
    requires |buf| >= HeaderLength
    ensures ClockSum(buf, 33) ==
      BitField(buf[8], 3, 5) + Pow2(5) * BitField(buf[7], 0, 8) +
      Pow2(13) * BitField(buf[6], 0, 2) + Pow2(15) * BitField(buf[6], 3, 5) +
      Pow2(20) * BitField(buf[5], 0, 8) +
      Pow2(28) * BitField(buf[4], 0, 2) + Pow2(30) * BitField(buf[4], 3, 3)
  {
    ClockFieldsLow(buf);
    RunByte6Low(buf);
    RunByte6High(buf);
    ClockFieldsHigh(buf);
    Telescope(ClockSum(buf, 13), ClockSum(buf, 15), ClockSum(buf, 20),
              Pow2(13) * BitField(buf[6], 0, 2), Pow2(15) * BitField(buf[6], 3, 5));
  }

  lemma ClockFieldsLow(buf: seq<bv8>)
    requires |buf| >= HeaderLength
    ensures ClockSum(buf, 13) == BitField(buf[8], 3, 5) + Pow2(5) * BitField(buf[7], 0, 8)
  {
    RunByte8(buf);
    var f := BitField(buf[8], 3, 5);
    assert Pow2(0) * f == f;
    RunByte7(buf);
  }

  lemma ClockFieldsHigh(buf: seq<bv8>)
    requires |buf| >= HeaderLength
    ensures ClockSum(buf, 33) ==
      ClockSum(buf, 20) + Pow2(20) * BitField(buf[5], 0, 8) +
      Pow2(28) * BitField(buf[4], 0, 2) + Pow2(30) * BitField(buf[4], 3, 3)
  {
    RunByte5(buf);
    RunByte4Low(buf);
    RunByte4High(buf);
    Telescope(ClockSum(buf, 20), ClockSum(buf, 28), ClockSum(buf, 30),
              Pow2(20) * BitField(buf[5], 0, 8), Pow2(28) * BitField(buf[4], 0, 2));
  }

  /** SCR bits 0..4: bits 3..7 of byte 8. */
  lemma RunByte8(buf: seq<bv8>)
    requires |buf| >= HeaderLength
    ensures ClockSum(buf, 5) == ClockSum(buf, 0) + Pow2(0) * BitField(buf[8], 3, 5)
  {
    ClockSumRun(buf, 0, 8, 3, 5);
  }

  /** SCR bits 5..12: byte 7. */
  lemma RunByte7(buf: seq<bv8>)
    requires |buf| >= HeaderLength
    ensures ClockSum(buf, 13) == ClockSum(buf, 5) + Pow2(5) * BitField(buf[7], 0, 8)
  {
    ClockSumRun(buf, 5, 7, 0, 8);
  }

  /** SCR bits 13..14: bits 0..1 of byte 6. */
  lemma RunByte6Low(buf: seq<bv8>)
    requires |buf| >= HeaderLength
    ensures ClockSum(buf, 15) == ClockSum(buf, 13) + Pow2(13) * BitField(buf[6], 0, 2)
  {
    ClockSumRun(buf, 13, 6, 0, 2);
  }

  /** SCR bits 15..19: bits 3..7 of byte 6. */
  lemma RunByte6High(buf: seq<bv8>)
    requires |buf| >= HeaderLength
    ensures ClockSum(buf, 20) == ClockSum(buf, 15) + Pow2(15) * BitField(buf[6], 3, 5)
  {
    ClockSumRun(buf, 15, 6, 3, 5);
  }

  /** SCR bits 20..27: byte 5. */
  lemma RunByte5(buf: seq<bv8>)
    requires |buf| >= HeaderLength
    ensures ClockSum(buf, 28) == ClockSum(buf, 20) + Pow2(20) * BitField(buf[5], 0, 8)
  {
    ClockSumRun(buf, 20, 5, 0, 8);
  }

  /** SCR bits 28..29: bits 0..1 of byte 4. */
  lemma RunByte4Low(buf: seq<bv8>)
    requires |buf| >= HeaderLength
    ensures ClockSum(buf, 30) == ClockSum(buf, 28) + Pow2(28) * BitField(buf[4], 0, 2)
  {
    ClockSumRun(buf, 28, 4, 0, 2);
  }

  /** SCR bits 30..32: bits 3..5 of byte 4. */
  lemma RunByte4High(buf: seq<bv8>)
    requires |buf| >= HeaderLength
    ensures ClockSum(buf, 33) == ClockSum(buf, 30) + Pow2(30) * BitField(buf[4], 3, 3)
  {
    ClockSumRun(buf, 30, 4, 3, 3);
  }

  /** Two consecutive increments add up. */
  lemma Telescope(s0: int, s1: int, s2: int, x: int, y: int)
    requires s1 == s0 + x && s2 == s1 + y
    ensures s2 == s0 + x + y
  {
  }

  lemma Pow2Values()
    ensures Pow2(5) == 0x20 && Pow2(13) == 0x2000 && Pow2(15) == 0x8000 && Pow2(20) == 0x10_0000
    ensures Pow2(28) == 0x1000_0000 && Pow2(30) == 0x4000_0000
  {
    Pow2Add(5, 8);
    Pow2Add(13, 2);
    Pow2Add(15, 5);
    Pow2Add(20, 8);
    Pow2Add(28, 2);
  }

  /** The first pack header of the C test program decodes to 0x673F53. */
  lemma TestVector1(buf: seq<bv8>)
    requires buf == [0x00, 0x00, 0x01, 0xBA, 0x44, 0x06, 0x75, 0xFA, 0x9C]
    ensures MpegHeader(buf) == Some(0x673F53)
  {
    Vector1Sum(buf);
    assert IsPackHeader(buf);
  }

  lemma Vector1Sum(buf: seq<bv8>)
    requires buf == [0x00, 0x00, 0x01, 0xBA, 0x44, 0x06, 0x75, 0xFA, 0x9C]
    ensures ClockSum(buf, 33) == 0x673F53
  {
    ClockFields(buf);
    Pow2Values();
    Vector1Byte8();
    Vector1Byte7();
    Vector1Byte6();
    Vector1Byte5();
    Vector1Byte4();
  }

  lemma Vector1Byte8() ensures BitField(0x9C, 3, 5) == 0x13 {}
  lemma Vector1Byte7()
    ensures BitField(0xFA, 0, 8) == 0xFA
  {
    assert BitField(0xFA, 0, 4) == 0xFA as nat % 16;
  }
  lemma Vector1Byte6() ensures BitField(0x75, 0, 2) == 1 && BitField(0x75, 3, 5) == 0x0E {}
  lemma Vector1Byte5()
    ensures BitField(0x06, 0, 8) == 0x06
  {
    assert BitField(0x06, 0, 4) == 0x06 as nat % 16;
  }
  lemma Vector1Byte4() ensures BitField(0x44, 0, 2) == 0 && BitField(0x44, 3, 3) == 0 {}

  /** The second pack header of the C test program decodes to 0x11C6005F0. */
  lemma TestVector2(buf: seq<bv8>)
    requires buf == [0x00, 0x00, 0x01, 0xBA, 0x65, 0xC6, 0x04, 0x2F, 0x84]
    ensures MpegHeader(buf) == Some(0x1_1C60_05F0)
  {
    Vector2Sum(buf);
    assert IsPackHeader(buf);
  }

  lemma Vector2Sum(buf: seq<bv8>)
    requires buf == [0x00, 0x00, 0x01, 0xBA, 0x65, 0xC6, 0x04, 0x2F, 0x84]
    ensures ClockSum(buf, 33) == 0x1_1C60_05F0
  {
    ClockFields(buf);
    Pow2Values();
    Vector2Byte8();
    Vector2Byte7();
    Vector2Byte6();
    Vector2Byte5();
    Vector2Byte4();
  }

  lemma Vector2Byte8() ensures BitField(0x84, 3, 5) == 0x10 {}
  lemma Vector2Byte7()
    ensures BitField(0x2F, 0, 8) == 0x2F
  {
    assert BitField(0x2F, 0, 4) == 0x2F as nat % 16;
  }
  lemma Vector2Byte6() ensures BitField(0x04, 0, 2) == 0 && BitField(0x04, 3, 5) == 0 {}
  lemma Vector2Byte5()
    ensures BitField(0xC6, 0, 8) == 0xC6
  {
    assert BitField(0xC6, 0, 4) == 0xC6 as nat % 16;
  }
  lemma Vector2Byte4() ensures BitField(0x65, 0, 2) == 1 && BitField(0x65, 3, 3) == 4 {}
}

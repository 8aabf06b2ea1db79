/**
 * The C implementation's `mpeg_time` (mpeg.c): a clock value held as five
 * unsigned bytes, most significant first, so that `memcmp` orders timestamps
 * like the values they hold. The stored SCR needs 33 of the 40 bits.
 */
module MpegTime {
  import opened Bits
  import opened PackHeader

  /** C's `unsigned char`. */
  newtype uint8 = x: int | 0 <= x < 256

  /** Bytes per timestamp. */
  const Width: nat := 5

  const Zeros: seq<uint8> := [0, 0, 0, 0, 0]

  function Pow256(n: nat): (r: nat)
    ensures r >= 1
  {
    if n == 0 then 1 else 256 * Pow256(n - 1)
  }

  lemma {:induction false} Pow256IsPow2(n: nat)
    ensures Pow256(n) == Pow2(8 * n)
  {
    if n > 0 {
      Pow256IsPow2(n - 1);
      Pow2Add(8 * (n - 1), 8);
      assert Pow2(8) == 256;
    }
  }

  /** The number a byte string spells, first byte most significant. */
  function Value(t: seq<uint8>): (v: nat)
    ensures v < Pow256(|t|)
  {
    if |t| == 0 then 0 else Value(t[..|t| - 1]) * 256 + t[|t| - 1] as nat
  }

  /** The n-byte big-endian spelling of v modulo 256^n. */
  function ToBytes(v: nat, n: nat): (t: seq<uint8>)
    ensures |t| == n
  {
    if n == 0 then [] else ToBytes(v / 256, n - 1) + [(v % 256) as uint8]
  }

  lemma {:induction false} ValueOfToBytes(v: nat, n: nat)
    ensures Value(ToBytes(v, n)) == v % Pow256(n)
  {
    if n > 0 {
      ValueOfToBytes(v / 256, n - 1);
      var t := ToBytes(v, n);
      assert t[..n - 1] == ToBytes(v / 256, n - 1);
      ModMul(v, 256, Pow256(n - 1));
    }
  }

  lemma {:induction false} ToBytesOfValue(t: seq<uint8>)
    ensures ToBytes(Value(t), |t|) == t
  {
    if |t| > 0 {
      var n := |t|;
      var prefix := t[..n - 1];
      ToBytesOfValue(prefix);
      DivModUnique(Value(t), 256, Value(prefix), t[n - 1] as nat);
      assert t == prefix + [t[n - 1]];
    }
  }

  /** Byte k of the spelling is the base-256 digit of weight 256^(n-1-k). */
  lemma {:induction false} ToBytesDigit(v: nat, n: nat, k: nat)
    requires k < n
    ensures ToBytes(v, n)[k] as nat == (v / Pow256(n - 1 - k)) % 256
  {
    if k < n - 1 {
      ToBytesDigit(v / 256, n - 1, k);
      DivDiv(v, 256, Pow256(n - 2 - k));
    }
  }

  /** A weight times 256 is the next weight. */
  lemma ShiftWeight(a: int, m: nat)
    ensures a * Pow256(m) * 256 == a * Pow256(m + 1)
  {
    assert Pow256(m + 1) == 256 * Pow256(m);
  }

  /** The value seen from the most significant byte. */
  lemma {:induction false} ValueFront(t: seq<uint8>)
    requires |t| > 0
    ensures Value(t) == t[0] as nat * Pow256(|t| - 1) + Value(t[1..])
  {
    var n := |t|;
    if n == 1 {
      assert t[..0] == [] && t[1..] == [];
    } else {
      var prefix := t[..n - 1];
      var last := t[n - 1] as nat;
      ValueFront(prefix);
      var w := Value(prefix[1..]);
      assert prefix[1..] == t[1..][..n - 2];
      assert Value(t[1..]) == w * 256 + last;
      ShiftWeight(t[0] as nat, n - 2);
    }
  }

  /** Writing x over byte k moves the value by the change times that byte's weight. */
  lemma {:induction false} ValueUpdate(t: seq<uint8>, k: nat, x: uint8)
    requires k < |t|
    ensures Value(t[k := x]) == Value(t) + (x as int - t[k] as int) * Pow256(|t| - 1 - k)
  {
    var n := |t|;
    var t' := t[k := x];
    if k == n - 1 {
      assert t'[..n - 1] == t[..n - 1];
    } else {
      ValueUpdate(t[..n - 1], k, x);
      assert t'[..n - 1] == t[..n - 1][k := x];
      var delta := x as int - t[k] as int;
      var v := Value(t[..n - 1]);
      assert Value(t'[..n - 1]) == v + delta * Pow256(n - 2 - k);
      assert Value(t') == Value(t'[..n - 1]) * 256 + t[n - 1] as nat;
      ShiftWeight(delta, n - 2 - k);
    }
  }

  lemma DigitBound(t: seq<uint8>, k: nat)
    requires k < |t|
    ensures t[k] as nat * Pow256(|t| - 1 - k) <= Value(t)
  {
    var w, a := Pow256(|t| - 1 - k), t[k] as int;
    ValueUpdate(t, k, 0);
    NegatedProduct(a, w);
  }

  lemma NegatedProduct(a: int, w: int)
    ensures (0 - a) * w == 0 - a * w
  {
  }

  /** The value of a five-byte string, written out. */
  lemma ValueOfFive(t: seq<uint8>)
    requires |t| == Width
    ensures Value(t) == t[0] as nat * 0x1_0000_0000 + t[1] as nat * 0x100_0000 + t[2] as nat * 0x1_0000 +
      t[3] as nat * 0x100 + t[4] as nat
  {
    assert t[..4][..3] == t[..3] && t[..3][..2] == t[..2] && t[..2][..1] == t[..1] && t[..1][..0] == [];
    assert Value(t[..1]) == t[0] as nat;
    assert Value(t[..2]) == Value(t[..1]) * 256 + t[1] as nat;
    assert Value(t[..3]) == Value(t[..2]) * 256 + t[2] as nat;
    assert Value(t[..4]) == Value(t[..3]) * 256 + t[3] as nat;
    assert Value(t) == Value(t[..4]) * 256 + t[4] as nat;
  }

  // ---------------------------------------------------------------------------
  // mpeg_timestamp_cmp
  // ---------------------------------------------------------------------------

  /** memcmp on equally long byte strings: the sign of the first differing byte pair. */
  function Compare(t1: seq<uint8>, t2: seq<uint8>): (r: int)
    requires |t1| == |t2|
    ensures -1 <= r <= 1
  {
    if |t1| == 0 then 0
    else if t1[0] < t2[0] then -1
    else if t1[0] > t2[0] then 1
    else Compare(t1[1..], t2[1..])
  }

  /** Comparing the bytes orders the timestamps by value, and only equal timestamps compare equal. */
  lemma {:induction false} CompareIsValueOrder(t1: seq<uint8>, t2: seq<uint8>)
    requires |t1| == |t2|
    ensures Compare(t1, t2) < 0 <==> Value(t1) < Value(t2)
    ensures Compare(t1, t2) > 0 <==> Value(t1) > Value(t2)
    ensures Compare(t1, t2) == 0 <==> t1 == t2
  {
    if |t1| > 0 {
      if t1[0] < t2[0] {
        FirstByteDecides(t1, t2);
      } else if t1[0] > t2[0] {
        FirstByteDecides(t2, t1);
      } else {
        CompareIsValueOrder(t1[1..], t2[1..]);
        ValueFront(t1);
        ValueFront(t2);
        assert t1 == [t1[0]] + t1[1..] && t2 == [t2[0]] + t2[1..];
      }
    }
  }

  /** A smaller first byte means a smaller value, whatever follows. */
  lemma FirstByteDecides(t1: seq<uint8>, t2: seq<uint8>)
    requires |t1| == |t2| > 0 && t1[0] < t2[0]
    ensures Value(t1) < Value(t2)
  {
    ValueFront(t1);
    ValueFront(t2);
    var p := Pow256(|t1| - 1);
    MulMonotone(p, t1[0] as int + 1, t2[0] as int);
    assert Value(t1) < t1[0] as int * p + p == (t1[0] as int + 1) * p;
  }

  lemma CompareAntisymmetric(t1: seq<uint8>, t2: seq<uint8>)
    requires |t1| == |t2|
    ensures Compare(t1, t2) == -Compare(t2, t1)
  {
    CompareIsValueOrder(t1, t2);
    CompareIsValueOrder(t2, t1);
  }

  // ---------------------------------------------------------------------------
  // mpeg_timestamp_create, _copy, _from_int, _extract
  // ---------------------------------------------------------------------------

  /** A zeroed timestamp, as malloc followed by memset. */
  method Create() returns (time: array<uint8>)
    ensures fresh(time) && time[..] == Zeros
  {
    time := new uint8[Width](_ => 0);
    assert time[..] == Zeros;
  }

  method Copy(t: array<uint8>) returns (result: array<uint8>)
    requires t.Length == Width
    ensures fresh(result) && result[..] == t[..]
  {
    result := new uint8[Width](i reads t => if 0 <= i < t.Length then t[i] else 0);
  }

  /**
   * Timestamp from a C `unsigned int`: byte 0 stays zero and bytes 1..4 take
   * the value's bytes, most significant first, whatever the host's byte order.
   */
  method FromInt(value: nat) returns (time: array<uint8>)
    requires value < 0x1_0000_0000
    ensures fresh(time) && time[..] == ToBytes(value, Width)
  {
    time := new uint8[Width](_ => 0);
    var i := 1;
    while i < Width
      invariant 1 <= i <= Width
      invariant time[0] == 0
      invariant forall k :: 1 <= k < i ==> time[k] == ToBytes(value, Width)[k]
      invariant forall k :: i <= k < Width ==> time[k] == 0
    {
      ToBytesDigit(value, Width, i);
      time[i] := ((value / Pow256(4 - i)) % 256) as uint8;
      i := i + 1;
    }
    ToBytesDigit(value, Width, 0);
    assert Pow256(4) == 0x1_0000_0000;
    assert time[..] == ToBytes(value, Width);
  }

  /** The 33-bit clock of a valid pack header as five bytes, or null when the header is invalid. */
  method Extract(buffer: seq<bv8>) returns (result: array?<uint8>)
    requires |buffer| >= HeaderLength
    ensures result == null <==> !IsPackHeader(buffer)
    ensures result != null ==> fresh(result) && result[..] == ToBytes(MpegHeader(buffer).value, Width)
  {
    if !IsPackHeader(buffer) {
      return null;
    }
    result := new uint8[Width](_ => 0);
    ValueOfFive(result[..]);
    var i := 0;
    while i < 33
      invariant 0 <= i <= 33 && result.Length == Width
      invariant Value(result[..]) == ClockSum(buffer, i)
    {
      var k := 4 - i / 8;
      var bit := BitAt(buffer, ScrLocation(i));
      ghost var t := result[..];
      ExtractStep(t, buffer, i);
      var v := ((result[k] as nat + bit * Pow2(i % 8)) % 256) as uint8;
      result[k] := v;
      assert result[..] == t[k := v];
      i := i + 1;
    }
    ToBytesOfValue(result[..]);
  }

  /** Adding SCR bit i into byte 4 - i/8 never carries, and adds bit i's weight to the value. */
  lemma ExtractStep(t: seq<uint8>, buffer: seq<bv8>, i: nat)
    requires |t| == Width && |buffer| >= HeaderLength && i < 33
    requires Value(t) == ClockSum(buffer, i)
    ensures t[4 - i / 8] as nat + BitAt(buffer, ScrLocation(i)) * Pow2(i % 8) < 256
    ensures var k := 4 - i / 8;
      Value(t[k := ((t[k] as nat + BitAt(buffer, ScrLocation(i)) * Pow2(i % 8)) % 256) as uint8])
        == ClockSum(buffer, i + 1)
  {
    var k, bit := 4 - i / 8, BitAt(buffer, ScrLocation(i));
    assert ClockSum(buffer, i + 1) == ClockSum(buffer, i) + bit * Pow2(i);
    assert 4 - k == i / 8;
    BitWeight(i);
    AddBit(t, ClockSum(buffer, i), bit, k, Pow256(i / 8), Pow2(i % 8), Pow2(i));
  }

  /** Adding bit * low into byte k of a value c < low * 256^(4-k) adds bit * low * 256^(4-k) to c. */
  lemma AddBit(t: seq<uint8>, c: nat, bit: nat, k: nat, w: nat, low: nat, p: nat)
    requires |t| == Width && k < Width && w == Pow256(4 - k) && low <= 128 && bit < 2
    requires Value(t) == c && p == w * low && c < p
    ensures t[k] as nat + bit * low < 256
    ensures Value(t[k := ((t[k] as nat + bit * low) % 256) as uint8]) == c + bit * p
  {
    if bit == 0 {
      KeepByte(t, k);
    } else {
      AddIntoByte(t, k, w, low);
    }
  }

  /** Adding nothing into a byte leaves the string as it was. */
  lemma KeepByte(t: seq<uint8>, k: nat)
    requires k < |t|
    ensures t[k := ((t[k] as nat + 0) % 256) as uint8] == t
  {
    var x := t[k];
    assert ((x as nat + 0) % 256) as uint8 == x;
  }

  /** Adding low into byte k of a value below low * 256^(4-k) stays within the byte. */
  lemma AddIntoByte(t: seq<uint8>, k: nat, w: nat, low: nat)
    requires |t| == Width && k < Width && w == Pow256(4 - k) && low <= 128
    requires Value(t) < w * low
    ensures t[k] as nat + low < 256
    ensures Value(t[k := ((t[k] as nat + low) % 256) as uint8]) == Value(t) + w * low
  {
    ByteHasRoom(t, k, low, w);
    var x := t[k] as nat;
    var y := (x + low) as uint8;
    assert ((x + low) % 256) as uint8 == y;
    ValueUpdate(t, k, y);
    var delta := y as int - t[k] as int;
    assert delta == low && Pow256(|t| - 1 - k) == w;
    assert delta * w == w * low;
  }

  /** Bit i of a clock is bit i % 8 of the byte of weight 256^(i / 8). */
  lemma BitWeight(i: nat)
    ensures Pow2(i) == Pow256(i / 8) * Pow2(i % 8)
    ensures Pow2(i % 8) <= 128
  {
    Pow256IsPow2(i / 8);
    Pow2Add(8 * (i / 8), i % 8);
    Pow2Monotone(i % 8, 7);
    assert Pow2(7) == 128;
  }

  /** A value below low * 256^(4-k) leaves byte k below low. */
  lemma ByteHasRoom(t: seq<uint8>, k: nat, low: nat, w: nat)
    requires |t| == Width && k < Width && w == Pow256(4 - k) && Value(t) < w * low
    ensures t[k] as nat < low
  {
    DigitBound(t, k);
    MulCancelBound(w, t[k] as int, low);
  }

  /** The clock of the first test header, as the C test program expects it. */
  lemma ExtractTestVector1()
    ensures ToBytes(MpegHeader([0x00, 0x00, 0x01, 0xBA, 0x44, 0x06, 0x75, 0xFA, 0x9C]).value, Width)
      == [0x00, 0x00, 0x67, 0x3F, 0x53]
  {
    TestVector1([0x00, 0x00, 0x01, 0xBA, 0x44, 0x06, 0x75, 0xFA, 0x9C]);
    ValueOfFive([0x00, 0x00, 0x67, 0x3F, 0x53]);
    ToBytesOfValue([0x00, 0x00, 0x67, 0x3F, 0x53]);
  }

  /** The clock of the second test header, as the C test program expects it. */
  lemma ExtractTestVector2()
    ensures ToBytes(MpegHeader([0x00, 0x00, 0x01, 0xBA, 0x65, 0xC6, 0x04, 0x2F, 0x84]).value, Width)
      == [0x01, 0x1C, 0x60, 0x05, 0xF0]
  {
    TestVector2([0x00, 0x00, 0x01, 0xBA, 0x65, 0xC6, 0x04, 0x2F, 0x84]);
    ValueOfFive([0x01, 0x1C, 0x60, 0x05, 0xF0]);
    ToBytesOfValue([0x01, 0x1C, 0x60, 0x05, 0xF0]);
  }

  // ---------------------------------------------------------------------------
  // mpeg_timestamp_diff, as written
  // ---------------------------------------------------------------------------

  /** Unsigned char decrement, wrapping 0 to 255. */
  function Dec(b: uint8): uint8
  {
    ((b as int - 1) % 256) as uint8
  }

  /**
   * The inner loop: decrement r[j], r[j-1], ... and stop after the first
   * position where `big` holds a nonzero byte.
   */
  function BorrowChain(big: seq<uint8>, r: seq<uint8>, j: int): (r': seq<uint8>)
    requires |r| == |big| && j < |big|
    ensures |r'| == |r|
    decreases j + 1
  {
    if j < 0 then r
    else
      var r1 := r[j := Dec(r[j])];
      if big[j] != 0 then r1 else BorrowChain(big, r1, j - 1)
  }

  /** One pass of the outer loop at position i. */
  function DigitStep(big: seq<uint8>, small: seq<uint8>, r: seq<uint8>, i: nat): (r': seq<uint8>)
    requires |big| == |small| == |r| && i < |r|
    ensures |r'| == |r|
  {
    var r1 := r[i := ((r[i] as int + big[i] as int - small[i] as int) % 256) as uint8];
    if big[i] < small[i] then BorrowChain(big, r1, i - 1) else r1
  }

  /** The outer loop from position i down to 0. */
  function DiffFrom(big: seq<uint8>, small: seq<uint8>, r: seq<uint8>, i: int): (r': seq<uint8>)
    requires |big| == |small| == |r| && i < |r|
    ensures |r'| == |r|
    decreases i + 1
  {
    if i < 0 then r else DiffFrom(big, small, DigitStep(big, small, r, i), i - 1)
  }

  /** mpeg_timestamp_diff as written: the smaller timestamp subtracted from the larger, digit by digit. */
  function DiffAsWritten(t1: seq<uint8>, t2: seq<uint8>): (d: seq<uint8>)
    requires |t1| == Width && |t2| == Width
    ensures |d| == Width
  {
    if Compare(t1, t2) > 0 then DiffFrom(t1, t2, Zeros, 4) else DiffFrom(t2, t1, Zeros, 4)
  }

  method Diff(t1: array<uint8>, t2: array<uint8>) returns (result: array<uint8>)
    requires t1.Length == Width && t2.Length == Width
    ensures fresh(result) && result[..] == DiffAsWritten(t1[..], t2[..])
  {
    var big, small := t2, t1;
    if Compare(t1[..], t2[..]) > 0 {
      big, small := t1, t2;
    }
    result := new uint8[Width](_ => 0);
    assert result[..] == Zeros;
    ghost var b, s := big[..], small[..];
    var i := 4;
    while i >= 0
      invariant -1 <= i <= 4 && result.Length == Width && fresh(result)
      invariant big[..] == b && small[..] == s
      invariant DiffFrom(b, s, result[..], i) == DiffAsWritten(t1[..], t2[..])
    {
      ghost var target := DigitStep(b, s, result[..], i);
      ghost var r := result[..];
      var v := ((result[i] as int + big[i] as int - small[i] as int) % 256) as uint8;
      result[i] := v;
      assert result[..] == r[i := v];
      if big[i] < small[i] {
        var j := i - 1;
        while j >= 0
          invariant -1 <= j < i && big[..] == b
          invariant BorrowChain(b, result[..], j) == target
        {
          ghost var r' := result[..];
          var d := Dec(result[j]);
          result[j] := d;
          assert result[..] == r'[j := d];
          if big[j] != 0 {
            break;
          }
          j := j - 1;
        }
      }
      assert result[..] == target;
      i := i - 1;
    }
  }

  /** Which argument comes first does not matter. */
  lemma DiffSymmetric(t1: seq<uint8>, t2: seq<uint8>)
    requires |t1| == Width && |t2| == Width
    ensures DiffAsWritten(t1, t2) == DiffAsWritten(t2, t1)
  {
    CompareAntisymmetric(t1, t2);
    CompareIsValueOrder(t1, t2);
  }

  /** Without a digit that needs a borrow, the outer loop subtracts digit by digit. */
  lemma {:induction false} DiffFromNoBorrow(big: seq<uint8>, small: seq<uint8>, r: seq<uint8>, i: int)
    requires |big| == |small| == |r| && i < |r|
    requires forall p :: 0 <= p <= i ==> big[p] >= small[p]
    decreases i + 1
    ensures forall p :: 0 <= p < |r| ==>
      DiffFrom(big, small, r, i)[p] as int ==
        (if p <= i then (r[p] as int + big[p] as int - small[p] as int) % 256 else r[p] as int)
  {
    if i >= 0 {
      DiffFromNoBorrow(big, small, DigitStep(big, small, r, i), i - 1);
    }
  }

  /** Digit-by-digit differences spell the difference of the values. */
  lemma {:induction false} ValueOfDigitDifference(d: seq<uint8>, big: seq<uint8>, small: seq<uint8>)
    requires |d| == |big| == |small|
    requires forall p :: 0 <= p < |d| ==> d[p] as int == big[p] as int - small[p] as int
    ensures Value(d) == Value(big) - Value(small)
  {
    if |d| > 0 {
      var n := |d|;
      ValueOfDigitDifference(d[..n - 1], big[..n - 1], small[..n - 1]);
    }
  }

  /** When the larger timestamp is at least the smaller one in every byte, the result is exact. */
  lemma DiffExactWithoutBorrow(t1: seq<uint8>, t2: seq<uint8>)
    requires |t1| == Width && |t2| == Width
    requires (forall p :: 0 <= p < Width ==> t1[p] >= t2[p]) || (forall p :: 0 <= p < Width ==> t2[p] >= t1[p])
    ensures Value(DiffAsWritten(t1, t2)) == Distance(Value(t1), Value(t2))
  {
    CompareIsValueOrder(t1, t2);
    if forall p :: 0 <= p < Width ==> t1[p] >= t2[p] {
      DigitwiseAtLeast(t1, t2);
    }
    if forall p :: 0 <= p < Width ==> t2[p] >= t1[p] {
      DigitwiseAtLeast(t2, t1);
    }
    if Compare(t1, t2) > 0 {
      NoBorrowDifference(t1, t2);
    } else {
      NoBorrowDifference(t2, t1);
    }
  }

  lemma NoBorrowDifference(big: seq<uint8>, small: seq<uint8>)
    requires |big| == Width && |small| == Width
    requires forall p :: 0 <= p < Width ==> big[p] >= small[p]
    ensures Value(DiffFrom(big, small, Zeros, 4)) == Value(big) - Value(small)
  {
    NoBorrowDigits(big, small, Zeros, 4);
    ValueOfDigitDifference(DiffFrom(big, small, Zeros, 4), big, small);
  }

  /** Without a borrow every byte of the result is the difference of the two bytes. */
  lemma NoBorrowDigits(big: seq<uint8>, small: seq<uint8>, zeros: seq<uint8>, last: int)
    requires |big| == |small| == |zeros| && last == |zeros| - 1
    requires forall p :: 0 <= p < |zeros| ==> zeros[p] == 0 && big[p] >= small[p]
    ensures var d := DiffFrom(big, small, zeros, last);
      forall p :: 0 <= p < |zeros| ==> d[p] as int == big[p] as int - small[p] as int
  {
    DiffFromNoBorrow(big, small, zeros, last);
  }

  /** A string at least as large in every byte is at least as large in value, and equal only if identical. */
  lemma {:induction false} DigitwiseAtLeast(a: seq<uint8>, b: seq<uint8>)
    requires |a| == |b| && forall p :: 0 <= p < |a| ==> a[p] >= b[p]
    ensures Value(a) >= Value(b)
    ensures Value(a) == Value(b) ==> a == b
  {
    if |a| > 0 {
      var n := |a|;
      DigitwiseAtLeast(a[..n - 1], b[..n - 1]);
      assert a == a[..n - 1] + [a[n - 1]] && b == b[..n - 1] + [b[n - 1]];
    }
  }

  /** |a - b| */
  function Distance(a: nat, b: nat): nat
  {
    if a >= b then a - b else b - a
  }

  /** The differences the C test program checks come out exact. */
  lemma DiffTestVectors()
    ensures DiffAsWritten([0x00, 0x00, 0x67, 0x3F, 0x53], [0x01, 0x1C, 0x60, 0x05, 0xF0])
      == [0x01, 0x1B, 0xF8, 0xC6, 0x9D]
    ensures DiffAsWritten([0x00, 0x07, 0x00, 0x34, 0x34], [0x00, 0x05, 0x00, 0x88, 0x88])
      == [0x00, 0x01, 0xFF, 0xAB, 0xAC]
  {
  }

  /**
   * A borrow into a byte where both timestamps agree is dropped:
   * 0x10100 - 0x101 comes out as 0x1FFFF instead of 0xFFFF.
   */
  lemma DiffAsWrittenCounterexample()
    ensures DiffAsWritten([0x00, 0x00, 0x01, 0x01, 0x00], [0x00, 0x00, 0x00, 0x01, 0x01])
      == [0x00, 0x00, 0x01, 0xFF, 0xFF]
    ensures Value([0x00, 0x00, 0x01, 0xFF, 0xFF]) == 0x1FFFF
    ensures Distance(Value([0x00, 0x00, 0x01, 0x01, 0x00]), Value([0x00, 0x00, 0x00, 0x01, 0x01])) == 0xFFFF
  {
    ValueOfFive([0x00, 0x00, 0x01, 0xFF, 0xFF]);
    ValueOfFive([0x00, 0x00, 0x01, 0x01, 0x00]);
    ValueOfFive([0x00, 0x00, 0x00, 0x01, 0x01]);
  }

  // ---------------------------------------------------------------------------
  // The difference with the borrow carried through
  // ---------------------------------------------------------------------------

  /** The distance of two timestamps, spelled as a timestamp. */
  function ExactDiff(t1: seq<uint8>, t2: seq<uint8>): (d: seq<uint8>)
    requires |t1| == Width && |t2| == Width
    ensures |d| == Width && Value(d) == Distance(Value(t1), Value(t2))
  {
    var dist := Distance(Value(t1), Value(t2));
    ValueOfToBytes(dist, Width);
    DivModUnique(dist, Pow256(Width), 0, dist);
    ToBytes(dist, Width)
  }

  /** The borrow that positions i.. pass on to position i - 1 in schoolbook subtraction. */
  function BorrowFrom(b: seq<uint8>, s: seq<uint8>, i: nat): (borrow: int)
    requires |b| == Width && |s| == Width && i <= Width
    ensures borrow == 0 || borrow == 1
    decreases Width - i
  {
    if i == Width then 0
    else if b[i] as int - s[i] as int - BorrowFrom(b, s, i + 1) < 0 then 1
    else 0
  }

  /** Digit i of the schoolbook difference b - s. */
  function ExactDigit(b: seq<uint8>, s: seq<uint8>, i: nat): uint8
    requires |b| == Width && |s| == Width && i < Width
  {
    ((b[i] as int - s[i] as int - BorrowFrom(b, s, i + 1)) % 256) as uint8
  }

  function SubtractDigits(b: seq<uint8>, s: seq<uint8>): (d: seq<uint8>)
    requires |b| == Width && |s| == Width
    ensures |d| == Width && forall i :: 0 <= i < Width ==> d[i] == ExactDigit(b, s, i)
  {
    seq(Width, i requires 0 <= i < Width => ExactDigit(b, s, i))
  }

  /** The schoolbook digits from i on, plus s, make b, up to the borrow passed on. */
  lemma {:induction false} SubtractSuffix(b: seq<uint8>, s: seq<uint8>, i: nat)
    requires |b| == Width && |s| == Width && i <= Width
    ensures var d := SubtractDigits(b, s);
      Value(d[i..]) + Value(s[i..]) == Value(b[i..]) + BorrowFrom(b, s, i) * Pow256(Width - i)
    decreases Width - i
  {
    var d := SubtractDigits(b, s);
    if i == Width {
      assert d[i..] == [] && s[i..] == [] && b[i..] == [];
    } else {
      SubtractSuffix(b, s, i + 1);
      SubtractStep(b, s, d, i);
    }
  }

  lemma SubtractStep(b: seq<uint8>, s: seq<uint8>, d: seq<uint8>, i: nat)
    requires |b| == Width && |s| == Width && i < Width && d == SubtractDigits(b, s)
    requires Value(d[i + 1..]) + Value(s[i + 1..]) == Value(b[i + 1..]) + BorrowFrom(b, s, i + 1) * Pow256(4 - i)
    ensures Value(d[i..]) + Value(s[i..]) == Value(b[i..]) + BorrowFrom(b, s, i) * Pow256(Width - i)
  {
    SuffixStep(d, s, b, i);
    var borrowIn := BorrowFrom(b, s, i + 1);
    var borrowOut := BorrowFrom(b, s, i);
    assert d[i] == ExactDigit(b, s, i);
    WrapDigit(b[i] as int - s[i] as int - borrowIn);
    assert d[i] as int == b[i] as int - s[i] as int - borrowIn + 256 * borrowOut;
    assert Pow256(Width - i) == 256 * Pow256(4 - i);
    BorrowArithmetic(d[i] as int, s[i] as int, b[i] as int, borrowIn, borrowOut, Pow256(4 - i), Pow256(Width - i),
      Value(d[i + 1..]), Value(s[i + 1..]), Value(b[i + 1..]));
  }

  /** A byte difference with a borrow wraps once at most. */
  lemma WrapDigit(x: int)
    requires -256 <= x < 256
    ensures x % 256 == if x < 0 then x + 256 else x
  {
    if x < 0 {
      DivModUnique(x, 256, -1, x + 256);
    } else {
      DivModUnique(x, 256, 0, x);
    }
  }

  /** When b is at least s, the schoolbook digits spell b - s. */
  lemma SubtractDigitsExact(b: seq<uint8>, s: seq<uint8>)
    requires |b| == Width && |s| == Width && Value(b) >= Value(s)
    ensures SubtractDigits(b, s) == ToBytes(Value(b) - Value(s), Width)
  {
    var d := SubtractDigits(b, s);
    SubtractSuffix(b, s, 0);
    assert d[0..] == d && s[0..] == s && b[0..] == b;
    NoFinalBorrow(Value(d), Value(s), Value(b), BorrowFrom(b, s, 0), Pow256(Width));
    ToBytesOfValue(d);
  }

  /** Subtracting a smaller value leaves no borrow out of the top byte. */
  lemma NoFinalBorrow(vr: nat, vs: nat, vb: nat, borrow: int, p: nat)
    requires vr < p && vs <= vb && (borrow == 0 || borrow == 1) && vr + vs == vb + borrow * p
    ensures borrow == 0 && vr == vb - vs
  {
  }

  /** Byte i's difference with the incoming and outgoing borrows keeps the suffix equation. */
  lemma BorrowArithmetic(r: int, s: int, b: int, borrowIn: int, borrowOut: int, w: int, w': int,
                         vr: int, vs: int, vb: int)
    requires r == b - s - borrowIn + 256 * borrowOut && w' == 256 * w
    requires vr + vs == vb + borrowIn * w
    ensures (r * w + vr) + (s * w + vs) == (b * w + vb) + borrowOut * w'
  {
    assert r * w == b * w - s * w - borrowIn * w + borrowOut * (256 * w);
  }

  /** The suffix from i is byte i at weight 256^(4-i) in front of the suffix from i+1. */
  lemma SuffixStep(r: seq<uint8>, small: seq<uint8>, big: seq<uint8>, i: nat)
    requires |r| == |small| == |big| == Width && i < Width
    ensures Value(r[i..]) == r[i] as nat * Pow256(4 - i) + Value(r[i + 1..])
    ensures Value(small[i..]) == small[i] as nat * Pow256(4 - i) + Value(small[i + 1..])
    ensures Value(big[i..]) == big[i] as nat * Pow256(4 - i) + Value(big[i + 1..])
  {
    ValueFront(r[i..]);
    ValueFront(small[i..]);
    ValueFront(big[i..]);
    assert r[i..][1..] == r[i + 1..] && small[i..][1..] == small[i + 1..] && big[i..][1..] == big[i + 1..];
  }

  /** The loop of mpeg_timestamp_diff with each borrow subtracted from the next byte's own difference. */
  method SubtractInto(big: array<uint8>, small: array<uint8>) returns (result: array<uint8>)
    requires big.Length == Width && small.Length == Width
    ensures fresh(result) && result[..] == SubtractDigits(big[..], small[..])
  {
    ghost var b, s := big[..], small[..];
    result := new uint8[Width](_ => 0);
    var borrow := 0;
    var i := 4;
    while i >= 0
      invariant -1 <= i <= 4 && result.Length == Width && fresh(result)
      invariant big[..] == b && small[..] == s
      invariant borrow == BorrowFrom(b, s, i + 1)
      invariant forall p :: i < p < Width ==> result[p] == ExactDigit(b, s, p)
    {
      var d := big[i] as int - small[i] as int - borrow;
      if d < 0 {
        result[i] := (d + 256) as uint8;
        borrow := 1;
      } else {
        result[i] := d as uint8;
        borrow := 0;
      }
      i := i - 1;
    }
    assert result[..] == SubtractDigits(b, s);
  }

  /** mpeg_timestamp_diff with each borrow subtracted from the next byte's own difference. */
  method DiffExact(t1: array<uint8>, t2: array<uint8>) returns (result: array<uint8>)
    requires t1.Length == Width && t2.Length == Width
    ensures fresh(result) && result[..] == ExactDiff(t1[..], t2[..])
  {
    var big, small := t2, t1;
    if Compare(t1[..], t2[..]) > 0 {
      big, small := t1, t2;
    }
    result := SubtractInto(big, small);
    CompareIsValueOrder(t1[..], t2[..]);
    SubtractDigitsExact(big[..], small[..]);
  }
}

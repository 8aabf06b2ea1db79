/**
 * The Java port's `MpegTimestamp` (MpegTimestamp.java): the same five-place
 * big-endian timestamp as the C tool, but stored in a `char[5]`, so every
 * place is a 16-bit unsigned number and arithmetic on a place wraps modulo
 * 65536, not 256.
 */
module JavaTimestamp {
  import opened Bits
  import MpegTime

  /** Java `char`: an unsigned 16-bit number. */
  newtype Char = x: int | 0 <= x < 0x1_0000

  /** Places per timestamp. */
  const Length: nat := 5

  /** A Java `int` narrowed to `char`. */
  function ToChar(x: int): Char
  {
    (x % 0x1_0000) as Char
  }

  // ---------------------------------------------------------------------------
  // isEqual / isBigger / isSmaller
  // ---------------------------------------------------------------------------

  /** The comparison the loops make from place `i` on: the sign of the first differing pair. */
  function LexFrom(a: seq<Char>, b: seq<Char>, i: nat): (r: int)
    requires |a| == |b| && i <= |a|
    ensures -1 <= r <= 1
    decreases |a| - i
  {
    if i == |a| then 0
    else if a[i] == b[i] then LexFrom(a, b, i + 1)
    else if a[i] > b[i] then 1
    else -1
  }

  /** Lexicographic order of two storages, from place 0. */
  function Lex(a: seq<Char>, b: seq<Char>): int
    requires |a| == |b|
  {
    LexFrom(a, b, 0)
  }

  /** Swapping the operands flips the comparison. */
  lemma {:induction false} LexAntisymmetric(a: seq<Char>, b: seq<Char>, i: nat)
    requires |a| == |b| && i <= |a|
    ensures LexFrom(a, b, i) == -LexFrom(b, a, i)
    decreases |a| - i
  {
    if i < |a| && a[i] == b[i] {
      LexAntisymmetric(a, b, i + 1);
    }
  }

  /** The comparison is zero exactly when the places from `i` on agree. */
  lemma {:induction false} LexZeroIffEqual(a: seq<Char>, b: seq<Char>, i: nat)
    requires |a| == |b| && i <= |a|
    ensures LexFrom(a, b, i) == 0 <==> a[i..] == b[i..]
    decreases |a| - i
  {
    if i < |a| {
      LexZeroIffEqual(a, b, i + 1);
      assert a[i..] == [a[i]] + a[i + 1..] && b[i..] == [b[i]] + b[i + 1..];
      if a[i] != b[i] {
        assert a[i..][0] != b[i..][0];
      }
    }
  }

  /** Of isBigger, isSmaller and isEqual exactly one holds, and a.isBigger(b) is b.isSmaller(a). */
  lemma Trichotomy(a: seq<Char>, b: seq<Char>)
    requires |a| == |b|
    ensures (Lex(a, b) > 0) == (Lex(b, a) < 0)
    ensures a == b <==> !(Lex(a, b) > 0) && !(Lex(a, b) < 0)
    ensures !(Lex(a, b) > 0 && Lex(a, b) < 0)
  {
    LexAntisymmetric(a, b, 0);
    LexZeroIffEqual(a, b, 0);
    assert a[0..] == a && b[0..] == b;
  }

  // ---------------------------------------------------------------------------
  // difference, as written
  // ---------------------------------------------------------------------------

  /** `storage[j]--` on a `char`: 0 wraps to 65535. */
  function Decrement(c: Char): Char
  {
    ToChar(c as int - 1)
  }

  /** The inner loop: decrement r[j], r[j-1], ... and stop after the first place where `big` is nonzero. */
  function BorrowChain(big: seq<Char>, r: seq<Char>, j: int): (r': seq<Char>)
    requires |r| == |big| && j < |big|
    ensures |r'| == |r|
    decreases j + 1
  {
    if j < 0 then r
    else
      var r1 := r[j := Decrement(r[j])];
      if big[j] != 0 then r1 else BorrowChain(big, r1, j - 1)
  }

  /** One pass of the outer loop at place i: `result.storage[i] += big.storage[i] - small.storage[i]`. */
  function DigitStep(big: seq<Char>, small: seq<Char>, r: seq<Char>, i: nat): (r': seq<Char>)
    requires |big| == |small| == |r| && i < |r|
    ensures |r'| == |r|
  {
    var r1 := r[i := ToChar(r[i] as int + big[i] as int - small[i] as int)];
    if big[i] < small[i] then BorrowChain(big, r1, i - 1) else r1
  }

  /** The outer loop from place i down to 0. */
  function DiffFrom(big: seq<Char>, small: seq<Char>, r: seq<Char>, i: int): (r': seq<Char>)
    requires |big| == |small| == |r| && i < |r|
    ensures |r'| == |r|
    decreases i + 1
  {
    if i < 0 then r else DiffFrom(big, small, DigitStep(big, small, r, i), i - 1)
  }

  const Zeros: seq<Char> := [0, 0, 0, 0, 0]

  /** `difference(t1, t2)`: the smaller storage subtracted from the larger, place by place. */
  function DifferenceOf(t1: seq<Char>, t2: seq<Char>): (d: seq<Char>)
    requires |t1| == Length && |t2| == Length
    ensures |d| == Length
  {
    if Lex(t1, t2) > 0 then DiffFrom(t1, t2, Zeros, 4) else DiffFrom(t2, t1, Zeros, 4)
  }

  /** Which argument comes first does not matter. */
  lemma DifferenceSymmetric(t1: seq<Char>, t2: seq<Char>)
    requires |t1| == Length && |t2| == Length
    ensures DifferenceOf(t1, t2) == DifferenceOf(t2, t1)
  {
    Trichotomy(t1, t2);
    Trichotomy(t2, t1);
    if Lex(t1, t2) == 0 {
      assert t1 == t2;
    }
  }

  class Timestamp {
    var storage: array<Char>

    ghost predicate Valid()
      reads this
    {
      storage.Length == Length
    }

    /** `MpegTimestamp()`: all five places zero. */
    constructor ()
      ensures Valid() && fresh(storage) && storage[..] == Zeros
    {
      var places := new Char[Length](_ => 0);
      assert places[..] == Zeros;
      storage := places;
    }

    /** `MpegTimestamp(time)`: a copy with its own storage. */
    constructor Copy(time: Timestamp)
      requires time.Valid()
      ensures Valid() && fresh(storage) && storage[..] == time.storage[..]
    {
      var places := new Char[Length](_ => 0);
      var i := 0;
      while i < Length
        invariant 0 <= i <= Length
        invariant places[..i] == time.storage[..i]
      {
        places[i] := time.storage[i];
        i := i + 1;
      }
      storage := places;
    }

    method IsEqual(time: Timestamp) returns (r: bool)
      requires Valid() && time.Valid()
      ensures r <==> storage[..] == time.storage[..]
    {
      var i := 0;
      while i < Length
        invariant 0 <= i <= Length
        invariant storage[..i] == time.storage[..i]
      {
        if storage[i] != time.storage[i] {
          assert storage[..][i] != time.storage[..][i];
          return false;
        }
        i := i + 1;
      }
      assert storage[..] == storage[..i];
      assert time.storage[..] == time.storage[..i];
      return true;
    }

    method IsBigger(time: Timestamp) returns (r: bool)
      requires Valid() && time.Valid()
      ensures r <==> Lex(storage[..], time.storage[..]) > 0
    {
      var i := 0;
      while i < Length
        invariant 0 <= i <= Length
        invariant Lex(storage[..], time.storage[..]) == LexFrom(storage[..], time.storage[..], i)
      {
        if storage[i] != time.storage[i] {
          return storage[i] > time.storage[i];
        }
        i := i + 1;
      }
      return false;
    }

    method IsSmaller(time: Timestamp) returns (r: bool)
      requires Valid() && time.Valid()
      ensures r <==> Lex(storage[..], time.storage[..]) < 0
    {
      var i := 0;
      while i < Length
        invariant 0 <= i <= Length
        invariant Lex(storage[..], time.storage[..]) == LexFrom(storage[..], time.storage[..], i)
      {
        if storage[i] != time.storage[i] {
          return storage[i] < time.storage[i];
        }
        i := i + 1;
      }
      return false;
    }
  }

  /** `MpegTimestamp.difference`: a new timestamp; t1 and t2 are left as they were. */
  method Difference(t1: Timestamp, t2: Timestamp) returns (result: Timestamp)
    requires t1.Valid() && t2.Valid()
    ensures fresh(result) && fresh(result.storage) && result.Valid()
    ensures result.storage[..] == DifferenceOf(t1.storage[..], t2.storage[..])
  {
    var big, small := t2, t1;
    var bigger := t1.IsBigger(t2);
    if bigger {
      big, small := t1, t2;
    }
    result := new Timestamp();
    var i := 4;
    while i >= 0
      invariant -1 <= i <= 4 && result.Valid() && fresh(result) && fresh(result.storage)
      invariant DiffFrom(big.storage[..], small.storage[..], result.storage[..], i)
        == DifferenceOf(t1.storage[..], t2.storage[..])
    {
      SubtractPlace(result.storage, big.storage, small.storage, i);
      i := i - 1;
    }
  }

  /**
   * One pass of the outer loop of `difference`: the place difference is added
   * at place i and, when it is negative, the borrow runs down the inner loop.
   */
  method SubtractPlace(r: array<Char>, big: array<Char>, small: array<Char>, i: nat)
    requires r.Length == big.Length == small.Length && i < r.Length && r != big && r != small
    modifies r
    ensures r[..] == DigitStep(big[..], small[..], old(r[..]), i)
  {
    ghost var target := DigitStep(big[..], small[..], r[..], i);
    r[i] := ToChar(r[i] as int + big[i] as int - small[i] as int);
    if big[i] < small[i] {
      var j := i - 1;
      while j >= 0
        invariant -1 <= j < i
        invariant BorrowChain(big[..], r[..], j) == target
      {
        r[j] := Decrement(r[j]);
        if big[j] != 0 {
          break;
        }
        j := j - 1;
      }
    }
  }

  // ---------------------------------------------------------------------------
  // Relation to the C timestamp
  // ---------------------------------------------------------------------------

  /** Every place holds a byte, as the class comment promises. */
  predicate Bytes(t: seq<Char>)
  {
    forall i :: 0 <= i < |t| ==> t[i] < 256
  }

  /** The low byte of every place. */
  function Narrow(t: seq<Char>): (n: seq<MpegTime.uint8>)
    ensures |n| == |t| && forall i :: 0 <= i < |t| ==> n[i] as int == t[i] as int % 256
  {
    seq(|t|, i requires 0 <= i < |t| => (t[i] as int % 256) as MpegTime.uint8)
  }

  /** The places of a byte timestamp, widened to `char`. */
  function Widen(t: seq<MpegTime.uint8>): (w: seq<Char>)
    ensures |w| == |t| && Bytes(w) && Narrow(w) == t
  {
    var w := seq(|t|, i requires 0 <= i < |t| => t[i] as int as Char);
    assert Narrow(w) == t;
    w
  }

  /** The low byte of a number is not changed by reducing it modulo 65536 first. */
  lemma LowByteOfChar(x: int)
    ensures (x % 0x1_0000) % 256 == x % 256
  {
    var q, r := x / 0x1_0000, x % 0x1_0000;
    var q2, r2 := r / 256, r % 256;
    assert x == 256 * (256 * q + q2) + r2;
    DivModUnique(x, 256, 256 * q + q2, r2);
  }

  /** Adding to a number or to its low byte gives the same low byte. */
  lemma LowByteOfSum(a: int, d: int)
    ensures ((a % 256) + d) % 256 == (a + d) % 256
  {
    var q, r := a / 256, a % 256;
    var q3, r3 := (r + d) / 256, (r + d) % 256;
    assert a + d == 256 * (q + q3) + r3;
    DivModUnique(a + d, 256, q + q3, r3);
  }

  /** Place arithmetic on `char`, narrowed to a byte, is place arithmetic on `unsigned char`. */
  lemma NarrowToChar(c: Char, d: int)
    ensures ToChar(c as int + d) as int % 256 == ((c as int % 256) + d) % 256
  {
    LowByteOfChar(c as int + d);
    LowByteOfSum(c as int, d);
  }

  lemma {:induction false} BorrowChainNarrow(big: seq<Char>, r: seq<Char>, j: int)
    requires |r| == |big| && j < |big| && Bytes(big)
    ensures Narrow(BorrowChain(big, r, j)) == MpegTime.BorrowChain(Narrow(big), Narrow(r), j)
    decreases j + 1
  {
    if j >= 0 {
      var r1 := r[j := Decrement(r[j])];
      NarrowToChar(r[j], -1);
      assert Narrow(r1) == Narrow(r)[j := MpegTime.Dec(Narrow(r)[j])];
      if big[j] == 0 {
        BorrowChainNarrow(big, r1, j - 1);
      }
    }
  }

  lemma DigitStepNarrow(big: seq<Char>, small: seq<Char>, r: seq<Char>, i: nat)
    requires |big| == |small| == |r| && i < |r| && Bytes(big) && Bytes(small)
    ensures Narrow(DigitStep(big, small, r, i)) == MpegTime.DigitStep(Narrow(big), Narrow(small), Narrow(r), i)
  {
    var nb, ns, nr := Narrow(big), Narrow(small), Narrow(r);
    var d := big[i] as int - small[i] as int;
    assert nb[i] as int == big[i] as int && ns[i] as int == small[i] as int;
    var r1 := r[i := ToChar(r[i] as int + d)];
    var n1 := nr[i := ((nr[i] as int + nb[i] as int - ns[i] as int) % 256) as MpegTime.uint8];
    NarrowToChar(r[i], d);
    assert Narrow(r1) == n1;
    if big[i] < small[i] {
      assert DigitStep(big, small, r, i) == BorrowChain(big, r1, i - 1);
      assert MpegTime.DigitStep(nb, ns, nr, i) == MpegTime.BorrowChain(nb, n1, i - 1);
      BorrowChainNarrow(big, r1, i - 1);
    } else {
      assert DigitStep(big, small, r, i) == r1;
      assert MpegTime.DigitStep(nb, ns, nr, i) == n1;
    }
  }

  lemma {:induction false} DiffFromNarrow(big: seq<Char>, small: seq<Char>, r: seq<Char>, i: int)
    requires |big| == |small| == |r| && i < |r| && Bytes(big) && Bytes(small)
    ensures Narrow(DiffFrom(big, small, r, i)) == MpegTime.DiffFrom(Narrow(big), Narrow(small), Narrow(r), i)
    decreases i + 1
  {
    if i >= 0 {
      DigitStepNarrow(big, small, r, i);
      DiffFromNarrow(big, small, DigitStep(big, small, r, i), i - 1);
    }
  }

  /** On byte places, the Java order is the C order (`memcmp`). */
  lemma {:induction false} LexIsCompare(a: seq<Char>, b: seq<Char>, i: nat)
    requires |a| == |b| && i <= |a| && Bytes(a) && Bytes(b)
    ensures LexFrom(a, b, i) == MpegTime.Compare(Narrow(a)[i..], Narrow(b)[i..])
    decreases |a| - i
  {
    if i < |a| {
      LexIsCompare(a, b, i + 1);
      assert Narrow(a)[i..][1..] == Narrow(a)[i + 1..] && Narrow(b)[i..][1..] == Narrow(b)[i + 1..];
    }
  }

  /**
   * On timestamps whose places hold bytes, the low bytes of the Java
   * difference are the C difference `mpeg_timestamp_diff`, with the same
   * dropped borrow.
   */
  lemma DifferenceMatchesC(t1: seq<Char>, t2: seq<Char>)
    requires |t1| == Length && |t2| == Length && Bytes(t1) && Bytes(t2)
    ensures Narrow(DifferenceOf(t1, t2)) == MpegTime.DiffAsWritten(Narrow(t1), Narrow(t2))
  {
    LexIsCompare(t1, t2, 0);
    assert Narrow(t1)[0..] == Narrow(t1) && Narrow(t2)[0..] == Narrow(t2);
    assert Narrow(Zeros) == MpegTime.Zeros;
    DiffFromNarrow(t1, t2, Zeros, 4);
    DiffFromNarrow(t2, t1, Zeros, 4);
  }

  /**
   * A borrow leaves a 16-bit place behind: 0x100 - 0x1 gives the place
   * 0xFFFF, where the C code stores the byte 0xFF.
   */
  lemma DifferenceWidthCounterexample()
    ensures DifferenceOf([0, 0, 0, 1, 0], [0, 0, 0, 0, 1]) == [0, 0, 0, 0, 0xFFFF]
    ensures MpegTime.DiffAsWritten([0, 0, 0, 1, 0], [0, 0, 0, 0, 1]) == [0, 0, 0, 0, 0xFF]
    ensures !Bytes(DifferenceOf([0, 0, 0, 1, 0], [0, 0, 0, 0, 1]))
  {
    var d: seq<Char> := [0, 0, 0, 0, 0xFFFF];
    assert d[4] == 0xFFFF;
  }

  /**
   * The difference with every place kept to a byte and the borrow carried
   * through: the difference of the C timestamps, widened back to `char`.
   */
  method DifferenceExact(t1: Timestamp, t2: Timestamp) returns (result: Timestamp)
    requires t1.Valid() && t2.Valid() && Bytes(t1.storage[..]) && Bytes(t2.storage[..])
    ensures fresh(result) && result.Valid() && Bytes(result.storage[..])
    ensures MpegTime.Value(Narrow(result.storage[..]))
      == MpegTime.Distance(MpegTime.Value(Narrow(t1.storage[..])), MpegTime.Value(Narrow(t2.storage[..])))
  {
    var n1 := NarrowPlaces(t1.storage);
    var n2 := NarrowPlaces(t2.storage);
    var d := MpegTime.DiffExact(n1, n2);
    result := new Timestamp();
    WidenInto(result.storage, d);
  }

  /** The low bytes of the places, in a new array. */
  method NarrowPlaces(t: array<Char>) returns (n: array<MpegTime.uint8>)
    ensures fresh(n) && n[..] == Narrow(t[..])
  {
    n := new MpegTime.uint8[t.Length];
    var i := 0;
    while i < t.Length
      invariant 0 <= i <= t.Length
      invariant n[..i] == Narrow(t[..])[..i]
    {
      n[i] := (t[i] as int % 256) as MpegTime.uint8;
      i := i + 1;
    }
  }

  /** The bytes, widened to `char` places. */
  method WidenInto(w: array<Char>, t: array<MpegTime.uint8>)
    requires w.Length == t.Length
    modifies w
    ensures w[..] == Widen(t[..])
  {
    var i := 0;
    while i < w.Length
      invariant 0 <= i <= w.Length
      invariant w[..i] == Widen(t[..])[..i]
    {
      w[i] := t[i] as int as Char;
      i := i + 1;
    }
  }
}

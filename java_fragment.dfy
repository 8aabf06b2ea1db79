/**
 * The Java port's `MpegFragment` (MpegFragment.java): a run of blocks given by
 * its first block and its size, with the timestamps of its first and last
 * block.  Positions are Java `int`s, so `getEnd` and `setEnd` wrap modulo 2^32.
 */
module JavaFragment {
  import opened Bits
  import opened Wrappers
  import JavaTimestamp

  /** The Java exception a member of this class can raise. */
  datatype Exception = NullPointerException

  /** Java `int`: a signed 32-bit number. */
  newtype int32 = x: int | -0x8000_0000 <= x < 0x8000_0000

  const Modulus: int := 0x1_0000_0000
  const Half: int := 0x8000_0000

  /** Java `int` addition and subtraction: the result reduced into the signed 32-bit range. */
  function Wrap(x: int): int32
  {
    ((x + Half) % Modulus - Half) as int32
  }

  /** A result that fits is kept as it is. */
  lemma WrapInRange(x: int)
    requires -Half <= x < Half
    ensures Wrap(x) as int == x
  {
    DivModUnique(x + Half, Modulus, 0, x + Half);
  }

  /** Adding a multiple of 2^32 does not change the wrapped value. */
  lemma WrapShift(x: int, k: int)
    ensures Wrap(x + k * Modulus) == Wrap(x)
  {
    var q, r := (x + Half) / Modulus, (x + Half) % Modulus;
    assert x + k * Modulus + Half == Modulus * (q + k) + r;
    DivModUnique(x + k * Modulus + Half, Modulus, q + k, r);
  }

  /** The wrapped value differs from the exact one by a multiple of 2^32. */
  lemma WrapOffset(x: int) returns (k: int)
    ensures x == Wrap(x) as int + k * Modulus
  {
    k := (x + Half) / Modulus;
  }

  /** The wrapped value is congruent to the exact one modulo 2^32. */
  lemma WrapCongruent(x: int)
    ensures (x - Wrap(x) as int) % Modulus == 0
  {
    var k := WrapOffset(x);
    DivModUnique(x - Wrap(x) as int, Modulus, k, 0);
  }

  /** Setting the end to `value` makes the end `value`, even when the size wraps. */
  lemma {:induction false} EndAfterSetEnd(start: int32, value: int32)
    ensures Wrap(start as int + Wrap(value as int - start as int) as int) == value
  {
    var k := WrapOffset(value as int - start as int);
    assert start as int + Wrap(value as int - start as int) as int == value as int + (-k) * Modulus;
    WrapShift(value as int, -k);
    WrapInRange(value as int);
  }

  /** Setting the end to the current end keeps the size. */
  lemma {:induction false} SizeAfterSetEndOfEnd(start: int32, size: int32)
    ensures Wrap(Wrap(start as int + size as int) as int - start as int) == size
  {
    var k := WrapOffset(start as int + size as int);
    assert Wrap(start as int + size as int) as int - start as int == size as int + (-k) * Modulus;
    WrapShift(size as int, -k);
    WrapInRange(size as int);
  }

  class Fragment {
    var start: int32
    var size: int32
    var startTime: JavaTimestamp.Timestamp?
    var endTime: JavaTimestamp.Timestamp?

    /** The implicit constructor: Java's default field values. */
    constructor ()
      ensures start == 0 && size == 0 && startTime == null && endTime == null
    {
      start := 0;
      size := 0;
      startTime := null;
      endTime := null;
    }

    function GetStart(): int32
      reads this
    {
      start
    }

    function GetSize(): int32
      reads this
    {
      size
    }

    /** `getEnd`: the block after the fragment, `start + size` in Java `int` arithmetic. */
    function GetEnd(): (end: int32)
      reads this
      ensures (start as int + size as int - end as int) % Modulus == 0
      ensures -Half <= start as int + size as int < Half ==> end as int == start as int + size as int
    {
      var sum := GetStart() as int + GetSize() as int;
      WrapCongruent(sum);
      if -Half <= sum < Half then WrapInRange(sum); Wrap(sum) else Wrap(sum)
    }

    /** `setStart`: moves the fragment; the size stays and the end moves with it. */
    method SetStart(value: int32)
      modifies this
      ensures start == value && size == old(size)
      ensures startTime == old(startTime) && endTime == old(endTime)
    {
      start := value;
    }

    /** `setEnd`: the size becomes `value - start`, so the end is `value` and the start stays. */
    method SetEnd(value: int32)
      modifies this
      ensures start == old(start) && GetEnd() == value
      ensures value == old(GetEnd()) ==> size == old(size)
      ensures startTime == old(startTime) && endTime == old(endTime)
    {
      size := Wrap(value as int - GetStart() as int);
      EndAfterSetEnd(start, value);
      SizeAfterSetEndOfEnd(start, old(size));
    }

    /** `setSize`: only the size changes. */
    method SetSize(value: int32)
      modifies this
      ensures size == value && start == old(start)
      ensures startTime == old(startTime) && endTime == old(endTime)
    {
      size := value;
    }

    /** `setStartTime`: only the start time changes. */
    method SetStartTime(value: JavaTimestamp.Timestamp?)
      modifies this
      ensures startTime == value && endTime == old(endTime) && start == old(start) && size == old(size)
    {
      startTime := value;
    }

    /** `setEndTime`: only the end time changes. */
    method SetEndTime(value: JavaTimestamp.Timestamp?)
      modifies this
      ensures endTime == value && startTime == old(startTime) && start == old(start) && size == old(size)
    {
      endTime := value;
    }

    /**
     * `getTimeDiff`: the difference of the end and start timestamps, as a new
     * timestamp; `difference` dereferences both, so a missing one raises.
     */
    method GetTimeDiff() returns (diff: Result<JavaTimestamp.Timestamp, Exception>)
      requires startTime != null ==> startTime.Valid()
      requires endTime != null ==> endTime.Valid()
      ensures diff.Err? <==> startTime == null || endTime == null
      ensures diff.Err? ==> diff.error == NullPointerException
      ensures diff.Ok? ==> fresh(diff.value) && diff.value.Valid()
      ensures diff.Ok? ==> diff.value.storage[..] == JavaTimestamp.DifferenceOf(endTime.storage[..], startTime.storage[..])
    {
      if startTime == null || endTime == null {
        return Err(NullPointerException);
      }
      var d := JavaTimestamp.Difference(endTime, startTime);
      diff := Ok(d);
    }
  }
}

/** Powers of two and the positional-notation facts the decoders rely on. */
module Bits {

  function Pow2(n: nat): (r: nat)
    ensures r >= 1
  {
    if n == 0 then 1 else 2 * Pow2(n - 1)
  }

  /** Bit `i` of a natural number, as 0 or 1. */
  function NatBit(c: nat, i: nat): (b: nat)
    ensures b < 2
  {
    (c / Pow2(i)) % 2
  }

  lemma {:induction false} Pow2Add(a: nat, b: nat)
    ensures Pow2(a + b) == Pow2(a) * Pow2(b)
  {
    if b > 0 {
      Pow2Add(a, b - 1);
      assert Pow2(a + b) == 2 * Pow2(a + b - 1);
    }
  }

  lemma {:induction false} Pow2Monotone(a: nat, b: nat)
    requires a <= b
    ensures Pow2(a) <= Pow2(b)
  {
    if a < b {
      Pow2Monotone(a, b - 1);
    }
  }

  /** Division and remainder are determined by any decomposition c == d * q + r with 0 <= r < d. */
  lemma DivModUnique(c: int, d: int, q: int, r: int)
    requires d > 0 && c == d * q + r && 0 <= r < d
    ensures c / d == q && c % d == r
  {
    var q', r' := c / d, c % d;
    assert c == d * q' + r' && 0 <= r' < d;
    if q' > q {
      assert d * q' >= d * (q + 1) by { MulMonotone(d, q + 1, q'); }
      assert false;
    } else if q' < q {
      assert d * q >= d * (q' + 1) by { MulMonotone(d, q' + 1, q); }
      assert false;
    }
  }

  lemma MulDistributes(p: int, f: int, q: int)
    ensures p * (f + q) == p * f + p * q
  {
  }

  /** A product bound by a positive factor bounds the other factor. */
  lemma MulCancelBound(d: int, a: int, b: int)
    requires d > 0 && d * a < d * b
    ensures a < b
  {
    if a >= b {
      MulMonotone(d, b, a);
    }
  }

  lemma MulMonotone(d: int, a: int, b: int)
    requires d > 0 && a <= b
    ensures d * a <= d * b
  {
  }

  /** Dividing twice is dividing by the product. */
  lemma DivDiv(c: nat, a: nat, b: nat)
    requires a > 0 && b > 0
    ensures (c / a) / b == c / (a * b)
  {
    var q, r := c / a, c % a;
    var q2, r2 := q / b, q % b;
    assert c == a * q + r;
    assert q == b * q2 + r2;
    assert c == (a * b) * q2 + (a * r2 + r) by {
      assert a * q == a * (b * q2 + r2) == (a * b) * q2 + a * r2;
    }
    assert a * r2 <= a * (b - 1) by { MulMonotone(a, r2, b - 1); }
    assert 0 <= a * r2 + r < a * b;
    DivModUnique(c, a * b, q2, a * r2 + r);
  }

  /** The remainder modulo a*b splits into the low remainder and the next digit in base a. */
  lemma ModMul(c: nat, a: nat, b: nat)
    requires a > 0 && b > 0
    ensures c % (a * b) == ((c / a) % b) * a + c % a
  {
    var q, r := c / a, c % a;
    var q2, r2 := q / b, q % b;
    assert c == a * q + r;
    assert q == b * q2 + r2;
    assert c == (a * b) * q2 + (a * r2 + r) by {
      assert a * q == a * (b * q2 + r2) == (a * b) * q2 + a * r2;
    }
    assert a * r2 <= a * (b - 1) by { MulMonotone(a, r2, b - 1); }
    DivModUnique(c, a * b, q2, a * r2 + r);
  }

  /** The remainder modulo 2^(n+1) adds bit n to the remainder modulo 2^n. */
  lemma ModPow2Step(c: nat, n: nat)
    ensures c % Pow2(n + 1) == c % Pow2(n) + NatBit(c, n) * Pow2(n)
  {
    var p := Pow2(n);
    var q, r := c / p, c % p;
    assert c == p * q + r;
    assert q == 2 * (q / 2) + q % 2;
    assert c == (2 * p) * (q / 2) + (p * (q % 2) + r) by {
      assert p * q == p * (2 * (q / 2) + q % 2) == (2 * p) * (q / 2) + p * (q % 2);
    }
    assert p * (q % 2) <= p;
    DivModUnique(c, 2 * p, q / 2, p * (q % 2) + r);
  }
}

/** Facts about multiplication and division that the solver does not find by itself. */
module Arith {

  lemma Multiples(k: int, d: int)
    requires d >= 1
    ensures (k >= 1 ==> k * d >= d) && (k <= -1 ==> k * d <= -d)
  {}

  lemma DivUnique(x: int, q: int, r: int, d: int)
    requires d >= 1 && 0 <= r < d && x == q * d + r
    ensures x / d == q && x % d == r
  {
    var k := q - x / d;
    assert k * d == x % d - r;
    Multiples(k, d);
  }

  lemma Distribute(a: int, b: int, d: int)
    ensures (a + b) * d == a * d + b * d
  {}

  lemma Associate(a: int, b: int, c: int)
    ensures a * b * c == a * (b * c)
  {}

  lemma Scaled(a: int, b: int, d: int)
    requires a <= b && d >= 1
    ensures a * d <= b * d
  {
    Multiples(b - a, d);
    Distribute(b - a, a, d);
  }

  lemma Remainder(k: int, e: int, t: int, d: int, r: int)
    requires d >= 1 && 0 <= t < e && 0 <= r < d
    ensures (k * e + t) * d + r == k * (e * d) + (t * d + r) && 0 <= t * d + r < e * d
  {
    Distribute(k * e, t, d);
    Associate(k, e, d);
    Scaled(0, t, d);
    Scaled(t, e - 1, d);
    Distribute(e - 1, 1, d);
  }

  lemma DivTwice(x: int, d: int, e: int, de: int)
    requires d >= 1 && e >= 1 && de == e * d
    ensures de >= 1 && x / de == (x / d) / e
  {
    var q, r := x / d, x % d;
    var k, t := q / e, q % e;
    Multiples(e, d);
    Remainder(k, e, t, d, r);
    assert x == (k * e + t) * d + r;
    QuotientIs(x, k, t * d + r, de);
  }

  lemma QuotientIs(x: int, q: int, r: int, d: int)
    requires d >= 1 && 0 <= r < d && x == q * d + r
    ensures x / d == q
  {
    DivUnique(x, q, r, d);
  }

  /** Rounding down to a multiple. */
  lemma RoundDown(x: int, d: int)
    requires d >= 1
    ensures x - x % d == (x / d) * d && (x - x % d) / d == x / d && (x - x % d) % d == 0
  {
    DivUnique(x - x % d, x / d, 0, d);
  }

  lemma SameMultiple(a: int, b: int, d: int)
    requires d >= 1
    ensures a * d == b * d <==> a == b
  {
    Multiples(a - b, d);
    Distribute(a - b, b, d);
  }

  lemma SmallQuotient(x: int, d: int)
    requires 0 <= x && d >= 1
    ensures x / d == 0 <==> x < d
  {
    if x < d { DivUnique(x, 0, x, d); }
  }

  function Pow2(k: nat): (p: int)
    ensures p >= 1
  {
    if k == 0 then 1 else 2 * Pow2(k - 1)
  }

  lemma {:induction false} Pow2Adds(a: nat, b: nat)
    ensures Pow2(a + b) == Pow2(a) * Pow2(b)
  {
    if a > 0 {
      Pow2Adds(a - 1, b);
      Associate(2, Pow2(a - 1), Pow2(b));
    }
  }

  lemma EightBits()
    ensures Pow2(8) == 256
  {
    assert Pow2(4) == 16;
    Pow2Adds(4, 4);
  }
}

/**
 Facts about real arithmetic that the scaling, similarity and example proofs
 share: cancelling, comparing and bounding quotients and products.
 */
module Arith {

  lemma DivCancel(x: real, d: real)
    requires d != 0.0
    ensures (x * d) / d == x
  {
  }

  lemma QuotientTimes(x: real, d: real)
    requires d != 0.0
    ensures (x / d) * d == x
  {
  }

  /** For 0 < d: 0 <= x / d <= 1 exactly when 0 <= x <= d, x / d is 0 exactly
      when x is, and 1 exactly when x == d. */
  lemma UnitQuotient(x: real, d: real)
    requires 0.0 < d
    ensures 0.0 <= x / d <==> 0.0 <= x
    ensures x / d <= 1.0 <==> x <= d
    ensures x / d == 0.0 <==> x == 0.0
    ensures x / d == 1.0 <==> x == d
  {
    var q := x / d;
    assert q * d == x;
    if 0.0 <= x { assert 0.0 <= q; }
    if q <= 1.0 { assert q * d <= d; }
    if x <= d { assert q <= 1.0; }
  }

  lemma QuotientMonotone(x: real, y: real, d: real)
    requires 0.0 < d
    ensures x <= y <==> x / d <= y / d
  {
    var a, b := x / d, y / d;
    assert a * d == x && b * d == y;
    if a <= b { assert (b - a) * d >= 0.0; }
    if x <= y { assert (b - a) * d >= 0.0; }
  }

  /** Two non-negative reals with the same square are equal. */
  lemma SquareInjective(a: real, b: real)
    requires 0.0 <= a && 0.0 <= b && a * a == b * b
    ensures a == b
  {
    assert (a + b) * (a - b) == 0.0;
    if a + b != 0.0 {
      ZeroProduct(a + b, a - b);
    }
  }

  /** From d * d <= s * s with 0 < s follows -s <= d <= s. */
  lemma AbsBound(d: real, s: real)
    requires 0.0 < s && d * d <= s * s
    ensures -s <= d <= s
  {
    assert (s - d) * (s + d) >= 0.0;
    assert 0.0 <= (s - d) + (s + d);
  }

  /** For 0 < s: r lies in [-1, 1] when r * s lies in [-s, s], and r is
      non-negative when r * s is. */
  lemma FactorBound(r: real, s: real)
    requires 0.0 < s && -s <= r * s <= s
    ensures -1.0 <= r <= 1.0
    ensures 0.0 <= r * s ==> 0.0 <= r
  {
    assert (1.0 - r) * s == s - r * s;
    assert (1.0 + r) * s == s + r * s;
    PositiveFactor(1.0 - r, s);
    PositiveFactor(1.0 + r, s);
    if 0.0 <= r * s {
      PositiveFactor(r, s);
    }
  }

  lemma PositiveFactor(q: real, s: real)
    requires 0.0 < s && 0.0 <= q * s
    ensures 0.0 <= q
  {
    var p := q * s;
    assert p / s == q;
  }

  lemma StrictFactor(q: real, s: real)
    requires 0.0 < s && 0.0 < q * s
    ensures 0.0 < q
  {
    var p := q * s;
    assert p / s == q;
  }

  lemma MulPos(x: real, y: real)
    requires 0.0 < x && 0.0 < y
    ensures 0.0 < x * y
  {
  }

  lemma SelfQuotient(n: real, m: real)
    requires n != 0.0 && m == n
    ensures n / m == 1.0
  {
  }

  lemma ZeroProduct(x: real, y: real)
    requires x != 0.0
    ensures x * y == 0.0 <==> y == 0.0
  {
  }

  /** Scaling numerator and denominator by the same non-zero factor keeps the quotient. */
  lemma DivScale(n: real, d: real, k: real)
    requires d != 0.0 && k != 0.0
    ensures (k * n) / (k * d) == n / d
  {
    var q := n / d;
    assert q * d == n;
    assert q * (k * d) == k * n;
  }
}

/**
 Cosine similarity between the scaled seed vector and each scaled candidate
 vector. The library normalises each vector to unit length, leaving a
 zero-length vector at zero, and takes dot products: a pair in which one
 vector has length zero therefore scores 0. The square root is a parameter.
 */
module Similarity {
  import opened Arith
  import opened Features

  /** `sqrt` is a square root on the non-negative reals. The two conditions
      determine it there uniquely. */
  ghost predicate IsSqrt(sqrt: real -> real) {
    forall x: real :: 0.0 <= x ==> 0.0 <= sqrt(x) && sqrt(x) * sqrt(x) == x
  }

  /** The numeric library's square root, which the model does not fix. */
  datatype Numerics = Numerics(sqrt: real -> real) {
    ghost predicate Valid() {
      IsSqrt(sqrt)
    }
  }

  function Dot(a: Vec, b: Vec): real {
    a[DurationCol] * b[DurationCol] + a[PopularityCol] * b[PopularityCol]
  }

  /** Squared Euclidean length. */
  function SqNorm(a: Vec): real {
    Dot(a, a)
  }

  /** Cosine of the angle between `a` and `b`; 0 when either has length zero. */
  function Cosine(nm: Numerics, a: Vec, b: Vec): (r: real)
    requires nm.Valid()
    ensures SqNorm(a) == 0.0 || SqNorm(b) == 0.0 ==> r == 0.0
    ensures SqNorm(a) != 0.0 && SqNorm(b) != 0.0 ==>
              r * (nm.sqrt(SqNorm(a)) * nm.sqrt(SqNorm(b))) == Dot(a, b)
  {
    if SqNorm(a) == 0.0 || SqNorm(b) == 0.0 then 0.0
    else
      SqrtPositive(nm, SqNorm(a));
      SqrtPositive(nm, SqNorm(b));
      MulPos(nm.sqrt(SqNorm(a)), nm.sqrt(SqNorm(b)));
      QuotientTimes(Dot(a, b), nm.sqrt(SqNorm(a)) * nm.sqrt(SqNorm(b)));
      Dot(a, b) / (nm.sqrt(SqNorm(a)) * nm.sqrt(SqNorm(b)))
  }

  /** One score per row of `rows`, in row order. */
  function Scores(nm: Numerics, q: Vec, rows: seq<Vec>): (r: seq<real>)
    requires nm.Valid()
    ensures |r| == |rows|
    ensures forall i :: 0 <= i < |rows| ==> r[i] == Cosine(nm, q, rows[i])
  {
    seq(|rows|, i requires 0 <= i < |rows| => Cosine(nm, q, rows[i]))
  }

  lemma SqrtPositive(nm: Numerics, x: real)
    requires nm.Valid() && 0.0 < x
    ensures 0.0 < nm.sqrt(x)
  {
    assert nm.sqrt(x) * nm.sqrt(x) == x;
  }

  /** Cauchy-Schwarz in two dimensions: the squared dot product is at most the
      product of the squared lengths. */
  lemma CauchySchwarz(a: Vec, b: Vec)
    ensures Dot(a, b) * Dot(a, b) <= SqNorm(a) * SqNorm(b)
  {
    var a0, a1, b0, b1 := a[DurationCol], a[PopularityCol], b[DurationCol], b[PopularityCol];
    var cross := a0 * b1 - a1 * b0;
    assert SqNorm(a) * SqNorm(b) - Dot(a, b) * Dot(a, b) == cross * cross;
  }

  /** Every score lies in [-1, 1]; it is non-negative when neither vector has
      a negative component, which holds for every scaled candidate and for a
      scaled seed that is not below the fitted minimum. */
  lemma CosineBounds(nm: Numerics, a: Vec, b: Vec)
    requires nm.Valid()
    ensures -1.0 <= Cosine(nm, a, b) <= 1.0
    ensures (forall c :: 0 <= c < Dim ==> 0.0 <= a[c] && 0.0 <= b[c]) ==> 0.0 <= Cosine(nm, a, b)
  {
    if SqNorm(a) != 0.0 && SqNorm(b) != 0.0 {
      ProperCosineBounds(nm, a, b);
    }
  }

  /** The bounds of CosineBounds when both vectors have non-zero length. */
  lemma ProperCosineBounds(nm: Numerics, a: Vec, b: Vec)
    requires nm.Valid()
    requires SqNorm(a) != 0.0 && SqNorm(b) != 0.0
    ensures -1.0 <= Cosine(nm, a, b) <= 1.0
    ensures (forall c :: 0 <= c < Dim ==> 0.0 <= a[c] && 0.0 <= b[c]) ==> 0.0 <= Cosine(nm, a, b)
  {
    var na, nb := SqNorm(a), SqNorm(b);
    assert 0.0 < na && 0.0 < nb by {
      assert 0.0 <= a[DurationCol] * a[DurationCol] && 0.0 <= a[PopularityCol] * a[PopularityCol];
      assert 0.0 <= b[DurationCol] * b[DurationCol] && 0.0 <= b[PopularityCol] * b[PopularityCol];
    }
    var sa, sb := nm.sqrt(na), nm.sqrt(nb);
    SqrtPositive(nm, na);
    SqrtPositive(nm, nb);
    var s := sa * sb;
    assert 0.0 < s;
    assert s * s == na * nb by {
      assert s * s == (sa * sa) * (sb * sb);
    }
    var d := Dot(a, b);
    var r := Cosine(nm, a, b);
    assert r * s == d;
    CauchySchwarz(a, b);
    AbsBound(d, s);
    FactorBound(r, s);
    if forall c :: 0 <= c < Dim ==> 0.0 <= a[c] && 0.0 <= b[c] {
      assert 0.0 <= a[DurationCol] * b[DurationCol];
      assert 0.0 <= a[PopularityCol] * b[PopularityCol];
    }
  }

  /** A vector of non-zero length scores 1 against itself. */
  lemma CosineSelf(nm: Numerics, a: Vec)
    requires nm.Valid() && SqNorm(a) != 0.0
    ensures Cosine(nm, a, a) == 1.0
  {
    var n := SqNorm(a);
    var r := nm.sqrt(n);
    assert r * r == n;
    assert Cosine(nm, a, a) == n / (r * r);
    SelfQuotient(n, r * r);
  }

  /** The score does not depend on the order of its arguments. */
  lemma CosineSymmetric(nm: Numerics, a: Vec, b: Vec)
    requires nm.Valid()
    ensures Cosine(nm, a, b) == Cosine(nm, b, a)
  {
  }

  /** The score ignores magnitude: stretching one vector by a positive factor
      leaves it unchanged. */
  lemma CosineScaleInvariant(nm: Numerics, a: Vec, b: Vec, k: real)
    requires nm.Valid() && 0.0 < k
    ensures Cosine(nm, Stretch(k, a), b) == Cosine(nm, a, b)
  {
    var ka := Stretch(k, a);
    var n := SqNorm(a);
    StretchProducts(k, a, b);
    ZeroProduct(k, k * n);
    ZeroProduct(k, n);
    if n != 0.0 && SqNorm(b) != 0.0 {
      assert 0.0 < n by {
        assert 0.0 <= a[DurationCol] * a[DurationCol] && 0.0 <= a[PopularityCol] * a[PopularityCol];
      }
      var r := nm.sqrt(n);
      SqrtStretch(nm, k, n);
      var sb := nm.sqrt(SqNorm(b));
      SqrtPositive(nm, SqNorm(b));
      SqrtPositive(nm, n);
      MulPos(r, sb);
      assert SqNorm(ka) != 0.0;
      CosineProper(nm, ka, b);
      CosineProper(nm, a, b);
      var den := nm.sqrt(SqNorm(ka)) * sb;
      assert nm.sqrt(SqNorm(ka)) == k * r by {
        assert SqNorm(ka) == k * (k * n);
      }
      assert den == k * (r * sb);
      DivScale(Dot(a, b), r * sb, k);
    }
  }

  lemma CosineProper(nm: Numerics, a: Vec, b: Vec)
    requires nm.Valid() && SqNorm(a) != 0.0 && SqNorm(b) != 0.0
    ensures Cosine(nm, a, b) == Dot(a, b) / (nm.sqrt(SqNorm(a)) * nm.sqrt(SqNorm(b)))
  {
  }

  lemma StretchProducts(k: real, a: Vec, b: Vec)
    ensures SqNorm(Stretch(k, a)) == k * (k * SqNorm(a))
    ensures Dot(Stretch(k, a), b) == k * Dot(a, b)
  {
    var ka := Stretch(k, a);
    assert ka[DurationCol] == k * a[DurationCol] && ka[PopularityCol] == k * a[PopularityCol];
  }

  /** The square root of k * k * n is k times the square root of n. */
  lemma SqrtStretch(nm: Numerics, k: real, n: real)
    requires nm.Valid() && 0.0 < k && 0.0 < n
    ensures nm.sqrt(k * (k * n)) == k * nm.sqrt(n)
  {
    var r := nm.sqrt(n);
    MulPos(k, n);
    MulPos(k, k * n);
    var rk := nm.sqrt(k * (k * n));
    assert r * r == n;
    assert rk * rk == k * (k * n);
    SqrtPositive(nm, n);
    MulPos(k, r);
    assert (k * r) * (k * r) == k * (k * (r * r));
    SquareInjective(rk, k * r);
  }

  /** Multiply every component of `a` by `k`. */
  function Stretch(k: real, a: Vec): (r: Vec) {
    seq(Dim, c requires 0 <= c < Dim => k * a[c])
  }
}

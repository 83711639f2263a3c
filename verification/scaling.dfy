/**
 Min-max scaling fitted on one batch of feature vectors: each column is
 mapped affinely so that the batch's column minimum goes to 0 and its column
 maximum to 1. A vector outside the batch is transformed with the same
 parameters, without refitting.
 */
module Scaling {
  import opened Arith
  import opened Features

  /** Smallest value of column `c` over a non-empty batch. */
  function ColumnMin(vs: seq<Vec>, c: nat): (m: real)
    requires |vs| > 0 && c < Dim
    ensures forall i :: 0 <= i < |vs| ==> m <= vs[i][c]
    ensures exists i :: 0 <= i < |vs| && vs[i][c] == m
    decreases |vs|
  {
    if |vs| == 1 then vs[0][c]
    else
      var rest := ColumnMin(vs[1..], c);
      assert forall i :: 1 <= i < |vs| ==> vs[i] == vs[1..][i - 1];
      if vs[0][c] <= rest then vs[0][c] else rest
  }

  /** Largest value of column `c` over a non-empty batch. */
  function ColumnMax(vs: seq<Vec>, c: nat): (m: real)
    requires |vs| > 0 && c < Dim
    ensures forall i :: 0 <= i < |vs| ==> vs[i][c] <= m
    ensures exists i :: 0 <= i < |vs| && vs[i][c] == m
    decreases |vs|
  {
    if |vs| == 1 then vs[0][c]
    else
      var rest := ColumnMax(vs[1..], c);
      assert forall i :: 1 <= i < |vs| ==> vs[i] == vs[1..][i - 1];
      if rest <= vs[0][c] then vs[0][c] else rest
  }

  /** The fitted state of the scaler: per-column minimum and maximum. */
  datatype Scaler = Scaler(dataMin: Vec, dataMax: Vec)

  /** The divisor of column `c`: the column's range, or 1 when the column is
      constant over the batch, so that a constant column is never divided by 0. */
  function Span(sc: Scaler, c: nat): (d: real)
    requires c < Dim
    ensures d != 0.0
    ensures sc.dataMin[c] <= sc.dataMax[c] ==> 0.0 < d
    ensures sc.dataMin[c] != sc.dataMax[c] ==> d == sc.dataMax[c] - sc.dataMin[c]
  {
    if sc.dataMax[c] == sc.dataMin[c] then 1.0 else sc.dataMax[c] - sc.dataMin[c]
  }

  /** Fit the scaler on a non-empty batch. */
  function Fit(vs: seq<Vec>): (sc: Scaler)
    requires |vs| > 0
    ensures forall c, i :: 0 <= c < Dim && 0 <= i < |vs| ==>
              sc.dataMin[c] <= vs[i][c] <= sc.dataMax[c]
    ensures forall c :: 0 <= c < Dim ==> exists i :: 0 <= i < |vs| && vs[i][c] == sc.dataMin[c]
    ensures forall c :: 0 <= c < Dim ==> exists i :: 0 <= i < |vs| && vs[i][c] == sc.dataMax[c]
  {
    var lo: Vec := seq(Dim, c requires 0 <= c < Dim => ColumnMin(vs, c));
    var hi: Vec := seq(Dim, c requires 0 <= c < Dim => ColumnMax(vs, c));
    assert forall c :: 0 <= c < Dim ==> lo[c] == ColumnMin(vs, c) && hi[c] == ColumnMax(vs, c);
    Scaler(lo, hi)
  }

  /** The fitted parameters are the only ones that bound every row and are
      attained by some row in every column. */
  lemma FitDetermined(vs: seq<Vec>, lo: Vec, hi: Vec)
    requires |vs| > 0
    requires forall c, i :: 0 <= c < Dim && 0 <= i < |vs| ==> lo[c] <= vs[i][c] <= hi[c]
    requires forall c :: 0 <= c < Dim ==> exists i :: 0 <= i < |vs| && vs[i][c] == lo[c]
    requires forall c :: 0 <= c < Dim ==> exists i :: 0 <= i < |vs| && vs[i][c] == hi[c]
    ensures Fit(vs) == Scaler(lo, hi)
  {
    var sc := Fit(vs);
    forall c | 0 <= c < Dim
      ensures sc.dataMin[c] == lo[c] && sc.dataMax[c] == hi[c]
    {
      var i :| 0 <= i < |vs| && vs[i][c] == lo[c];
      var j :| 0 <= j < |vs| && vs[j][c] == hi[c];
      assert sc.dataMin[c] <= vs[i][c] && vs[j][c] <= sc.dataMax[c];
      var i' :| 0 <= i' < |vs| && vs[i'][c] == sc.dataMin[c];
      var j' :| 0 <= j' < |vs| && vs[j'][c] == sc.dataMax[c];
      assert lo[c] <= vs[i'][c] && vs[j'][c] <= hi[c];
    }
  }

  /** Map one vector with the fitted parameters: (x - min) / span per column. */
  function Transform(sc: Scaler, v: Vec): (w: Vec)
    ensures forall c :: 0 <= c < Dim ==> sc.dataMin[c] + w[c] * Span(sc, c) == v[c]
  {
    seq(Dim, c requires 0 <= c < Dim => (v[c] - sc.dataMin[c]) / Span(sc, c))
  }

  /** Undo the scaling: min + x * span per column. */
  function InverseTransform(sc: Scaler, w: Vec): (v: Vec) {
    seq(Dim, c requires 0 <= c < Dim => sc.dataMin[c] + w[c] * Span(sc, c))
  }

  /** Fit on the batch and transform every row of it. */
  function FitTransform(vs: seq<Vec>): (ws: seq<Vec>)
    requires |vs| > 0
    ensures |ws| == |vs|
    ensures forall i :: 0 <= i < |vs| ==> ws[i] == Transform(Fit(vs), vs[i])
  {
    seq(|vs|, i requires 0 <= i < |vs| => Transform(Fit(vs), vs[i]))
  }

  /** Transform and InverseTransform are mutually inverse. */
  lemma RoundTrip(sc: Scaler, v: Vec, w: Vec)
    ensures InverseTransform(sc, Transform(sc, v)) == v
    ensures Transform(sc, InverseTransform(sc, w)) == w
  {
    var t := Transform(sc, v);
    assert forall c :: 0 <= c < Dim ==> InverseTransform(sc, t)[c] == v[c];
    var u := InverseTransform(sc, w);
    forall c | 0 <= c < Dim
      ensures Transform(sc, u)[c] == w[c]
    {
      var d := Span(sc, c);
      assert u[c] - sc.dataMin[c] == w[c] * d;
      DivCancel(w[c], d);
    }
  }

  /** A vector transformed with a fitted scaler is non-negative in a column
      exactly when it is not below the batch minimum there, and 0 exactly at
      the minimum. In a column that varies over the batch it lands in [0, 1]
      exactly when it lies between the batch's minimum and maximum, and is 1
      exactly at the maximum; so the transformed seed may fall outside [0, 1].
      In a constant column it is only shifted by the minimum. */
  lemma TransformRange(vs: seq<Vec>, v: Vec, c: nat)
    requires |vs| > 0 && c < Dim
    ensures 0.0 <= Transform(Fit(vs), v)[c] <==> Fit(vs).dataMin[c] <= v[c]
    ensures Transform(Fit(vs), v)[c] == 0.0 <==> v[c] == Fit(vs).dataMin[c]
    ensures Fit(vs).dataMin[c] != Fit(vs).dataMax[c] ==>
              && (0.0 <= Transform(Fit(vs), v)[c] <= 1.0 <==> Fit(vs).dataMin[c] <= v[c] <= Fit(vs).dataMax[c])
              && (Transform(Fit(vs), v)[c] == 1.0 <==> v[c] == Fit(vs).dataMax[c])
    ensures Fit(vs).dataMin[c] == Fit(vs).dataMax[c] ==>
              Transform(Fit(vs), v)[c] == v[c] - Fit(vs).dataMin[c]
  {
    var sc := Fit(vs);
    var lo, hi := sc.dataMin[c], sc.dataMax[c];
    assert lo <= vs[0][c] <= hi;
    UnitQuotient(v[c] - lo, Span(sc, c));
  }

  /** Every fitted row lands in [0, 1] in every column; in every column some
      row is mapped to 0; some row is mapped to 1 unless the column is
      constant over the batch, and the column is constant exactly when every
      row is mapped to 0 there. */
  lemma FitTransformUnit(vs: seq<Vec>, c: nat)
    requires |vs| > 0 && c < Dim
    ensures forall i :: 0 <= i < |vs| ==> 0.0 <= FitTransform(vs)[i][c] <= 1.0
    ensures exists i :: 0 <= i < |vs| && FitTransform(vs)[i][c] == 0.0
    ensures Fit(vs).dataMin[c] != Fit(vs).dataMax[c] ==>
              exists i :: 0 <= i < |vs| && FitTransform(vs)[i][c] == 1.0
    ensures (forall i :: 0 <= i < |vs| ==> FitTransform(vs)[i][c] == 0.0) <==>
              Fit(vs).dataMin[c] == Fit(vs).dataMax[c]
  {
    var sc := Fit(vs);
    forall i | 0 <= i < |vs|
      ensures 0.0 <= FitTransform(vs)[i][c] <= 1.0
      ensures sc.dataMin[c] == sc.dataMax[c] ==> FitTransform(vs)[i][c] == 0.0
    {
      TransformRange(vs, vs[i], c);
    }
    var i0 :| 0 <= i0 < |vs| && vs[i0][c] == sc.dataMin[c];
    TransformRange(vs, vs[i0], c);
    assert FitTransform(vs)[i0][c] == 0.0;
    var i1 :| 0 <= i1 < |vs| && vs[i1][c] == sc.dataMax[c];
    TransformRange(vs, vs[i1], c);
    if sc.dataMin[c] != sc.dataMax[c] {
      assert FitTransform(vs)[i1][c] == 1.0;
    }
  }

  /** The scaling keeps the order of values within a column. */
  lemma TransformMonotone(vs: seq<Vec>, v: Vec, w: Vec, c: nat)
    requires |vs| > 0 && c < Dim
    ensures v[c] <= w[c] <==> Transform(Fit(vs), v)[c] <= Transform(Fit(vs), w)[c]
  {
    var sc := Fit(vs);
    assert sc.dataMin[c] <= vs[0][c] <= sc.dataMax[c];
    QuotientMonotone(v[c] - sc.dataMin[c], w[c] - sc.dataMin[c], Span(sc, c));
  }

}

/**
 A worked example, worked through the model: three candidates and a seed
 whose features all lie inside the candidates' range.
 */
module Example {
  import opened Arith
  import opened Catalog
  import opened Features
  import opened Scaling
  import opened Similarity
  import opened Ranking
  import opened Recommender

  const Seed := Track("seed", Some(150000), Some(60))
  const A := Track("a", Some(200000), Some(80))
  const B := Track("b", Some(200000), Some(10))
  const C := Track("c", Some(100000), Some(50))
  const Store := [Seed, A, B, C]

  /** Scaled vectors of the example. */
  const ScaledA: Vec := [1.0, 1.0]
  const ScaledB: Vec := [1.0, 0.0]
  const ScaledC: Vec := [0.0, 4.0 / 7.0]
  const ScaledSeedVec: Vec := [0.5, 5.0 / 7.0]

  /** The scaler fitted on A, B, C has minimum (100000, 10) and maximum (200000, 80). */
  lemma ExampleFit()
    ensures FeatureMatrix([A, B, C]) == [[200000.0, 80.0], [200000.0, 10.0], [100000.0, 50.0]]
    ensures Fit(FeatureMatrix([A, B, C])) == Scaler([100000.0, 10.0], [200000.0, 80.0])
  {
    var vs := FeatureMatrix([A, B, C]);
    assert vs == [[200000.0, 80.0], [200000.0, 10.0], [100000.0, 50.0]];
    var lo: Vec, hi: Vec := [100000.0, 10.0], [200000.0, 80.0];
    assert vs[2][0] == lo[0] && vs[1][1] == lo[1];
    assert vs[0][0] == hi[0] && vs[0][1] == hi[1];
    FitDetermined(vs, lo, hi);
  }

  /** The candidates are A, B, C, in store order. */
  lemma ExampleCandidates()
    ensures Lookup(Store, "seed") == Some(Seed)
    ensures Exclude(Store, "seed") == [A, B, C]
  {
    assert "a" != "seed" && "b" != "seed" && "c" != "seed";
    assert [C][1..] == [];
    assert Exclude([C], "seed") == [C];
    assert [B, C][1..] == [C];
    assert Exclude([B, C], "seed") == [B, C];
    assert [A, B, C][1..] == [B, C];
    assert Exclude([A, B, C], "seed") == [A, B, C];
    assert Store[1..] == [A, B, C];
  }

  /** The scaled vectors are A = (1, 1), B = (1, 0), C = (0, 4/7) and
      seed = (1/2, 5/7). */
  lemma ExampleScaling()
    ensures FitTransform(FeatureMatrix([A, B, C])) == [ScaledA, ScaledB, ScaledC]
    ensures ScaledSeed(Seed, [A, B, C]) == ScaledSeedVec
  {
    ExampleFit();
    ExampleRows(Fit(FeatureMatrix([A, B, C])));
    ExampleScaledRows();
    ExampleScaledSeed();
  }

  lemma ExampleScaledRows()
    requires Fit(FeatureMatrix([A, B, C])) == Scaler([100000.0, 10.0], [200000.0, 80.0])
    requires FeatureMatrix([A, B, C]) == [[200000.0, 80.0], [200000.0, 10.0], [100000.0, 50.0]]
    requires Transform(Fit(FeatureMatrix([A, B, C])), [200000.0, 80.0]) == ScaledA
    requires Transform(Fit(FeatureMatrix([A, B, C])), [200000.0, 10.0]) == ScaledB
    requires Transform(Fit(FeatureMatrix([A, B, C])), [100000.0, 50.0]) == ScaledC
    ensures FitTransform(FeatureMatrix([A, B, C])) == [ScaledA, ScaledB, ScaledC]
  {
    var ws := FitTransform(FeatureMatrix([A, B, C]));
    assert |ws| == 3;
  }

  lemma ExampleScaledSeed()
    requires Transform(Fit(FeatureMatrix([A, B, C])), [150000.0, 60.0]) == ScaledSeedVec
    ensures ScaledSeed(Seed, [A, B, C]) == ScaledSeedVec
  {
    assert Extract(Seed) == [150000.0, 60.0];
  }

  lemma ExampleRows(sc: Scaler)
    requires sc == Scaler([100000.0, 10.0], [200000.0, 80.0])
    ensures Transform(sc, [200000.0, 80.0]) == ScaledA
    ensures Transform(sc, [200000.0, 10.0]) == ScaledB
    ensures Transform(sc, [100000.0, 50.0]) == ScaledC
    ensures Transform(sc, [150000.0, 60.0]) == ScaledSeedVec
  {
    ScaledRow(sc, [200000.0, 80.0], ScaledA);
    ScaledRow(sc, [200000.0, 10.0], ScaledB);
    ScaledRow(sc, [100000.0, 50.0], ScaledC);
    ScaledRow(sc, [150000.0, 60.0], ScaledSeedVec);
  }

  /** Checks one scaled vector through the defining equation of Transform. */
  lemma ScaledRow(sc: Scaler, v: Vec, w: Vec)
    requires forall c :: 0 <= c < Dim ==> sc.dataMin[c] + w[c] * Span(sc, c) == v[c]
    ensures Transform(sc, v) == w
  {
    RoundTrip(sc, v, w);
    assert forall c :: 0 <= c < Dim ==> InverseTransform(sc, w)[c] == v[c];
    assert InverseTransform(sc, w) == v;
  }

  /** Each example score times the product of the two lengths gives the dot product. */
  lemma ExampleCosines(nm: Numerics)
    requires nm.Valid()
    ensures 0.0 < nm.sqrt(SqNorm(ScaledSeedVec))
    ensures 0.0 < nm.sqrt(2.0) <= 1.5
    ensures Cosine(nm, ScaledSeedVec, ScaledA) * (nm.sqrt(SqNorm(ScaledSeedVec)) * nm.sqrt(2.0)) == 17.0 / 14.0
    ensures Cosine(nm, ScaledSeedVec, ScaledB) * nm.sqrt(SqNorm(ScaledSeedVec)) == 0.5
    ensures Cosine(nm, ScaledSeedVec, ScaledC) * nm.sqrt(SqNorm(ScaledSeedVec)) == 5.0 / 7.0
  {
    var q := ScaledSeedVec;
    var nq := nm.sqrt(SqNorm(q));
    SqrtPositive(nm, SqNorm(q));
    var r2 := nm.sqrt(2.0);
    SqrtPositive(nm, 2.0);
    assert r2 * r2 == 2.0;
    assert (1.5 - r2) * (1.5 + r2) == 0.25;
    PositiveFactor(1.5 - r2, 1.5 + r2);
    assert SqNorm(ScaledA) == 2.0;
    MulPos(nq, r2);
    assert Cosine(nm, q, ScaledA) == (17.0 / 14.0) / (nq * r2);
    QuotientTimes(17.0 / 14.0, nq * r2);
    assert SqNorm(ScaledB) == 1.0;
    assert nm.sqrt(1.0) * nm.sqrt(1.0) == 1.0;
    SquareInjective(nm.sqrt(1.0), 1.0);
    assert Cosine(nm, q, ScaledB) == 0.5 / (nq * 1.0);
    QuotientTimes(0.5, nq);
    assert SqNorm(ScaledC) == 16.0 / 49.0;
    assert nm.sqrt(16.0 / 49.0) * nm.sqrt(16.0 / 49.0) == 16.0 / 49.0;
    SquareInjective(nm.sqrt(16.0 / 49.0), 4.0 / 7.0);
    assert Cosine(nm, q, ScaledC) == (20.0 / 49.0) / (nq * (4.0 / 7.0));
    assert (20.0 / 49.0) / (nq * (4.0 / 7.0)) == (5.0 / 7.0) / nq;
    QuotientTimes(5.0 / 7.0, nq);
  }

  /** Against the scaled seed, A scores highest, then C, then B. */
  lemma ExampleCosineOrder(nm: Numerics)
    requires nm.Valid()
    ensures Cosine(nm, ScaledSeedVec, ScaledA) > Cosine(nm, ScaledSeedVec, ScaledC)
    ensures Cosine(nm, ScaledSeedVec, ScaledC) > Cosine(nm, ScaledSeedVec, ScaledB)
  {
    ExampleCosines(nm);
    var sa := Cosine(nm, ScaledSeedVec, ScaledA);
    var sb := Cosine(nm, ScaledSeedVec, ScaledB);
    var sc := Cosine(nm, ScaledSeedVec, ScaledC);
    var nq, r2 := nm.sqrt(SqNorm(ScaledSeedVec)), nm.sqrt(2.0);
    OrderFromProducts(sa, sc, nq, r2, 17.0 / 14.0, 5.0 / 7.0);
    assert (sc - sb) * nq == 5.0 / 7.0 - 0.5;
    StrictFactor(sc - sb, nq);
  }

  /** If x * (n * r) == p and y * n == m with 0 < n, 0 < r <= 1.5 and
      m * 1.5 < p, then y < x. */
  lemma OrderFromProducts(x: real, y: real, n: real, r: real, p: real, m: real)
    requires 0.0 < n && 0.0 < r <= 1.5
    requires x * (n * r) == p && y * n == m && m * 1.5 < p && 0.0 <= m
    ensures y < x
  {
    MulPos(n, r);
    assert y * (n * r) == m * r;
    assert 0.0 <= (1.5 - r) * m;
    assert m * r <= m * 1.5;
    assert 0.0 < p - m * r;
    assert (x - y) * (n * r) == p - m * r;
    StrictFactor(x - y, n * r);
  }

  /** The scores of A, B, C, in candidate order. */
  lemma ExampleScores(nm: Numerics)
    requires nm.Valid()
    ensures Similarities(nm, Seed, [A, B, C]) ==
              [Cosine(nm, ScaledSeedVec, ScaledA), Cosine(nm, ScaledSeedVec, ScaledB), Cosine(nm, ScaledSeedVec, ScaledC)]
  {
    ExampleScaling();
    ScoresOfScaled(nm, Seed, [A, B, C]);
    ScoresOfThree(nm, ScaledSeedVec, ScaledA, ScaledB, ScaledC);
  }

  /** The scores are the scaled seed's scores against the scaled candidates. */
  lemma ScoresOfScaled(nm: Numerics, seed: Track, candidates: seq<Track>)
    requires nm.Valid() && |candidates| > 0
    ensures Similarities(nm, seed, candidates) ==
              Scores(nm, ScaledSeed(seed, candidates), FitTransform(FeatureMatrix(candidates)))
  {
  }

  lemma ScoresOfThree(nm: Numerics, q: Vec, a: Vec, b: Vec, c: Vec)
    requires nm.Valid()
    ensures Scores(nm, q, [a, b, c]) == [Cosine(nm, q, a), Cosine(nm, q, b), Cosine(nm, q, c)]
  {
    assert |Scores(nm, q, [a, b, c])| == 3;
  }

  /** With three strictly ordered scores the selection is fully determined:
      first, third, second. */
  lemma ExampleTopK(s: seq<real>)
    requires |s| == 3 && s[0] > s[2] > s[1]
    ensures TopK(s, K) == [0, 2, 1]
  {
    OnlyAnswer(s, TopK(s, K));
  }

  lemma OnlyAnswer(s: seq<real>, r: seq<nat>)
    requires |s| == 3 && s[0] > s[2] > s[1]
    requires IsTopK(s, K, r)
    ensures r == [0, 2, 1]
  {
    ExpectedIsTopK(s);
    assert forall i, j :: 0 <= i < 3 && 0 <= j < 3 && s[i] == s[j] ==> i == j;
    TopKDeterminedWithoutTies(s, K, r, [0, 2, 1]);
  }

  lemma ExpectedIsTopK(s: seq<real>)
    requires |s| == 3 && s[0] > s[2] > s[1]
    ensures IsTopK(s, K, [0, 2, 1])
  {
    var e: seq<nat> := [0, 2, 1];
    assert Min(K, |s|) == 3;
    assert forall j :: 0 <= j < 3 ==> j in e;
  }

  /** The whole view on the example: the three candidates come back as A, C, B. */
  lemma ExampleRecommendation(nm: Numerics)
    requires nm.Valid()
    ensures Lookup(Store, "seed") == Some(Seed)
    ensures Recommend(nm, Store, "seed") == Success([A, C, B])
  {
    ExampleCandidates();
    ExampleRanked(nm);
    ExamplePick();
    Unfold(nm, Store, "seed", Seed, [A, B, C]);
  }

  /** The selection over the example's scores is first, third, second. */
  lemma ExampleRanked(nm: Numerics)
    requires nm.Valid()
    ensures TopK(Similarities(nm, Seed, [A, B, C]), K) == [0, 2, 1]
  {
    ExampleScores(nm);
    ExampleCosineOrder(nm);
    ExampleTopK(Similarities(nm, Seed, [A, B, C]));
  }

  lemma ExamplePick()
    ensures Pick([A, B, C], [0, 2, 1]) == [A, C, B]
  {
    var p := Pick([A, B, C], [0, 2, 1]);
    assert p[0] == A && p[1] == C && p[2] == B;
  }

  /** Recommend, read off from the results of its stages. */
  lemma Unfold(nm: Numerics, catalog: seq<Track>, seedId: string, seed: Track, candidates: seq<Track>)
    requires nm.Valid()
    requires Lookup(catalog, seedId) == Some(seed) && Exclude(catalog, seedId) == candidates
    requires |candidates| > 0
    ensures Recommend(nm, catalog, seedId) == Success(Pick(candidates, TopK(Similarities(nm, seed, candidates), K)))
  {
  }
}

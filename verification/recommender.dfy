/**
 The content-based recommendation view: look up the seed track, take every
 other track as a candidate, extract and min-max scale the feature vectors
 (fitted on the candidates only), score each candidate by cosine similarity
 against the scaled seed and return the five best candidates, best first.
 */
module Recommender {
  import opened Catalog
  import opened Features
  import opened Scaling
  import opened Similarity
  import opened Ranking

  /** How many tracks the view recommends. */
  const K: nat := 5

  /** The failures of the view: no track has the seed id (the view answers
      HTTP 404), or no other track is stored, so the scaler is fitted on an
      empty batch and raises (an uncaught exception, HTTP 500). */
  datatype Error = SeedNotFound | NoCandidates

  datatype Result<T> = Success(value: T) | Failure(error: Error)

  /** The seed vector scaled with the parameters fitted on the candidates,
      without refitting on the seed. */
  function ScaledSeed(seed: Track, candidates: seq<Track>): (q: Vec)
    requires |candidates| > 0
    ensures q == Transform(Fit(FeatureMatrix(candidates)), Extract(seed))
    ensures forall c :: 0 <= c < Dim ==>
              (0.0 <= q[c] <==> Fit(FeatureMatrix(candidates)).dataMin[c] <= Extract(seed)[c])
  {
    var vs := FeatureMatrix(candidates);
    forall c | 0 <= c < Dim
      ensures 0.0 <= Transform(Fit(vs), Extract(seed))[c] <==> Fit(vs).dataMin[c] <= Extract(seed)[c]
    {
      TransformRange(vs, Extract(seed), c);
    }
    Transform(Fit(vs), Extract(seed))
  }

  /** One similarity score per candidate, aligned with the candidate order. */
  function Similarities(nm: Numerics, seed: Track, candidates: seq<Track>): (r: seq<real>)
    requires nm.Valid() && |candidates| > 0
    ensures |r| == |candidates|
    ensures forall i :: 0 <= i < |candidates| ==>
              r[i] == Cosine(nm, ScaledSeed(seed, candidates),
                             Transform(Fit(FeatureMatrix(candidates)), Extract(candidates[i])))
  {
    Scores(nm, ScaledSeed(seed, candidates), FitTransform(FeatureMatrix(candidates)))
  }

  /** The tracks at the given candidate positions, in the given order. */
  function Pick(candidates: seq<Track>, idx: seq<nat>): (r: seq<Track>)
    requires forall i :: 0 <= i < |idx| ==> idx[i] < |candidates|
    ensures |r| == |idx|
    ensures forall i :: 0 <= i < |idx| ==> r[i] == candidates[idx[i]]
  {
    seq(|idx|, i requires 0 <= i < |idx| => candidates[idx[i]])
  }

  /** Score every candidate against the seed and keep the K best, best first. */
  function Rank(nm: Numerics, seed: Track, candidates: seq<Track>): (r: seq<Track>)
    requires nm.Valid() && |candidates| > 0
    ensures |r| == Min(K, |candidates|)
    ensures forall t :: t in r ==> t in candidates
    ensures exists idx :: IsTopK(Similarities(nm, seed, candidates), K, idx) && r == Pick(candidates, idx)
  {
    var idx := TopK(Similarities(nm, seed, candidates), K);
    Pick(candidates, idx)
  }

  /** The recommendation view. */
  function Recommend(nm: Numerics, catalog: seq<Track>, seedId: string): (r: Result<seq<Track>>)
    requires nm.Valid()
    ensures r == Failure(SeedNotFound) <==> forall t :: t in catalog ==> t.id != seedId
    ensures r == Failure(NoCandidates) <==>
              (exists t :: t in catalog && t.id == seedId) && forall t :: t in catalog ==> t.id == seedId
    ensures r.Success? <==> Lookup(catalog, seedId).Some? && |Exclude(catalog, seedId)| > 0
    ensures r.Success? ==>
              var candidates := Exclude(catalog, seedId);
              var scores := Similarities(nm, Lookup(catalog, seedId).value, candidates);
              && |r.value| == Min(K, |candidates|)
              && (forall t :: t in r.value ==> t in catalog && t.id != seedId)
              && exists idx :: IsTopK(scores, K, idx) && r.value == Pick(candidates, idx)
  {
    ExcludeEmpty(catalog, seedId);
    match Lookup(catalog, seedId)
    case None => Failure(SeedNotFound)
    case Some(seed) =>
      var candidates := Exclude(catalog, seedId);
      if |candidates| == 0 then Failure(NoCandidates)
      else Success(Rank(nm, seed, candidates))
  }

  /** With the store's primary-key constraint the view never recommends a track
      twice, and it returns min(5, n - 1) tracks for a store of n tracks. */
  lemma RecommendNoRepeats(nm: Numerics, catalog: seq<Track>, seedId: string)
    requires nm.Valid() && UniqueIds(catalog)
    ensures Recommend(nm, catalog, seedId).Success? ==>
              && UniqueIds(Recommend(nm, catalog, seedId).value)
              && |Recommend(nm, catalog, seedId).value| == Min(K, |catalog| - 1)
  {
    if Recommend(nm, catalog, seedId).Success? {
      var seed := Lookup(catalog, seedId).value;
      var candidates := Exclude(catalog, seedId);
      var idx := TopK(Similarities(nm, seed, candidates), K);
      var r := Pick(candidates, idx);
      assert Rank(nm, seed, candidates) == r;
      assert Recommend(nm, catalog, seedId).value == r;
      ExcludeUnique(catalog, seedId);
      LookupExcludePartition(catalog, seedId);
      forall i, j | 0 <= i < j < |r|
        ensures r[i].id != r[j].id
      {
        assert idx[i] != idx[j];
        if idx[i] < idx[j] {
          assert candidates[idx[i]].id != candidates[idx[j]].id;
        } else {
          assert candidates[idx[j]].id != candidates[idx[i]].id;
        }
      }
    }
  }

  /** Score bounds: every score lies in [-1, 1], and when the seed is not below
      the candidates' minimum in either feature (so its scaled vector is
      non-negative, like every scaled candidate) every score lies in [0, 1]. */
  lemma SimilaritiesBounded(nm: Numerics, seed: Track, candidates: seq<Track>, i: nat)
    requires nm.Valid() && i < |candidates|
    ensures -1.0 <= Similarities(nm, seed, candidates)[i] <= 1.0
    ensures (forall c :: 0 <= c < Dim ==> Fit(FeatureMatrix(candidates)).dataMin[c] <= Extract(seed)[c])
            ==> 0.0 <= Similarities(nm, seed, candidates)[i]
  {
    var vs := FeatureMatrix(candidates);
    var q := ScaledSeed(seed, candidates);
    var row := FitTransform(vs)[i];
    assert Similarities(nm, seed, candidates)[i] == Cosine(nm, q, row);
    CosineBounds(nm, q, row);
    forall c | 0 <= c < Dim
      ensures 0.0 <= row[c]
    {
      FitTransformUnit(vs, c);
    }
  }
}

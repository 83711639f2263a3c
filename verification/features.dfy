/**
 Feature extraction: each track becomes the positional vector
 [duration_ms, popularity], a missing field counting as 0.
 */
module Features {
  import opened Catalog

  /** Number of feature columns; the order of the columns is fixed. */
  const Dim: nat := 2
  const DurationCol: nat := 0
  const PopularityCol: nat := 1

  /** One row of the feature matrix. */
  type Vec = v: seq<real> | |v| == Dim witness [0.0, 0.0]

  /** The value a nullable field contributes: Python's `field or 0`. */
  function OrZero(f: Option<int>): int {
    match f
    case None => 0
    case Some(x) => x
  }

  /** The feature vector of one track. */
  function Extract(t: Track): (v: Vec)
    ensures v[DurationCol] == (if t.durationMs.Some? then t.durationMs.value as real else 0.0)
    ensures v[PopularityCol] == (if t.popularity.Some? then t.popularity.value as real else 0.0)
  {
    [OrZero(t.durationMs) as real, OrZero(t.popularity) as real]
  }

  /** The feature matrix of a sequence of tracks, one row per track in the same order. */
  function FeatureMatrix(tracks: seq<Track>): (m: seq<Vec>)
    ensures |m| == |tracks|
    ensures forall i :: 0 <= i < |tracks| ==> m[i] == Extract(tracks[i])
  {
    seq(|tracks|, i requires 0 <= i < |tracks| => Extract(tracks[i]))
  }

  /** The vector depends on the two numeric fields only, and a missing field
      cannot be told apart from a stored 0: two tracks get the same vector
      exactly when their fields agree after null is read as 0. */
  lemma ExtractSameIff(s: Track, t: Track)
    ensures Extract(s) == Extract(t) <==>
              OrZero(s.durationMs) == OrZero(t.durationMs) && OrZero(s.popularity) == OrZero(t.popularity)
  {
    if Extract(s) == Extract(t) {
      assert Extract(s)[DurationCol] == Extract(t)[DurationCol];
      assert Extract(s)[PopularityCol] == Extract(t)[PopularityCol];
    }
  }
}

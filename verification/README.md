# Content-based track recommendations, modelled in Dafny

The model covers the content-based recommendation view of the music recommender,
`content_based_recommendations` in `recommender/views.py`. Given the id of a seed track, the view
does the following:

1. It looks up the seed track by primary key and answers "not found" (HTTP 404) when there is none.
2. It takes every other stored track as a candidate, in the order the store returns them.
3. It turns each track into the feature vector `[duration_ms, popularity]`. A null field counts as 0.
4. It fits a min-max scaler on the candidates only, scales them, and scales the seed with the same
   parameters, without refitting.
5. It scores every candidate by the cosine similarity between its scaled vector and the scaled seed.
6. It returns the five best candidates, best first: `argsort()[-5:][::-1]`.

Modules, one per stage:

| file | module | stage |
|---|---|---|
| `catalog.dfy` | `Catalog` | the track record (its id and the two nullable integer fields the view reads), lookup by primary key, "all other tracks" |
| `features.dfy` | `Features` | the two-column feature vector |
| `scaling.dfy` | `Scaling` | min-max fit, transform and inverse transform |
| `similarity.dfy` | `Similarity` | dot product, squared length and cosine similarity |
| `ranking.dfy` | `Ranking` | ascending argsort, the top-k selection, and `IsTopK`, an independent description of a correct top-k answer |
| `recommender.dfy` | `Recommender` | the whole view |
| `arith.dfy` | `Arith` | facts about real arithmetic that the proofs share |
| `example.dfy` | `Example` | a worked example, worked through the model |

### How the numeric library's behaviour is modelled

Arithmetic is exact arithmetic on `real`. The square root is a parameter (`Similarity.Numerics`). It is
constrained only by `IsSqrt`: on non-negative inputs it returns a non-negative value whose square is the
input. Three behaviours belong to scikit-learn rather than to the repository. The model fixes them the
way that library does:

- **Constant column.** The min-max scaler divides a column whose range is zero by 1 instead of by 0
  (`Scaling.Span`). Every candidate then scales to 0 in that column. The seed scales to its
  difference from the column value.
- **Zero-length vector.** Cosine similarity normalises each vector to unit length and leaves a
  zero-length vector at zero. A pair in which one vector has length zero therefore scores 0.
- **No candidates.** The view passes an empty batch straight to `fit_transform`. The scaler rejects it
  with an exception that the view does not catch. The model returns `Failure(NoCandidates)`.

### Consequences of the code that a reader may not expect

- **No candidates.** When the seed is the only stored track, the scaler is fitted on an empty batch
  and raises. The view returns no list.
- **Constant column.** In a column that is constant over the candidates, every candidate scales to 0.
  The seed does not: it is only shifted by the column value (`Scaling.TransformRange`).
- **Ties.** The view uses numpy's default `argsort`, which is not stable and fixes no order among equal
  scores. `Recommender.Recommend` therefore promises some correct top-5 answer and leaves the order
  among equal scores open.
- **Worked example.** Take the seed at (150000, 60) and candidates A (200000, 80), B (200000, 10) and
  C (100000, 50). The scores order them A, C, B, and `Example.ExampleRecommendation` proves that the view
  returns them in that order.

## Model

| member | source | states |
|---|---|---|
| Catalog.Lookup | recommender/views.py:116 | The lookup finds a track exactly when some stored track has the id. The track found is stored and has that id. "Not found" (the 404) happens exactly when no stored track has the id. |
| Catalog.Exclude | recommender/views.py:117 | A track is a candidate exactly when it is stored and its id differs from the seed id. There are never more candidates than stored tracks. |
| Catalog.ExcludeEmpty | recommender/views.py:117 | The candidate list is empty exactly when every stored track has the seed id. |
| Catalog.LookupExcludePartition | recommender/views.py:116-117 | When ids are unique, the seed plus the candidates are exactly the stored tracks, counted with multiplicity. So there are n - 1 candidates. |
| Catalog.ExcludeUnique | recommender/models.py:51 | When ids are unique in the store (the primary key), they are unique among the candidates too. |
| Features.Extract | recommender/views.py:118-120 | Column 0 is duration_ms and column 1 is popularity. Each holds the stored integer, or 0 when the field is null. |
| Features.FeatureMatrix | recommender/views.py:119 | One row per candidate, in candidate order, and row i is the feature vector of candidate i. |
| Features.ExtractSameIff | recommender/views.py:119-120 | Two tracks get the same vector exactly when their two fields agree once null is read as 0. A null cannot be told apart from a stored 0. |
| Scaling.ColumnMin | recommender/views.py:122 | The fitted minimum of a column is at most every value in the column and equals one of them. |
| Scaling.ColumnMax | recommender/views.py:122 | The fitted maximum of a column is at least every value in the column and equals one of them. |
| Scaling.Fit | recommender/views.py:122 | The fitted per-column minimum and maximum bound every candidate and are attained by some candidate. |
| Scaling.FitDetermined | recommender/views.py:122 | Any per-column bounds that hold for every candidate and are attained by some candidate are exactly the fitted parameters. So the fit is determined by the candidates alone. |
| Scaling.Span | recommender/views.py:122 | The divisor of a column is never 0. It is positive for a fitted scaler. It is the column's range whenever that range is non-zero. A constant column is therefore divided by a non-zero number, not by its zero range. |
| Scaling.Transform | recommender/views.py:123 | The scaled value w of each column satisfies min + w * span == raw value. So the transform is the affine map that InverseTransform undoes (see RoundTrip). |
| Scaling.FitTransform | recommender/views.py:122 | Fit on the candidates and scale them: one scaled row per candidate, in order, each scaled with the parameters fitted on the whole batch. |
| Scaling.RoundTrip | recommender/views.py:122-123 | Transform and InverseTransform undo each other, in both orders. |
| Scaling.TransformRange | recommender/views.py:123 | A scaled value is non-negative exactly when the raw value is at least the fitted minimum. It is 0 exactly at the minimum. In a varying column it lies in [0, 1] exactly when the raw value is inside the fitted range, and it is 1 exactly at the maximum. So the seed can scale outside [0, 1]. In a constant column the raw value is only shifted by the minimum. |
| Scaling.FitTransformUnit | recommender/views.py:122 | Every scaled candidate lies in [0, 1] in every column. Some candidate scales to 0. In a varying column some candidate scales to 1. A column is constant exactly when every candidate scales to 0 in it. |
| Scaling.TransformMonotone | recommender/views.py:122-123 | Scaling keeps the order of values within a column, in both directions. |
| Similarity.Cosine | recommender/views.py:124 | A pair with a zero-length vector scores 0. Otherwise the score times the product of the two lengths is the dot product. CosineBounds, CosineSelf, CosineSymmetric and CosineScaleInvariant state its properties. |
| Similarity.CosineBounds | recommender/views.py:124 | Every score lies in [-1, 1]. It is non-negative when neither vector has a negative component. |
| Similarity.CosineSelf | recommender/views.py:124 | A vector of non-zero length scores exactly 1 against itself. |
| Similarity.CosineSymmetric | recommender/views.py:124 | The score does not depend on the order of the two vectors. |
| Similarity.CosineScaleInvariant | recommender/views.py:124 | Stretching a vector by a positive factor leaves every score unchanged. Only the direction of a vector matters. |
| Ranking.ArgSort | recommender/views.py:125 | The argsort lists every position of the score vector exactly once, in ascending score order. |
| Ranking.Reverse | recommender/views.py:125 | The reversed list has entry i taken from position n - 1 - i. |
| Ranking.TopK | recommender/views.py:125 | The last k positions of the ascending argsort, reversed, satisfy IsTopK. That is: min(k, n) distinct valid positions in non-increasing score order, with no position left out scoring above any position taken. |
| Ranking.TopKOfSorted | recommender/views.py:125 | The reversed tail of any ascending ordering of all positions satisfies IsTopK. |
| Ranking.TopKScoresUnique | recommender/views.py:125 | Any two answers satisfying IsTopK list the same scores, position by position. Only the order among equal scores can differ. |
| Ranking.TopKDeterminedWithoutTies | recommender/views.py:125 | Without tied scores there is exactly one answer satisfying IsTopK. |
| Recommender.ScaledSeed | recommender/views.py:120-123 | The scaled seed is the seed's feature vector transformed with the parameters fitted on the candidates, so the seed does not take part in the fit. A column of it is non-negative exactly when the seed is at least the candidates' minimum there. |
| Recommender.Similarities | recommender/views.py:119-124 | There is one score per candidate, aligned with the candidate order. Score i is the cosine between the scaled seed and candidate i's feature vector scaled with the candidates' fit. |
| Recommender.Pick | recommender/views.py:126 | The picked list has one track per index, and entry i is the candidate at index i of the selection. |
| Recommender.Rank | recommender/views.py:124-126 | The view returns min(5, n) candidates. They come from a correct top-5 answer for the candidates' scores, mapped back to the candidates at those positions. |
| Recommender.Recommend | recommender/views.py:114-127 | "Not found" happens exactly when no stored track has the seed id. "No candidates" happens exactly when the seed exists and every stored track has its id. Otherwise the result has min(5, number of candidates) tracks. Each returned track is stored and is not the seed. The tracks are the candidates at the positions of a correct top-5 answer for the similarity scores, best first. |
| Recommender.RecommendNoRepeats | recommender/views.py:116-126 | With the primary-key constraint, no track is recommended twice. A store of n tracks yields min(5, n - 1) recommendations. |
| Recommender.SimilaritiesBounded | recommender/views.py:121-124 | Every similarity lies in [-1, 1]. It lies in [0, 1] when the seed is at least the candidates' minimum in both features. |
| Example.ExampleFit | recommender/views.py:122 | For the example candidates, the fitted minimum is (100000, 10) and the fitted maximum is (200000, 80). |
| Example.ExampleScaling | recommender/views.py:122-123 | The example scales to A = (1, 1), B = (1, 0), C = (0, 4/7) and seed = (1/2, 5/7). |
| Example.ExampleCosineOrder | recommender/views.py:124 | In the example, A scores above C and C scores above B. |
| Example.ExampleTopK | recommender/views.py:125 | Three scores with the first above the third above the second are selected as positions 0, 2, 1. |
| Example.ExampleRecommendation | recommender/views.py:114-127 | The view on the example store returns A, C, B. |

## Left out

- The web layer is not modelled. That covers `login_required`, the request object and the rendering of
  `recommendations.html`. The model returns the list of selected candidate tracks, and the 404 becomes
  `Failure(SeedNotFound)`.
- Recommender.Pick: assumes that `tracks[i]` returns candidate i when `i` is an element of the numpy
  `argsort` result. That element is a numpy integer, not a Python `int`. Some Django versions reject
  such a key when indexing a QuerySet, which would raise for every non-empty candidate set. The
  repository does not pin a Django version, so the model does not decide this case.
- The rest of the repository is not part of this model: the other views, the catalog-service client in
  `recommender/utils/spotify.py`, the fetch command, URL routing, forms and admin. The only part of
  `recommender/models.py` modelled is the Track fields the view reads.
- Floating point is not modelled. Scaling and scores are exact real arithmetic, so rounding, NaN and
  overflow of the float64 arrays are not covered. `IntegerField` values are unbounded integers converted
  exactly to reals.
- The square root is not defined. It is a parameter characterised only by `IsSqrt`.
- Store order is not fixed. The unordered `Track.objects.exclude(...)` query returns rows in an order the
  database chooses. The model takes the store as a sequence and keeps its order.
- Recommender.Recommend: its contract promises some correct top-5 answer rather than one fixed order
  among tied scores, because numpy's default argsort is not stable. Its body uses a stable insertion
  argsort, which is one admissible instance.
- Recommender.Rank: same as Recommend. It is weaker than a fixed order among ties, for the same reason.
- Ranking.TopK: it requires k > 0. With k = 0 the slice `[-0:]` would take every position. The view
  always uses k = 5 (`Recommender.K`).
- The scikit-learn behaviours for a constant column, a zero-length vector and an empty batch are fixed
  as that library implements them. They are not visible in the repository itself.

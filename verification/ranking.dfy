/**
 Selection of the K highest scores: an ascending argsort of the score
 vector, of which the last K positions are taken and reversed so that the
 best score comes first. `IsTopK` is the independent description of a
 correct answer; it leaves the order among equal scores open, because the
 library's default argsort is not stable.
 */
module Ranking {

  function Min(a: int, b: int): int {
    if a <= b then a else b
  }

  /** Every entry of `idx` is a position of `scores`. */
  predicate ValidIndices(scores: seq<real>, idx: seq<nat>) {
    forall i :: 0 <= i < |idx| ==> idx[i] < |scores|
  }

  /** No position occurs twice. */
  predicate Distinct(idx: seq<nat>) {
    forall i, j :: 0 <= i < j < |idx| ==> idx[i] != idx[j]
  }

  /** The scores at the listed positions never decrease. */
  predicate Ascending(scores: seq<real>, idx: seq<nat>)
    requires ValidIndices(scores, idx)
  {
    forall i, j :: 0 <= i < j < |idx| ==> scores[idx[i]] <= scores[idx[j]]
  }

  /** The scores at the listed positions never increase. */
  predicate Descending(scores: seq<real>, idx: seq<nat>)
    requires ValidIndices(scores, idx)
  {
    forall i, j :: 0 <= i < j < |idx| ==> scores[idx[i]] >= scores[idx[j]]
  }

  /** `idx` is a correct answer to "the k best positions, best first": it has
      min(k, n) distinct valid positions in non-increasing score order, and
      no position left out scores higher than any position taken. */
  predicate IsTopK(scores: seq<real>, k: nat, idx: seq<nat>) {
    && |idx| == Min(k, |scores|)
    && ValidIndices(scores, idx)
    && Distinct(idx)
    && Descending(scores, idx)
    && forall j, i :: 0 <= j < |scores| && j !in idx && 0 <= i < |idx| ==> scores[j] <= scores[idx[i]]
  }

  /** Put the new position `x` into the ascending list `s`, after every
      position whose score is not larger. */
  function Insert(scores: seq<real>, s: seq<nat>, x: nat): (r: seq<nat>)
    requires ValidIndices(scores, s) && Ascending(scores, s) && Distinct(s)
    requires x < |scores| && x !in s
    ensures |r| == |s| + 1
    ensures forall y :: y in r <==> y in s || y == x
    ensures ValidIndices(scores, r) && Ascending(scores, r) && Distinct(r)
  {
    if |s| == 0 then [x]
    else if scores[x] < scores[s[0]] then [x] + s
    else
      var tail := s[1..];
      assert forall y :: y in s <==> y == s[0] || y in tail;
      assert forall j :: 0 <= j < |tail| ==> scores[s[0]] <= scores[tail[j]] && s[0] != tail[j];
      var rest := Insert(scores, tail, x);
      assert s[0] !in rest;
      assert forall j :: 0 <= j < |rest| ==> scores[s[0]] <= scores[rest[j]] by {
        forall j | 0 <= j < |rest| ensures scores[s[0]] <= scores[rest[j]] {
          assert rest[j] in rest;
        }
      }
      var r := [s[0]] + rest;
      assert forall j :: 1 <= j < |r| ==> r[j] == rest[j - 1];
      r
  }

  /** The positions 0 .. n-1 sorted by ascending score. */
  function SortPrefix(scores: seq<real>, n: nat): (r: seq<nat>)
    requires n <= |scores|
    ensures |r| == n
    ensures ValidIndices(scores, r) && Ascending(scores, r) && Distinct(r)
    ensures forall p: nat :: p in r <==> p < n
  {
    if n == 0 then []
    else Insert(scores, SortPrefix(scores, n - 1), n - 1)
  }

  /** `numpy.argsort`: every position exactly once, in ascending score order. */
  function ArgSort(scores: seq<real>): (r: seq<nat>)
    ensures |r| == |scores|
    ensures ValidIndices(scores, r) && Ascending(scores, r) && Distinct(r)
    ensures forall p: nat :: p in r <==> p < |scores|
  {
    SortPrefix(scores, |scores|)
  }

  function Reverse(s: seq<nat>): (r: seq<nat>)
    ensures |r| == |s|
    ensures forall i :: 0 <= i < |s| ==> r[i] == s[|s| - 1 - i]
  {
    if |s| == 0 then [] else Reverse(s[1..]) + [s[0]]
  }

  /** `scores.argsort()[-k:][::-1]`: the last k positions of the ascending
      argsort (all of them when there are fewer than k), best first. */
  function TopK(scores: seq<real>, k: nat): (r: seq<nat>)
    requires 0 < k
    ensures IsTopK(scores, k, r)
  {
    var a := ArgSort(scores);
    var m := Min(k, |a|);
    var r := Reverse(a[|a| - m..]);
    TopKOfSorted(scores, k, a, r);
    r
  }

  /** Reversing the tail of an ascending permutation of all positions yields a
      correct top-k answer. */
  lemma TopKOfSorted(scores: seq<real>, k: nat, a: seq<nat>, r: seq<nat>)
    requires |a| == |scores|
    requires ValidIndices(scores, a) && Ascending(scores, a) && Distinct(a)
    requires forall p: nat :: p in a <==> p < |scores|
    requires r == Reverse(a[|a| - Min(k, |a|)..])
    ensures IsTopK(scores, k, r)
  {
    var n, m := |a|, Min(k, |a|);
    assert forall i :: 0 <= i < m ==> r[i] == a[n - 1 - i];
    forall j, i | 0 <= j < |scores| && j !in r && 0 <= i < m
      ensures scores[j] <= scores[r[i]]
    {
      assert j in a;
      var p :| 0 <= p < n && a[p] == j;
      assert forall q :: n - m <= q < n ==> a[q] == r[n - 1 - q];
      assert p < n - m;
    }
  }

  /** IsTopK fixes the answer up to the order among equal scores: two correct
      answers list the same scores, position by position. */
  lemma TopKScoresUnique(scores: seq<real>, k: nat, r1: seq<nat>, r2: seq<nat>)
    requires IsTopK(scores, k, r1) && IsTopK(scores, k, r2)
    ensures forall i :: 0 <= i < |r1| ==> scores[r1[i]] == scores[r2[i]]
  {
    forall i | 0 <= i < |r1|
      ensures scores[r1[i]] == scores[r2[i]]
    {
      NotAbove(scores, k, r1, r2, i);
      NotAbove(scores, k, r2, r1, i);
    }
  }

  /** Without ties there is exactly one correct answer, so the order among
      equal scores is the only thing IsTopK leaves open. */
  lemma TopKDeterminedWithoutTies(scores: seq<real>, k: nat, r1: seq<nat>, r2: seq<nat>)
    requires IsTopK(scores, k, r1) && IsTopK(scores, k, r2)
    requires forall i, j :: 0 <= i < |scores| && 0 <= j < |scores| && scores[i] == scores[j] ==> i == j
    ensures r1 == r2
  {
    TopKScoresUnique(scores, k, r1, r2);
  }

  /** The i-th score of one correct answer cannot exceed the i-th score of another. */
  lemma NotAbove(scores: seq<real>, k: nat, r1: seq<nat>, r2: seq<nat>, i: nat)
    requires IsTopK(scores, k, r1) && IsTopK(scores, k, r2) && i < |r1|
    ensures scores[r1[i]] <= scores[r2[i]]
  {
    if scores[r1[i]] > scores[r2[i]] {
      // the first i + 1 entries of r1 all score above r2[i], so they all sit
      // among the first i entries of r2: one entry too many
      var head1, head2 := r1[..i + 1], r2[..i];
      forall p | p in head1
        ensures p in head2
      {
        AboveIsAhead(scores, k, r1, r2, i, p);
      }
      DistinctCard(head1);
      SeqSetCard(head2);
      SubsetCard(Elems(head1), Elems(head2));
      assert false;
    }
  }

  /** Under the same hypothesis, any of the first i + 1 entries of r1 is one of
      the first i entries of r2. */
  lemma AboveIsAhead(scores: seq<real>, k: nat, r1: seq<nat>, r2: seq<nat>, i: nat, p: nat)
    requires IsTopK(scores, k, r1) && IsTopK(scores, k, r2) && i < |r1|
    requires scores[r1[i]] > scores[r2[i]]
    requires p in r1[..i + 1]
    ensures p in r2[..i]
  {
    var q :| 0 <= q <= i && r1[q] == p;
    assert scores[p] >= scores[r1[i]];
    assert p in r2;
    var t :| 0 <= t < |r2| && r2[t] == p;
    assert t < i;
    assert r2[..i][t] == p;
  }

  /** The set of values of a list. */
  function Elems(s: seq<nat>): set<nat> {
    set p | p in s
  }

  lemma ElemsCons(s: seq<nat>)
    requires |s| > 0
    ensures Elems(s) == {s[0]} + Elems(s[1..])
  {
    assert forall p :: p in s <==> p == s[0] || p in s[1..];
  }

  /** A list without repeats has as many distinct values as entries. */
  lemma {:induction false} DistinctCard(s: seq<nat>)
    requires Distinct(s)
    ensures |Elems(s)| == |s|
  {
    if |s| > 0 {
      var tail := s[1..];
      assert Distinct(tail);
      DistinctCard(tail);
      assert s[0] !in tail;
      ElemsCons(s);
    }
  }

  /** A list has at most as many distinct values as entries. */
  lemma {:induction false} SeqSetCard(s: seq<nat>)
    ensures |Elems(s)| <= |s|
  {
    if |s| > 0 {
      SeqSetCard(s[1..]);
      ElemsCons(s);
    }
  }

  lemma {:induction false} SubsetCard(a: set<nat>, b: set<nat>)
    requires a <= b
    ensures |a| <= |b|
  {
    if a != {} {
      var x :| x in a;
      SubsetCard(a - {x}, b - {x});
    }
  }
}

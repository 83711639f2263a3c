/**
 The part of the track store the recommender reads: the track record with its
 two nullable numeric fields, the lookup of the seed track by primary key and
 the query for every other track.
 */
module Catalog {

  /** A nullable database column. */
  datatype Option<T> = None | Some(value: T)

  /** A stored track, reduced to its primary key and the two nullable integer
      fields the recommender reads. The remaining columns are never read by it. */
  datatype Track = Track(id: string, durationMs: Option<int>, popularity: Option<int>)

  /** The primary-key constraint of the track table: no id occurs twice. */
  predicate UniqueIds(catalog: seq<Track>) {
    forall i, j :: 0 <= i < j < |catalog| ==> catalog[i].id != catalog[j].id
  }

  /** Fetch a track by primary key; None is the "not found" outcome that the
      view turns into an HTTP 404. */
  function Lookup(catalog: seq<Track>, id: string): (r: Option<Track>)
    ensures r.Some? ==> r.value in catalog && r.value.id == id
    ensures r.None? <==> forall t :: t in catalog ==> t.id != id
  {
    if |catalog| == 0 then None
    else if catalog[0].id == id then Some(catalog[0])
    else
      assert forall t :: t in catalog[1..] ==> t in catalog;
      Lookup(catalog[1..], id)
  }

  /** Every track whose id differs from `id`, in store order. */
  function Exclude(catalog: seq<Track>, id: string): (r: seq<Track>)
    ensures forall t :: t in r <==> t in catalog && t.id != id
    ensures |r| <= |catalog|
  {
    if |catalog| == 0 then []
    else
      var rest := Exclude(catalog[1..], id);
      assert forall t :: t in catalog <==> t == catalog[0] || t in catalog[1..];
      if catalog[0].id == id then rest else [catalog[0]] + rest
  }

  /** Excluding an id leaves nothing exactly when every stored track has that id. */
  lemma ExcludeEmpty(catalog: seq<Track>, id: string)
    ensures |Exclude(catalog, id)| == 0 <==> forall t :: t in catalog ==> t.id == id
  {
    var r := Exclude(catalog, id);
    if |r| > 0 {
      assert r[0] in r;
    }
  }

  /** Lookup and Exclude split the store: the found seed plus the other tracks
      are exactly the stored tracks, with multiplicity. */
  lemma {:induction false} LookupExcludePartition(catalog: seq<Track>, id: string)
    requires UniqueIds(catalog)
    requires Lookup(catalog, id).Some?
    ensures multiset(Exclude(catalog, id)) + multiset{Lookup(catalog, id).value} == multiset(catalog)
    ensures |Exclude(catalog, id)| == |catalog| - 1
  {
    assert catalog == [catalog[0]] + catalog[1..];
    if catalog[0].id == id {
      ExcludeAbsent(catalog[1..], id);
    } else {
      LookupExcludePartition(catalog[1..], id);
    }
  }

  /** Excluding an id that does not occur removes nothing. */
  lemma {:induction false} ExcludeAbsent(catalog: seq<Track>, id: string)
    requires forall t :: t in catalog ==> t.id != id
    ensures Exclude(catalog, id) == catalog
  {
    if |catalog| > 0 {
      assert catalog == [catalog[0]] + catalog[1..];
      ExcludeAbsent(catalog[1..], id);
    }
  }

  /** Excluding keeps the primary-key constraint: the candidate list has no
      track twice. */
  lemma {:induction false} ExcludeUnique(catalog: seq<Track>, id: string)
    requires UniqueIds(catalog)
    ensures UniqueIds(Exclude(catalog, id))
  {
    if |catalog| > 0 {
      ExcludeUnique(catalog[1..], id);
      var rest := Exclude(catalog[1..], id);
      forall t | t in rest
        ensures t.id != catalog[0].id
      {
        var k :| 0 <= k < |catalog[1..]| && catalog[1..][k] == t;
        assert catalog[k + 1] == t;
      }
    }
  }
}

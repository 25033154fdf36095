/**
 * The ranking that the analysis stage of tasks.py computes, stated without
 * any sort: a record's rank is one more than the number of records that
 * come before it in a stable descending sort by
 * (avg_temperature, avg_hours_without_precipitation).
 */
module Ranking {
  import opened Wrappers
  import opened Weather

  /** The sort key of a record is lexicographically greater than that of another. */
  predicate KeyGreater(a: CityStat, b: CityStat)
  {
    a.avgTemperature > b.avgTemperature ||
    (a.avgTemperature == b.avgTemperature &&
     a.avgHoursWithoutPrecipitation > b.avgHoursWithoutPrecipitation)
  }

  /** Two records have the same sort key. */
  predicate SameKey(a: CityStat, b: CityStat)
  {
    a.avgTemperature == b.avgTemperature &&
    a.avgHoursWithoutPrecipitation == b.avgHoursWithoutPrecipitation
  }

  /**
   * Record `j` of the store comes before record `i` in a stable descending
   * sort: it has a greater key, or the same key and an earlier position.
   */
  predicate RanksAhead(store: seq<CityStat>, j: int, i: int)
    requires 0 <= j < |store| && 0 <= i < |store|
  {
    KeyGreater(store[j], store[i]) || (SameKey(store[j], store[i]) && j < i)
  }

  /** The positions of the records that come before record `i`. */
  function AheadOf(store: seq<CityStat>, i: int): set<int>
    requires 0 <= i < |store|
  {
    set j | 0 <= j < |store| && RanksAhead(store, j, i)
  }

  /** The 1-based rank of record `i`. */
  function Rank(store: seq<CityStat>, i: int): nat
    requires 0 <= i < |store|
  {
    1 + |AheadOf(store, i)|
  }

  /** The integers from `lo` up to but excluding `hi`. */
  function Range(lo: int, hi: int): set<int>
    decreases hi - lo
  {
    if lo >= hi then {} else Range(lo, hi - 1) + {hi - 1}
  }

  lemma {:induction false} RangeFacts(lo: int, hi: int)
    ensures forall k :: k in Range(lo, hi) <==> lo <= k < hi
    ensures |Range(lo, hi)| == if lo <= hi then hi - lo else 0
    decreases hi - lo
  {
    if lo < hi {
      RangeFacts(lo, hi - 1);
    }
  }

  /** Every rank lies in 1..N. */
  lemma RankBounds(store: seq<CityStat>, i: int)
    requires 0 <= i < |store|
    ensures 1 <= Rank(store, i) <= |store|
  {
    var others := Range(0, |store|) - {i};
    RangeFacts(0, |store|);
    assert AheadOf(store, i) <= others;
    assert |others| == |store| - 1;
    assert AheadOf(store, i) + (others - AheadOf(store, i)) == others;
  }

  /** Coming before is transitive. */
  lemma RanksAheadTransitive(store: seq<CityStat>, k: int, j: int, i: int)
    requires 0 <= k < |store| && 0 <= j < |store| && 0 <= i < |store|
    requires RanksAhead(store, k, j) && RanksAhead(store, j, i)
    ensures RanksAhead(store, k, i)
  {
  }

  /** A record that comes before another has a smaller rank. */
  lemma RankOrder(store: seq<CityStat>, j: int, i: int)
    requires 0 <= j < |store| && 0 <= i < |store|
    requires RanksAhead(store, j, i)
    ensures Rank(store, j) < Rank(store, i)
  {
    var aj, ai := AheadOf(store, j), AheadOf(store, i);
    forall k | k in aj
      ensures k in ai
    {
      RanksAheadTransitive(store, k, j, i);
    }
    assert j in ai - aj;
    assert ai == aj + (ai - aj);
    assert |ai| == |aj| + |ai - aj|;
  }

  /**
   * The ordering the sort establishes: a lexicographically greater key gives
   * a smaller rank, and among equal keys the earlier record in the store gets
   * the smaller rank (the sort is stable).
   */
  lemma RankRespectsKey(store: seq<CityStat>, a: int, b: int)
    requires 0 <= a < |store| && 0 <= b < |store|
    ensures KeyGreater(store[a], store[b]) ==> Rank(store, a) < Rank(store, b)
    ensures SameKey(store[a], store[b]) && a < b ==> Rank(store, a) < Rank(store, b)
  {
    if RanksAhead(store, a, b) {
      RankOrder(store, a, b);
    }
  }

  /** No two records share a rank. */
  lemma RankInjective(store: seq<CityStat>, i: int, j: int)
    requires 0 <= i < |store| && 0 <= j < |store| && i != j
    ensures Rank(store, i) != Rank(store, j)
  {
    if RanksAhead(store, i, j) {
      RankOrder(store, i, j);
    } else {
      RankOrder(store, j, i);
    }
  }

  /** The ranks of the first `n` records. */
  function RanksUpTo(store: seq<CityStat>, n: int): set<int>
    requires 0 <= n <= |store|
  {
    set i | 0 <= i < n :: Rank(store, i)
  }

  lemma {:induction false} RanksUpToSize(store: seq<CityStat>, n: int)
    requires 0 <= n <= |store|
    ensures |RanksUpTo(store, n)| == n
  {
    if n == 0 {
      assert RanksUpTo(store, n) == {};
    } else {
      RanksUpToSize(store, n - 1);
      forall i | 0 <= i < n - 1
        ensures Rank(store, i) != Rank(store, n - 1)
      {
        RankInjective(store, i, n - 1);
      }
      assert Rank(store, n - 1) !in RanksUpTo(store, n - 1);
      assert RanksUpTo(store, n) == RanksUpTo(store, n - 1) + {Rank(store, n - 1)};
    }
  }

  /** The ranks of a store of N records are exactly 1..N. */
  lemma RanksArePermutation(store: seq<CityStat>)
    ensures RanksUpTo(store, |store|) == Range(1, |store| + 1)
  {
    var ranks, all := RanksUpTo(store, |store|), Range(1, |store| + 1);
    RangeFacts(1, |store| + 1);
    forall i | 0 <= i < |store|
      ensures Rank(store, i) in all
    {
      RankBounds(store, i);
    }
    assert ranks <= all;
    RanksUpToSize(store, |store|);
    assert all == ranks + (all - ranks);
    assert |all - ranks| == 0;
  }

  /**
   * Ranks depend on the sort keys and the order of the records only; in
   * particular not on a rating the records already carry.
   */
  lemma RankIgnoresRating(store: seq<CityStat>, store': seq<CityStat>, i: int)
    requires |store'| == |store|
    requires forall k :: 0 <= k < |store| ==> store'[k] == store[k].(rating := store'[k].rating)
    requires 0 <= i < |store|
    ensures Rank(store', i) == Rank(store, i)
  {
    assert AheadOf(store', i) == AheadOf(store, i);
  }

  /**
   * `r` is the rating that the write-back gives record `i`: the ranks are
   * collected in a dictionary keyed by city, so when several records share a
   * city each of them reads the rank of the one that sorts last, which is
   * the greatest rank among them.
   */
  ghost predicate IsCityRating(store: seq<CityStat>, i: int, r: int)
    requires 0 <= i < |store|
  {
    (exists j :: 0 <= j < |store| && store[j].city == store[i].city && r == Rank(store, j)) &&
    (forall j :: 0 <= j < |store| && store[j].city == store[i].city ==> Rank(store, j) <= r)
  }

  /** The greatest rank among the first `n` records named `c`, or 0 if there is none. */
  function MaxRankOfCity(store: seq<CityStat>, c: string, n: int): nat
    requires 0 <= n <= |store|
  {
    if n == 0 then 0
    else
      var m := MaxRankOfCity(store, c, n - 1);
      if store[n - 1].city == c && Rank(store, n - 1) > m then Rank(store, n - 1) else m
  }

  /** The rating record `i` ends up with. */
  function CityRating(store: seq<CityStat>, i: int): nat
    requires 0 <= i < |store|
  {
    MaxRankOfCity(store, store[i].city, |store|)
  }

  lemma {:induction false} MaxRankOfCityFacts(store: seq<CityStat>, c: string, n: int)
    requires 0 <= n <= |store|
    ensures forall j :: 0 <= j < n && store[j].city == c ==> Rank(store, j) <= MaxRankOfCity(store, c, n)
    ensures MaxRankOfCity(store, c, n) == 0 ||
            exists j :: 0 <= j < n && store[j].city == c && Rank(store, j) == MaxRankOfCity(store, c, n)
  {
    if n > 0 {
      MaxRankOfCityFacts(store, c, n - 1);
    }
  }

  /** A record's city rating is the greatest rank among the records of its city. */
  lemma CityRatingIsMaxRank(store: seq<CityStat>, i: int)
    requires 0 <= i < |store|
    ensures IsCityRating(store, i, CityRating(store, i))
  {
    MaxRankOfCityFacts(store, store[i].city, |store|);
    RankBounds(store, i);
  }

  /** A record has one city rating only. */
  lemma CityRatingUnique(store: seq<CityStat>, i: int, r: int)
    requires 0 <= i < |store|
    requires IsCityRating(store, i, r)
    ensures r == CityRating(store, i)
  {
    CityRatingIsMaxRank(store, i);
  }

  /** With distinct city names a record's city rating is its own rank. */
  lemma CityRatingOfDistinct(store: seq<CityStat>, i: int)
    requires DistinctCities(store)
    requires 0 <= i < |store|
    ensures CityRating(store, i) == Rank(store, i)
  {
    CityRatingIsMaxRank(store, i);
    var j :| 0 <= j < |store| && store[j].city == store[i].city && CityRating(store, i) == Rank(store, j);
    assert j == i;
  }

  /**
   * `ranked` is a finished analysis of `store`: the same records in the same
   * order, each with only its rating changed, and that rating set to the
   * record's city rating.
   */
  predicate IsAnalysisOf(store: seq<CityStat>, ranked: seq<CityStat>)
  {
    |ranked| == |store| &&
    forall i :: 0 <= i < |store| ==> ranked[i] == store[i].(rating := Some(CityRating(store, i)))
  }

  lemma {:induction false} MaxRankOfCityIgnoresRating(store: seq<CityStat>, store': seq<CityStat>, c: string, n: int)
    requires |store'| == |store|
    requires forall k :: 0 <= k < |store| ==> store'[k] == store[k].(rating := store'[k].rating)
    requires 0 <= n <= |store|
    ensures MaxRankOfCity(store', c, n) == MaxRankOfCity(store, c, n)
  {
    if n > 0 {
      MaxRankOfCityIgnoresRating(store, store', c, n - 1);
      RankIgnoresRating(store, store', n - 1);
    }
  }

  /**
   * Analysing an already analysed store changes nothing: the sort key does
   * not include the prior rating, so a re-run assigns the same ratings.
   */
  lemma AnalysisIsIdempotent(store: seq<CityStat>, ranked: seq<CityStat>, reranked: seq<CityStat>)
    requires IsAnalysisOf(store, ranked) && IsAnalysisOf(ranked, reranked)
    ensures reranked == ranked
  {
    forall i | 0 <= i < |store|
      ensures reranked[i] == ranked[i]
    {
      MaxRankOfCityIgnoresRating(store, ranked, store[i].city, |store|);
    }
  }

  /**
   * What the analysis promises for distinct city names: every record gets
   * its rank, the ratings are exactly 1..N with no two alike, a greater key
   * gets a smaller rating, and equal keys keep their store order.
   */
  lemma AnalysisOfDistinctCities(store: seq<CityStat>, ranked: seq<CityStat>)
    requires DistinctCities(store)
    requires IsAnalysisOf(store, ranked)
    ensures forall i :: 0 <= i < |store| ==> ranked[i].rating == Some(Rank(store, i))
    ensures (set i | 0 <= i < |ranked| :: ranked[i].rating.value) == Range(1, |store| + 1)
    ensures forall i, j :: 0 <= i < |store| && 0 <= j < |store| && i != j ==>
              ranked[i].rating != ranked[j].rating
    ensures forall a, b :: 0 <= a < |store| && 0 <= b < |store| && KeyGreater(store[a], store[b]) ==>
              ranked[a].rating.value < ranked[b].rating.value
    ensures forall a, b :: 0 <= a < b < |store| && SameKey(store[a], store[b]) ==>
              ranked[a].rating.value < ranked[b].rating.value
  {
    forall i | 0 <= i < |store|
      ensures ranked[i].rating == Some(Rank(store, i))
    {
      CityRatingOfDistinct(store, i);
    }
    RatedByRank(store, ranked);
  }

  /** The facts above, for ratings that are the ranks. */
  lemma RatedByRank(store: seq<CityStat>, ranked: seq<CityStat>)
    requires |ranked| == |store|
    requires forall i :: 0 <= i < |store| ==> ranked[i].rating == Some(Rank(store, i))
    ensures (set i | 0 <= i < |ranked| :: ranked[i].rating.value) == Range(1, |store| + 1)
    ensures forall i, j :: 0 <= i < |store| && 0 <= j < |store| && i != j ==>
              ranked[i].rating != ranked[j].rating
    ensures forall a, b :: 0 <= a < |store| && 0 <= b < |store| && KeyGreater(store[a], store[b]) ==>
              ranked[a].rating.value < ranked[b].rating.value
    ensures forall a, b :: 0 <= a < b < |store| && SameKey(store[a], store[b]) ==>
              ranked[a].rating.value < ranked[b].rating.value
  {
    RanksArePermutation(store);
    assert (set i | 0 <= i < |ranked| :: ranked[i].rating.value) == RanksUpTo(store, |store|);
    forall i, j | 0 <= i < |store| && 0 <= j < |store| && i != j
      ensures ranked[i].rating != ranked[j].rating
    {
      RankInjective(store, i, j);
    }
    forall a, b | 0 <= a < |store| && 0 <= b < |store|
      ensures KeyGreater(store[a], store[b]) ==> ranked[a].rating.value < ranked[b].rating.value
      ensures a < b && SameKey(store[a], store[b]) ==> ranked[a].rating.value < ranked[b].rating.value
    {
      RankRespectsKey(store, a, b);
    }
  }

  /**
   * Three records stored in the order A (10, 5), C (15, 2), B (15, 2): the
   * two tied records keep their store order, so C is rated 1, B 2 and A 3.
   */
  lemma TiedRecordsKeepStoreOrder(ranked: seq<CityStat>)
    requires IsAnalysisOf([CityStat("A", [], 10.0, 5.0, None),
                           CityStat("C", [], 15.0, 2.0, None),
                           CityStat("B", [], 15.0, 2.0, None)], ranked)
    ensures ranked[0].city == "A" && ranked[0].rating == Some(3)
    ensures ranked[1].city == "C" && ranked[1].rating == Some(1)
    ensures ranked[2].city == "B" && ranked[2].rating == Some(2)
  {
    var store := [CityStat("A", [], 10.0, 5.0, None),
                  CityStat("C", [], 15.0, 2.0, None),
                  CityStat("B", [], 15.0, 2.0, None)];
    assert AheadOf(store, 0) == {1, 2};
    assert AheadOf(store, 1) == {};
    assert AheadOf(store, 2) == {1};
    assert DistinctCities(store);
    AnalysisOfDistinctCities(store, ranked);
  }
}

/**
 * The analysis stage of tasks.py: `DataAnalyzingTask.finish_analyze_data`.
 * The store is read and written as a whole; here it is the sequence passed
 * in and the sequence returned.
 */
module Analysis {
  import opened Wrappers
  import opened Weather
  import opened Ranking

  /**
   * One tuple of `city_avg_values`: `(city, avg_temperature,
   * avg_hours_without_precipitation)`, tagged with the position in the store
   * of the record it was projected from. The tag takes no part in the
   * comparison; it names which record a tuple came from, so that stability
   * of the sort can be stated.
   */
  datatype Entry = Entry(city: string, temperature: real, hours: real, position: nat)

  /** The projection of the store into tuples (tasks.py:102-108). */
  function Projection(store: seq<CityStat>): seq<Entry>
  {
    seq(|store|, i requires 0 <= i < |store| =>
      Entry(store[i].city, store[i].avgTemperature, store[i].avgHoursWithoutPrecipitation, i))
  }

  /** The sort key `(x[1], x[2])` of one tuple is lexicographically greater than another's. */
  predicate EntryKeyGreater(x: Entry, y: Entry)
  {
    x.temperature > y.temperature || (x.temperature == y.temperature && x.hours > y.hours)
  }

  /**
   * Tuple `x` comes before `y` in a stable descending sort: a greater key,
   * or an equal key and an earlier original position.
   */
  predicate Precedes(x: Entry, y: Entry)
  {
    EntryKeyGreater(x, y) ||
    (x.temperature == y.temperature && x.hours == y.hours && x.position < y.position)
  }

  /** Every tuple comes before every later one. */
  predicate StablySorted(s: seq<Entry>)
  {
    forall k, l :: 0 <= k < l < |s| ==> Precedes(s[k], s[l])
  }

  /** Exchanges two neighbouring tuples. */
  method SwapWithPrevious(a: array<Entry>, j: int)
    requires 0 < j < a.Length
    modifies a
    ensures a[j - 1] == old(a[j]) && a[j] == old(a[j - 1])
    ensures forall k :: 0 <= k < a.Length && k != j - 1 && k != j ==> a[k] == old(a[k])
    ensures multiset(a[..]) == multiset(old(a[..]))
  {
    a[j - 1], a[j] := a[j], a[j - 1];
  }

  /**
   * One step of the insertion sort: moves tuple `i`, the latest in store
   * order, left past every tuple with a strictly smaller key.
   */
  method InsertLast(a: array<Entry>, i: int)
    requires 0 <= i < a.Length
    requires StablySorted(a[..i])
    requires a[i].position == i
    requires forall k :: 0 <= k < i ==> a[k].position < i
    modifies a
    ensures StablySorted(a[..i + 1])
    ensures forall k :: 0 <= k <= i ==> a[k].position <= i
    ensures forall k :: i < k < a.Length ==> a[k] == old(a[k])
    ensures multiset(a[..]) == multiset(old(a[..]))
  {
    var j := i;
    while j > 0 && EntryKeyGreater(a[j], a[j - 1])
      invariant 0 <= j <= i
      invariant a[j].position == i
      invariant forall k :: 0 <= k <= i && k != j ==> a[k].position < i
      invariant forall k, l :: 0 <= k < l <= i && k != j && l != j ==> Precedes(a[k], a[l])
      invariant forall l :: j < l <= i ==> Precedes(a[j], a[l])
      invariant forall k :: i < k < a.Length ==> a[k] == old(a[k])
      invariant multiset(a[..]) == multiset(old(a[..]))
    {
      SwapWithPrevious(a, j);
      j := j - 1;
    }
  }

  /**
   * `city_avg_values.sort(key=lambda x: (x[1], x[2]), reverse=True)`: a
   * stable descending sort that compares keys only, written as an insertion
   * sort. With the tuples in store order beforehand, the result is stably
   * sorted and a permutation of them.
   */
  method SortDescending(a: array<Entry>)
    requires forall k :: 0 <= k < a.Length ==> a[k].position == k
    modifies a
    ensures StablySorted(a[..])
    ensures multiset(a[..]) == multiset(old(a[..]))
  {
    for i := 0 to a.Length
      invariant StablySorted(a[..i])
      invariant forall k :: 0 <= k < i ==> a[k].position < i
      invariant forall k :: i <= k < a.Length ==> a[k] == old(a[k])
      invariant multiset(a[..]) == multiset(old(a[..]))
    {
      InsertLast(a, i);
    }
    assert a[..a.Length] == a[..];
  }

  /** `s` is what sorting the projection of `store` yields. */
  predicate IsSortedProjection(store: seq<CityStat>, s: seq<Entry>)
  {
    StablySorted(s) && multiset(s) == multiset(Projection(store))
  }

  /** A tuple found in the projection is the projection of the record at its position. */
  lemma InProjection(store: seq<CityStat>, e: Entry)
    requires e in multiset(Projection(store))
    ensures e.position < |store| && Projection(store)[e.position] == e
  {
    assert e in Projection(store);
    var q :| 0 <= q < |store| && Projection(store)[q] == e;
  }

  /** Every tuple of the sorted projection was projected from the record at its position. */
  lemma SortedTuplesComeFromStore(store: seq<CityStat>, s: seq<Entry>)
    requires IsSortedProjection(store, s)
    ensures |s| == |store|
    ensures forall k :: 0 <= k < |s| ==> s[k].position < |store| && s[k] == Projection(store)[s[k].position]
  {
    assert |multiset(s)| == |multiset(Projection(store))|;
    forall k | 0 <= k < |s|
      ensures s[k].position < |store| && s[k] == Projection(store)[s[k].position]
    {
      assert s[k] in multiset(s);
      InProjection(store, s[k]);
    }
  }

  /** Every record of the store has its tuple somewhere in the sorted projection. */
  lemma RecordIsPlaced(store: seq<CityStat>, s: seq<Entry>, j: int)
    requires IsSortedProjection(store, s)
    requires 0 <= j < |store|
    ensures exists k :: 0 <= k < |s| && s[k] == Projection(store)[j]
  {
    assert Projection(store)[j] in multiset(Projection(store));
    assert Projection(store)[j] in s;
  }

  /** The store positions of the first `k` sorted tuples. */
  function Positions(s: seq<Entry>, k: int): set<int>
    requires 0 <= k <= |s|
  {
    set m | 0 <= m < k :: s[m].position
  }

  /** No two sorted tuples come from the same record. */
  lemma DistinctPositions(store: seq<CityStat>, s: seq<Entry>)
    requires IsSortedProjection(store, s)
    ensures forall m, m' :: 0 <= m < m' < |s| ==> s[m].position != s[m'].position
  {
    forall m, m' | 0 <= m < m' < |s|
      ensures s[m].position != s[m'].position
    {
      TupleAt(store, s, m);
      TupleAt(store, s, m');
      assert Precedes(s[m], s[m']);
    }
  }

  lemma {:induction false} PositionsSize(s: seq<Entry>, k: int)
    requires forall m, m' :: 0 <= m < m' < |s| ==> s[m].position != s[m'].position
    requires 0 <= k <= |s|
    ensures |Positions(s, k)| == k
  {
    if k == 0 {
      assert Positions(s, k) == {};
    } else {
      PositionsSize(s, k - 1);
      var x := s[k - 1].position;
      assert x !in Positions(s, k - 1);
      assert Positions(s, k) == Positions(s, k - 1) + {x};
    }
  }

  /** The tuple at sorted position `k` belongs to the record whose rank is `k + 1`. */
  lemma SortedPositionIsRank(store: seq<CityStat>, s: seq<Entry>, k: int)
    requires IsSortedProjection(store, s)
    requires 0 <= k < |s|
    ensures s[k].position < |store| && Rank(store, s[k].position) == k + 1
  {
    SortedTuplesComeFromStore(store, s);
    var p := s[k].position;
    forall j | j in AheadOf(store, p)
      ensures j in Positions(s, k)
    {
      RecordIsPlaced(store, s, j);
      var m :| 0 <= m < |s| && s[m] == Projection(store)[j];
      assert m < k;
    }
    forall j | j in Positions(s, k)
      ensures j in AheadOf(store, p)
    {
      var m :| 0 <= m < k && s[m].position == j;
      assert Precedes(s[m], s[k]);
    }
    assert AheadOf(store, p) == Positions(s, k);
    DistinctPositions(store, s);
    PositionsSize(s, k);
  }

  /**
   * The dictionary `city_rating` after the loop at tasks.py:110-112 has run
   * over the tuples `s`: each city maps to one more than the last position
   * at which it occurs.
   */
  function RatingMap(s: seq<Entry>): map<string, nat>
  {
    if s == [] then map[] else RatingMap(s[..|s| - 1])[s[|s| - 1].city := |s|]
  }

  /** Every city of `s` is a key, mapped past each of its positions. */
  lemma {:induction false} RatingMapCovers(s: seq<Entry>)
    ensures forall m :: 0 <= m < |s| ==> s[m].city in RatingMap(s) && m < RatingMap(s)[s[m].city]
  {
    if s != [] {
      var init := s[..|s| - 1];
      RatingMapCovers(init);
      forall m | 0 <= m < |s|
        ensures s[m].city in RatingMap(s) && m < RatingMap(s)[s[m].city]
      {
        if m < |init| {
          assert init[m] == s[m];
        }
      }
    }
  }

  /** Every key is the city at the position one before its value. */
  lemma {:induction false} RatingMapPoints(s: seq<Entry>)
    ensures forall c :: c in RatingMap(s) ==> 1 <= RatingMap(s)[c] <= |s| && s[RatingMap(s)[c] - 1].city == c
  {
    if s != [] {
      var init := s[..|s| - 1];
      RatingMapPoints(init);
      forall c | c in RatingMap(s)
        ensures 1 <= RatingMap(s)[c] <= |s| && s[RatingMap(s)[c] - 1].city == c
      {
        if c != s[|s| - 1].city {
          var v := RatingMap(init)[c];
          assert init[v - 1] == s[v - 1];
        }
      }
    }
  }

  /** The sorted tuple at `k` names the record at its position. */
  lemma TupleAt(store: seq<CityStat>, s: seq<Entry>, k: int)
    requires IsSortedProjection(store, s)
    requires 0 <= k < |s|
    ensures s[k].position < |store| && s[k] == Projection(store)[s[k].position]
    ensures store[s[k].position].city == s[k].city
  {
    SortedTuplesComeFromStore(store, s);
  }

  /** The rating the dictionary holds for a city found at sorted position `m`. */
  lemma RatingMapAt(s: seq<Entry>, m: int)
    requires 0 <= m < |s|
    ensures s[m].city in RatingMap(s)
    ensures m < RatingMap(s)[s[m].city] <= |s|
    ensures s[RatingMap(s)[s[m].city] - 1].city == s[m].city
  {
    RatingMapCovers(s);
    RatingMapPoints(s);
  }

  /** Looking up a record's city in the dictionary built from the sorted tuples yields its city rating. */
  lemma RatingMapGivesCityRating(store: seq<CityStat>, s: seq<Entry>, i: int)
    requires IsSortedProjection(store, s)
    requires 0 <= i < |store|
    ensures store[i].city in RatingMap(s) && RatingMap(s)[store[i].city] == CityRating(store, i)
  {
    var c := store[i].city;
    RecordIsPlaced(store, s, i);
    var k :| 0 <= k < |s| && s[k] == Projection(store)[i];
    RatingMapAt(s, k);
    var v := RatingMap(s)[c];
    TupleAt(store, s, v - 1);
    SortedPositionIsRank(store, s, v - 1);
    var q := s[v - 1].position;
    assert store[q].city == c && Rank(store, q) == v;
    forall j | 0 <= j < |store| && store[j].city == c
      ensures Rank(store, j) <= v
    {
      RecordIsPlaced(store, s, j);
      var kj :| 0 <= kj < |s| && s[kj] == Projection(store)[j];
      RatingMapAt(s, kj);
      TupleAt(store, s, kj);
      SortedPositionIsRank(store, s, kj);
    }
    assert IsCityRating(store, i, v);
    CityRatingUnique(store, i, v);
  }

  /**
   * `finish_analyze_data`: projects, sorts stably by descending key, maps
   * each city to its 1-based sorted position and writes that rating onto
   * every record. Only the ratings change; with distinct city names every
   * record's rating is its rank.
   */
  method FinishAnalyzeData(store: seq<CityStat>) returns (ranked: seq<CityStat>)
    ensures IsAnalysisOf(store, ranked)
    ensures DistinctCities(store) ==> forall i :: 0 <= i < |store| ==> ranked[i].rating == Some(Rank(store, i))
  {
    var cityAvgValues := new Entry[|store|](i requires 0 <= i < |store| =>
      Entry(store[i].city, store[i].avgTemperature, store[i].avgHoursWithoutPrecipitation, i));
    assert cityAvgValues[..] == Projection(store);
    SortDescending(cityAvgValues);
    ghost var sorted := cityAvgValues[..];
    assert IsSortedProjection(store, sorted);

    var cityRating: map<string, nat> := map[];
    for i := 0 to cityAvgValues.Length
      invariant cityRating == RatingMap(cityAvgValues[..i])
    {
      assert cityAvgValues[..i + 1][..i] == cityAvgValues[..i];
      cityRating := cityRating[cityAvgValues[i].city := i + 1];
    }
    assert cityAvgValues[..cityAvgValues.Length] == sorted;

    ranked := store;
    for k := 0 to |store|
      invariant |ranked| == |store|
      invariant forall i :: 0 <= i < k ==> ranked[i] == store[i].(rating := Some(CityRating(store, i)))
      invariant forall i :: k <= i < |store| ==> ranked[i] == store[i]
    {
      RatingMapGivesCityRating(store, sorted, k);
      ranked := ranked[k := ranked[k].(rating := Some(cityRating[ranked[k].city]))];
    }

    if DistinctCities(store) {
      forall i | 0 <= i < |store|
        ensures ranked[i].rating == Some(Rank(store, i))
      {
        CityRatingOfDistinct(store, i);
      }
    }
  }
}

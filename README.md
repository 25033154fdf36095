# Weather ranking pipeline — Dafny model

This project models the computational core of a weather-ranking pipeline
(`tasks.py`): the compute stage that turns one city's forecast days into a
statistics record on a hand-off queue, the aggregation stage that drains that
queue into the store, and the analysis stage that ranks the cities by
`(avg_temperature, avg_hours_without_precipitation)` and writes each record's
`rating`.

Modules, one per concern of `tasks.py`:

- `Wrappers` (`wrappers.dfy`): `Option` and `Result`.
- `Weather` (`weather.dfy`): the records. `Day` keeps the two fields the
  compute stage reads; `temp_avg` is `Option<real>`, `None` standing for every
  value that is not a float (tasks.py:47 tests `isinstance(..., float)`, so
  null and integer values alike are skipped). `RawForecast` is either the
  empty document a failed fetch leaves or a city with its analysed days.
  `CityStat` is the queued and stored record, `rating: Option<nat>`.
- `HandOff` (`queue.dfy`): the shared queue as a class over a `seq` field
  with `Put`, `Empty` and `Get`.
- `Calculation` (`calculation.dfy`): `DataCalculationTask`. The specification
  functions `FloatTempSum`, `FloatTempCount`, `HoursSum`, `MeanTemperature`
  and `MeanHoursWithoutPrecipitation` define the two means and their
  different denominators; `ComputeMeans` is the accumulator loop proved
  against them; `CalculationTask.RunParsing` is `run_parsing`, whose three
  outcomes (skip, division error, one record enqueued) are results.
- `Aggregation` (`aggregation.dfy`): `DataAggregationTask.run`, the drain loop.
- `Ranking` (`ranking.dfy`): the reference definition of the ranking, with no
  sort in it. `Rank(store, i)` is one more than the number of records that
  come before record `i` in a stable descending sort (a greater key, or an
  equal key and an earlier store position). Because the write-back goes
  through a dictionary keyed by city, a record's final rating is
  `CityRating(store, i)`: the greatest `Rank` among records with its city
  name, which is its own `Rank` when names are distinct. `IsAnalysisOf`
  states the whole result of an analysis.
- `Analysis` (`analysis.dfy`): `finish_analyze_data` itself. The projection
  to tuples, the in-place stable sort of those tuples (an insertion sort on an
  `array` that compares keys only), the `city_rating` dictionary loop and the
  write-back loop. Each tuple carries the store position of its record
  (`Entry.position`); the comparison ignores it and it only serves to state
  and prove stability.

Numbers are exact `real`s; floating-point rounding is not modelled.

The durable store between the aggregation and analysis stages is the
sequence `AggregationTask.Run` returns and `FinishAnalyzeData` takes; the
JSON encoding and decoding in between are taken to be the identity.

The code and its design description differ in one place. The design says
the ratings are always a permutation of 1..N. The code gives that only when
city names are distinct: with a repeated name, all records of that city get
the rating of the one that sorts last. The model follows the code
(`CityRating`), and proves the permutation under `DistinctCities`. The city
list the pipeline runs over is a dictionary's keys, so in practice names are
distinct.

## Model

| member | source | states |
|---|---|---|
| `Calculation.ComputeMeans` | tasks.py:42-52 | one pass keeps the float-temperature sum and count and the sum of hours; the result is an error exactly when no day has a float temperature, otherwise the mean temperature over float days only and the mean hours over all days |
| `Calculation.FloatTempCountAtMostDays` | tasks.py:46-52 | the temperature denominator is at most the day count, and equal to it exactly when every day's temperature is a float (so mixed days give the two means different denominators) |
| `Calculation.FloatTempCountZero` | tasks.py:47-51 | the temperature denominator is zero, so the division at line 51 raises, exactly when no day has a float temperature |
| `Calculation.MeanTemperatureWithin` | tasks.py:46-51 | the mean temperature lies within any bounds that every float temperature respects |
| `Calculation.MeanHoursWithin` | tasks.py:46-52 | the mean hours without precipitation lie within any bounds that every day's hours respect |
| `Calculation.CalculationTask.RunParsing` | tasks.py:36-66 | an empty document is skipped with the queue unchanged; a forecast without float temperatures raises with the queue unchanged; otherwise exactly one record is appended: city, days, the two means and no rating |
| `HandOff.HandOffQueue.Put` | tasks.py:55-63 | the record is appended at the back of the queue |
| `HandOff.HandOffQueue.Empty` | tasks.py:79 | true exactly when nothing is waiting |
| `HandOff.HandOffQueue.Get` | tasks.py:83 | returns the oldest record and removes it |
| `Aggregation.AggregationTask.Run` | tasks.py:76-85 | the result is the queue's prior contents in first-in first-out order, nothing lost or duplicated, and the queue is left empty |
| `Ranking.RankBounds` | tasks.py:110-112 | every rank lies in 1..N |
| `Ranking.RankOrder` | tasks.py:109-112 | a record that comes before another in the stable descending order has a smaller rank |
| `Ranking.RankRespectsKey` | tasks.py:109-112 | a lexicographically greater key gives a smaller rank; among equal keys the earlier record in the store gets the smaller rank |
| `Ranking.RankInjective` | tasks.py:109-112 | no two records share a rank |
| `Ranking.RanksArePermutation` | tasks.py:109-112 | the ranks of N records are exactly the set 1..N |
| `Ranking.RankIgnoresRating` | tasks.py:102-109 | ranks do not depend on the ratings the records already carry |
| `Ranking.CityRatingIsMaxRank` | tasks.py:110-114 | a record's rating is the rank of some record of its city and no record of its city has a greater rank |
| `Ranking.CityRatingUnique` | tasks.py:110-114 | only one value has that property |
| `Ranking.CityRatingOfDistinct` | tasks.py:110-114 | with distinct city names a record's rating is its own rank |
| `Ranking.AnalysisIsIdempotent` | tasks.py:102-114 | analysing an analysed store again yields the same store |
| `Ranking.AnalysisOfDistinctCities` | tasks.py:102-114 | with distinct city names every record is rated with its rank, the ratings are exactly 1..N with no duplicates, a greater key gets a smaller rating and equal keys keep store order |
| `Ranking.TiedRecordsKeepStoreOrder` | tasks.py:109-114 | stored in the order A (10, 5), C (15, 2), B (15, 2), the records are rated A 3, C 1, B 2 |
| `Analysis.SortDescending` | tasks.py:109 | the in-place sort leaves the tuples a permutation of the input, in descending key order with equal keys in their original order |
| `Analysis.SortedPositionIsRank` | tasks.py:109-112 | the tuple at sorted position k belongs to the record whose rank is k + 1 |
| `Analysis.RatingMapCovers` | tasks.py:110-112 | after the dictionary loop every city of the sorted tuples is a key, and its value is greater than each position at which the city occurs (the last occurrence wins) |
| `Analysis.RatingMapPoints` | tasks.py:110-112 | every key's value v lies in 1..N and the tuple at sorted position v - 1 has that city |
| `Analysis.RatingMapGivesCityRating` | tasks.py:110-114 | every record's city is in the dictionary (no missing key) and maps to the record's city rating |
| `Analysis.FinishAnalyzeData` | tasks.py:97-118 | the result has the same records in the same order with only the rating changed, every rating set to the record's city rating; with distinct city names each rating is the record's rank; an empty store gives an empty result |

## Left out

- `DataFetchingTask.get_info_by_city` (tasks.py:16-27): a wrapper around a network call to the forecast provider; its outcome is the `RawForecast` given to `RunParsing` (`NoData` for the empty dictionary it returns on failure).
- `analyze_json` (tasks.py:8, 39) is an external analyzer whose code is not part of this model; its `days` output is taken as the given `Forecast.days`.
- Reading and writing the JSON store file (tasks.py:87-90, 98-99, 115-118): the store is a sequence passed in and returned, and the JSON round trip is taken to be the identity.
- Logging calls: they have no effect on the data.
- main.py: thread and process pools, the cross-process shared queue and process start/join are concurrency orchestration; only the sequential meaning of each stage is modelled, so the race in the stop-on-empty drain is not.
- Floating-point rounding of the means and of the key comparisons: exact `real` arithmetic is used, and NaN keys do not exist in the model.
- HandOff.HandOffQueue.Get: requires a non-empty queue; the source's `get` blocks forever on an empty queue, which blocking the model cannot express and which the drain never reaches because it calls `empty` first.
- Fields of a day other than `temp_avg` and `relevant_cond_hours`: they are carried along unread and are not modelled.

/**
 * The records that flow through the weather pipeline of tasks.py.
 *
 * The source passes untyped dictionaries between its stages; here each
 * dictionary shape is a datatype with the fields the stages read or write.
 */
module Weather {
  import opened Wrappers

  /**
   * One element of the `days` list that the external forecast analyzer
   * returns. `tempAvg` is `Some(t)` exactly when the analyzer's `temp_avg`
   * value is a float; any other value (null, an integer, a string) is
   * `None`, because tasks.py:47 only accepts instances of `float`.
   * The remaining fields of a day are carried along untouched and play no
   * part in any computation, so they are not modelled.
   */
  datatype Day = Day(tempAvg: Option<real>, relevantCondHours: real)

  /**
   * The document handed to the compute stage for one city: either the empty
   * dictionary that the fetch stage returns on failure, or a forecast whose
   * `days` are what the external analyzer extracts from it.
   */
  datatype RawForecast = NoData | Forecast(city: string, days: seq<Day>)

  /**
   * The per-city statistics record put on the hand-off queue and kept in the
   * durable store. `rating` is `None` until the analysis stage ranks it.
   */
  datatype CityStat = CityStat(
    city: string,
    days: seq<Day>,
    avgTemperature: real,
    avgHoursWithoutPrecipitation: real,
    rating: Option<nat>)

  /** No two records of the store name the same city. */
  predicate DistinctCities(store: seq<CityStat>)
  {
    forall i, j :: 0 <= i < j < |store| ==> store[i].city != store[j].city
  }
}

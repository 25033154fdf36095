/**
 * The compute stage of tasks.py: `DataCalculationTask`, which turns one
 * forecast into one statistics record on the hand-off queue.
 */
module Calculation {
  import opened Wrappers
  import opened Weather
  import opened HandOff

  /** The error raised when a mean over zero values is taken. */
  datatype ArithmeticError = ZeroDivisionError

  /** The two means that `run_parsing` computes for one city. */
  datatype Means = Means(temperature: real, hoursWithoutPrecipitation: real)

  /** What one call of `run_parsing` did. */
  datatype ParseStatus =
    | Skipped                         // empty document: logged, nothing emitted
    | Emitted                         // one record put on the queue
    | Raised(error: ArithmeticError)  // the division at tasks.py:51 raised

  /** The float temperature of a day, or 0 when it has none. */
  function FloatTemp(d: Day): real
  {
    match d.tempAvg
    case Some(t) => t
    case None => 0.0
  }

  /** Sum of the float `temp_avg` values of `days`. */
  function FloatTempSum(days: seq<Day>): real
  {
    if days == [] then 0.0 else FloatTempSum(days[..|days| - 1]) + FloatTemp(days[|days| - 1])
  }

  /** Number of days of `days` whose `temp_avg` is a float. */
  function FloatTempCount(days: seq<Day>): nat
  {
    if days == [] then 0
    else FloatTempCount(days[..|days| - 1]) + (if days[|days| - 1].tempAvg.Some? then 1 else 0)
  }

  /** Sum of `relevant_cond_hours` over all of `days`. */
  function HoursSum(days: seq<Day>): real
  {
    if days == [] then 0.0 else HoursSum(days[..|days| - 1]) + days[|days| - 1].relevantCondHours
  }

  /** Mean of the float temperatures: its denominator counts only float days. */
  function MeanTemperature(days: seq<Day>): real
    requires FloatTempCount(days) > 0
  {
    FloatTempSum(days) / FloatTempCount(days) as real
  }

  /** Mean of the hours without precipitation: its denominator counts all days. */
  function MeanHoursWithoutPrecipitation(days: seq<Day>): real
    requires |days| > 0
  {
    HoursSum(days) / |days| as real
  }

  /**
   * The temperature denominator never exceeds the day count, and equals it
   * exactly when every day has a float temperature: a city with a non-float
   * day has different denominators for its two means.
   */
  lemma {:induction false} FloatTempCountAtMostDays(days: seq<Day>)
    ensures FloatTempCount(days) <= |days|
    ensures FloatTempCount(days) == |days| <==> forall i :: 0 <= i < |days| ==> days[i].tempAvg.Some?
  {
    if days != [] {
      var init := days[..|days| - 1];
      FloatTempCountAtMostDays(init);
      assert forall i :: 0 <= i < |init| ==> init[i] == days[i];
    }
  }

  /** The temperature denominator is zero exactly when no day has a float temperature. */
  lemma {:induction false} FloatTempCountZero(days: seq<Day>)
    ensures FloatTempCount(days) == 0 <==> forall i :: 0 <= i < |days| ==> days[i].tempAvg.None?
  {
    if days != [] {
      var init := days[..|days| - 1];
      FloatTempCountZero(init);
      assert forall i :: 0 <= i < |init| ==> init[i] == days[i];
    }
  }

  /** Bounds on the float temperatures bound their sum. */
  lemma {:induction false} FloatTempSumBounds(days: seq<Day>, lo: real, hi: real)
    requires forall i :: 0 <= i < |days| && days[i].tempAvg.Some? ==> lo <= days[i].tempAvg.value <= hi
    ensures lo * FloatTempCount(days) as real <= FloatTempSum(days) <= hi * FloatTempCount(days) as real
  {
    if days != [] {
      var init := days[..|days| - 1];
      assert forall i :: 0 <= i < |init| ==> init[i] == days[i];
      FloatTempSumBounds(init, lo, hi);
    }
  }

  /** Bounds on the hours of each day bound their sum. */
  lemma {:induction false} HoursSumBounds(days: seq<Day>, lo: real, hi: real)
    requires forall i :: 0 <= i < |days| ==> lo <= days[i].relevantCondHours <= hi
    ensures lo * |days| as real <= HoursSum(days) <= hi * |days| as real
  {
    if days != [] {
      var init := days[..|days| - 1];
      assert forall i :: 0 <= i < |init| ==> init[i] == days[i];
      HoursSumBounds(init, lo, hi);
    }
  }

  /** A quotient by a positive count keeps bounds that hold of the total per unit. */
  lemma QuotientWithin(total: real, count: real, lo: real, hi: real)
    requires count > 0.0
    requires lo * count <= total <= hi * count
    ensures lo <= total / count <= hi
  {
    var q := total / count;
    assert q * count == total;
    assert (q - lo) * count == total - lo * count;
    assert (hi - q) * count == hi * count - total;
  }

  /** The mean temperature lies between the least and greatest float temperature bounds. */
  lemma MeanTemperatureWithin(days: seq<Day>, lo: real, hi: real)
    requires FloatTempCount(days) > 0
    requires forall i :: 0 <= i < |days| && days[i].tempAvg.Some? ==> lo <= days[i].tempAvg.value <= hi
    ensures lo <= MeanTemperature(days) <= hi
  {
    FloatTempSumBounds(days, lo, hi);
    QuotientWithin(FloatTempSum(days), FloatTempCount(days) as real, lo, hi);
  }

  /** The mean of the hours lies between bounds that hold for every day. */
  lemma MeanHoursWithin(days: seq<Day>, lo: real, hi: real)
    requires |days| > 0
    requires forall i :: 0 <= i < |days| ==> lo <= days[i].relevantCondHours <= hi
    ensures lo <= MeanHoursWithoutPrecipitation(days) <= hi
  {
    HoursSumBounds(days, lo, hi);
    QuotientWithin(HoursSum(days), |days| as real, lo, hi);
  }

  /**
   * The averaging loop of `run_parsing`: one pass over the days keeps the
   * float-temperature sum and count and the sum of hours, then divides.
   * Fails exactly when no day has a float temperature.
   */
  method ComputeMeans(days: seq<Day>) returns (r: Result<Means, ArithmeticError>)
    ensures r.Failure? <==> FloatTempCount(days) == 0
    ensures r.Failure? ==> r.error == ZeroDivisionError
    ensures r.Success? ==> |days| > 0 && r.value == Means(MeanTemperature(days), MeanHoursWithoutPrecipitation(days))
  {
    var avgTemp := 0.0;
    var avgPrecipitation := 0.0;
    var daysAvgTemp := 0;
    for i := 0 to |days|
      invariant avgTemp == FloatTempSum(days[..i])
      invariant daysAvgTemp == FloatTempCount(days[..i])
      invariant avgPrecipitation == HoursSum(days[..i])
    {
      assert days[..i + 1][..i] == days[..i];
      match days[i].tempAvg {
        case Some(t) =>
          avgTemp := avgTemp + t;
          daysAvgTemp := daysAvgTemp + 1;
        case None =>
      }
      avgPrecipitation := avgPrecipitation + days[i].relevantCondHours;
    }
    assert days[..|days|] == days;
    if daysAvgTemp == 0 {
      return Failure(ZeroDivisionError);
    }
    FloatTempCountAtMostDays(days);
    r := Success(Means(avgTemp / daysAvgTemp as real, avgPrecipitation / |days| as real));
  }

  class CalculationTask {
    const queue: HandOffQueue

    constructor (queue: HandOffQueue)
      ensures this.queue == queue
    {
      this.queue := queue;
    }

    /**
     * `run_parsing`: an empty document is skipped and leaves the queue as it
     * was; a forecast with no float temperature raises before anything is
     * put; any other forecast puts exactly one unrated record on the queue.
     */
    method RunParsing(data: RawForecast) returns (status: ParseStatus)
      modifies queue
      ensures data.NoData? ==> status == Skipped && queue.items == old(queue.items)
      ensures data.Forecast? && FloatTempCount(data.days) == 0 ==>
                status == Raised(ZeroDivisionError) && queue.items == old(queue.items)
      ensures data.Forecast? && FloatTempCount(data.days) > 0 ==>
                |data.days| > 0 && status == Emitted &&
                queue.items == old(queue.items) + [CityStat(data.city, data.days,
                  MeanTemperature(data.days), MeanHoursWithoutPrecipitation(data.days), None)]
    {
      if data.NoData? {
        return Skipped;
      }
      var means := ComputeMeans(data.days);
      if means.Failure? {
        return Raised(means.error);
      }
      queue.Put(CityStat(data.city, data.days, means.value.temperature,
                         means.value.hoursWithoutPrecipitation, None));
      status := Emitted;
    }
  }
}

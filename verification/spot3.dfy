/**
 * spot3.py: today's series with the current hour outlined. A failed download or
 * parse ends the run with a message instead of an exception; a failed rate
 * fetch, made before and outside that guard, still raises.
 */
module Spot3 {
  import opened Wrappers
  import opened Dates
  import opened OteUrl
  import opened PriceSheet
  import opened Conversion
  import opened Colours
  import opened Pipeline

  datatype Chart = Chart(date: Date, series: Series, colours: seq<string>, outline: seq<string>)

  /** How a run ends: an exception escapes, the "no data" message is printed, or the chart is shown. */
  datatype Ending = Crashed(error: Failure) | NoData(date: Date) | Shown(chart: Chart)

  /** `process_day_data(date)`: any failure of the download or the parse becomes None. */
  method ProcessDayData(file: XlsFile, world: World, date: Date) returns (r: Option<PriceTable>)
    requires Valid(date)
    modifies file
    ensures world.fetch(Url(date)).None? ==> file.contents == old(file.contents)
    ensures world.fetch(Url(date)).Some? ==> file.contents == world.fetch(Url(date))
    ensures LoadDay(world, date).Failure? ==> r == None
    ensures LoadDay(world, date).Success? ==>
      r.Some? && fresh(r.value) && fresh(r.value.value) && fresh(r.value.index) &&
      r.value.Valid() && r.value.Fresh() && r.value.value[..] == LoadDay(world, date).value
  {
    var downloaded := file.Download(world, Url(date));
    if downloaded.Fail? {
      return None;
    }
    var table := file.Read(world);
    if table.Failure? {
      return None;
    }
    r := Some(table.value);
  }

  /** `main()`, with the current date and hour passed in. */
  method Run(now: Date, hour: int, world: World, file: XlsFile) returns (r: Ending)
    requires Valid(now) && 0 <= hour < 24
    modifies file
    ensures FetchRate(world).Failure? ==> r == Crashed(FetchRate(world).error) && file.contents == old(file.contents)
    ensures FetchRate(world).Success? && world.fetch(Url(now)).None? ==> file.contents == old(file.contents)
    ensures FetchRate(world).Success? && world.fetch(Url(now)).Some? ==> file.contents == world.fetch(Url(now))
    ensures FetchRate(world).Success? ==>
      var rate := FetchRate(world).value;
      match LoadDay(world, now)
      case Failure(_) => r == NoData(now)
      case Success(values) =>
        if !AllNumeric(values) then r == Crashed(NonNumericPrice)
        else
          r.Shown? && r.chart.date == now && ConvertedSeries(r.chart.series, values, rate) &&
          r.chart.colours == ThresholdColours(r.chart.series.prices, MediumBlue) &&
          r.chart.outline == HourHighlight(hour)
  {
    var rate := FetchRate(world);
    if rate.Failure? {
      return Crashed(rate.error);
    }
    var table := ProcessDayData(file, world, now);
    if table.None? {
      return NoData(now);
    }
    var series := ConvertToCzk(table.value, rate.value);
    if series.Failure? {
      return Crashed(series.error);
    }
    var colours := ThresholdColours(series.value.prices, MediumBlue);
    r := Shown(Chart(now, series.value, colours, HourHighlight(hour)));
  }
}

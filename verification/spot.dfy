/**
 * Spot.py: one chart for the day after "now". It downloads and parses that
 * day's report first and only then fetches the rate.
 */
module Spot {
  import opened Wrappers
  import opened Dates
  import opened OteUrl
  import opened PriceSheet
  import opened Conversion
  import opened Pipeline

  datatype Chart = Chart(date: Date, series: Series)

  /** `main()`, with the current date passed in; `file` is `data.xls`. */
  method Run(now: Date, world: World, file: XlsFile) returns (r: Result<Chart, Failure>)
    requires Valid(now)
    modifies file
    ensures NextDay(now).None? ==> r == Failure(DateOverflow) && file.contents == old(file.contents)
    ensures NextDay(now).Some? ==>
      var day := NextDay(now).value;
      (world.fetch(Url(day)).None? ==> file.contents == old(file.contents)) &&
      (world.fetch(Url(day)).Some? ==> file.contents == world.fetch(Url(day))) &&
      match LoadDay(world, day)
      case Failure(e) => r == Failure(e)
      case Success(values) =>
        match FetchRate(world)
        case Failure(e) => r == Failure(e)
        case Success(rate) =>
          if AllNumeric(values) then r.Success? && r.value.date == day && ConvertedSeries(r.value.series, values, rate)
          else r == Failure(NonNumericPrice)
  {
    var tomorrow := NextDay(now);
    if tomorrow.None? {
      return Failure(DateOverflow);
    }
    var day := tomorrow.value;
    var url := Url(day);
    var downloaded := file.Download(world, url);
    if downloaded.Fail? {
      return Failure(downloaded.error);
    }
    var table := file.Read(world);
    if table.Failure? {
      return Failure(table.error);
    }
    var rate := FetchRate(world);
    if rate.Failure? {
      return Failure(rate.error);
    }
    var series := ConvertToCzk(table.value, rate.value);
    if series.Failure? {
      return Failure(series.error);
    }
    r := Success(Chart(day, series.value));
  }
}

/**
 * Spot2.py: two grouped series, today's and tomorrow's, both converted at the
 * one rate fetched first, with bars under 0.4 CZK/kWh recoloured yellow.
 */
module Spot2 {
  import opened Wrappers
  import opened Dates
  import opened OteUrl
  import opened PriceSheet
  import opened Conversion
  import opened Colours
  import opened Pipeline

  datatype Chart = Chart(
    today: Date, tomorrow: Date,
    current: Series, next: Series,
    currentColours: seq<string>, nextColours: seq<string>)

  /** `process_day_data(date)`: download into `data.xls`, then parse it; nothing is caught. */
  method ProcessDayData(file: XlsFile, world: World, date: Date) returns (r: Result<PriceTable, Failure>)
    requires Valid(date)
    modifies file
    ensures world.fetch(Url(date)).None? ==> file.contents == old(file.contents)
    ensures world.fetch(Url(date)).Some? ==> file.contents == world.fetch(Url(date))
    ensures LoadDay(world, date).Failure? ==> r == Failure(LoadDay(world, date).error)
    ensures LoadDay(world, date).Success? ==>
      r.Success? && fresh(r.value) && fresh(r.value.value) && fresh(r.value.index) &&
      r.value.Valid() && r.value.Fresh() && r.value.value[..] == LoadDay(world, date).value
  {
    var downloaded := file.Download(world, Url(date));
    if downloaded.Fail? {
      return Failure(downloaded.error);
    }
    r := file.Read(world);
  }

  /**
   * `main()` once the rate is known: each day's table is parsed right after its
   * own download, so it holds that day's prices although both days pass through
   * the same file; then both are converted at the one rate and coloured.
   */
  method ChartDays(now: Date, next: Date, rate: real, world: World, file: XlsFile) returns (r: Result<Chart, Failure>)
    requires Valid(now) && Valid(next)
    modifies file
    ensures file.contents == FileAfter(world, [now, next], old(file.contents))
    ensures match LoadDay(world, now)
      case Failure(e) => r == Failure(e)
      case Success(todayValues) =>
        match LoadDay(world, next)
        case Failure(e) => r == Failure(e)
        case Success(nextValues) =>
          if !AllNumeric(todayValues) || !AllNumeric(nextValues) then r == Failure(NonNumericPrice)
          else
            r.Success? && r.value.today == now && r.value.tomorrow == next &&
            ConvertedSeries(r.value.current, todayValues, rate) &&
            ConvertedSeries(r.value.next, nextValues, rate) &&
            r.value.currentColours == ThresholdColours(r.value.current.prices, MediumBlue) &&
            r.value.nextColours == ThresholdColours(r.value.next.prices, Firebrick)
  {
    FileAfterTwoDays(world, now, next, file.contents);
    var currentTable := ProcessDayData(file, world, now);
    if currentTable.Failure? {
      return Failure(currentTable.error);
    }
    var nextTable := ProcessDayData(file, world, next);
    if nextTable.Failure? {
      return Failure(nextTable.error);
    }
    var current := ConvertToCzk(currentTable.value, rate);
    if current.Failure? {
      return Failure(current.error);
    }
    var following := ConvertToCzk(nextTable.value, rate);
    if following.Failure? {
      return Failure(following.error);
    }
    var currentColours := ThresholdColours(current.value.prices, MediumBlue);
    var nextColours := ThresholdColours(following.value.prices, Firebrick);
    r := Success(Chart(now, next, current.value, following.value, currentColours, nextColours));
  }

  /** `main()`, with the current date passed in: the rate first, then tomorrow's date, then both days. */
  method Run(now: Date, world: World, file: XlsFile) returns (r: Result<Chart, Failure>)
    requires Valid(now)
    modifies file
    ensures FetchRate(world).Failure? ==> r == Failure(FetchRate(world).error) && file.contents == old(file.contents)
    ensures FetchRate(world).Success? && NextDay(now).None? ==>
      r == Failure(DateOverflow) && file.contents == old(file.contents)
    ensures FetchRate(world).Success? && NextDay(now).Some? ==>
      file.contents == FileAfter(world, [now, NextDay(now).value], old(file.contents))
    ensures FetchRate(world).Success? && NextDay(now).Some? ==>
      var rate, next := FetchRate(world).value, NextDay(now).value;
      match LoadDay(world, now)
      case Failure(e) => r == Failure(e)
      case Success(todayValues) =>
        match LoadDay(world, next)
        case Failure(e) => r == Failure(e)
        case Success(nextValues) =>
          if !AllNumeric(todayValues) || !AllNumeric(nextValues) then r == Failure(NonNumericPrice)
          else
            r.Success? && r.value.today == now && r.value.tomorrow == next &&
            ConvertedSeries(r.value.current, todayValues, rate) &&
            ConvertedSeries(r.value.next, nextValues, rate) &&
            r.value.currentColours == ThresholdColours(r.value.current.prices, MediumBlue) &&
            r.value.nextColours == ThresholdColours(r.value.next.prices, Firebrick)
  {
    var rate := FetchRate(world);
    if rate.Failure? {
      return Failure(rate.error);
    }
    var tomorrow := NextDay(now);
    if tomorrow.None? {
      return Failure(DateOverflow);
    }
    r := ChartDays(now, tomorrow.value, rate.value, world, file);
  }
}

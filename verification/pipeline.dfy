/**
 * What the three scripts share: the outside world they read, the `data.xls`
 * file that carries each download to its parse, the rate fetch, and the
 * conversion of a freshly parsed table into the hourly series a chart shows.
 */
module Pipeline {
  import opened Wrappers
  import opened Dates
  import opened OteUrl
  import opened ExchangeRate
  import opened PriceSheet
  import opened Conversion

  newtype byte = x: int | 0 <= x < 256

  type Bytes = seq<byte>

  const RatePageUrl := "https://www.cnb.cz/cs/financni-trhy/devizovy-trh/kurzy-devizoveho-trhu/kurzy-devizoveho-trhu/"

  /**
   * The answers of everything outside the scripts: the body an HTTPS GET returns
   * for a URL whatever its status (None when the connection fails), the HTML
   * parser, and the spreadsheet decoder (None when the bytes are not a sheet).
   */
  datatype World = World(
    fetch: string -> Option<Bytes>,
    parseHtml: Bytes -> Page,
    decodeXls: Bytes -> Option<Grid>)

  /** The exceptions the pipeline can raise. */
  datatype Failure =
    | NetworkError(url: string)
    | FileMissing
    | MalformedSpreadsheet
    | Rate(error: RateError)
    | DateOverflow
    | NonNumericPrice

  /**
   * `get_exchange_rate()`: a failed connection is a network error on the rate
   * page, and otherwise the rate or the error that the page itself gives.
   */
  function FetchRate(world: World): (r: Result<real, Failure>)
    ensures world.fetch(RatePageUrl).None? ==> r == Failure(NetworkError(RatePageUrl))
    ensures r.Failure? ==> r.error == NetworkError(RatePageUrl) || r.error.Rate?
    ensures world.fetch(RatePageUrl).Some? ==>
      var page := world.parseHtml(world.fetch(RatePageUrl).value);
      (r.Success? <==> RateFromPage(page).Success?) &&
      (r.Success? ==> r.value == RateFromPage(page).value) &&
      (r.Failure? ==> r.error == Rate(RateFromPage(page).error))
  {
    match world.fetch(RatePageUrl)
    case None => Failure(NetworkError(RatePageUrl))
    case Some(body) =>
      match RateFromPage(world.parseHtml(body))
      case Failure(e) => Failure(Rate(e))
      case Success(rate) => Success(rate)
  }

  /**
   * The day's price column as a download followed at once by its parse yields
   * it: the column slice of that day's own report, or the first step that failed.
   */
  function LoadDay(world: World, date: Date): (r: Result<seq<Cell>, Failure>)
    requires Valid(date)
    ensures world.fetch(Url(date)).None? <==> r == Failure(NetworkError(Url(date)))
    ensures r.Failure? ==> r.error == NetworkError(Url(date)) || r.error == MalformedSpreadsheet
    ensures r.Success? ==> |r.value| <= HourRows
    ensures r.Success? <==>
      world.fetch(Url(date)).Some? && world.decodeXls(world.fetch(Url(date)).value).Some?
    ensures r.Success? ==> r.value == ProcessXls(world.decodeXls(world.fetch(Url(date)).value).value)
  {
    var url := Url(date);
    match world.fetch(url)
    case None => Failure(NetworkError(url))
    case Some(body) =>
      match world.decodeXls(body)
      case None => Failure(MalformedSpreadsheet)
      case Some(grid) => Success(ProcessXls(grid))
  }

  /**
   * What `data.xls` holds after the days are downloaded and parsed in order,
   * stopping at the first failure: each successful download overwrites it.
   */
  ghost function FileAfter(world: World, days: seq<Date>, before: Option<Bytes>): Option<Bytes>
    requires forall i :: 0 <= i < |days| ==> Valid(days[i])
  {
    if days == [] then before
    else match world.fetch(Url(days[0]))
      case None => before
      case Some(body) =>
        if LoadDay(world, days[0]).Failure? then Some(body) else FileAfter(world, days[1..], Some(body))
  }

  /** For two days: the first day's bytes if its load fails or the second download fails, else the second's. */
  lemma FileAfterTwoDays(world: World, a: Date, b: Date, before: Option<Bytes>)
    requires Valid(a) && Valid(b)
    ensures FileAfter(world, [a, b], before) ==
      match world.fetch(Url(a))
      case None => before
      case Some(first) =>
        if LoadDay(world, a).Failure? then Some(first)
        else if world.fetch(Url(b)).None? then Some(first)
        else world.fetch(Url(b))
  {
    assert [a, b][0] == a && [a, b][1..] == [b];
    assert [b][0] == b && [b][1..] == [];
    if world.fetch(Url(a)).Some? && LoadDay(world, a).Success? {
      var first := world.fetch(Url(a)).value;
      assert FileAfter(world, [a, b], before) == FileAfter(world, [b], Some(first));
      if world.fetch(Url(b)).Some? {
        var second := world.fetch(Url(b)).value;
        assert FileAfter(world, [b], Some(first)) ==
          if LoadDay(world, b).Failure? then Some(second) else FileAfter(world, [], Some(second));
      }
    }
  }

  /** The `data.xls` file in the working directory; None while it does not exist. */
  class XlsFile {
    var contents: Option<Bytes>

    constructor (existing: Option<Bytes>)
      ensures contents == existing
    {
      contents := existing;
    }

    /** `download_xls(url)`: the file is written only once the request has succeeded. */
    method Download(world: World, url: string) returns (r: Outcome<Failure>)
      modifies this
      ensures world.fetch(url).None? ==> r == Fail(NetworkError(url)) && contents == old(contents)
      ensures world.fetch(url).Some? ==> r == Pass && contents == world.fetch(url)
    {
      var body := world.fetch(url);
      if body.None? {
        return Fail(NetworkError(url));
      }
      contents := body;
      r := Pass;
    }

    /** `process_xls("data.xls")`: reads whatever the file holds now. */
    method Read(world: World) returns (r: Result<PriceTable, Failure>)
      ensures contents.None? ==> r == Failure(FileMissing)
      ensures contents.Some? && world.decodeXls(contents.value).None? ==> r == Failure(MalformedSpreadsheet)
      ensures contents.Some? && world.decodeXls(contents.value).Some? ==>
        r.Success? && fresh(r.value) && fresh(r.value.value) && fresh(r.value.index) &&
        r.value.Valid() && r.value.Fresh() &&
        r.value.value[..] == ProcessXls(world.decodeXls(contents.value).value)
    {
      if contents.None? {
        return Failure(FileMissing);
      }
      var grid := world.decodeXls(contents.value);
      if grid.None? {
        return Failure(MalformedSpreadsheet);
      }
      var table := new PriceTable(ProcessXls(grid.value));
      r := Success(table);
    }
  }

  /** A converted day as the chart gets it: the index labels and the "Value_CZK" column. */
  datatype Series = Series(labels: seq<string>, prices: seq<Cell>)

  /** s is the conversion of the price column values at rate: one bar per hour, in order. */
  ghost predicate ConvertedSeries(s: Series, values: seq<Cell>, rate: real) {
    |s.labels| == |values| && |s.prices| == |values| &&
    forall i :: 0 <= i < |values| ==> s.labels[i] == HourLabel(i) && Converted(values[i], rate, s.prices[i])
  }

  /** `convert_to_czk` on a table fresh from `process_xls`, and what the chart reads off it. */
  method ConvertToCzk(table: PriceTable, rate: real) returns (r: Result<Series, Failure>)
    requires table.Valid() && table.Fresh()
    modifies table
    ensures table.Valid() && table.value == old(table.value) && table.value[..] == old(table.value[..])
    ensures r.Failure? ==>
      table.czk == old(table.czk) && table.hasCzk == old(table.hasCzk) && table.index == old(table.index)
    ensures r.Success? ==> table.hasCzk && table.czk[..] == r.value.prices && table.Labels() == r.value.labels
    ensures !AllNumeric(old(table.value[..])) ==> r == Failure(NonNumericPrice)
    ensures AllNumeric(old(table.value[..])) ==> r.Success? && ConvertedSeries(r.value, old(table.value[..]), rate)
  {
    ghost var keys := table.index[..];
    var ok := table.Convert(rate);
    if !ok {
      return Failure(NonNumericPrice);
    }
    FreshLabels(keys, table.index[..]);
    r := Success(Series(table.Labels(), table.czk[..]));
  }
}

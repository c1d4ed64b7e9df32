/**
 * The address of the day-ahead market report for one calendar day:
 * `.../attachments/01/{year}/month{MM}/day{DD}/DT_{DD}_{MM}_{year}_CZ.xls`,
 * with the year unpadded and month and day zero-filled to two places.
 */
module OteUrl {
  import opened Wrappers
  import opened Digits
  import opened Dates

  const Base := "https://www.ote-cr.cz/pubweb/attachments/01/"

  /**
   * The report address for date d, as the f-string builds it: the attachment
   * base, the unpadded year, then the rest of the path and the file name.
   * UrlRoundTrip shows that every field reads back.
   */
  function Url(d: Date): (url: string)
    requires Valid(d)
    ensures |url| == |Base| + 31 + 2 * |NatToString(d.year)|
    ensures url[..|Base|] == Base && url[|url| - 7..] == "_CZ.xls"
  {
    var year := NatToString(d.year);
    var rest := year + Tail(year, Pad2(d.month), Pad2(d.day));
    assert (Base + rest)[..|Base|] == Base;
    Base + rest
  }

  /** The part of a report address after the year. */
  function Tail(year: string, mm: string, dd: string): (t: string)
    ensures |mm| == 2 && |dd| == 2 ==> |t| == 31 + |year|
    ensures |t| >= 7 && t[|t| - 7..] == "_CZ.xls"
  {
    "/month" + mm + "/day" + dd + "/DT_" + dd + "_" + mm + "_" + year + "_CZ.xls"
  }

  /**
   * Reads a date back out of a report address. It accepts only an address whose
   * directory part and file name carry the same two-digit day, the same
   * two-digit month and the same year, and whose fields form a valid date.
   */
  function ParseUrl(url: string): (r: Option<Date>)
    ensures r.Some? ==> Valid(r.value)
  {
    if |url| < |Base| || url[..|Base|] != Base then None else ParseAfterBase(url[|Base|..])
  }

  /** The decoding of what follows the base: year digits, then a tail that repeats the fields. */
  function ParseAfterBase(rest: string): (r: Option<Date>)
    ensures r.Some? ==> Valid(r.value)
  {
    var k := LeadingDigits(rest);
    var year := rest[..k];
    var tail := rest[k..];
    if k == 0 || |tail| < 14 then None
    else
      var mm := tail[6..8];
      var dd := tail[12..14];
      if !(AllDigits(mm) && AllDigits(dd) && tail == Tail(year, mm, dd)) then None
      else
        var d := Date(DigitsValue(year), DigitsValue(mm), DigitsValue(dd));
        if Valid(d) then Some(d) else None
  }

  /** Where the month and the day sit in a tail. */
  lemma TailFields(year: string, mm: string, dd: string)
    requires |mm| == 2 && |dd| == 2
    ensures |Tail(year, mm, dd)| >= 14 && Tail(year, mm, dd)[0] == '/'
    ensures Tail(year, mm, dd)[6..8] == mm && Tail(year, mm, dd)[12..14] == dd
  {
    var t := Tail(year, mm, dd);
    assert t == "/month" + mm + "/day" + dd + ("/DT_" + dd + "_" + mm + "_" + year + "_CZ.xls");
  }

  /** A digit year followed by a tail of two-digit fields splits back into them. */
  lemma ParseAssembled(year: string, mm: string, dd: string)
    requires year != [] && AllDigits(year) && AllDigits(mm) && AllDigits(dd)
    requires |mm| == 2 && |dd| == 2
    ensures var d := Date(DigitsValue(year), DigitsValue(mm), DigitsValue(dd));
      ParseAfterBase(year + Tail(year, mm, dd)) == if Valid(d) then Some(d) else None
  {
    var tail := Tail(year, mm, dd);
    var rest := year + tail;
    TailFields(year, mm, dd);
    LeadingDigitsOfConcat(year, tail);
    assert rest[..|year|] == year;
    assert rest[|year|..] == tail;
  }

  /** The address is the base followed by the year and a tail built from the date's fields. */
  lemma UrlSplit(d: Date)
    requires Valid(d)
    ensures Url(d)[|Base|..] == NatToString(d.year) + Tail(NatToString(d.year), Pad2(d.month), Pad2(d.day))
  {
  }

  /** Every field of the address reads back: the year, and the month and day in both places. */
  lemma UrlRoundTrip(d: Date)
    requires Valid(d)
    ensures ParseUrl(Url(d)) == Some(d)
  {
    var year, mm, dd := NatToString(d.year), Pad2(d.month), Pad2(d.day);
    UrlSplit(d);
    assert ParseUrl(Url(d)) == ParseAfterBase(year + Tail(year, mm, dd));
    assert Date(DigitsValue(year), DigitsValue(mm), DigitsValue(dd)) == d by {
      NatToStringReadBack(d.year);
      Pad2ReadBack(d.month);
      Pad2ReadBack(d.day);
    }
    ParseAssembled(year, mm, dd);
  }

  /** Distinct valid dates have distinct report addresses. */
  lemma UrlInjective(a: Date, b: Date)
    requires Valid(a) && Valid(b) && Url(a) == Url(b)
    ensures a == b
  {
    UrlRoundTrip(a);
    UrlRoundTrip(b);
  }

  /** The month and day fields are exactly two digits; a year from 1000 on is four. */
  lemma UrlFieldWidths(d: Date)
    requires Valid(d)
    ensures |Pad2(d.month)| == 2 && |Pad2(d.day)| == 2
    ensures d.year >= 1000 ==> |NatToString(d.year)| == 4
  {
    if d.year >= 1000 {
      FourDigitYear(d.year);
    }
  }
}

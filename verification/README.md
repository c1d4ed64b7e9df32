# Czech day-ahead spot prices in CZK/kWh — a Dafny model

The scripts `Spot.py`, `Spot2.py` and `spot3.py` download the OTE day-ahead market report
(a legacy `.xls` sheet of 24 hourly prices in EUR/MWh) for one or two calendar days, read the
EUR rate from the Czech National Bank's rate page, convert every hourly price to CZK/kWh
(`price * rate / 1000`, rounded to two decimals), label the hours `0:00` .. `23:00` and draw a
bar chart. This project models the logic between those I/O calls once and instantiates it for
each script:

- `Digits` — Python's `str(n)` and `f"{n:02d}"`, with a decoder for digit strings that the
  read-back lemmas and the URL decoder use (the scripts themselves never parse an integer).
- `Dates` — calendar dates as `datetime` holds them, and `date + timedelta(days=1)`
  (the next ordinal day; OverflowError after 9999-12-31).
- `OteUrl` — the per-day report address, with a decoder that reads the date back out of it.
- `ExchangeRate` — the rate page as rows of `<td>` texts; the cell after the first cell that
  reads exactly `EUR`, commas turned into points, parsed as a decimal.
- `PriceSheet` — the decoded sheet as rows of cells; six header rows skipped, column B of up
  to 24 rows kept in order.
- `Conversion` — the price table as a class with array columns (`Value`, `Value_CZK`) and an
  array index; `Convert` adds the CZK column and relabels the index in place.
- `Colours` — the per-bar colour list (yellow below 0.4 CZK/kWh) and the current-hour outline.
- `Pipeline` — the outside world as a value (HTTP answers, HTML parser, spreadsheet decoder),
  the shared `data.xls` file as a mutable buffer, the rate fetch and the conversion step.
- `Spot`, `Spot2`, `Spot3` — the three `main` functions: which stages run in which order,
  which failure ends the run, and what the chart is given.

"Now" (date and hour) is a parameter. A run's I/O is given by a `World` value: `fetch` maps a
URL to the response body (or to a connection failure), `parseHtml` stands for BeautifulSoup and
`decodeXls` for pandas' spreadsheet reader (or its failure). Prices are `real`; rounding is
specified as "a whole number of hundredths within 0.005 of the exact value", without fixing how
ties break.

The scripts read *up to* 24 rows and never fail on a short sheet (`nrows=24`); nothing
checks that a table has 24 entries before conversion; hour labels are unpadded (`0:00`, not
`00:00`); `convert_to_czk` updates its table in place rather than returning a new one; a
text cell in the price column makes the conversion raise (multiplying the text element by a
float raises TypeError) while an empty cell simply stays NaN. The rate fetch
(`Pipeline.FetchRate`) and a download followed at once by its parse (`Pipeline.LoadDay`) are
plain functions that the scripts' `Run` methods are proved against.

## Model

| member | source | states |
|---|---|---|
| Digits.NatToString | Spot2.py:43 | `{date.year}` is plain decimal digits, one digit exactly for numbers below 10, no leading zero |
| Digits.Pad2 | Spot2.py:43 | `:02d` gives digits only, at least two, and exactly two for every number below 100 (every month and day) |
| Digits.Pad2ReadBack | spot3.py:43 | reading a zero-filled month or day field back gives the original number |
| Digits.NatToStringReadBack | Spot.py:45 | reading the unpadded year text back gives the year |
| Digits.FourDigitYear | Spot.py:45 | a year from 1000 to 9999 is written with exactly four digits |
| Dates.NextDay | Spot.py:44 | the day after a valid date is a valid date; it fails (OverflowError) only after 9999-12-31 |
| Dates.NextDayIsOrdinalSuccessor | Spot2.py:55 | the next day's ordinal is one more than today's, which is what adding `timedelta(days=1)` means, month and year ends included |
| OteUrl.Url | Spot.py:45 | the report address starts with the fixed OTE attachments prefix, ends in `_CZ.xls`, and its length is the prefix plus 31 plus twice the year's digit count (the year appears twice) |
| OteUrl.UrlRoundTrip | Spot2.py:43 | the address decodes back to its date: year, and the same two-digit month and day in both the `month../day..` directories and the `DT_dd_mm_yyyy_CZ.xls` name |
| OteUrl.UrlInjective | spot3.py:43 | distinct valid dates give distinct report addresses |
| OteUrl.UrlFieldWidths | Spot.py:45 | month and day fields are two digits and the year is four digits from 1000 on |
| ExchangeRate.FindEur | Spot2.py:30 | the found cell reads exactly "EUR" and no cell before it in document order does; none is found only when no cell reads "EUR" |
| ExchangeRate.RateFromPage | Spot2.py:29-31 | no `EUR` cell anywhere on the page is exactly the `EurCellNotFound` error (both directions); a rate that is found is never negative |
| ExchangeRate.NoFollowingCellExact | Spot.py:30 | `find_next_sibling` finds nothing exactly when the first `EUR` cell is the last of its row |
| ExchangeRate.RateFromFollowingCell | spot3.py:30-31 | a `NotANumber` error carries the comma-normalised sibling text, which is not decimal-shaped; a success is what the decimal parser gives for that text |
| ExchangeRate.RateFromFirstEurCell | Spot2.py:30-31 | the rate is the normalised text of the cell after the first "EUR" cell; a "EUR" cell ending its row is an error, unparsable text is an error |
| ExchangeRate.NoEurCellNoRate | Spot.py:30 | without a cell reading exactly "EUR" there is no rate |
| ExchangeRate.ReplaceCommas | spot3.py:31 | every `,` becomes `.`, every other character and the length stay |
| ExchangeRate.ReplaceCommasIdempotent | Spot.py:31 | normalising twice equals normalising once, and no comma is left |
| ExchangeRate.ParseDecimal | Spot.py:31 | an accepted text is non-empty and its value is never negative |
| ExchangeRate.ParseDecimalExact | Spot2.py:31 | `float` accepts exactly the texts of digits with at most one point and at least one digit; without a point the value is the integer, with a point it is whole part plus fraction |
| ExchangeRate.MalformedDecimalExamples | spot3.py:31 | "1.2.3", "." and "" are rejected |
| ExchangeRate.ParseDecimalParts | Spot2.py:31 | digits, a point and digits parse to whole part plus fraction over ten to the number of fraction digits |
| ExchangeRate.ParseDecimalOfNat | spot3.py:31 | the decimal text of a whole number parses to that number |
| ExchangeRate.ParseDecimalRejects | Spot.py:31 | text holding a character other than a digit or a point is rejected |
| ExchangeRate.CommaDecimal | Spot2.py:31 | a decimal comma between two digit runs becomes a point, and the normalised text parses to whole part plus fraction |
| ExchangeRate.CommaDecimalExample | Spot2.py:30-32 | "25,50" normalises to "25.50" and parses to 25.5 |
| ExchangeRate.NonNumericExample | spot3.py:30-32 | "abc" does not parse |
| ExchangeRate.RatePageExample | Spot.py:26-32 | on a rate table with a header row and the EMU row, the rate is the value after the "EUR" code, 24.335 |
| PriceSheet.TakeColumn | spot3.py:22 | column B of at most the limit of rows, in row order; a row without column B gives an empty cell |
| PriceSheet.ProcessXls | Spot2.py:22 | the series is column B of rows 6 onwards, in row order, with at most 24 entries and fewer only when the sheet is shorter |
| Conversion.Round2 | Spot2.py:37 | the result is a whole number of hundredths within 0.005 of its argument |
| Conversion.RoundingExactIsIdentity | spot3.py:37 | a value already in whole hundredths rounds to itself under any rounding that meets the bound |
| Conversion.ConvertCell | Spot.py:36-37 | a price becomes a price rounded from `price * rate / 1000`; an empty cell (NaN) stays empty |
| Conversion.ConversionExample | Spot.py:35-37 | 100 EUR/MWh at 25 CZK/EUR converts to exactly 2.50 CZK/kWh |
| Conversion.HourLabelsDistinct | Spot.py:38 | hour labels are unpadded (`4:00` has four characters, `14:00` five) and distinct for distinct hours |
| Conversion.HourLabelEnds | Spot2.py:38 | the first label is `0:00` and the 24th is `23:00` |
| Conversion.FreshLabels | spot3.py:38 | relabelling a positional index gives entry i the label `str(i) + ":00"` |
| Conversion.PriceTable.constructor | Spot.py:22 | a parsed table holds the column values under the positional index, with no CZK column yet |
| Conversion.PriceTable.Convert | Spot2.py:35-39 | in place: the CZK column holds each rounded `value * rate / 1000`, same length and order; the index entry i becomes its old text plus ":00"; `Value` is untouched; a text cell raises and changes nothing |
| Colours.ThresholdColours | Spot2.py:80-81 | one colour per price, in order: yellow for a price under 0.4, the base colour otherwise (NaN included) |
| Colours.YellowIffCheap | spot3.py:76 | with base mediumblue or firebrick a bar is yellow exactly when its price is a number under 0.4; 0.4 itself keeps the base colour |
| Colours.HourHighlight | spot3.py:78 | 24 outline colours, red at index i exactly when i is the current hour, transparent at every other index |
| Colours.ExactlyOneHighlighted | spot3.py:78 | for an hour from 0 to 23 exactly one outline is red, for any other number none |
| Pipeline.XlsFile.Download | Spot.py:15-18 | `data.xls` is overwritten with the response body when the request succeeds and left alone when it fails |
| Pipeline.XlsFile.Read | Spot2.py:21-23 | the table is the column slice of whatever `data.xls` holds now; a missing or undecodable file is an error |
| Pipeline.FetchRate | spot3.py:26-32 | a failed request is the network error for the rate page URL; otherwise the outcome (value or error) is the page's rate; no other error arises |
| Pipeline.LoadDay | Spot2.py:43-45 | the download fails exactly when the day's address gets no answer; the table exists exactly when the body decodes, and it is that sheet's price column of at most 24 entries; the only errors are the network and the spreadsheet error |
| Pipeline.FileAfterTwoDays | Spot2.py:44 | after downloading two days in order into the shared file, it holds the last body received: the first day's if the second day was not reached or not answered, otherwise the second's, and its old contents if nothing was answered |
| Pipeline.ConvertToCzk | spot3.py:68 | a freshly parsed table converts to one labelled, rounded bar per row, or fails on a text cell; `Value` is unchanged; on success the table has its CZK column equal to the bars' prices and its labels equal to the bars' labels; on failure the CZK column, index and its presence flag are unchanged |
| Spot.Run | Spot.py:42-59 | tomorrow's table is read from the bytes just downloaded; download or parse failures win over the rate, which is fetched only afterwards; success converts that day at that rate; `data.xls` is unchanged on date overflow and when tomorrow's download fails, and holds tomorrow's bytes otherwise |
| Spot2.ProcessDayData | Spot2.py:42-46 | download then parse of one day: the table is that day's report, and `data.xls` then holds that day's bytes |
| Spot2.ChartDays | Spot2.py:58-81 | with the rate known: each day's table is that day's own download although the file is shared; a failed load or a text cell ends the run with that error; `data.xls` ends holding the last body downloaded; bars are converted at the one rate and coloured per day |
| Spot2.Run | Spot2.py:49-81 | the rate is fetched first and used for both days; each day's table comes from its own download although the file is shared; colours follow the 0.4 threshold per day; `data.xls` is unchanged on a rate failure or date overflow and otherwise holds the last body downloaded before the run stopped |
| Spot3.ProcessDayData | spot3.py:42-50 | the parsed table on success, None on any download or parse failure |
| Spot3.Run | spot3.py:53-78 | a rate failure still raises; a failed day ends the run with the "no data" outcome naming the date before any conversion; otherwise the chart gets the converted series, threshold colours and the current-hour outline; `data.xls` is unchanged on a rate failure and when today's download gets no answer, and holds today's bytes otherwise |

## Left out

- HTTP requests (`requests.get(..., verify=False)`) and the warning filters: network I/O; a
  response is modelled only as the body it returns or a connection failure.
- Decoding HTML with BeautifulSoup and `.xls` bytes with pandas/xlrd: foreign libraries. The page
  is modelled as rows of `<td>` texts (header `<th>` cells, nested tables and cells with markup
  inside are not), the sheet as rows of cells that are numbers, empty (NaN) or text. A sheet
  without any column B, and pandas' other cell types (booleans, dates), are not modelled.
- IEEE floating point in `*`, `/` and pandas' `round` (half to even on binary floats): prices are
  real numbers.
- Conversion.Round2: its contract fixes only the 0.005 bound and the hundredths grid, not the
  float tie-breaking of pandas.
- ExchangeRate.ParseDecimal: models `float()` only on unsigned digits with at most one point;
  signs, exponents, surrounding whitespace, underscores, `inf` and `nan` are not accepted.
- Plotting with plotly: layout, fonts, legend, text templates and `fig.show()`; the unused
  `combined_data` concatenation in Spot2.py.
- `strftime('%e.%#m.%Y')` date texts and the `f"{price} Kč"` bar texts: platform-dependent and
  float formatting.
- `print` messages: Spot3.Run reports the failed day as an outcome carrying the date, not the
  text printed.
- `datetime.now()`: the current date and hour are parameters; the time of day does not enter the
  URL and is not modelled.

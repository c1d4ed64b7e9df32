/**
 * The EUR rate read from the central bank's rate page. The page is abstracted
 * to its table rows, each the texts of its `<td>` cells in document order. The
 * rate is the text of the cell after the first cell whose text is exactly
 * "EUR", with every decimal comma turned into a dot, read as a decimal number.
 */
module ExchangeRate {
  import opened Wrappers
  import opened Digits

  type Row = seq<string>
  type Page = seq<Row>

  datatype RateError =
    | EurCellNotFound          // no cell reads "EUR": `soup.find` gives None
    | NoFollowingCell          // the "EUR" cell ends its row: `find_next_sibling` gives None
    | NotANumber(text: string) // `float` rejects the normalised text

  predicate IsEurAt(page: Page, r: int, c: int) {
    0 <= r < |page| && 0 <= c < |page[r]| && page[r][c] == "EUR"
  }

  /** Cell (r1, c1) comes before cell (r2, c2) in document order. */
  predicate Before(r1: int, c1: int, r2: int, c2: int) {
    r1 < r2 || (r1 == r2 && c1 < c2)
  }

  /** (r, c) is the first "EUR" cell of the page. */
  ghost predicate FirstEurAt(page: Page, r: int, c: int) {
    IsEurAt(page, r, c) && forall i, j :: IsEurAt(page, i, j) ==> !Before(i, j, r, c)
  }

  /** The first column, at c or later, of a cell reading "EUR" in the row. */
  function FindInRow(row: Row, c: nat): (k: Option<nat>)
    decreases |row| - c
    ensures k.Some? ==> c <= k.value < |row| && row[k.value] == "EUR"
    ensures k.Some? ==> forall j :: c <= j < k.value ==> row[j] != "EUR"
    ensures k.None? ==> forall j :: c <= j < |row| ==> row[j] != "EUR"
  {
    if c >= |row| then None
    else if row[c] == "EUR" then Some(c)
    else FindInRow(row, c + 1)
  }

  /** The first "EUR" cell in rows r onwards, as `soup.find("td", string="EUR")` searches. */
  function FindEurFrom(page: Page, r: nat): (pos: Option<(nat, nat)>)
    decreases |page| - r
    ensures pos.Some? ==> r <= pos.value.0 && IsEurAt(page, pos.value.0, pos.value.1)
    ensures pos.Some? ==> forall i, j :: r <= i && IsEurAt(page, i, j) ==> !Before(i, j, pos.value.0, pos.value.1)
    ensures pos.None? ==> forall i, j :: r <= i ==> !IsEurAt(page, i, j)
  {
    if r >= |page| then None
    else match FindInRow(page[r], 0)
      case Some(c) => Some((r, c))
      case None => FindEurFrom(page, r + 1)
  }

  function FindEur(page: Page): (pos: Option<(nat, nat)>)
    ensures pos.Some? ==> FirstEurAt(page, pos.value.0, pos.value.1)
    ensures pos.None? <==> forall i, j :: !IsEurAt(page, i, j)
  {
    FindEurFrom(page, 0)
  }

  /** The text of the cell after the first "EUR" cell. */
  function RateText(page: Page): Result<string, RateError> {
    match FindEur(page)
    case None => Failure(EurCellNotFound)
    case Some((r, c)) =>
      if c + 1 < |page[r]| then Success(page[r][c + 1]) else Failure(NoFollowingCell)
  }

  /** `s.replace(",", ".")`. */
  function ReplaceCommas(s: string): (t: string)
    ensures |t| == |s|
    ensures forall i :: 0 <= i < |s| ==> t[i] == (if s[i] == ',' then '.' else s[i])
  {
    if s == [] then []
    else [if s[0] == ',' then '.' else s[0]] + ReplaceCommas(s[1..])
  }

  /** The position of the first c in s, or |s| when there is none. */
  function IndexOf(s: string, c: char): (k: nat)
    ensures k <= |s| && (k < |s| ==> s[k] == c)
    ensures forall i :: 0 <= i < k ==> s[i] != c
  {
    if s == [] then 0
    else if s[0] == c then 0
    else 1 + IndexOf(s[1..], c)
  }

  /** The value of digits w, a point and fraction digits f. */
  function DecimalValue(w: string, f: string): (v: real)
    requires AllDigits(w) && AllDigits(f)
    ensures DigitsValue(w) as real <= v < DigitsValue(w) as real + 1.0
  {
    var n, p := DigitsValue(f), Pow10(|f|);
    ProperFraction(n, p);
    DigitsValue(w) as real + n as real / p as real
  }

  /** A numerator below its positive denominator gives a fraction in [0, 1). */
  lemma ProperFraction(n: nat, p: nat)
    requires n < p
    ensures 0.0 <= n as real / p as real < 1.0
  {
    var q := n as real / p as real;
    assert q * p as real == n as real;
  }

  /**
   * The unsigned decimal texts `float` accepts without sign or exponent: only
   * digits and points, at most one point, and at least one digit.
   */
  predicate DecimalShape(s: string) {
    (forall i :: 0 <= i < |s| ==> IsDigit(s[i]) || s[i] == '.') &&
    (forall i, j :: 0 <= i < j < |s| && s[i] == '.' ==> s[j] != '.') &&
    (exists i :: 0 <= i < |s| && IsDigit(s[i]))
  }

  /** Text without a point has the shape exactly when it is a non-empty run of digits. */
  lemma ShapeWithoutPoint(s: string)
    requires forall i :: 0 <= i < |s| ==> s[i] != '.'
    ensures DecimalShape(s) <==> s != [] && AllDigits(s)
  {
    if s != [] && AllDigits(s) {
      assert IsDigit(s[0]);
    }
  }

  /** Text whose first point is at k has the shape exactly when both sides are digits, not both empty. */
  lemma ShapeWithPoint(s: string, k: nat)
    requires k < |s| && s[k] == '.'
    requires forall i :: 0 <= i < k ==> s[i] != '.'
    ensures DecimalShape(s) <==> AllDigits(s[..k]) && AllDigits(s[k + 1..]) && |s| > 1
  {
    var w, f := s[..k], s[k + 1..];
    if DecimalShape(s) {
      ShapeToParts(s, k);
    }
    if AllDigits(w) && AllDigits(f) && |s| > 1 {
      PartsToShape(s, k);
    }
  }

  lemma ShapeToParts(s: string, k: nat)
    requires k < |s| && s[k] == '.' && DecimalShape(s)
    ensures AllDigits(s[..k]) && AllDigits(s[k + 1..]) && |s| > 1
  {
    var f := s[k + 1..];
    forall i | 0 <= i < |f| ensures IsDigit(f[i]) {
      assert f[i] == s[k + 1 + i];
    }
    var d :| 0 <= d < |s| && IsDigit(s[d]);
    assert d != k;
  }

  lemma PartsToShape(s: string, k: nat)
    requires k < |s| && s[k] == '.'
    requires AllDigits(s[..k]) && AllDigits(s[k + 1..]) && |s| > 1
    ensures DecimalShape(s)
  {
    var w, f := s[..k], s[k + 1..];
    forall i | 0 <= i < |s| && i != k ensures IsDigit(s[i]) {
      if i < k { assert s[i] == w[i]; } else { assert s[i] == f[i - k - 1]; }
    }
    if k > 0 { assert IsDigit(s[0]); } else { assert IsDigit(s[1]); }
  }

  /**
   * `float(s)` on unsigned decimal text: digits with at most one point and at
   * least one digit ("25", "25.5", "25." and ".5"); anything else is rejected.
   */
  function ParseDecimal(s: string): (r: Option<real>)
    ensures r.Some? ==> s != [] && r.value >= 0.0
  {
    var k := IndexOf(s, '.');
    if k == |s| then
      if s != [] && AllDigits(s) then Some(DigitsValue(s) as real) else None
    else
      var w, f := s[..k], s[k + 1..];
      if AllDigits(w) && AllDigits(f) && |w| + |f| > 0 then Some(DecimalValue(w, f)) else None
  }

  /**
   * Exactly the texts of DecimalShape parse; the value is the digits' value, or
   * with a point the whole part plus the fraction.
   */
  lemma ParseDecimalExact(s: string)
    ensures ParseDecimal(s).Some? <==> DecimalShape(s)
    ensures ParseDecimal(s).Some? && '.' !in s ==> AllDigits(s) && ParseDecimal(s).value == DigitsValue(s) as real
    ensures ParseDecimal(s).Some? ==> forall k :: 0 <= k < |s| && s[k] == '.' ==>
      AllDigits(s[..k]) && AllDigits(s[k + 1..]) && ParseDecimal(s).value == DecimalValue(s[..k], s[k + 1..])
  {
    var k := IndexOf(s, '.');
    if k == |s| {
      assert ParseDecimal(s) == if s != [] && AllDigits(s) then Some(DigitsValue(s) as real) else None;
      ShapeWithoutPoint(s);
    } else {
      var w, f := s[..k], s[k + 1..];
      assert ParseDecimal(s) == if AllDigits(w) && AllDigits(f) && |w| + |f| > 0 then Some(DecimalValue(w, f)) else None;
      assert '.' in s;
      ShapeWithPoint(s, k);
      if ParseDecimal(s).Some? {
        OnlyPoint(s, k);
      }
    }
  }

  /** With digits on both sides of the point at k, no other character is a point. */
  lemma OnlyPoint(s: string, k: nat)
    requires k < |s| && s[k] == '.'
    requires AllDigits(s[..k]) && AllDigits(s[k + 1..])
    ensures forall j :: 0 <= j < |s| && s[j] == '.' ==> j == k
  {
    forall j | 0 <= j < |s| && j != k
      ensures s[j] != '.'
    {
      if j < k {
        assert s[j] == s[..k][j];
      } else {
        assert s[j] == s[k + 1..][j - k - 1];
      }
    }
  }

  /** Two points, a lone point and the empty text are all rejected. */
  lemma MalformedDecimalExamples()
    ensures ParseDecimal("1.2.3") == None
    ensures ParseDecimal(".") == None
    ensures ParseDecimal("") == None
  {
    ParseDecimalExact("1.2.3");
    ParseDecimalExact(".");
    assert "1.2.3"[1] == '.' && "1.2.3"[3] == '.';
    assert !IsDigit("."[0]);
  }

  /** `get_exchange_rate` once the page is in hand: find, normalise, parse. */
  function RateFromPage(page: Page): (r: Result<real, RateError>)
    ensures r == Failure(EurCellNotFound) <==> forall i, j :: !IsEurAt(page, i, j)
    ensures r.Success? ==> r.value >= 0.0
  {
    match RateText(page)
    case Failure(e) => Failure(e)
    case Success(text) =>
      var normalised := ReplaceCommas(text);
      match ParseDecimal(normalised)
      case None => Failure(NotANumber(normalised))
      case Some(x) => Success(x)
  }

  /** There is at most one first "EUR" cell, and FindEur finds it. */
  lemma FirstEurUnique(page: Page, i: int, j: int)
    requires FirstEurAt(page, i, j)
    ensures FindEur(page) == Some((i, j))
  {
    var pos := FindEur(page);
    assert !Before(pos.value.0, pos.value.1, i, j) && !Before(i, j, pos.value.0, pos.value.1);
  }

  /** A "EUR" cell that ends its row is the only way to get NoFollowingCell. */
  lemma NoFollowingCellExact(page: Page)
    ensures RateFromPage(page) == Failure(NoFollowingCell) <==>
      exists i, j :: FirstEurAt(page, i, j) && j + 1 == |page[i]|
  {
    if RateFromPage(page) == Failure(NoFollowingCell) {
      var (r, c) := FindEur(page).value;
      assert FirstEurAt(page, r, c) && c + 1 == |page[r]|;
    }
    if exists i, j :: FirstEurAt(page, i, j) && j + 1 == |page[i]| {
      var i, j :| FirstEurAt(page, i, j) && j + 1 == |page[i]|;
      FirstEurUnique(page, i, j);
    }
  }

  /** A rate, or a parse error, always comes from the cell after the first "EUR" cell. */
  lemma RateFromFollowingCell(page: Page)
    ensures RateFromPage(page).Failure? && RateFromPage(page).error.NotANumber? ==>
      exists i, j :: FirstEurAt(page, i, j) && j + 1 < |page[i]| &&
        RateFromPage(page).error.text == ReplaceCommas(page[i][j + 1]) &&
        !DecimalShape(RateFromPage(page).error.text)
    ensures RateFromPage(page).Success? ==>
      exists i, j :: FirstEurAt(page, i, j) && j + 1 < |page[i]| &&
        ParseDecimal(ReplaceCommas(page[i][j + 1])) == Some(RateFromPage(page).value)
  {
    if FindEur(page).Some? {
      var (r, c) := FindEur(page).value;
      if c + 1 < |page[r]| {
        var text := ReplaceCommas(page[r][c + 1]);
        ParseDecimalExact(text);
        assert RateText(page) == Success(page[r][c + 1]);
        assert FirstEurAt(page, r, c);
      }
    }
  }

  /** Normalising twice is normalising once, and no comma survives it. */
  lemma ReplaceCommasIdempotent(s: string)
    ensures ReplaceCommas(ReplaceCommas(s)) == ReplaceCommas(s)
    ensures forall i :: 0 <= i < |s| ==> ReplaceCommas(s)[i] != ','
  {
  }

  /** The first c in w + t is where t starts, when w has none and t starts with c. */
  lemma {:induction false} IndexOfAfter(w: string, t: string, c: char)
    requires forall i :: 0 <= i < |w| ==> w[i] != c
    requires t != [] && t[0] == c
    ensures IndexOf(w + t, c) == |w|
  {
    if w != [] {
      assert (w + t)[1..] == w[1..] + t;
      IndexOfAfter(w[1..], t, c);
    }
  }

  /** Text made of digits, a point and digits parses to their decimal value. */
  lemma ParseDecimalParts(w: string, f: string)
    requires AllDigits(w) && AllDigits(f) && |w| + |f| > 0
    ensures ParseDecimal(w + "." + f) == Some(DecimalValue(w, f))
  {
    var s := w + "." + f;
    assert s == w + ("." + f);
    IndexOfAfter(w, "." + f, '.');
    assert s[..|w|] == w && s[|w| + 1..] == f;
  }

  /** The text `str` writes for a whole number parses back to that number. */
  lemma ParseDecimalOfNat(n: nat)
    ensures ParseDecimal(NatToString(n)) == Some(n as real)
  {
    var s := NatToString(n);
    assert IndexOf(s, '.') == |s|;
    NatToStringReadBack(n);
  }

  /** Text holding a character that is neither a digit nor a point is rejected. */
  lemma ParseDecimalRejects(s: string, i: nat)
    requires i < |s| && !IsDigit(s[i]) && s[i] != '.'
    ensures ParseDecimal(s) == None
  {
    var k := IndexOf(s, '.');
    if k < |s| {
      if i < k {
        assert s[..k][i] == s[i];
      } else {
        assert s[k + 1..][i - k - 1] == s[i];
      }
    }
  }

  /** A decimal comma between digit runs becomes a point, and the text then parses to their value. */
  lemma CommaDecimal(w: string, f: string)
    requires AllDigits(w) && AllDigits(f) && |w| + |f| > 0
    ensures ReplaceCommas(w + "," + f) == w + "." + f
    ensures ParseDecimal(ReplaceCommas(w + "," + f)) == Some(DecimalValue(w, f))
  {
    var s, t := w + "," + f, w + "." + f;
    forall i | 0 <= i < |s|
      ensures ReplaceCommas(s)[i] == t[i]
    {
      if i < |w| {
        assert s[i] == w[i] && t[i] == w[i] && IsDigit(w[i]);
      } else if i > |w| {
        assert s[i] == f[i - |w| - 1] && t[i] == f[i - |w| - 1] && IsDigit(f[i - |w| - 1]);
      }
    }
    ParseDecimalParts(w, f);
  }

  /** The decimal value of the first sample rate, 25.50. */
  lemma SampleDecimalValue()
    ensures DecimalValue("25", "50") == 25.5
  {
    assert DigitsValue("25") == 25 by { assert "25"[..1] == "2"; }
    assert DigitsValue("50") == 50 by { assert "50"[..1] == "5"; }
  }

  /** The decimal value of the second sample rate, 24.335. */
  lemma PageDecimalValue()
    ensures DecimalValue("24", "335") == 24.335
  {
    assert DigitsValue("24") == 24 by { assert "24"[..1] == "2"; }
    assert DigitsValue("335") == 335 by { assert "335"[..2] == "33"; assert "33"[..1] == "3"; }
  }

  /** The two sample rate texts split into digit runs around their comma. */
  lemma SampleCommaTexts()
    ensures "25,50" == "25" + "," + "50" && AllDigits("25") && AllDigits("50")
    ensures "24,335" == "24" + "," + "335" && AllDigits("24") && AllDigits("335")
    ensures "25.50" == "25" + "." + "50"
  {
  }

  /** "25,50" normalises to "25.50", which parses to 25.5. */
  lemma CommaDecimalExample()
    ensures ReplaceCommas("25,50") == "25.50"
    ensures ParseDecimal(ReplaceCommas("25,50")) == Some(25.5)
  {
    SampleCommaTexts();
    CommaDecimal("25", "50");
    SampleDecimalValue();
  }

  /** Text that is not a number does not parse. */
  lemma NonNumericExample()
    ensures ParseDecimal("abc") == None
  {
    ParseDecimalRejects("abc", 0);
  }

  /** The rate is read from the cell after the first "EUR" cell, and only from there. */
  lemma RateFromFirstEurCell(page: Page, r: nat, c: nat)
    requires FirstEurAt(page, r, c)
    ensures c + 1 == |page[r]| ==> RateFromPage(page) == Failure(NoFollowingCell)
    ensures c + 1 < |page[r]| ==>
      var text := ReplaceCommas(page[r][c + 1]);
      RateFromPage(page) == match ParseDecimal(text)
        case None => Failure(NotANumber(text))
        case Some(x) => Success(x)
  {
    var pos := FindEur(page);
    assert pos.Some?;
    var (r', c') := pos.value;
    assert !Before(r', c', r, c) && !Before(r, c, r', c');
  }

  /** Without an exact "EUR" cell there is no rate. */
  lemma NoEurCellNoRate(page: Page)
    requires forall i, j :: !IsEurAt(page, i, j)
    ensures RateFromPage(page) == Failure(EurCellNotFound)
  {
  }

  /** On the sample page the text after the "EUR" code is "24,335". */
  lemma SamplePageText()
    ensures RateText([["země", "měna", "množství", "kód", "kurz"], ["EMU", "euro", "1", "EUR", "24,335"]]) == Success("24,335")
  {
    var header: Row := ["země", "měna", "množství", "kód", "kurz"];
    var euro: Row := ["EMU", "euro", "1", "EUR", "24,335"];
    var page: Page := [header, euro];
    assert FindInRow(header, 0) == None by {
      assert FindInRow(header, 4) == None;
      assert FindInRow(header, 2) == None;
    }
    assert FindInRow(euro, 0) == Some(3) by {
      assert FindInRow(euro, 3) == Some(3);
      assert FindInRow(euro, 1) == Some(3);
    }
    assert FindEurFrom(page, 1) == Some((1, 3));
    assert FindEurFrom(page, 0) == FindEurFrom(page, 1);
  }

  /** A row of the rate table: country, currency, amount, code, rate. */
  lemma RatePageExample()
    ensures RateFromPage([["země", "měna", "množství", "kód", "kurz"], ["EMU", "euro", "1", "EUR", "24,335"]]) == Success(24.335)
  {
    SamplePageText();
    SampleCommaTexts();
    CommaDecimal("24", "335");
    PageDecimalValue();
  }
}

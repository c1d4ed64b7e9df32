/**
 * `convert_to_czk`: the price table gains a "Value_CZK" column holding each
 * price in EUR/MWh times the rate, divided by 1000 and rounded to two
 * decimals, and its index is relabelled `str(i) + ":00"`. The "Value" column is
 * left as it was.
 */
module Conversion {
  import opened Digits
  import opened PriceSheet

  /** r is x rounded to two decimals: a whole number of hundredths at most half a hundredth from x. */
  predicate RoundedTo2(r: real, x: real) {
    (r * 100.0).Floor as real == r * 100.0 && -0.005 <= r - x <= 0.005
  }

  /** Rounds half a hundredth up; contracts below rely only on RoundedTo2. */
  function Round2(x: real): (r: real)
    ensures RoundedTo2(r, x)
  {
    var k := (x * 100.0 + 0.5).Floor;
    assert k as real <= x * 100.0 + 0.5 < k as real + 1.0;
    k as real / 100.0
  }

  /** A price that is already a whole number of hundredths has only itself as rounding. */
  lemma RoundingExactIsIdentity(r: real, x: real)
    requires (x * 100.0).Floor as real == x * 100.0
    requires RoundedTo2(r, x)
    ensures r == x
  {
    var a, b := (r * 100.0).Floor, (x * 100.0).Floor;
    assert -0.5 <= (a - b) as real <= 0.5;
  }

  /** One EUR/MWh price at a given EUR rate, in CZK/kWh. */
  function PerKwh(price: real, rate: real): real {
    price * rate / 1000.0
  }

  /** The cell `(Value * rate / 1000).round(2)` may hold for a source cell; NaN stays NaN. */
  predicate Converted(source: Cell, rate: real, out: Cell) {
    match source
    case Number(v) => out.Number? && RoundedTo2(out.value, PerKwh(v, rate))
    case Blank => out == Blank
    case Text(_) => false
  }

  /** No text cell: multiplying a text element by the rate would raise TypeError. */
  predicate AllNumeric(cells: seq<Cell>) {
    forall i :: 0 <= i < |cells| ==> !cells[i].Text?
  }

  function ConvertCell(source: Cell, rate: real): (out: Cell)
    requires !source.Text?
    ensures Converted(source, rate, out)
  {
    match source
    case Number(v) => Number(Round2(PerKwh(v, rate)))
    case Blank => Blank
  }

  /** An index entry: the position a fresh table is labelled with, or a text label. */
  datatype Key = Position(n: nat) | Label(text: string)

  /** `index.astype(str)` for one entry. */
  function KeyText(k: Key): string {
    match k
    case Position(n) => NatToString(n)
    case Label(s) => s
  }

  /** The label of hour i once a fresh table has been converted. */
  function HourLabel(i: nat): string {
    NatToString(i) + ":00"
  }

  /** Hour labels are unpadded ("0:00" .. "23:00") and no two hours share one. */
  lemma HourLabelsDistinct(i: nat, j: nat)
    ensures i < 10 ==> |HourLabel(i)| == 4
    ensures 10 <= i < 100 ==> |HourLabel(i)| == 5
    ensures HourLabel(i) == HourLabel(j) ==> i == j
  {
    if HourLabel(i) == HourLabel(j) {
      var a, b := NatToString(i), NatToString(j);
      assert |a| == |b|;
      assert a == HourLabel(i)[..|a|] && b == HourLabel(j)[..|b|];
      NatToStringInjective(i, j);
    }
    if 10 <= i < 100 {
      assert |NatToString(i / 10)| == 1;
    }
  }

  /** The first and last hours of a day are labelled "0:00" and "23:00". */
  lemma HourLabelEnds()
    ensures HourLabel(0) == "0:00" && HourLabel(23) == "23:00"
  {
    assert NatToString(23) == NatToString(2) + ['3'];
  }

  /** 100 EUR/MWh at 25 CZK/EUR is exactly 2.50 CZK/kWh, whatever the rounding rule. */
  lemma ConversionExample(out: Cell)
    requires Converted(Number(100.0), 25.0, out)
    ensures out == Number(2.5)
  {
    RoundingExactIsIdentity(out.value, 2.5);
  }

  /** One spot price table, a DataFrame whose columns and index are updated in place. */
  class PriceTable {
    var value: array<Cell>   // the "Value" column, in EUR/MWh
    var czk: array<Cell>     // the "Value_CZK" column, present once hasCzk holds
    var hasCzk: bool
    var index: array<Key>

    ghost predicate Valid()
      reads this
    {
      index.Length == value.Length && (hasCzk ==> czk.Length == value.Length)
    }

    /** A table as `read_excel` returns it: the values under a positional index. */
    ghost predicate Fresh()
      reads this, index
    {
      !hasCzk && forall i :: 0 <= i < index.Length ==> index[i] == Position(i)
    }

    constructor (cells: seq<Cell>)
      ensures Valid() && Fresh() && value[..] == cells
      ensures fresh(value) && fresh(index) && fresh(czk)
    {
      value := new Cell[|cells|](i requires 0 <= i < |cells| => cells[i]);
      index := new Key[|cells|](i => Position(i));
      czk := new Cell[0];
      hasCzk := false;
    }

    /**
     * `convert_to_czk(df, rate)`. A text cell in "Value" makes the multiplication
     * raise, and the table is then left as it was.
     */
    method Convert(rate: real) returns (ok: bool)
      requires Valid()
      modifies this
      ensures Valid() && value == old(value) && value[..] == old(value[..])
      ensures ok <==> AllNumeric(value[..])
      ensures !ok ==> czk == old(czk) && hasCzk == old(hasCzk) && index == old(index)
      ensures ok ==> hasCzk && fresh(czk) && fresh(index)
      ensures ok ==> forall i :: 0 <= i < value.Length ==> Converted(value[i], rate, czk[i])
      ensures ok ==> forall i :: 0 <= i < index.Length ==>
        index[i] == Label(KeyText(old(index[i])) + ":00")
    {
      ok := AllNumeric(value[..]);
      if !ok {
        return;
      }
      var source, keys := value, index;
      var n := source.Length;
      var column := new Cell[n];
      var labels := new Key[n];
      for i := 0 to n
        modifies column, labels
        invariant forall j :: 0 <= j < i ==> Converted(source[j], rate, column[j])
        invariant forall j :: 0 <= j < i ==> labels[j] == Label(KeyText(keys[j]) + ":00")
      {
        assert !source[..][i].Text?;
        column[i] := ConvertCell(source[i], rate);
        labels[i] := Label(KeyText(keys[i]) + ":00");
      }
      czk, hasCzk, index := column, true, labels;
    }

    /** The index as text, as a chart's x axis shows it. */
    function Labels(): (s: seq<string>)
      reads this, index
    {
      seq(index.Length, i reads this, index requires 0 <= i < index.Length => KeyText(index[i]))
    }
  }

  /** A fresh table converted once is labelled by hour: entry i reads `str(i) + ":00"`. */
  lemma FreshLabels(old_index: seq<Key>, new_index: seq<Key>)
    requires |new_index| == |old_index|
    requires forall i :: 0 <= i < |old_index| ==> old_index[i] == Position(i)
    requires forall i :: 0 <= i < |new_index| ==> new_index[i] == Label(KeyText(old_index[i]) + ":00")
    ensures forall i :: 0 <= i < |new_index| ==> KeyText(new_index[i]) == HourLabel(i)
  {
  }
}

/**
 * The per-bar lists the chart is given: a colour per price that marks prices
 * under 0.4 CZK/kWh, and a border colour per hour that marks the current hour.
 */
module Colours {
  import opened PriceSheet

  const Yellow := "yellow"
  const MediumBlue := "mediumblue"
  const Firebrick := "firebrick"
  const Red := "red"
  const Transparent := "rgba(0,0,0,0)"

  const CheapBelow := 0.4

  /** `val < 0.4` for one converted cell; NaN compares false. */
  predicate Cheap(c: Cell) {
    c.Number? && c.value < CheapBelow
  }

  /** `['yellow' if val < 0.4 else base for val in prices]`. */
  function ThresholdColours(prices: seq<Cell>, base: string): (colours: seq<string>)
    ensures |colours| == |prices|
    ensures forall i :: 0 <= i < |prices| && Cheap(prices[i]) ==> colours[i] == Yellow
    ensures forall i :: 0 <= i < |prices| && !Cheap(prices[i]) ==> colours[i] == base
  {
    if prices == [] then []
    else [if Cheap(prices[0]) then Yellow else base] + ThresholdColours(prices[1..], base)
  }

  /** With a base colour other than yellow, a bar is yellow exactly when its price is under 0.4. */
  lemma YellowIffCheap(prices: seq<Cell>, base: string, i: nat)
    requires base == MediumBlue || base == Firebrick
    requires i < |prices|
    ensures ThresholdColours(prices, base)[i] == Yellow <==> prices[i].Number? && prices[i].value < 0.4
    ensures prices[i] == Number(0.4) ==> ThresholdColours(prices, base)[i] == base
  {
  }

  /** `['red' if i == current_hour else 'rgba(0,0,0,0)' for i in range(24)]`, from entry `from` on. */
  function HighlightFrom(hour: int, from: nat): (marks: seq<string>)
    requires from <= 24
    decreases 24 - from
    ensures |marks| == 24 - from
    ensures forall i :: 0 <= i < |marks| ==> (marks[i] == Red <==> from + i == hour)
    ensures forall i :: 0 <= i < |marks| && marks[i] != Red ==> marks[i] == Transparent
  {
    if from == 24 then [] else [if from == hour then Red else Transparent] + HighlightFrom(hour, from + 1)
  }

  /** The border colours of the 24 hourly bars. */
  function HourHighlight(hour: int): (marks: seq<string>)
    ensures |marks| == 24
    ensures forall i :: 0 <= i < 24 ==> (marks[i] == Red <==> i == hour)
    ensures forall i :: 0 <= i < 24 && i != hour ==> marks[i] == Transparent
  {
    HighlightFrom(hour, 0)
  }

  /** How many entries of s equal x. */
  function Occurrences(s: seq<string>, x: string): nat {
    if s == [] then 0 else (if s[0] == x then 1 else 0) + Occurrences(s[1..], x)
  }

  lemma {:induction false} OccurrencesFrom(hour: int, from: nat)
    requires from <= 24
    decreases 24 - from
    ensures Occurrences(HighlightFrom(hour, from), Red) == if from <= hour < 24 then 1 else 0
  {
    if from < 24 {
      var marks := HighlightFrom(hour, from);
      assert marks[1..] == HighlightFrom(hour, from + 1);
      OccurrencesFrom(hour, from + 1);
    }
  }

  /** For an hour of the day exactly one bar is outlined red; for any other number none is. */
  lemma ExactlyOneHighlighted(hour: int)
    ensures Occurrences(HourHighlight(hour), Red) == if 0 <= hour < 24 then 1 else 0
  {
    OccurrencesFrom(hour, 0);
  }
}

/** `filter_prices`: read the amount out of each price description, keep the
    rows with a positive amount that are not sold by the box or kit and do not
    mention "unit", and scale microgram amounts down by 1000. */
module Prices {
  import opened Wrappers
  import opened Seqs
  import opened Strings
  import opened Decimal
  import opened Tokens
  import opened Records

  datatype PriceError =
    | NullDescription          // `re.findall` on a null description raises
    | MalformedNumber(token: string)  // `float` on a token with two or more dots raises

  /** A price row with the amount read from its description. */
  datatype PricedRow = PricedRow(price: PriceRow, amount: real)

  // ---------------------------------------------------------------------------
  // return_the_only_number

  /** The one number in the description, or 0 when there are none or several. */
  function OnlyNumber(desc: string): (r: Result<real, PriceError>)
    ensures r.Failure? ==> |FindNumbers(desc)| == 1 && r.error == MalformedNumber(FindNumbers(desc)[0])
    ensures r.Success? ==> r.value >= 0.0
    ensures |FindNumbers(desc)| != 1 ==> r == Success(0.0)
    ensures |FindNumbers(desc)| == 1 ==> (r.Success? <==> TokenValue(FindNumbers(desc)[0]).Some?)
    ensures |FindNumbers(desc)| == 1 && r.Success? ==> TokenValue(FindNumbers(desc)[0]) == Some(r.value)
  {
    var numbers := FindNumbers(desc);
    if |numbers| == 1 then
      match TokenValue(numbers[0])
      case None => Failure(MalformedNumber(numbers[0]))
      case Some(v) => Success(v)
    else Success(0.0)
  }

  /** The description yields a positive amount exactly when it holds a single
      number, that number has at most one dot, and one of its digits is not 0. */
  lemma OnlyNumberPositive(desc: string)
    ensures (OnlyNumber(desc).Success? && OnlyNumber(desc).value > 0.0) <==>
            && |FindNumbers(desc)| == 1
            && TokenValue(FindNumbers(desc)[0]).Some?
            && exists p :: 0 <= p < |FindNumbers(desc)[0]| && IsDigit(FindNumbers(desc)[0][p]) && FindNumbers(desc)[0][p] != '0'
  {
    var numbers := FindNumbers(desc);
    if |numbers| == 1 && TokenValue(numbers[0]).Some? {
      TokenValuePositive(numbers[0]);
    }
  }

  /** The amount column: `return_the_only_number` applied to the description. */
  function Amount(p: PriceRow): (r: Result<real, PriceError>)
    ensures r == Failure(NullDescription) <==> p.description.None?
  {
    match p.description
    case None => Failure(NullDescription)
    case Some(d) => OnlyNumber(d)
  }

  /** The amounts of all rows, or the error of the first row that has none. */
  function Amounts(rows: seq<PriceRow>): (r: Result<seq<real>, PriceError>)
    ensures r.Success? <==> forall i :: 0 <= i < |rows| ==> Amount(rows[i]).Success?
    ensures r.Success? ==> |r.value| == |rows|
    ensures r.Success? ==> forall i :: 0 <= i < |rows| ==> Amount(rows[i]) == Success(r.value[i])
    ensures r.Failure? ==> exists i :: 0 <= i < |rows| && Amount(rows[i]) == Failure(r.error) && FailsFirstAt(rows, i)
  {
    if |rows| == 0 then Success([])
    else match Amount(rows[0])
      case Failure(e) =>
        assert FailsFirstAt(rows, 0);
        Failure(e)
      case Success(v) =>
        match Amounts(rows[1..])
        case Failure(e) =>
          var i :| 0 <= i < |rows| - 1 && Amount(rows[1..][i]) == Failure(e) && FailsFirstAt(rows[1..], i);
          assert FailsFirstAt(rows, i + 1) by {
            forall j | 0 <= j < i + 1 ensures Amount(rows[j]).Success? {
              if j > 0 { assert rows[j] == rows[1..][j - 1]; }
            }
          }
          Failure(e)
        case Success(vs) => Success([v] + vs)
  }

  /** Row `i` is the first whose amount cannot be read. */
  predicate FailsFirstAt(rows: seq<PriceRow>, i: nat)
  {
    i < |rows| && Amount(rows[i]).Failure? && forall j :: 0 <= j < i ==> Amount(rows[j]).Success?
  }

  // ---------------------------------------------------------------------------
  // The filters

  /** `unit not in ["box", "kit"] and amount > 0`; a null unit is not in the list. */
  predicate UnitAndAmountOk(p: PricedRow)
  {
    p.price.unit != Some("box") && p.price.unit != Some("kit") && p.amount > 0.0
  }

  /** The description mentions " mcg" (a null one does not). */
  predicate IsMicrograms(p: PricedRow)
  {
    p.price.description.Some? && Contains(p.price.description.value, " mcg")
  }

  /** Microgram amounts divided by 1000. */
  function ScaleMcg(p: PricedRow): (q: PricedRow)
    ensures q.price == p.price
    ensures q.amount == if IsMicrograms(p) then p.amount / 1000.0 else p.amount
  {
    if IsMicrograms(p) then p.(amount := p.amount / 1000.0) else p
  }

  /** The description does not mention "unit". */
  predicate NoUnitWord(p: PricedRow)
  {
    p.price.description.Some? && !Contains(p.price.description.value, "unit")
  }

  /** Each row paired with its amount. */
  function Priced(rows: seq<PriceRow>, amounts: seq<real>): (ps: seq<PricedRow>)
    requires |amounts| == |rows|
    ensures |ps| == |rows|
    ensures forall i :: 0 <= i < |rows| ==> ps[i] == PricedRow(rows[i], amounts[i])
  {
    seq(|rows|, i requires 0 <= i < |rows| => PricedRow(rows[i], amounts[i]))
  }

  /** `filter_prices`: the three stages in the order the source runs them. */
  function FilterPrices(rows: seq<PriceRow>): (r: Result<seq<PricedRow>, PriceError>)
    ensures r.Failure? <==> exists i :: 0 <= i < |rows| && Amount(rows[i]).Failure?
    ensures r.Failure? ==> exists i: nat :: FailsFirstAt(rows, i) && Amount(rows[i]) == Failure(r.error)
  {
    var amounts :- Amounts(rows);
    var kept := Filter(UnitAndAmountOk, Priced(rows, amounts));
    var scaled := Map(ScaleMcg, kept);
    Success(Filter(NoUnitWord, scaled))
  }

  // ---------------------------------------------------------------------------
  // What the result holds

  /** The rows the filters keep, stated in one pass. */
  predicate Keep(p: PricedRow)
  {
    UnitAndAmountOk(p) && NoUnitWord(p)
  }

  /** Filtering on "unit" after scaling is the same as filtering once, before. */
  lemma FilterPricesOnePass(rows: seq<PriceRow>)
    requires FilterPrices(rows).Success?
    ensures Amounts(rows).Success?
    ensures FilterPrices(rows).value == Map(ScaleMcg, Filter(Keep, Priced(rows, Amounts(rows).value)))
  {
    var ps := Priced(rows, Amounts(rows).value);
    var kept := Filter(UnitAndAmountOk, ps);
    FilterMap(NoUnitWord, ScaleMcg, NoUnitWord, kept);
    FilterFilter(NoUnitWord, UnitAndAmountOk, Keep, ps);
  }

  /** Every kept row has a positive amount, a unit other than box or kit, and
      a description without "unit"; its amount is the description's number,
      divided by 1000 when the description mentions " mcg". */
  lemma FilterPricesKept(rows: seq<PriceRow>)
    requires FilterPrices(rows).Success?
    ensures forall k :: 0 <= k < |FilterPrices(rows).value| ==>
              var q := FilterPrices(rows).value[k];
              && q.amount > 0.0
              && q.price.unit != Some("box") && q.price.unit != Some("kit")
              && q.price.description.Some? && !Contains(q.price.description.value, "unit")
              && Amount(q.price).Success?
              && q.amount == if IsMicrograms(q) then Amount(q.price).value / 1000.0 else Amount(q.price).value
  {
    FilterPricesOnePass(rows);
    var ps := Priced(rows, Amounts(rows).value);
    var kept := Filter(Keep, ps);
    forall k | 0 <= k < |FilterPrices(rows).value|
      ensures var q := FilterPrices(rows).value[k];
              && q.amount > 0.0
              && q.price.unit != Some("box") && q.price.unit != Some("kit")
              && q.price.description.Some? && !Contains(q.price.description.value, "unit")
              && Amount(q.price).Success?
              && q.amount == if IsMicrograms(q) then Amount(q.price).value / 1000.0 else Amount(q.price).value
    {
      var p := kept[k];
      assert p in ps;
      var i :| 0 <= i < |ps| && ps[i] == p;
      assert Amount(rows[i]) == Success(Amounts(rows).value[i]);
    }
  }

  function PriceOf(p: PricedRow): PriceRow
  {
    p.price
  }

  /** The kept rows come from the input, in input order. */
  lemma FilterPricesInOrder(rows: seq<PriceRow>)
    requires FilterPrices(rows).Success?
    ensures IsSubsequence(Map(PriceOf, FilterPrices(rows).value), rows)
  {
    FilterPricesOnePass(rows);
    var ps := Priced(rows, Amounts(rows).value);
    var kept := Filter(Keep, ps);
    FilterIsSubsequence(Keep, ps);
    MapSubsequence(PriceOf, kept, ps);
    assert Map(PriceOf, ps) == rows;
    MapMap(ScaleMcg, PriceOf, PriceOf, kept);
  }

  /** Every input row that passes the filters is in the result. */
  lemma FilterPricesComplete(rows: seq<PriceRow>)
    requires FilterPrices(rows).Success?
    ensures forall i :: 0 <= i < |rows| && Keep(PricedRow(rows[i], Amounts(rows).value[i])) ==>
              rows[i] in Map(PriceOf, FilterPrices(rows).value)
  {
    FilterPricesOnePass(rows);
  }
}

/** dataanalysis.py: the cleaning of the bid-price table before analysis
    (two row filters and the repair of zero prices), the margin and profit
    columns derived from it, and the four-band pricing strategy. A missing
    (NaN) cell is None. */
module Analysis {
  import opened PyValues

  /** The columns of one row that the cleaning and the formulas read. */
  datatype Row = Row(
    price: Option<real>, price9: Option<real>, price10: Option<real>,
    bidprice9: Option<real>, bidprice10: Option<real>,
    number9: Option<real>, number10: Option<real>)

  /** xs is xs taken from ys in order, some rows left out. */
  predicate Subsequence(xs: seq<Row>, ys: seq<Row>)
    decreases |ys|
  {
    if xs == [] then true
    else if ys == [] then false
    else if xs[|xs| - 1] == ys[|ys| - 1] then Subsequence(xs[..|xs| - 1], ys[..|ys| - 1])
    else Subsequence(xs, ys[..|ys| - 1])
  }

  // ---------------------------------------------------------------------------
  // The first filter

  /** fillna(0) on number9 and number10. */
  function FillQuantities(rows: seq<Row>): (filled: seq<Row>)
    ensures |filled| == |rows|
    ensures forall i :: 0 <= i < |rows| ==>
      filled[i] == rows[i].(number9 := Some(FillZero(rows[i].number9)), number10 := Some(FillZero(rows[i].number10)))
  {
    seq(|rows|, i requires 0 <= i < |rows| =>
      rows[i].(number9 := Some(FillZero(rows[i].number9)), number10 := Some(FillZero(rows[i].number10))))
  }

  /** A row is kept when number9 is 0 or number10 is not 0. */
  predicate FirstRule(r: Row) {
    r.number9 == Some(0.0) || r.number10 != Some(0.0)
  }

  /** The boolean-mask selection of the first filter. */
  function KeepFirst(rows: seq<Row>): (kept: seq<Row>)
    ensures forall x :: x in kept <==> x in rows && FirstRule(x)
    ensures Subsequence(kept, rows)
  {
    if rows == [] then []
    else
      var prev := KeepFirst(rows[..|rows| - 1]);
      var last := rows[|rows| - 1];
      if FirstRule(last) then
        assert (prev + [last])[..|prev|] == prev;
        prev + [last]
      else prev
  }

  /** The table after fillna and the first filter: every row has both
      quantities and no row has number9 non-zero with number10 zero. */
  function FirstFilter(rows: seq<Row>): (kept: seq<Row>)
    ensures |kept| <= |rows|
    ensures forall x :: x in kept ==>
      x.number9.Some? && x.number10.Some? && (x.number9.value == 0.0 || x.number10.value != 0.0)
  {
    var filled := FillQuantities(rows);
    var kept := KeepFirst(filled);
    KeptNoLonger(kept, filled);
    kept
  }

  lemma {:induction false} KeptNoLonger(xs: seq<Row>, ys: seq<Row>)
    requires Subsequence(xs, ys)
    ensures |xs| <= |ys|
    decreases |ys|
  {
    if xs != [] {
      if xs[|xs| - 1] == ys[|ys| - 1] {
        KeptNoLonger(xs[..|xs| - 1], ys[..|ys| - 1]);
      } else {
        KeptNoLonger(xs, ys[..|ys| - 1]);
      }
    }
  }

  // ---------------------------------------------------------------------------
  // The second filter

  /** A row is kept when none of bidprice9, bidprice10, price9 and price10 is missing or 0. */
  predicate SecondRule(r: Row) {
    Usable(r.bidprice9) && Usable(r.bidprice10) && Usable(r.price9) && Usable(r.price10)
  }

  function SecondFilter(rows: seq<Row>): (kept: seq<Row>)
    ensures forall x :: x in kept <==> x in rows && SecondRule(x)
    ensures Subsequence(kept, rows)
  {
    if rows == [] then []
    else
      var prev := SecondFilter(rows[..|rows| - 1]);
      var last := rows[|rows| - 1];
      if SecondRule(last) then
        assert (prev + [last])[..|prev|] == prev;
        prev + [last]
      else prev
  }

  /** Both filters together only drop rows and keep the order, and every row
      left has a non-zero bidprice9, the divisor of the change percentage. */
  lemma CleanedRows(rows: seq<Row>)
    ensures |SecondFilter(FirstFilter(rows))| <= |rows|
    ensures forall x :: x in SecondFilter(FirstFilter(rows)) ==>
      FirstRule(x) && SecondRule(x) && x.bidprice9.value != 0.0
  {
    KeptNoLonger(SecondFilter(FirstFilter(rows)), FirstFilter(rows));
  }

  // ---------------------------------------------------------------------------
  // Zero-price repair

  /** The row mean of price9 and price10, missing cells skipped. */
  function PairMean(a: Option<real>, b: Option<real>): (m: Option<real>)
    ensures m.None? <==> a.None? && b.None?
    ensures a.Some? && b.Some? ==> m.value * 2.0 == a.value + b.value
    ensures a.Some? && b.None? ==> m == a
    ensures a.None? && b.Some? ==> m == b
  {
    if a.Some? && b.Some? then Some((a.value + b.value) / 2.0)
    else if a.Some? then a
    else b
  }

  /** First step for one row: a zero price becomes the mean of price9 and price10. */
  function FirstRepair(r: Row): Row {
    if r.price == Some(0.0) then r.(price := PairMean(r.price9, r.price10)) else r
  }

  function FirstRepairs(rows: seq<Row>): seq<Row> {
    seq(|rows|, i requires 0 <= i < |rows| => FirstRepair(rows[i]))
  }

  /** The sum and the number of the prices that are present and not 0. */
  function NonZeroTotal(rows: seq<Row>): real {
    if rows == [] then 0.0
    else
      var p := rows[|rows| - 1].price;
      NonZeroTotal(rows[..|rows| - 1]) + (if Usable(p) then p.value else 0.0)
  }

  function NonZeroCount(rows: seq<Row>): nat {
    if rows == [] then 0
    else NonZeroCount(rows[..|rows| - 1]) + (if Usable(rows[|rows| - 1].price) then 1 else 0)
  }

  /** The mean of the non-zero prices; None (NaN) when there are none. */
  function OverallMean(rows: seq<Row>): Option<real> {
    if NonZeroCount(rows) == 0 then None
    else Some(NonZeroTotal(rows) / NonZeroCount(rows) as real)
  }

  function SecondRepair(r: Row, mean: Option<real>): Row {
    if r.price == Some(0.0) then r.(price := mean) else r
  }

  /** The whole repair: the first step on every row, then every price still 0
      replaced by the mean of the non-zero prices after the first step. */
  function Repaired(rows: seq<Row>): seq<Row> {
    var step := FirstRepairs(rows);
    var mean := OverallMean(step);
    seq(|rows|, i requires 0 <= i < |rows| => SecondRepair(step[i], mean))
  }

  /** The two .loc assignments of the repair, on the table in place. The
      counts the source takes before each step only decide what it prints:
      a step with no zero price to replace changes nothing. */
  method RepairZeroPrices(rows: array<Row>)
    modifies rows
    ensures rows[..] == Repaired(old(rows[..]))
  {
    ghost var original := rows[..];
    var i := 0;
    while i < rows.Length
      invariant 0 <= i <= rows.Length
      invariant forall j :: 0 <= j < i ==> rows[j] == FirstRepair(original[j])
      invariant forall j :: i <= j < rows.Length ==> rows[j] == original[j]
    {
      if rows[i].price == Some(0.0) {
        rows[i] := rows[i].(price := PairMean(rows[i].price9, rows[i].price10));
      }
      i := i + 1;
    }
    ghost var step := rows[..];
    assert step == FirstRepairs(original);
    var total, count := 0.0, 0;
    i := 0;
    while i < rows.Length
      invariant 0 <= i <= rows.Length && rows[..] == step
      invariant total == NonZeroTotal(step[..i]) && count == NonZeroCount(step[..i])
    {
      assert step[..i + 1][..i] == step[..i];
      var p := rows[i].price;
      if p.Some? && p.value != 0.0 {
        total := total + p.value;
        count := count + 1;
      }
      i := i + 1;
    }
    assert step[..i] == step;
    var overallMean := if count == 0 then None else Some(total / count as real);
    i := 0;
    while i < rows.Length
      invariant 0 <= i <= rows.Length
      invariant forall j :: 0 <= j < i ==> rows[j] == SecondRepair(step[j], overallMean)
      invariant forall j :: i <= j < rows.Length ==> rows[j] == step[j]
    {
      if rows[i].price == Some(0.0) {
        rows[i] := rows[i].(price := overallMean);
      }
      i := i + 1;
    }
  }

  /** Only the price column changes, and only where it was 0; a zero price
      takes the mean of price9 and price10 unless that is 0 too, and then the
      mean of the non-zero prices. */
  lemma RepairEffect(rows: seq<Row>, i: nat)
    requires i < |rows|
    ensures |Repaired(rows)| == |rows|
    ensures Repaired(rows)[i] == rows[i].(price := Repaired(rows)[i].price)
    ensures rows[i].price != Some(0.0) ==> Repaired(rows)[i] == rows[i]
    ensures rows[i].price == Some(0.0) && PairMean(rows[i].price9, rows[i].price10) != Some(0.0) ==>
      Repaired(rows)[i].price == PairMean(rows[i].price9, rows[i].price10)
    ensures rows[i].price == Some(0.0) && PairMean(rows[i].price9, rows[i].price10) == Some(0.0) ==>
      Repaired(rows)[i].price == OverallMean(FirstRepairs(rows))
  {
  }

  /** Non-negative prices that are not all 0 have a positive mean. */
  lemma {:induction false} NonZeroTotalPositive(rows: seq<Row>)
    requires forall j :: 0 <= j < |rows| && rows[j].price.Some? ==> rows[j].price.value >= 0.0
    ensures NonZeroTotal(rows) >= 0.0
    ensures NonZeroCount(rows) > 0 ==> NonZeroTotal(rows) > 0.0
  {
    if rows != [] {
      NonZeroTotalPositive(rows[..|rows| - 1]);
    }
  }

  /** With no negative price, price9 or price10, no price is 0 after the repair. */
  lemma NoZeroPriceRemains(rows: seq<Row>)
    requires forall j :: 0 <= j < |rows| ==>
      (rows[j].price.Some? ==> rows[j].price.value >= 0.0) &&
      (rows[j].price9.Some? ==> rows[j].price9.value >= 0.0) &&
      (rows[j].price10.Some? ==> rows[j].price10.value >= 0.0)
    ensures forall j :: 0 <= j < |rows| ==> Repaired(rows)[j].price != Some(0.0)
  {
    var step := FirstRepairs(rows);
    assert forall j :: 0 <= j < |step| && step[j].price.Some? ==> step[j].price.value >= 0.0;
    NonZeroTotalPositive(step);
    var mean := OverallMean(step);
    if mean.Some? {
      assert mean.value > 0.0 by {
        PositiveQuotient(NonZeroTotal(step), NonZeroCount(step) as real);
      }
    }
  }

  lemma PositiveQuotient(a: real, b: real)
    requires a > 0.0 && b > 0.0
    ensures a / b > 0.0
  {
  }

  /** After the second filter, with price9 and price10 positive, every zero
      price becomes the mean of the two and the second step has nothing to do. */
  lemma RepairAfterFilter(rows: seq<Row>)
    requires forall j :: 0 <= j < |rows| ==>
      rows[j].price9.Some? && rows[j].price9.value > 0.0 && rows[j].price10.Some? && rows[j].price10.value > 0.0
    ensures forall j :: 0 <= j < |rows| ==>
      Repaired(rows)[j].price ==
        if rows[j].price == Some(0.0) then Some((rows[j].price9.value + rows[j].price10.value) / 2.0)
        else rows[j].price
  {
  }

  // ---------------------------------------------------------------------------
  // Derived columns

  /** (bid - price) / price * 100 where price is not 0, else 0; NaN
      propagates as None. */
  function Margin(bid: Option<real>, price: Option<real>): (m: Option<real>)
    ensures price == Some(0.0) ==> m == Some(0.0)
    ensures m.None? <==> price.None? || (price.value != 0.0 && bid.None?)
    ensures m.Some? && price.value != 0.0 ==> m.value * price.value == (bid.value - price.value) * 100.0
  {
    if price.None? then None
    else if price.value == 0.0 then Some(0.0)
    else if bid.None? then None
    else Some((bid.value - price.value) / price.value * 100.0)
  }

  /** number * (bid - price). */
  function Profit(number: Option<real>, bid: Option<real>, price: Option<real>): (p: Option<real>)
    ensures p.Some? <==> number.Some? && bid.Some? && price.Some?
    ensures p.Some? && number.value > 0.0 ==> (p.value > 0.0 <==> bid.value > price.value)
  {
    if number.Some? && bid.Some? && price.Some? then
      MulPositive(number.value, bid.value - price.value);
      Some(number.value * (bid.value - price.value))
    else None
  }

  lemma MulPositive(n: real, d: real)
    ensures n > 0.0 ==> (n * d > 0.0 <==> d > 0.0)
  {
    if n > 0.0 && d <= 0.0 {
      assert n * d <= 0.0 by { assert n * (-d) >= 0.0; }
    }
  }

  /** The profit at the bid price is the quantity times the price times the
      margin: both read the same bid and price. */
  lemma ProfitFromMargin(number: Option<real>, bid: Option<real>, price: Option<real>)
    requires number.Some? && bid.Some? && price.Some? && price.value != 0.0
    ensures Profit(number, bid, price).value * 100.0 == number.value * price.value * Margin(bid, price).value
  {
    var m := Margin(bid, price).value;
    assert m * price.value == (bid.value - price.value) * 100.0;
    calc {
      number.value * price.value * m;
      number.value * (m * price.value);
      number.value * ((bid.value - price.value) * 100.0);
      Profit(number, bid, price).value * 100.0;
    }
  }

  /** The columns added to the cleaned table. */
  datatype Derived = Derived(
    change: real, changePct: real,
    margin9: Option<real>, margin10: Option<real>,
    profit9: Option<real>, profit10: Option<real>)

  /** The derived columns of one cleaned row; the second filter guarantees
      the bid prices exist and bidprice9 is not 0. */
  function Derive(r: Row): (d: Derived)
    requires SecondRule(r)
    ensures d.changePct * r.bidprice9.value == d.change * 100.0
    ensures d.change > 0.0 <==> r.bidprice10.value > r.bidprice9.value
  {
    var change := r.bidprice10.value - r.bidprice9.value;
    Derived(change, change / r.bidprice9.value * 100.0,
      Margin(r.bidprice9, r.price), Margin(r.bidprice10, r.price),
      Profit(r.number9, r.bidprice9, r.price), Profit(r.number10, r.bidprice10, r.price))
  }

  // ---------------------------------------------------------------------------
  // Pricing strategy

  datatype Strategy = Aggressive | Steady | Conservative | Defensive

  /** The label the report prints for each strategy. */
  function Label(s: Strategy): string {
    match s
    case Aggressive => "积极报价"
    case Steady => "稳健报价"
    case Conservative => "保守报价"
    case Defensive => "防御性报价"
  }

  /** One row of the prediction table: the predicted change from month 10 to
      month 11, in percent, and the two columns current_margin is computed
      from. */
  datatype Prediction = Prediction(changePct: Option<real>, price: Option<real>, bidprice10: Option<real>)

  /** get_pricing_strategy: four bands of the predicted change. The current
      margin it computes is never read, so price and bidprice10 play no part;
      a NaN prediction fails every comparison and is defensive. */
  function PricingStrategy(row: Prediction): (s: Strategy)
    ensures s == Aggressive <==> row.changePct.Some? && row.changePct.value > 5.0
    ensures s == Steady <==> row.changePct.Some? && 0.0 < row.changePct.value <= 5.0
    ensures s == Conservative <==> row.changePct.Some? && -5.0 < row.changePct.value <= 0.0
    ensures s == Defensive <==> row.changePct.None? || row.changePct.value <= -5.0
  {
    match row.changePct
    case None => Defensive
    case Some(x) =>
      if x > 5.0 then Aggressive
      else if x > 0.0 then Steady
      else if x > -5.0 then Conservative
      else Defensive
  }

  /** Defensive < Conservative < Steady < Aggressive. */
  function Rank(s: Strategy): nat {
    match s
    case Defensive => 0
    case Conservative => 1
    case Steady => 2
    case Aggressive => 3
  }

  /** A larger predicted change never gives a more defensive strategy. */
  lemma StrategyMonotone(a: Prediction, b: Prediction)
    requires a.changePct.Some? && b.changePct.Some? && a.changePct.value <= b.changePct.value
    ensures Rank(PricingStrategy(a)) <= Rank(PricingStrategy(b))
  {
  }

  /** Two rows with the same prediction get the same strategy, whatever their
      price and bidprice10. */
  lemma StrategyIgnoresMargin(a: Prediction, b: Prediction)
    requires a.changePct == b.changePct
    ensures PricingStrategy(a) == PricingStrategy(b)
  {
  }

  function CountStrategy(rows: seq<Prediction>, s: Strategy): (n: nat)
    ensures n <= |rows|
  {
    if rows == [] then 0
    else CountStrategy(rows[..|rows| - 1], s) + (if PricingStrategy(rows[|rows| - 1]) == s then 1 else 0)
  }

  /** value_counts over the strategies covers every row exactly once. */
  lemma {:induction false} StrategyCountsAddUp(rows: seq<Prediction>)
    ensures CountStrategy(rows, Aggressive) + CountStrategy(rows, Steady) +
      CountStrategy(rows, Conservative) + CountStrategy(rows, Defensive) == |rows|
  {
    if rows != [] {
      StrategyCountsAddUp(rows[..|rows| - 1]);
    }
  }

  /** The aggressive and defensive counts the summary prints; None where the
      lookup in value_counts raises KeyError because no row has that strategy. */
  function StrategySummary(rows: seq<Prediction>): (r: Option<(nat, nat)>)
    ensures r.None? <==> CountStrategy(rows, Aggressive) == 0 || CountStrategy(rows, Defensive) == 0
    ensures r.Some? ==> r.value.0 + r.value.1 <= |rows|
  {
    var aggressive := CountStrategy(rows, Aggressive);
    var defensive := CountStrategy(rows, Defensive);
    if aggressive == 0 || defensive == 0 then None
    else
      StrategyCountsAddUp(rows);
      Some((aggressive, defensive))
  }
}

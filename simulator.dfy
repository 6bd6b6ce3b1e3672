/** The pricing simulation of simulator.py: five estimator columns derived from
    the baseline price and the two bidding periods' prices, a 5-way median per
    row, min-over-estimator ratios scaled by 60, an outlier correction of those
    ratios, and median-weighted allocation scores whose column totals are
    ranked. A cell is an Option<real>; None is a missing (NaN) cell. */
module Simulator {
  import opened PyValues
  import opened Ordering

  /** The divisor substituted for a zero (ratios) or a zero median sum (allocation). */
  const Epsilon: real := 0.0000000001
  /** The scale of the ratio columns. */
  const RatioScale: real := 60.0
  /** The tolerance band around the median used by the outlier correction. */
  const LowerFactor: real := 0.2
  const UpperFactor: real := 1.8

  type Cell = Option<real>

  /** The input columns of one product row that the simulation reads. */
  datatype Row = Row(price: Cell, bid9: Cell, bid10: Cell, number11: Cell)

  /** Which of those columns the spreadsheet has. */
  datatype Schema = Schema(hasPrice: bool, hasBid9: bool, hasBid10: bool, hasNumber11: bool)

  /** Multiplying a column by a scalar; a missing cell stays missing. */
  function Times(c: Cell, m: real): Cell { if c.Some? then Some(c.value * m) else None }

  function Fill(v: seq<Cell>): (r: seq<real>)
    ensures |r| == |v|
  {
    seq(|v|, i requires 0 <= i < |v| => FillZero(v[i]))
  }

  // ---------------------------------------------------------------------------
  // price1 and price2: a bid price with fallback to price, gated by number11

  /** The value before gating. When the bid column exists: the bid when usable,
      else the price when usable, else 0. When it does not exist: the price
      column copied as it is. */
  function Resolved(bid: Cell, hasBid: bool, r: Row, s: Schema): Cell {
    if !hasBid then r.price
    else if Usable(bid) then bid
    else if s.hasPrice && Usable(r.price) then r.price
    else Some(0.0)
  }

  /** number11 exists and is missing or 0 in this row. */
  predicate GatedOff(r: Row, s: Schema) { s.hasNumber11 && !Usable(r.number11) }

  function Gated(c: Cell, r: Row, s: Schema): Cell {
    if GatedOff(r, s) then Some(0.0) else c
  }

  /** The row rule of generate_price1, for any bid column. */
  function FallbackPrice(bid: Cell, hasBid: bool, r: Row, s: Schema, m: real): Cell {
    Times(Gated(Resolved(bid, hasBid, r, s), r, s), m)
  }

  function Price1Row(r: Row, s: Schema, m: real): Cell {
    FallbackPrice(r.bid10, s.hasBid10, r, s, m)
  }

  /** generate_price1 over the table. None when neither bidprice10 nor price
      exists: the source then builds the list [0] * n and multiplying it by
      the float multiplier raises TypeError. */
  function Price1Column(t: seq<Row>, s: Schema, m: real): (c: Option<seq<Cell>>)
    ensures c.None? <==> !s.hasBid10 && !s.hasPrice
    ensures c.Some? ==> |c.value| == |t|
    ensures c.Some? ==> forall i :: 0 <= i < |t| ==> c.value[i] == Price1Row(t[i], s, m)
  {
    if !s.hasBid10 && !s.hasPrice then None
    else Some(seq(|t|, i requires 0 <= i < |t| => Price1Row(t[i], s, m)))
  }

  /** price1 row by row: a gated row is 0; otherwise bidprice10 when usable,
      else price when usable, else 0, times the multiplier; without a
      bidprice10 column the price cell itself (missing stays missing). */
  lemma Price1Cases(r: Row, s: Schema, m: real)
    ensures GatedOff(r, s) ==> Price1Row(r, s, m) == Times(Some(0.0), m)
    ensures !GatedOff(r, s) && s.hasBid10 ==>
      Price1Row(r, s, m) == Times(Some(if Usable(r.bid10) then r.bid10.value
                                       else if s.hasPrice && Usable(r.price) then r.price.value
                                       else 0.0), m)
    ensures !GatedOff(r, s) && !s.hasBid10 ==> Price1Row(r, s, m) == Times(r.price, m)
  {
  }

  /** generate_price1: a copy of the bid column, a row loop that substitutes
      price or 0 for a missing or zero bid, a row loop that zeroes the gated
      rows, then the multiplier. Without a bidprice10 or a price column the
      source raises a TypeError (Price1Column is None), so that input is excluded. */
  method GeneratePrice1(t: seq<Row>, s: Schema, m: real) returns (result: array<Cell>)
    requires s.hasBid10 || s.hasPrice
    ensures result.Length == |t|
    ensures Price1Column(t, s, m) == Some(result[..])
  {
    var n := |t|;
    result := new Cell[n];
    if !s.hasBid10 {
      forall i | 0 <= i < n {
        result[i] := t[i].price;
      }
    } else {
      forall i | 0 <= i < n {
        result[i] := t[i].bid10;
      }
      var i := 0;
      while i < n
        invariant 0 <= i <= n
        invariant forall k :: 0 <= k < i ==> result[k] == Resolved(t[k].bid10, true, t[k], s)
        invariant forall k :: i <= k < n ==> result[k] == t[k].bid10
      {
        if !Usable(t[i].bid10) {
          if s.hasPrice && Usable(t[i].price) {
            result[i] := t[i].price;
          } else {
            result[i] := Some(0.0);
          }
        }
        i := i + 1;
      }
    }
    if s.hasNumber11 {
      var i := 0;
      while i < n
        invariant 0 <= i <= n
        invariant forall k :: 0 <= k < i ==> result[k] == Gated(Resolved(t[k].bid10, s.hasBid10, t[k], s), t[k], s)
        invariant forall k :: i <= k < n ==> result[k] == Resolved(t[k].bid10, s.hasBid10, t[k], s)
      {
        if !Usable(t[i].number11) {
          result[i] := Some(0.0);
        }
        i := i + 1;
      }
    }
    var i := 0;
    while i < n
      invariant 0 <= i <= n
      invariant forall k :: 0 <= k < i ==> result[k] == Price1Row(t[k], s, m)
      invariant forall k :: i <= k < n ==> result[k] == Gated(Resolved(t[k].bid10, s.hasBid10, t[k], s), t[k], s)
    {
      result[i] := Times(result[i], m);
      i := i + 1;
    }
    assert forall k :: 0 <= k < n ==> result[..][k] == Price1Column(t, s, m).value[k];
    assert result[..] == Price1Column(t, s, m).value;
  }

  /** generate_price2 as the source writes it: masked assignments on a copy of
      the bidprice9 column, fillna(0), a gating mask, the multiplier. None when
      neither bidprice9 nor price exists (the source raises a TypeError). */
  function Price2Column(t: seq<Row>, s: Schema, m: real): Option<seq<Cell>> {
    if !s.hasBid9 && !s.hasPrice then None
    else
      var base: seq<Cell> :=
        if !s.hasBid9 then seq(|t|, i requires 0 <= i < |t| => t[i].price)
        else
          var replaced := seq(|t|, i requires 0 <= i < |t| =>
            var isMissing := t[i].bid9.None?;
            var isZero := t[i].bid9 == Some(0.0) && !isMissing;
            var priceOk := s.hasPrice && t[i].price.Some? && t[i].price.value != 0.0;
            if (isMissing || isZero) && priceOk then t[i].price else t[i].bid9);
          seq(|t|, i requires 0 <= i < |t| => Some(FillZero(replaced[i])));
      var masked := seq(|t|, i requires 0 <= i < |t| =>
        if s.hasNumber11 && (t[i].number11.None? || t[i].number11 == Some(0.0)) then Some(0.0) else base[i]);
      Some(seq(|t|, i requires 0 <= i < |t| => Times(masked[i], m)))
  }

  /** The vectorised price2 is price1's row rule with bidprice9 in place of
      bidprice10, and fails exactly when that rule has no column to read. */
  lemma Price2IsPrice1Rule(t: seq<Row>, s: Schema, m: real)
    ensures Price2Column(t, s, m).None? <==> !s.hasBid9 && !s.hasPrice
    ensures Price2Column(t, s, m).Some? ==>
      |Price2Column(t, s, m).value| == |t| &&
      forall i :: 0 <= i < |t| ==> Price2Column(t, s, m).value[i] == FallbackPrice(t[i].bid9, s.hasBid9, t[i], s, m)
  {
  }

  /** generate_price3: price with missing as 0, times the multiplier; all zeros
      without a price column. */
  function Price3Column(t: seq<Row>, s: Schema, m: real): (c: seq<Cell>)
    ensures |c| == |t|
    ensures forall i :: 0 <= i < |t| ==> c[i].Some?
    ensures !s.hasPrice ==> forall i :: 0 <= i < |t| ==> c[i] == Some(0.0)
    ensures s.hasPrice ==> forall i :: 0 <= i < |t| ==> c[i].value == FillZero(t[i].price) * m
  {
    if !s.hasPrice then seq(|t|, i => Some(0.0))
    else seq(|t|, i requires 0 <= i < |t| => Some(FillZero(t[i].price) * m))
  }

  /** price3 is never missing and never gated: with no negative price and a
      non-negative multiplier every cell is non-negative, and a row with a
      usable price keeps a non-zero cell under a non-zero multiplier. */
  lemma Price3Bounds(t: seq<Row>, s: Schema, m: real)
    requires m >= 0.0 && forall i :: 0 <= i < |t| ==> FillZero(t[i].price) >= 0.0
    ensures forall i :: 0 <= i < |t| ==> Price3Column(t, s, m)[i].value >= 0.0
    ensures s.hasPrice && m != 0.0 ==>
      forall i :: 0 <= i < |t| ==> (Price3Column(t, s, m)[i].value != 0.0 <==> Usable(t[i].price))
  {
    forall i | 0 <= i < |t| ensures Price3Column(t, s, m)[i].value >= 0.0 {
      if s.hasPrice {
        ProductNonNegative(FillZero(t[i].price), m);
      }
    }
  }

  /** generate_price5: price with missing as 0, times the multiplier (0.5 in
      the pipeline). Without a price column the source fails on an undefined
      name, so None. */
  function Price5Column(t: seq<Row>, s: Schema, m: real): Option<seq<Cell>> {
    if !s.hasPrice then None
    else Some(seq(|t|, i requires 0 <= i < |t| => Some(FillZero(t[i].price) * m)))
  }

  /** price5 is price3's rule under its own multiplier: it fails exactly
      without a price column, and otherwise equals price3. With main's
      multipliers (0.5 and 1.0) each price5 cell is half the price3 cell. */
  lemma Price5IsScaledPrice3(t: seq<Row>, s: Schema, m: real)
    ensures Price5Column(t, s, m).None? <==> !s.hasPrice
    ensures s.hasPrice ==> Price5Column(t, s, m) == Some(Price3Column(t, s, m))
    ensures s.hasPrice ==> forall i :: 0 <= i < |t| ==>
      Price5Column(t, s, 0.5).value[i].value * 2.0 == Price3Column(t, s, 1.0)[i].value
  {
    if s.hasPrice {
      assert Price5Column(t, s, m).value == Price3Column(t, s, m);
    }
  }

  // ---------------------------------------------------------------------------
  // price4: the bidprice9/bidprice10 blend

  /** The masked assignments of generate_price4 when both bid columns exist,
      applied in the source's order, then fillna(0). */
  function Price4Blend(r: Row, s: Schema): real {
    var avg: Cell := if r.bid9.Some? && r.bid10.Some? then Some((r.bid9.value + r.bid10.value) / 2.0) else None;
    var step2 := if !Usable(r.bid9) && Usable(r.bid10) then r.bid10 else avg;
    var step3 := if !Usable(r.bid10) && Usable(r.bid9) then r.bid9 else step2;
    var step4 := if s.hasPrice && (!Usable(r.bid9) || !Usable(r.bid10)) && Usable(r.price) then r.price else step3;
    FillZero(step4)
  }

  /** generate_price4 when exactly one bid column exists: that column, with
      price substituted where it is missing or 0 and price is usable, then fillna(0). */
  function Price4One(bid: Cell, r: Row, s: Schema): real {
    FillZero(if s.hasPrice && !Usable(bid) && Usable(r.price) then r.price else bid)
  }

  /** generate_price4 over the table. Never gated by number11, no multiplier. */
  function Price4Column(t: seq<Row>, s: Schema): (c: seq<Cell>)
    ensures |c| == |t|
  {
    if !s.hasBid9 && !s.hasBid10 then
      if s.hasPrice then seq(|t|, i requires 0 <= i < |t| => Some(FillZero(t[i].price)))
      else seq(|t|, i => Some(0.0))
    else if !s.hasBid9 then seq(|t|, i requires 0 <= i < |t| => Some(Price4One(t[i].bid10, t[i], s)))
    else if !s.hasBid10 then seq(|t|, i requires 0 <= i < |t| => Some(Price4One(t[i].bid9, t[i], s)))
    else seq(|t|, i requires 0 <= i < |t| => Some(Price4Blend(t[i], s)))
  }

  /** The three cases of the blend: the average when both bids are usable;
      otherwise price when usable (the source's mask tests "either bid unusable");
      otherwise the usable bid, else 0. */
  lemma Price4Cases(r: Row, s: Schema)
    ensures Usable(r.bid9) && Usable(r.bid10) ==>
      Price4Blend(r, s) == (r.bid9.value + r.bid10.value) / 2.0
    ensures !(Usable(r.bid9) && Usable(r.bid10)) && s.hasPrice && Usable(r.price) ==>
      Price4Blend(r, s) == r.price.value
    ensures !(Usable(r.bid9) && Usable(r.bid10)) && !(s.hasPrice && Usable(r.price)) ==>
      Price4Blend(r, s) == (if Usable(r.bid9) then r.bid9.value else if Usable(r.bid10) then r.bid10.value else 0.0)
  {
  }

  /** With exactly one bid column a price4 cell is that bid when usable,
      else the price when that column exists and the price is usable, else 0. */
  lemma Price4OneCases(t: seq<Row>, s: Schema, i: nat)
    requires s.hasBid9 != s.hasBid10 && i < |t|
    ensures var bid := if s.hasBid9 then t[i].bid9 else t[i].bid10;
      Price4Column(t, s)[i] ==
        Some(if Usable(bid) then bid.value
             else if s.hasPrice && Usable(t[i].price) then t[i].price.value
             else 0.0)
  {
  }

  /** Without either bid column price4 falls back to the same column as
      price3 at multiplier 1: the price with missing as 0, or zeros. */
  lemma Price4WithoutBidsIsPrice3(t: seq<Row>, s: Schema)
    requires !s.hasBid9 && !s.hasBid10
    ensures Price4Column(t, s) == Price3Column(t, s, 1.0)
  {
    assert forall i :: 0 <= i < |t| ==> Price4Column(t, s)[i] == Price3Column(t, s, 1.0)[i];
  }

  // ---------------------------------------------------------------------------
  // The estimator table

  /** The five estimators of each row, in the order price1..price5. */
  function EstimatorRows(c1: seq<Cell>, c2: seq<Cell>, c3: seq<Cell>, c4: seq<Cell>, c5: seq<Cell>): (rows: seq<seq<Cell>>)
    requires |c2| == |c1| && |c3| == |c1| && |c4| == |c1| && |c5| == |c1|
    ensures |rows| == |c1|
    ensures forall i :: 0 <= i < |rows| ==> |rows[i]| == 5
  {
    seq(|c1|, i requires 0 <= i < |c1| => [c1[i], c2[i], c3[i], c4[i], c5[i]])
  }

  predicate FiveWide<T>(rows: seq<seq<T>>) {
    forall i :: 0 <= i < |rows| ==> |rows[i]| == 5
  }

  // ---------------------------------------------------------------------------
  // Median

  /** Element 2 of the ascending sort of five values. */
  function Median5(v: seq<real>): real
    requires |v| == 5
  {
    Sort(v)[2]
  }

  /** The median is one of the five values, at least three values are at most
      it and at least three are at least it. */
  lemma MedianIsMiddle(v: seq<real>)
    requires |v| == 5
    ensures Median5(v) in v
    ensures CountLe(v, Median5(v)) >= 3 && CountGe(v, Median5(v)) >= 3
  {
    var w := Sort(v);
    assert w[2] in multiset(w);
    SortSorted(v);
    CountLeSorted(w, 2);
    CountGeSorted(w, 2);
    CountSort(v, w[2]);
  }

  /** The median is the middle element of any ascending arrangement of the values. */
  lemma MedianOfSorted(v: seq<real>, w: seq<real>)
    requires |v| == 5 && Sorted(w) && multiset(v) == multiset(w)
    ensures |w| == 5 && Median5(v) == w[2]
  {
    assert |w| == |multiset(w)| == |multiset(v)| == |v|;
    SortSorted(v);
    SortedUnique(Sort(v), w);
  }

  /** Permuting the five estimators does not change the median. */
  lemma MedianPermutationInvariant(u: seq<real>, v: seq<real>)
    requires |u| == 5 && multiset(u) == multiset(v)
    ensures |v| == 5 && Median5(u) == Median5(v)
  {
    assert |v| == |multiset(v)| == |multiset(u)| == |u|;
    SortPermutationInvariant(u, v);
  }

  /** generate_median: missing cells count as 0; if any estimator column is
      absent, the whole column is 0. */
  function GenerateMedian(rows: seq<seq<Cell>>, allPresent: bool): (med: seq<real>)
    requires FiveWide(rows)
    ensures |med| == |rows|
    ensures !allPresent ==> forall i :: 0 <= i < |med| ==> med[i] == 0.0
  {
    if !allPresent then seq(|rows|, i => 0.0)
    else seq(|rows|, i requires 0 <= i < |rows| => Median5(Fill(rows[i])))
  }

  // ---------------------------------------------------------------------------
  // Ratios

  /** The divisor used for an estimator: a zero becomes Epsilon. */
  function Divisor(x: real): real { if x == 0.0 then Epsilon else x }

  /** s_k = min / price_k * 60, the min taken before zeros become Epsilon. */
  function RatioRow(v: seq<real>): (s: seq<real>)
    requires |v| == 5
    ensures |s| == 5
  {
    var a := MinOf(v);
    seq(5, k requires 0 <= k < 5 => a / Divisor(v[k]) * RatioScale)
  }

  /** generate_ratios: all zeros when an estimator column is absent. */
  function GenerateRatios(rows: seq<seq<Cell>>, allPresent: bool): (s: seq<seq<real>>)
    requires FiveWide(rows)
    ensures |s| == |rows| && FiveWide(s)
    ensures !allPresent ==> forall i, k :: 0 <= i < |s| && 0 <= k < 5 ==> s[i][k] == 0.0
  {
    if !allPresent then seq(|rows|, i => [0.0, 0.0, 0.0, 0.0, 0.0])
    else seq(|rows|, i requires 0 <= i < |rows| => RatioRow(Fill(rows[i])))
  }

  /** With five positive estimators every ratio lies in (0, 60], and it is
      exactly 60 at the estimators equal to the minimum. */
  lemma RatiosOfPositiveRow(v: seq<real>)
    requires |v| == 5 && forall k :: 0 <= k < 5 ==> v[k] > 0.0
    ensures forall k :: 0 <= k < 5 ==> 0.0 < RatioRow(v)[k] <= RatioScale
    ensures forall k :: 0 <= k < 5 ==> (RatioRow(v)[k] == RatioScale <==> v[k] == MinOf(v))
  {
    var a := MinOf(v);
    forall k | 0 <= k < 5
      ensures 0.0 < RatioRow(v)[k] <= RatioScale
      ensures RatioRow(v)[k] == RatioScale <==> v[k] == a
    {
      assert Divisor(v[k]) == v[k];
      FractionOfLarger(a, v[k]);
      assert RatioRow(v)[k] == a / v[k] * RatioScale;
    }
  }

  lemma FractionOfLarger(a: real, d: real)
    requires 0.0 < a <= d
    ensures 0.0 < a / d <= 1.0
    ensures a / d == 1.0 <==> a == d
  {
    var q := a / d;
    assert q * d == a;
    if q <= 0.0 { MulLe(q, 0.0, d); }
    if q > 1.0 { MulLt(1.0, q, d); }
    if a == d { SelfQuotient(d); }
  }

  lemma SelfQuotient(d: real)
    requires d != 0.0
    ensures d / d == 1.0
  {
  }

  lemma MulLe(x: real, y: real, b: real)
    requires x <= y && b >= 0.0
    ensures x * b <= y * b
  {
  }

  lemma MulLt(x: real, y: real, b: real)
    requires x < y && b > 0.0
    ensures x * b < y * b
  {
  }

  /** With non-negative estimators one of which is 0, every ratio is 0. */
  lemma RatiosOfRowWithZero(v: seq<real>, z: nat)
    requires |v| == 5 && forall k :: 0 <= k < 5 ==> v[k] >= 0.0
    requires z < 5 && v[z] == 0.0
    ensures forall k :: 0 <= k < 5 ==> RatioRow(v)[k] == 0.0
  {
    assert MinOf(v) == 0.0;
  }

  // ---------------------------------------------------------------------------
  // Outlier correction

  /** The estimator lies outside [0.2 * median, 1.8 * median]. */
  predicate OutOfBand(x: real, median: real) {
    x < median * LowerFactor || x > median * UpperFactor
  }

  /** The minimum of the other four ratios of the row. */
  function MinOthers(s: seq<real>, k: nat): real
    requires |s| == 5 && k < 5
  {
    MinOf(s[..k] + s[k + 1..])
  }

  /** The corrected ratios of one row, every one computed from the row's
      original ratios (simultaneous substitution). */
  function CorrectedRow(p: seq<real>, median: real, s: seq<real>): (c: seq<real>)
    requires |p| == 5 && |s| == 5
    ensures |c| == 5
  {
    seq(5, k requires 0 <= k < 5 => if OutOfBand(p[k], median) then MinOthers(s, k) else s[k])
  }

  /** A row whose estimators are all inside the band is left as it is. */
  lemma CorrectionKeepsInBandRow(p: seq<real>, median: real, s: seq<real>)
    requires |p| == 5 && |s| == 5
    requires forall k :: 0 <= k < 5 ==> !OutOfBand(p[k], median)
    ensures CorrectedRow(p, median, s) == s
  {
  }

  /** Every corrected ratio is one of the row's original ratios, so bounds on
      the original ratios (such as [0, 60]) carry over. */
  lemma CorrectionStaysInRow(p: seq<real>, median: real, s: seq<real>, lo: real, hi: real)
    requires |p| == 5 && |s| == 5
    requires forall k :: 0 <= k < 5 ==> lo <= s[k] <= hi
    ensures forall k :: 0 <= k < 5 ==> CorrectedRow(p, median, s)[k] in s
    ensures forall k :: 0 <= k < 5 ==> lo <= CorrectedRow(p, median, s)[k] <= hi
  {
    forall k | 0 <= k < 5 ensures CorrectedRow(p, median, s)[k] in s {
      var others := s[..k] + s[k + 1..];
      var m := MinOf(others);
      var j :| 0 <= j < |others| && others[j] == m;
      if j < k { assert s[j] == m; } else { assert s[j + 1] == m; }
    }
  }

  /** update_ratios: copies of the original ratio columns, then a row loop that
      overwrites s_k with the minimum of the other four ORIGINAL ratios when
      price_k is out of band. Estimator cells are filled with 0 first. */
  function CorrectRatios(rows: seq<seq<Cell>>, median: seq<real>, s: seq<seq<real>>): (c: seq<seq<real>>)
    requires |median| == |rows| && |s| == |rows|
    requires FiveWide(rows) && FiveWide(s)
    ensures |c| == |rows| && FiveWide(c)
  {
    seq(|rows|, i requires 0 <= i < |rows| => CorrectedRow(Fill(rows[i]), median[i], s[i]))
  }

  /** The rows of a five-column table. */
  function RowsOf(a: array2<real>): (r: seq<seq<real>>)
    requires a.Length1 == 5
    reads a
    ensures |r| == a.Length0 && FiveWide(r)
  {
    seq(a.Length0, i reads a requires 0 <= i < a.Length0 => seq(5, k reads a requires 0 <= k < 5 => a[i, k]))
  }

  lemma RowsOfMatches(a: array2<real>, c: seq<seq<real>>)
    requires a.Length1 == 5 && |c| == a.Length0 && FiveWide(c)
    requires forall i, k :: 0 <= i < |c| && 0 <= k < 5 ==> a[i, k] == c[i][k]
    ensures RowsOf(a) == c
  {
    forall i | 0 <= i < |c| ensures RowsOf(a)[i] == c[i] {
      assert forall k :: 0 <= k < 5 ==> RowsOf(a)[i][k] == c[i][k];
    }
  }

  method UpdateRatios(rows: seq<seq<Cell>>, median: seq<real>, s: seq<seq<real>>) returns (updated: array2<real>)
    requires |median| == |rows| && |s| == |rows|
    requires FiveWide(rows) && FiveWide(s)
    ensures updated.Length0 == |rows| && updated.Length1 == 5
    ensures RowsOf(updated) == CorrectRatios(rows, median, s)
  {
    var n := |rows|;
    ghost var target := CorrectRatios(rows, median, s);
    updated := new real[n, 5];
    forall i, k | 0 <= i < n && 0 <= k < 5 {
      updated[i, k] := s[i][k];
    }
    var i := 0;
    while i < n
      invariant 0 <= i <= n
      invariant forall r, k :: 0 <= r < i && 0 <= k < 5 ==>
        updated[r, k] == target[r][k]
      invariant forall r, k :: i <= r < n && 0 <= k < 5 ==> updated[r, k] == s[r][k]
    {
      var prices := Fill(rows[i]);
      var lower := median[i] * LowerFactor;
      var upper := median[i] * UpperFactor;
      ghost var row := CorrectedRow(prices, median[i], s[i]);
      assert target[i] == row;
      var k := 0;
      while k < 5
        invariant 0 <= k <= 5
        invariant forall r, c :: 0 <= r < i && 0 <= c < 5 ==>
          updated[r, c] == target[r][c]
        invariant forall c :: 0 <= c < k ==> updated[i, c] == row[c]
        invariant forall c :: k <= c < 5 ==> updated[i, c] == s[i][c]
        invariant forall r, c :: i < r < n && 0 <= c < 5 ==> updated[r, c] == s[r][c]
      {
        if prices[k] < lower || prices[k] > upper {
          updated[i, k] := MinOthers(s[i], k);
        }
        k := k + 1;
      }
      i := i + 1;
    }
    RowsOfMatches(updated, target);
  }

  // ---------------------------------------------------------------------------
  // Allocation and ranking

  function SumOf(xs: seq<real>): real {
    if xs == [] then 0.0 else xs[0] + SumOf(xs[1..])
  }

  /** b: the sum of the medians, or Epsilon when that sum is 0. */
  function Denominator(median: seq<real>): (b: real)
    ensures b != 0.0
  {
    if SumOf(median) == 0.0 then Epsilon else SumOf(median)
  }

  /** a_k = s_k * median / b for every row, with b given. */
  function Allocate(median: seq<real>, s: seq<seq<real>>, b: real): (a: seq<seq<real>>)
    requires |s| == |median| && FiveWide(s) && b != 0.0
    ensures |a| == |s| && FiveWide(a)
  {
    seq(|s|, i requires 0 <= i < |s| => seq(5, k requires 0 <= k < 5 => s[i][k] * median[i] / b))
  }

  /** generate_a_values. */
  function GenerateAValues(median: seq<real>, s: seq<seq<real>>): (a: seq<seq<real>>)
    requires |s| == |median| && FiveWide(s)
    ensures |a| == |s| && FiveWide(a)
  {
    Allocate(median, s, Denominator(median))
  }

  /** The total of column k (sum1..sum5 for k = 0..4). */
  function ColumnTotal(a: seq<seq<real>>, k: nat): real
    requires FiveWide(a) && k < 5
  {
    if a == [] then 0.0 else a[0][k] + ColumnTotal(a[1..], k)
  }

  /** sum_i median_i * s_i,k. */
  function WeightedSum(median: seq<real>, s: seq<seq<real>>, k: nat): real
    requires |s| == |median| && FiveWide(s) && k < 5
  {
    if s == [] then 0.0 else s[0][k] * median[0] + WeightedSum(median[1..], s[1..], k)
  }

  lemma DivAdd(x: real, y: real, b: real)
    requires b != 0.0
    ensures x / b + y / b == (x + y) / b
  {
  }

  lemma {:induction false} TotalIsWeightedSum(median: seq<real>, s: seq<seq<real>>, b: real, k: nat)
    requires |s| == |median| && FiveWide(s) && b != 0.0 && k < 5
    ensures ColumnTotal(Allocate(median, s, b), k) == WeightedSum(median, s, k) / b
  {
    if s != [] {
      var a := Allocate(median, s, b);
      assert a[1..] == Allocate(median[1..], s[1..], b);
      TotalIsWeightedSum(median[1..], s[1..], b, k);
      DivAdd(s[0][k] * median[0], WeightedSum(median[1..], s[1..], k), b);
    }
  }

  lemma {:induction false} WeightedSumBounds(median: seq<real>, s: seq<seq<real>>, k: nat, lo: real, hi: real)
    requires |s| == |median| && FiveWide(s) && k < 5
    requires forall i :: 0 <= i < |median| ==> median[i] >= 0.0
    requires forall i :: 0 <= i < |s| ==> lo <= s[i][k] <= hi
    ensures lo * SumOf(median) <= WeightedSum(median, s, k) <= hi * SumOf(median)
  {
    if s != [] {
      WeightedSumBounds(median[1..], s[1..], k, lo, hi);
      BoundStep(lo, hi, s[0][k], median[0], SumOf(median[1..]), WeightedSum(median[1..], s[1..], k));
    }
  }

  lemma BoundStep(lo: real, hi: real, x: real, m0: real, rest: real, w: real)
    requires lo <= x <= hi && m0 >= 0.0
    requires lo * rest <= w <= hi * rest
    ensures lo * (m0 + rest) <= x * m0 + w <= hi * (m0 + rest)
  {
    MulLe(lo, x, m0);
    MulLe(x, hi, m0);
    Distribute(lo, m0, rest);
    Distribute(hi, m0, rest);
    assert lo * m0 == m0 * lo && x * m0 == m0 * x && hi * m0 == m0 * hi;
  }

  lemma Distribute(c: real, x: real, y: real)
    ensures c * (x + y) == c * x + c * y
  {
  }

  /** Dividing bounds on w by a positive b. */
  lemma DivideBounds(lo: real, w: real, hi: real, b: real)
    requires b > 0.0 && lo * b <= w <= hi * b
    ensures lo <= w / b <= hi
  {
    var q := w / b;
    assert q * b == w;
    if q < lo { MulLt(q, lo, b); }
    if q > hi { MulLt(hi, q, b); }
  }

  /** With non-negative medians whose sum is positive, each allocation total
      is a median-weighted mean of that column's ratios: it lies within any
      bounds that hold for every row's ratio. */
  lemma AllocationTotalIsWeightedMean(median: seq<real>, s: seq<seq<real>>, k: nat, lo: real, hi: real)
    requires |s| == |median| && FiveWide(s) && k < 5
    requires forall i :: 0 <= i < |median| ==> median[i] >= 0.0
    requires SumOf(median) > 0.0
    requires forall i :: 0 <= i < |s| ==> lo <= s[i][k] <= hi
    ensures lo <= ColumnTotal(GenerateAValues(median, s), k) <= hi
  {
    var b := SumOf(median);
    TotalIsWeightedSum(median, s, b, k);
    WeightedSumBounds(median, s, k, lo, hi);
    var w := WeightedSum(median, s, k);
    assert lo * b == lo * SumOf(median) && hi * b == hi * SumOf(median);
    DivideBounds(lo, w, hi, b);
  }

  /** The five column totals, labelled 1..5, in stable ascending order of value. */
  function RankTotals(a: seq<seq<real>>): (ranking: seq<Labelled>)
    requires FiveWide(a)
  {
    SortLabelled([Labelled(ColumnTotal(a, 0), 1), Labelled(ColumnTotal(a, 1), 2), Labelled(ColumnTotal(a, 2), 3),
                  Labelled(ColumnTotal(a, 3), 4), Labelled(ColumnTotal(a, 4), 5)])
  }

  /** The ranking lists each (total, column) pair once, ascending by total,
      and among equal totals in column order. */
  lemma RankingIsStablePermutation(a: seq<seq<real>>)
    requires FiveWide(a)
    ensures |RankTotals(a)| == 5
    ensures multiset(RankTotals(a)) == multiset{Labelled(ColumnTotal(a, 0), 1), Labelled(ColumnTotal(a, 1), 2),
      Labelled(ColumnTotal(a, 2), 3), Labelled(ColumnTotal(a, 3), 4), Labelled(ColumnTotal(a, 4), 5)}
    ensures StablySorted(RankTotals(a))
  {
    var input := [Labelled(ColumnTotal(a, 0), 1), Labelled(ColumnTotal(a, 1), 2), Labelled(ColumnTotal(a, 2), 3),
                  Labelled(ColumnTotal(a, 3), 4), Labelled(ColumnTotal(a, 4), 5)];
    assert multiset(input) == multiset{input[0], input[1], input[2], input[3], input[4]};
    SortLabelledStable(input);
  }

  // ---------------------------------------------------------------------------
  // The whole run of main

  datatype Output = Output(
    estimators: seq<seq<Cell>>,
    median: seq<real>,
    ratios: seq<seq<real>>,
    corrected: seq<seq<real>>,
    allocation: seq<seq<real>>,
    ranking: seq<Labelled>)

  /** The estimator rows main builds, with its multipliers (1.0 except 0.5 for price5). */
  function Estimators(t: seq<Row>, s: Schema): (rows: seq<seq<Cell>>)
    requires s.hasPrice
    ensures |rows| == |t| && FiveWide(rows)
  {
    var p2 := Price2Column(t, s, 1.0);
    var p5 := Price5Column(t, s, 0.5);
    Price2IsPrice1Rule(t, s, 1.0);
    EstimatorRows(Price1Column(t, s, 1.0).value, p2.value,
                  Price3Column(t, s, 1.0), Price4Column(t, s), p5.value)
  }

  /** A row with price 100, bidprice9 0, bidprice10 120 and number11 5: price1
      takes bidprice10, price2 falls back to price, price4 takes price because
      one bid is 0, price5 halves price. */
  lemma WorkedExample()
    ensures Estimators([Row(Some(100.0), Some(0.0), Some(120.0), Some(5.0))], Schema(true, true, true, true))
      == [[Some(120.0), Some(100.0), Some(100.0), Some(100.0), Some(50.0)]]
  {
    var t, sc := [Row(Some(100.0), Some(0.0), Some(120.0), Some(5.0))], Schema(true, true, true, true);
    assert Price1Column(t, sc, 1.0).value == [Some(120.0)];
    Price2IsPrice1Rule(t, sc, 1.0);
    assert FallbackPrice(t[0].bid9, true, t[0], sc, 1.0) == Some(100.0);
    assert Price2Column(t, sc, 1.0).value == [Some(100.0)];
    assert Price3Column(t, sc, 1.0) == [Some(100.0)];
    assert Price4Blend(t[0], sc) == 100.0;
    assert Price4Column(t, sc) == [Some(100.0)];
    assert Price5Column(t, sc, 0.5).value[0] == Some(50.0);
    assert Price5Column(t, sc, 0.5).value == [Some(50.0)];
  }

  /** Its median is 100: a row shaped like it (one value above three equal
      middle values, one below) has the middle value as its median. */
  lemma WorkedExampleMedian(low: real, mid: real, high: real)
    requires low < mid < high
    ensures Median5([high, mid, mid, mid, low]) == mid
  {
    var v, w := [high, mid, mid, mid, low], [low, mid, mid, mid, high];
    SwapEnds(high, [mid, mid, mid], low);
    assert v == [high] + [mid, mid, mid] + [low] && w == [low] + [mid, mid, mid] + [high];
    SortedFive(low, mid, mid, mid, high);
    MedianOfSorted(v, w);
  }

  lemma SortedFive(a: real, b: real, c: real, d: real, e: real)
    requires a <= b <= c <= d <= e
    ensures Sorted([a, b, c, d, e])
  {
  }

  lemma SwapEnds(a: real, mid: seq<real>, b: real)
    ensures multiset([a] + mid + [b]) == multiset([b] + mid + [a])
  {
  }

  /** The same row with number11 = 0: price1 and price2 are gated to 0 while
      price3, price4 and price5 are not. */
  lemma GatedRowExample()
    ensures Estimators([Row(Some(100.0), Some(0.0), Some(120.0), Some(0.0))], Schema(true, true, true, true))
      == [[Some(0.0), Some(0.0), Some(100.0), Some(100.0), Some(50.0)]]
  {
    var t, sc := [Row(Some(100.0), Some(0.0), Some(120.0), Some(0.0))], Schema(true, true, true, true);
    assert Price1Column(t, sc, 1.0).value == [Some(0.0)];
    Price2IsPrice1Rule(t, sc, 1.0);
    assert FallbackPrice(t[0].bid9, true, t[0], sc, 1.0) == Some(0.0);
    assert Price2Column(t, sc, 1.0).value == [Some(0.0)];
    assert Price3Column(t, sc, 1.0) == [Some(100.0)];
    assert Price4Blend(t[0], sc) == 100.0;
    assert Price4Column(t, sc) == [Some(100.0)];
    assert Price5Column(t, sc, 0.5).value[0] == Some(50.0);
    assert Price5Column(t, sc, 0.5).value == [Some(50.0)];
  }

  /** Its median is therefore 50: two gated zeros, two equal values
      above and the halved value between them give the halved value. */
  lemma GatedRowExampleMedian(low: real, half: real, high: real)
    requires low < half < high
    ensures Median5([low, low, high, high, half]) == half
  {
    var v, w := [low, low, high, high, half], [low, low, half, high, high];
    SwapBack([low, low], [high, high], half);
    assert v == [low, low] + [high, high] + [half] && w == [low, low] + [half] + [high, high];
    SortedFive(low, low, half, high, high);
    MedianOfSorted(v, w);
  }

  lemma SwapBack(front: seq<real>, middle: seq<real>, x: real)
    ensures multiset(front + middle + [x]) == multiset(front + [x] + middle)
  {
  }

  /** main's pipeline from the table to the augmented columns and the ranking.
      It fails exactly when the price column is absent (price5 then raises). */
  function Simulate(t: seq<Row>, s: Schema): (out: Option<Output>)
    ensures out.Some? <==> s.hasPrice
  {
    if !s.hasPrice then None
    else
      var rows := Estimators(t, s);
      var median := GenerateMedian(rows, true);
      var ratios := GenerateRatios(rows, true);
      var corrected := CorrectRatios(rows, median, ratios);
      var allocation := GenerateAValues(median, corrected);
      Some(Output(rows, median, ratios, corrected, allocation, RankTotals(allocation)))
  }

  /** The pipeline run step by step, with the imperative stages as methods. */
  method RunSimulation(t: seq<Row>, s: Schema) returns (out: Option<Output>)
    ensures out == Simulate(t, s)
  {
    if !s.hasPrice {
      return None;
    }
    var p1 := GeneratePrice1(t, s, 1.0);
    var p2 := Price2Column(t, s, 1.0);
    Price2IsPrice1Rule(t, s, 1.0);
    var p5 := Price5Column(t, s, 0.5);
    var rows := EstimatorRows(p1[..], p2.value, Price3Column(t, s, 1.0), Price4Column(t, s), p5.value);
    assert rows == Estimators(t, s);
    var median := GenerateMedian(rows, true);
    var ratios := GenerateRatios(rows, true);
    var updated := UpdateRatios(rows, median, ratios);
    var corrected := RowsOf(updated);
    var allocation := GenerateAValues(median, corrected);
    out := Some(Output(rows, median, ratios, corrected, allocation, RankTotals(allocation)));
  }
}

/** calprofit.py: the check that a collection has the fields a profit
    computation needs, and the profit, revenue and count accumulated over its
    documents. */
module Profit {
  import opened PyValues
  import opened Records

  /** The fields the computation reads: price, the quantity field and the
      bid-price field named on the command line. */
  function RequiredFields(numberName: string, priceName: string): seq<string> {
    ["price", numberName, priceName]
  }

  /** A usable field value: a number (bool and NaN included, as isinstance
      counts them) or None. */
  predicate NumericOrNone(v: Value) {
    IsNumber(v) || v.Null?
  }

  /** check_columns_exist on the first document of the collection (None when
      it is empty): every required field is present and numeric or None. */
  function CheckColumnsExist(sample: Option<Record>, numberName: string, priceName: string): (ok: bool)
    ensures ok ==> sample.Some? && sample.value != map[]
  {
    match sample
    case None => false
    case Some(doc) =>
      if doc == map[] then false
      else
        var required := RequiredFields(numberName, priceName);
        var missing := seq(|required|, i requires 0 <= i < |required| => required[i] !in doc);
        if true in missing then false
        else forall i :: 0 <= i < |required| ==> required[i] in doc && NumericOrNone(doc[required[i]])
  }

  /** The check passes exactly when the first document has all three fields
      and none of them is of another type; later documents are never looked at. */
  lemma CheckColumnsExistIff(sample: Option<Record>, numberName: string, priceName: string)
    ensures CheckColumnsExist(sample, numberName, priceName) <==>
      sample.Some? &&
      "price" in sample.value && numberName in sample.value && priceName in sample.value &&
      NumericOrNone(sample.value["price"]) && NumericOrNone(sample.value[numberName]) &&
      NumericOrNone(sample.value[priceName])
  {
    if sample.Some? {
      var doc := sample.value;
      var required := RequiredFields(numberName, priceName);
      var missing := seq(|required|, i requires 0 <= i < |required| => required[i] !in doc);
      assert missing[0] == ("price" !in doc) && missing[1] == (numberName !in doc) && missing[2] == (priceName !in doc);
      if "price" in doc && numberName in doc && priceName in doc {
        assert true !in missing;
        assert doc != map[];
      } else {
        assert true in missing;
      }
    }
  }

  /** doc.get(name, 0), with anything that is not an int or float read as 0.
      A NaN field is read as 0 as well (see the README). */
  function Amount(doc: Record, name: string): real {
    if name in doc && IsNumber(doc[name]) && !doc[name].NaN? then NumValue(doc[name]) else 0.0
  }

  function ProfitOf(doc: Record, numberName: string, priceName: string): real {
    (Amount(doc, priceName) - Amount(doc, "price")) * Amount(doc, numberName)
  }

  function RevenueOf(doc: Record, numberName: string, priceName: string): real {
    Amount(doc, priceName) * Amount(doc, numberName)
  }

  function CostOf(doc: Record, numberName: string): real {
    Amount(doc, "price") * Amount(doc, numberName)
  }

  function TotalProfit(docs: seq<Record>, numberName: string, priceName: string): real {
    if docs == [] then 0.0
    else TotalProfit(docs[..|docs| - 1], numberName, priceName) + ProfitOf(docs[|docs| - 1], numberName, priceName)
  }

  function TotalRevenue(docs: seq<Record>, numberName: string, priceName: string): real {
    if docs == [] then 0.0
    else TotalRevenue(docs[..|docs| - 1], numberName, priceName) + RevenueOf(docs[|docs| - 1], numberName, priceName)
  }

  function TotalCost(docs: seq<Record>, numberName: string): real {
    if docs == [] then 0.0
    else TotalCost(docs[..|docs| - 1], numberName) + CostOf(docs[|docs| - 1], numberName)
  }

  /** The accumulator loop of calculate_profit over the documents of the collection. */
  method CalculateProfit(docs: seq<Record>, numberName: string, priceName: string)
    returns (totalProfit: real, totalRevenue: real, count: nat)
    ensures totalProfit == TotalProfit(docs, numberName, priceName)
    ensures totalRevenue == TotalRevenue(docs, numberName, priceName)
    ensures count == |docs|
  {
    totalProfit, totalRevenue, count := 0.0, 0.0, 0;
    while count < |docs|
      invariant count <= |docs|
      invariant totalProfit == TotalProfit(docs[..count], numberName, priceName)
      invariant totalRevenue == TotalRevenue(docs[..count], numberName, priceName)
    {
      assert docs[..count + 1][..count] == docs[..count];
      var doc := docs[count];
      var price := if "price" in doc then doc["price"] else Int(0);
      var numberValue := if numberName in doc then doc[numberName] else Int(0);
      var priceValue := if priceName in doc then doc[priceName] else Int(0);
      if !IsNumber(price) || price.NaN? {
        price := Int(0);
      }
      if !IsNumber(numberValue) || numberValue.NaN? {
        numberValue := Int(0);
      }
      if !IsNumber(priceValue) || priceValue.NaN? {
        priceValue := Int(0);
      }
      var columnProfit := (NumValue(priceValue) - NumValue(price)) * NumValue(numberValue);
      totalProfit := totalProfit + columnProfit;
      totalRevenue := totalRevenue + NumValue(priceValue) * NumValue(numberValue);
      count := count + 1;
    }
    assert docs[..count] == docs;
  }

  /** The total profit is the revenue at the bid price less the cost at the
      stored price. */
  lemma {:induction false} ProfitIsRevenueLessCost(docs: seq<Record>, numberName: string, priceName: string)
    ensures TotalProfit(docs, numberName, priceName) ==
      TotalRevenue(docs, numberName, priceName) - TotalCost(docs, numberName)
  {
    if docs != [] {
      ProfitIsRevenueLessCost(docs[..|docs| - 1], numberName, priceName);
      var d := docs[|docs| - 1];
      var p, n, q := Amount(d, "price"), Amount(d, numberName), Amount(d, priceName);
      assert (q - p) * n == q * n - p * n;
    }
  }

  /** With no document below its stored price (bid at least the price, counts
      not negative) the total profit is not negative. */
  lemma {:induction false} ProfitNonNegative(docs: seq<Record>, numberName: string, priceName: string)
    requires forall i :: 0 <= i < |docs| ==>
      Amount(docs[i], priceName) >= Amount(docs[i], "price") && Amount(docs[i], numberName) >= 0.0
    ensures TotalProfit(docs, numberName, priceName) >= 0.0
  {
    if docs != [] {
      ProfitNonNegative(docs[..|docs| - 1], numberName, priceName);
      var d := docs[|docs| - 1];
      var p, n, q := Amount(d, "price"), Amount(d, numberName), Amount(d, priceName);
      ProductNonNegative(q - p, n);
    }
  }

  /** The profit rate printed at the end: None where the division by a zero
      revenue raises ZeroDivisionError. */
  function ProfitRate(totalProfit: real, totalRevenue: real): (r: Option<real>)
    ensures r.None? <==> totalRevenue == 0.0
    ensures r.Some? ==> r.value * totalRevenue == totalProfit
  {
    if totalRevenue == 0.0 then None else Some(totalProfit / totalRevenue)
  }
}

/** dbtofile.py: the export of a collection to a spreadsheet. Covers the
    projection and column order of the exported table, the price each row
    receives from the constprice collection, and which cells of a row are
    marked red. */
module Export {
  import opened PyValues
  import opened Records

  // ---------------------------------------------------------------------------
  // Numbers as float() gives them

  /** A Python float, infinities and NaN included. */
  datatype XReal = NegInf | Fin(r: real) | PosInf | NotANumber

  /** a < b on Python floats: every comparison with NaN is false. */
  predicate Less(a: XReal, b: XReal) {
    match (a, b)
    case (NotANumber, _) => false
    case (_, NotANumber) => false
    case (NegInf, _) => !b.NegInf?
    case (Fin(x), Fin(y)) => x < y
    case (Fin(_), PosInf) => true
    case (_, _) => false
  }

  /** a >= b on Python floats. */
  predicate AtLeast(a: XReal, b: XReal) {
    !a.NotANumber? && !b.NotANumber? && !Less(a, b)
  }

  /** float(v) for a cell value; None where it raises. */
  function ToFloat(v: Value): Option<XReal> {
    match v
    case Null => None
    case NaN => Some(NotANumber)
    case Bool(b) => Some(Fin(if b then 1.0 else 0.0))
    case Int(i) => Some(Fin(i as real))
    case Float(x, _) => Some(Fin(x))
    case Str(s) =>
      (match ParseFloat(s)
       case Some(x) => Some(Fin(x))
       case None => None)
  }

  /** The value the written sheet holds for a table value: to_excel writes a
      missing value (NaN or None) as its na_rep, the empty text. */
  function SheetValue(v: Value): Value {
    if v.NaN? || v.Null? then Str("") else v
  }

  /** float(cell.value) if cell.value else empty, on the cell to_excel wrote:
      a missing, zero or blank value reads as empty, and no cell reads as NaN. */
  function CellNumber(v: Value, empty: XReal): (r: Option<XReal>)
    ensures !Truthy(v) || v.NaN? ==> r == Some(empty)
    ensures r.Some? && !empty.NotANumber? ==> !r.value.NotANumber?
  {
    var cell := SheetValue(v);
    if !Truthy(cell) then Some(empty) else ToFloat(cell)
  }

  // ---------------------------------------------------------------------------
  // The red price cell

  /** The price cell of a row is marked when it converts and is below every
      bid-price cell that converts; an empty price reads as +inf, an empty
      bid price as -inf. */
  predicate PriceBelowBids(price: Value, bids: seq<Value>) {
    match CellNumber(price, PosInf)
    case None => false
    case Some(p) =>
      forall i :: 0 <= i < |bids| ==> CellNumber(bids[i], NegInf).None? || !AtLeast(p, CellNumber(bids[i], NegInf).value)
  }

  /** The loop over the bid-price columns of one row, with its early exit. */
  method PriceHighlighted(price: Value, bids: seq<Value>) returns (red: bool)
    ensures red <==> PriceBelowBids(price, bids)
  {
    var priceVal := CellNumber(price, PosInf);
    if priceVal.None? {
      return false;
    }
    var p := priceVal.value;
    var isPriceSmallest := true;
    var i := 0;
    while i < |bids|
      invariant 0 <= i <= |bids|
      invariant isPriceSmallest
      invariant forall j :: 0 <= j < i ==>
        CellNumber(bids[j], NegInf).None? || !AtLeast(p, CellNumber(bids[j], NegInf).value)
    {
      var bidVal := CellNumber(bids[i], NegInf);
      if bidVal.Some? && AtLeast(p, bidVal.value) {
        isPriceSmallest := false;
        break;
      }
      i := i + 1;
    }
    red := isPriceSmallest;
  }

  /** For non-zero numeric cells the mark means: strictly below every bid price. */
  lemma PriceBelowBidsOnNumbers(price: Value, bids: seq<Value>)
    requires (price.Int? || price.Float?) && Truthy(price)
    requires forall i :: 0 <= i < |bids| ==> (bids[i].Int? || bids[i].Float?) && Truthy(bids[i])
    ensures PriceBelowBids(price, bids) <==> forall i :: 0 <= i < |bids| ==> NumValue(price) < NumValue(bids[i])
  {
  }

  /** An empty, missing or zero bid price blocks the mark of a convertible price. */
  lemma EmptyBidBlocks(price: Value, bids: seq<Value>, i: nat)
    requires i < |bids| && (!Truthy(bids[i]) || bids[i].NaN?)
    requires CellNumber(price, PosInf).Some?
    ensures !PriceBelowBids(price, bids)
  {
  }

  /** An empty or missing price is marked exactly when no bid-price cell
      converts: any bid cell that does, an empty one included, blocks it. */
  lemma EmptyPriceMarkedOnlyWithoutBids(price: Value, bids: seq<Value>)
    requires !Truthy(price) || price.NaN?
    ensures PriceBelowBids(price, bids) <==> forall i :: 0 <= i < |bids| ==> CellNumber(bids[i], NegInf).None?
  {
  }

  /** A table row with price 50, a missing bidprice9 and bidprice10 60: the
      empty bidprice9 cell reads as -inf and blocks the price, and against the
      +inf it reads as in the comparison bidprice10 is the smaller bid. */
  lemma MissingBidExample(header: seq<Value>, row: seq<Value>)
    requires header == [Str("price"), Str("bidprice9"), Str("bidprice10")]
    requires row == [Int(50), NaN, Int(60)]
    ensures RowMarks(header, row) == Marks(false, false, true)
  {
    ExampleHeaderColumns(header);
    assert BidCells(row, [1, 2]) == [NaN, Int(60)];
    EmptyBidBlocks(row[0], [NaN, Int(60)], 0);
    assert CompareBids(NaN, Int(60)) == (false, true);
  }

  /** The columns the highlight finds in the header of that example. */
  lemma ExampleHeaderColumns(header: seq<Value>)
    requires header == [Str("price"), Str("bidprice9"), Str("bidprice10")]
    ensures BidColumns(header) == [1, 2]
    ensures NamedColumn(header, "price") == Some(0)
    ensures NamedColumn(header, "bidprice9") == Some(1)
    ensures NamedColumn(header, "bidprice10") == Some(2)
  {
    var h1, h2 := header[..1], header[..2];
    assert h2[..1] == h1 && header[..2] == h2 && h1[..0] == [];
    assert !IsBidHeader(header[0]);
    assert IsBidHeader(header[1]) && IsBidHeader(header[2]);
    assert BidColumns(h1) == [];
    assert BidColumns(h2) == [1];
  }

  /** A header cell naming a bid-price column; "price" itself does not start with "bidprice". */
  predicate IsBidHeader(v: Value) {
    v.Str? && StartsWith(v.s, "bidprice")
  }

  /** The columns whose header is a text starting with "bidprice", in order. */
  function BidColumns(header: seq<Value>): (cols: seq<nat>)
    ensures forall j :: 0 <= j < |cols| ==> cols[j] < |header| && IsBidHeader(header[cols[j]])
    ensures forall c :: 0 <= c < |header| && IsBidHeader(header[c]) ==> c in cols
  {
    if header == [] then []
    else
      var prev := BidColumns(header[..|header| - 1]);
      if IsBidHeader(header[|header| - 1]) then prev + [|header| - 1] else prev
  }

  /** The column with the given header: the last such header cell, as the
      header loops overwrite. */
  function NamedColumn(header: seq<Value>, name: string): (c: Option<nat>)
    ensures c.Some? ==> c.value < |header| && header[c.value] == Str(name)
    ensures c.Some? ==> forall j :: c.value < j < |header| ==> header[j] != Str(name)
    ensures c.None? ==> Str(name) !in header
  {
    if header == [] then None
    else if header[|header| - 1] == Str(name) then Some(|header| - 1)
    else NamedColumn(header[..|header| - 1], name)
  }

  /** The comparison of bidprice9 with bidprice10: the strictly smaller one
      is marked, an empty or missing cell reading as +inf; nothing is marked
      when a cell does not convert. */
  function CompareBids(bid9: Value, bid10: Value): (marks: (bool, bool))
    ensures !(marks.0 && marks.1)
    ensures marks.0 <==>
      CellNumber(bid9, PosInf).Some? && CellNumber(bid10, PosInf).Some? &&
      Less(CellNumber(bid9, PosInf).value, CellNumber(bid10, PosInf).value)
    ensures marks.1 <==>
      CellNumber(bid9, PosInf).Some? && CellNumber(bid10, PosInf).Some? &&
      Less(CellNumber(bid10, PosInf).value, CellNumber(bid9, PosInf).value)
  {
    var v9 := CellNumber(bid9, PosInf);
    var v10 := CellNumber(bid10, PosInf);
    if v9.None? || v10.None? then (false, false)
    else if Less(v9.value, v10.value) then (true, false)
    else if Less(v10.value, v9.value) then (false, true)
    else (false, false)
  }

  /** Equal or both empty bid prices mark neither; against an empty or
      missing cell a non-zero number is the smaller. */
  lemma CompareBidsCases(bid9: Value, bid10: Value)
    ensures (!Truthy(bid9) || bid9.NaN?) && (!Truthy(bid10) || bid10.NaN?) ==> CompareBids(bid9, bid10) == (false, false)
    ensures (bid9.Int? || bid9.Float?) && (bid10.Int? || bid10.Float?) && NumValue(bid9) == NumValue(bid10) ==>
      CompareBids(bid9, bid10) == (false, false)
    ensures (bid9.Int? || bid9.Float?) && Truthy(bid9) && (!Truthy(bid10) || bid10.NaN?) ==> CompareBids(bid9, bid10) == (true, false)
    ensures (bid10.Int? || bid10.Float?) && Truthy(bid10) && (!Truthy(bid9) || bid9.NaN?) ==> CompareBids(bid9, bid10) == (false, true)
    ensures (bid9.Int? || bid9.Float?) && (bid10.Int? || bid10.Float?) && Truthy(bid9) && Truthy(bid10) ==>
      (CompareBids(bid9, bid10).0 <==> NumValue(bid9) < NumValue(bid10)) &&
      (CompareBids(bid9, bid10).1 <==> NumValue(bid10) < NumValue(bid9))
  {
  }

  /** The red cells of one row: (price, bidprice9, bidprice10). */
  datatype Marks = Marks(price: bool, bid9: bool, bid10: bool)

  function BidCells(row: seq<Value>, cols: seq<nat>): (cells: seq<Value>)
    requires forall j :: 0 <= j < |cols| ==> cols[j] < |row|
    ensures |cells| == |cols|
  {
    seq(|cols|, j requires 0 <= j < |cols| => row[cols[j]])
  }

  /** The decisions of highlight_min_values_in_excel for one data row. */
  function RowMarks(header: seq<Value>, row: seq<Value>): Marks
    requires |row| == |header|
  {
    var pc := NamedColumn(header, "price");
    var bids := BidColumns(header);
    var priceMark := pc.Some? && |bids| > 0 && PriceBelowBids(row[pc.value], BidCells(row, bids));
    var c9 := NamedColumn(header, "bidprice9");
    var c10 := NamedColumn(header, "bidprice10");
    if c9.Some? && c10.Some? then
      var (m9, m10) := CompareBids(row[c9.value], row[c10.value]);
      Marks(priceMark, m9, m10)
    else Marks(priceMark, false, false)
  }

  /** Without a price column or without any bid-price column no price cell is
      marked; the two bid prices are never both marked. */
  lemma RowMarksShape(header: seq<Value>, row: seq<Value>)
    requires |row| == |header|
    ensures (Str("price") !in header || forall c :: 0 <= c < |header| ==> !IsBidHeader(header[c])) ==>
      !RowMarks(header, row).price
    ensures !(RowMarks(header, row).bid9 && RowMarks(header, row).bid10)
  {
    var bids := BidColumns(header);
    if |bids| > 0 {
      assert IsBidHeader(header[bids[0]]);
    }
  }

  // ---------------------------------------------------------------------------
  // Projection and column order

  /** The requested field names: the --fields text split at commas, each stripped. */
  function RequestedFields(fields: string): (names: seq<string>)
    ensures |names| >= 1
  {
    var pieces := Split(fields, ',');
    seq(|pieces|, i requires 0 <= i < |pieces| => Strip(pieces[i]))
  }

  const DefaultExcluded: set<string> := {"level1", "level2", "level3", "spec", "_id"}

  /** The projection passed to find: 1 includes a field, 0 excludes it. */
  function Projection(fields: Option<string>): (p: map<string, int>)
    ensures forall k :: k in p ==> p[k] == 0 || p[k] == 1
  {
    if fields.Some? && fields.value != "" then
      var names := RequestedFields(fields.value);
      var included := map k | k in names :: 1;
      if "_id" in included then included else included["_id" := 0]
    else map k | k in DefaultExcluded :: 0
  }

  /** MongoDB's reading of such a projection: with any field included, only the
      included fields are returned, and _id as well unless it is excluded;
      otherwise the excluded fields are dropped. */
  function Project(doc: Record, p: map<string, int>): (r: Record)
    ensures r.Keys <= doc.Keys
    ensures forall k :: k in r ==> r[k] == doc[k]
  {
    if exists k :: k in p && p[k] == 1 then
      map k | k in doc && ((k in p && p[k] == 1) || (k == "_id" && k !in p)) :: doc[k]
    else
      map k | k in doc && !(k in p && p[k] == 0) :: doc[k]
  }

  /** _id is exported only when it is requested; by default level1, level2,
      level3, spec and _id are dropped and every other field is kept; a
      requested field is kept when present. */
  lemma ProjectionEffect(doc: Record, fields: Option<string>)
    ensures var r := Project(doc, Projection(fields));
      ("_id" in r ==> fields.Some? && fields.value != "" && "_id" in RequestedFields(fields.value)) &&
      (fields.Some? && fields.value != "" ==>
        forall k :: k in doc ==> (k in r <==> k in RequestedFields(fields.value))) &&
      (!(fields.Some? && fields.value != "") ==>
        forall k :: k in doc ==> (k in r <==> k !in DefaultExcluded))
  {
    var p := Projection(fields);
    if fields.Some? && fields.value != "" {
      var names := RequestedFields(fields.value);
      assert names[0] in p && p[names[0]] == 1;
    } else {
      assert forall k :: k in p ==> p[k] == 0;
    }
  }

  /** [x for x in xs if x in ys] */
  function KeepIn(xs: seq<string>, ys: seq<string>): (r: seq<string>)
    ensures forall x :: x in r <==> x in xs && x in ys
  {
    if xs == [] then []
    else (if xs[0] in ys then [xs[0]] else []) + KeepIn(xs[1..], ys)
  }

  /** [x for x in xs if x not in ys] */
  function KeepOut(xs: seq<string>, ys: seq<string>): (r: seq<string>)
    ensures forall x :: x in r <==> x in xs && x !in ys
  {
    if xs == [] then []
    else (if xs[0] !in ys then [xs[0]] else []) + KeepOut(xs[1..], ys)
  }

  /** The exported column order: the requested columns that exist, in the
      requested order, then the other columns in their own order. */
  function ColumnOrder(requested: seq<string>, columns: seq<string>): seq<string> {
    var existing := KeepIn(requested, columns);
    existing + KeepOut(columns, existing)
  }

  predicate Distinct(s: seq<string>) {
    forall i, j :: 0 <= i < j < |s| ==> s[i] != s[j]
  }

  lemma {:induction false} KeepInDistinct(xs: seq<string>, ys: seq<string>)
    requires Distinct(xs)
    ensures Distinct(KeepIn(xs, ys))
  {
    if xs != [] {
      KeepInDistinct(xs[1..], ys);
      assert xs[0] !in xs[1..];
      PrependDistinct(if xs[0] in ys then [xs[0]] else [], KeepIn(xs[1..], ys));
    }
  }

  lemma {:induction false} KeepOutDistinct(xs: seq<string>, ys: seq<string>)
    requires Distinct(xs)
    ensures Distinct(KeepOut(xs, ys))
  {
    if xs != [] {
      KeepOutDistinct(xs[1..], ys);
      assert xs[0] !in xs[1..];
      PrependDistinct(if xs[0] !in ys then [xs[0]] else [], KeepOut(xs[1..], ys));
    }
  }

  /** Two distinct sequences with no common element concatenate to a distinct one. */
  lemma PrependDistinct(a: seq<string>, b: seq<string>)
    requires Distinct(a) && Distinct(b)
    requires forall x :: x in a ==> x !in b
    ensures Distinct(a + b)
  {
    forall i, j | 0 <= i < j < |a + b| ensures (a + b)[i] != (a + b)[j] {
      if i < |a| && j >= |a| {
        assert (a + b)[i] in a && (a + b)[j] == b[j - |a|];
      }
    }
  }

  /** A distinct sequence holds each of its elements once. */
  lemma {:induction false} DistinctMultiset(s: seq<string>, x: string)
    requires Distinct(s)
    ensures multiset(s)[x] == if x in s then 1 else 0
  {
    if s != [] {
      assert s == [s[0]] + s[1..];
      assert s[0] !in s[1..];
      DistinctMultiset(s[1..], x);
    }
  }

  /** With distinct requested names and distinct columns the reordering is a
      permutation of the columns, starting with the requested existing ones
      in the requested order. */
  lemma ColumnOrderIsPermutation(requested: seq<string>, columns: seq<string>)
    requires Distinct(requested) && Distinct(columns)
    ensures multiset(ColumnOrder(requested, columns)) == multiset(columns)
    ensures ColumnOrder(requested, columns)[..|KeepIn(requested, columns)|] == KeepIn(requested, columns)
  {
    var existing := KeepIn(requested, columns);
    var rest := KeepOut(columns, existing);
    var r := existing + rest;
    KeepInDistinct(requested, columns);
    KeepOutDistinct(columns, existing);
    PrependDistinct(existing, rest);
    forall x ensures multiset(r)[x] == multiset(columns)[x] {
      DistinctMultiset(r, x);
      DistinctMultiset(columns, x);
    }
    assert multiset(r) == multiset(columns);
    assert r[..|existing|] == existing;
  }

  // ---------------------------------------------------------------------------
  // The price column

  /** int(x) for a float: truncation toward zero. */
  function Truncate(x: real): int {
    if x >= 0.0 then x.Floor else -((-x).Floor)
  }

  /** The nameid used to query constprice: int() of the stripped text or of
      the number, and the nameid itself when int() raises. */
  function QueryId(nameid: Value): (q: Value)
    ensures q.Int? || q == nameid
    ensures nameid.Str? && ParseInt(Strip(nameid.s)).Some? ==> q == Int(ParseInt(Strip(nameid.s)).value)
    ensures nameid.Str? && ParseInt(Strip(nameid.s)).None? ==> q == nameid
    ensures nameid.Int? ==> q == nameid
    ensures nameid.Float? ==> q == Int(Truncate(nameid.x))
    ensures nameid.Bool? ==> q == Int(if nameid.b then 1 else 0)
    ensures IsNa(nameid) ==> q == nameid
  {
    match nameid
    case Str(s) =>
      (match ParseInt(Strip(s))
       case Some(i) => Int(i)
       case None => nameid)
    case Int(i) => Int(i)
    case Bool(b) => Int(if b then 1 else 0)
    case Float(x, _) => Int(Truncate(x))
    case _ => nameid
  }

  /** The texts that stand for no price, after strip and upper. */
  const NoPriceWords: set<string> := {"N/A", "NA", "", "NONE", "NULL"}

  /** The price stored for a matched document: a text is stripped and
      upper-cased, 0 when it is one of the no-price words, else parsed as a
      float (0 when that fails); a number is kept; anything else is 0. */
  function NormalizePrice(v: Value): (p: Value)
    ensures IsNumber(p)
    ensures IsNumber(v) ==> p == v
    ensures v.Str? && Upper(Strip(v.s)) in NoPriceWords ==> p == Int(0)
    ensures v.Str? && Upper(Strip(v.s)) !in NoPriceWords && ParseFloat(Upper(Strip(v.s))).Some? ==>
      p.Float? && p.x == ParseFloat(Upper(Strip(v.s))).value
    ensures v.Str? && Upper(Strip(v.s)) !in NoPriceWords && ParseFloat(Upper(Strip(v.s))).None? ==>
      p == Int(0)
    ensures !v.Str? && !IsNumber(v) ==> p == Int(0)
  {
    match v
    case Str(s) =>
      var t := Upper(Strip(s));
      if t in NoPriceWords then Int(0)
      else
        (match ParseFloat(t)
         case Some(x) => Float(x, t)
         case None => Int(0))
    case Null => Int(0)
    case _ => v
  }

  /** Normalising a normalised price changes nothing. */
  lemma NormalizePriceIdempotent(v: Value)
    ensures NormalizePrice(NormalizePrice(v)) == NormalizePrice(v)
  {
  }

  /** How the price of one row is found. */
  datatype Lookup = Failed | Unmatched | Matched(price: Value)

  /** A row without nameid raises inside the loop and is counted nowhere; a
      query id absent from constprice, or a document without price, is unmatched. */
  function LookupPrice(constprice: map<Value, Record>, row: Record): Lookup {
    if "nameid" !in row then Failed
    else
      var q := QueryId(row["nameid"]);
      if q in constprice && "price" in constprice[q] then Matched(NormalizePrice(constprice[q]["price"]))
      else Unmatched
  }

  function PriceOf(l: Lookup): Value {
    if l.Matched? then l.price else Int(0)
  }

  function CountMatched(constprice: map<Value, Record>, rows: seq<Record>): nat {
    if rows == [] then 0
    else CountMatched(constprice, rows[..|rows| - 1]) + (if LookupPrice(constprice, rows[|rows| - 1]).Matched? then 1 else 0)
  }

  function CountUnmatched(constprice: map<Value, Record>, rows: seq<Record>): nat {
    if rows == [] then 0
    else CountUnmatched(constprice, rows[..|rows| - 1]) + (if LookupPrice(constprice, rows[|rows| - 1]).Unmatched? then 1 else 0)
  }

  /** The loop that fills the price column and the two counters. */
  method AttachPrices(constprice: map<Value, Record>, rows: seq<Record>)
    returns (prices: seq<Value>, matched: nat, unmatched: nat)
    ensures |prices| == |rows|
    ensures forall i :: 0 <= i < |rows| ==> prices[i] == PriceOf(LookupPrice(constprice, rows[i]))
    ensures matched == CountMatched(constprice, rows) && unmatched == CountUnmatched(constprice, rows)
  {
    prices := seq(|rows|, i => Int(0));
    matched, unmatched := 0, 0;
    var index := 0;
    while index < |rows|
      invariant 0 <= index <= |rows| && |prices| == |rows|
      invariant forall i :: 0 <= i < index ==> prices[i] == PriceOf(LookupPrice(constprice, rows[i]))
      invariant forall i :: index <= i < |rows| ==> prices[i] == Int(0)
      invariant matched == CountMatched(constprice, rows[..index])
      invariant unmatched == CountUnmatched(constprice, rows[..index])
    {
      assert rows[..index + 1][..index] == rows[..index];
      var row := rows[index];
      if "nameid" in row {
        var queryNameid := QueryId(row["nameid"]);
        if queryNameid in constprice && "price" in constprice[queryNameid] {
          matched := matched + 1;
          prices := prices[index := NormalizePrice(constprice[queryNameid]["price"])];
        } else {
          unmatched := unmatched + 1;
          prices := prices[index := Int(0)];
        }
      } else {
        prices := prices[index := Int(0)];
      }
      index := index + 1;
    }
    assert rows[..index] == rows;
  }

  /** Every exported price is a number, 0 for every row that is not matched,
      and the counters account for every row that has a nameid. */
  lemma {:induction false} AttachedPricesShape(constprice: map<Value, Record>, rows: seq<Record>)
    ensures forall i :: 0 <= i < |rows| ==> IsNumber(PriceOf(LookupPrice(constprice, rows[i])))
    ensures forall i :: 0 <= i < |rows| && !LookupPrice(constprice, rows[i]).Matched? ==>
      PriceOf(LookupPrice(constprice, rows[i])) == Int(0)
    ensures (forall i :: 0 <= i < |rows| ==> "nameid" in rows[i]) ==>
      CountMatched(constprice, rows) + CountUnmatched(constprice, rows) == |rows|
  {
    if rows != [] {
      AttachedPricesShape(constprice, rows[..|rows| - 1]);
    }
  }

  /** A text nameid is read as a number for the query, so leading zeros and
      blanks do not matter. */
  lemma QueryIdExample(nameid: string)
    requires nameid == " 0701"
    ensures QueryId(Str(nameid)) == Int(701)
  {
    var t := nameid[1..];
    assert t == "0701";
    assert StripLeft(nameid) == StripLeft(t) == t;
    assert StripRight(t) == t;
    assert Strip(t) == t;
    assert DigitsFrom(t, 0) == 4;
    assert t[..3] == "070" && t[..3][..2] == "07" && t[..3][..2][..1] == "0";
    assert DigitsValue("0") == 0 && DigitsValue("07") == 7 && DigitsValue("070") == 70;
    assert DigitsValue(t) == 701;
  }

  /** A no-price word in any case, with any whitespace around it, is
      exported as 0. */
  lemma PaddedNoPriceWordIsZero(pre: string, w: string, post: string)
    requires forall k :: 0 <= k < |pre| ==> IsSpace(pre[k])
    requires forall k :: 0 <= k < |post| ==> IsSpace(post[k])
    requires w == "" || (!IsSpace(w[0]) && !IsSpace(w[|w| - 1]))
    requires Upper(w) in NoPriceWords
    ensures NormalizePrice(Str(pre + w + post)) == Int(0)
  {
    StripPadded(pre, w, post);
  }

}

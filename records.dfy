/** Records as the import scripts build them from spreadsheet rows, and the
    cleaning rule they share: anything missing or spelled as "no value" is
    stored as 0 (filetodb.py, forconst.py, importprice.py,
    back/updatefiletodb.py). */
module Records {
  import opened PyValues
  import NameId

  /** A Python dict from field name to value; its key order is not modelled. */
  type Record = map<string, Value>

  lemma ZeroIsNotNullLike()
    ensures !NullLike(Int(0))
  {
    assert Text(Int(0)) == "0";
    assert Lower("0") == "0";
  }

  /** The value clean_data_record stores for v. */
  function CleanValue(v: Value): (c: Value)
    ensures NullLike(v) ==> c == Int(0)
    ensures !NullLike(v) ==> c == v
    ensures !NullLike(c)
  {
    ZeroIsNotNullLike();
    if NullLike(v) then Int(0) else v
  }

  /** clean_data_record as a value: every key is kept, a null-like value
      becomes 0 and every other value is kept. */
  function Clean(r: Record): (c: Record)
    ensures c.Keys == r.Keys
    ensures forall k :: k in r ==> (NullLike(r[k]) ==> c[k] == Int(0)) && (!NullLike(r[k]) ==> c[k] == r[k])
  {
    map k | k in r :: CleanValue(r[k])
  }

  /** After cleaning no value is missing or null-like. */
  lemma CleanLeavesNothingNullLike(r: Record)
    ensures forall k :: k in Clean(r) ==> !NullLike(Clean(r)[k]) && !IsNa(Clean(r)[k])
  {
    forall k | k in Clean(r) ensures !NullLike(Clean(r)[k]) {
      assert Clean(r)[k] == CleanValue(r[k]);
    }
  }

  /** Cleaning a clean record changes nothing. */
  lemma CleanIdempotent(r: Record)
    ensures Clean(Clean(r)) == Clean(r)
  {
    CleanLeavesNothingNullLike(r);
  }

  /** The loop of clean_data_record: one key at a time into a new dict. */
  method CleanDataRecord(record: Record) returns (cleaned: Record)
    ensures cleaned == Clean(record)
  {
    cleaned := map[];
    var rest := record.Keys;
    while rest != {}
      invariant rest <= record.Keys
      invariant cleaned.Keys == record.Keys - rest
      invariant forall k :: k in cleaned ==> cleaned[k] == CleanValue(record[k])
      decreases |rest|
    {
      var key :| key in rest;
      var value := record[key];
      if IsNa(value) || value.Null? || Lower(Text(value)) in NullWords {
        cleaned := cleaned[key := Int(0)];
      } else {
        cleaned := cleaned[key := value];
      }
      rest := rest - {key};
    }
  }

  // ---------------------------------------------------------------------------
  // Spreadsheets

  /** A spreadsheet as pandas reads it: its column names and its rows, each
      row mapping a column name to its cell. */
  datatype Sheet = Sheet(columns: set<string>, rows: seq<Record>)

  predicate WellFormed(sh: Sheet) {
    forall i :: 0 <= i < |sh.rows| ==> sh.rows[i].Keys == sh.columns
  }

  function RewriteNameId(row: Record, extract: Value -> Value): Record {
    if "nameid" in row then row["nameid" := extract(row["nameid"])] else row
  }

  /** df['nameid'].apply(extract) when the sheet has a nameid column. */
  function RewriteNameIds(sh: Sheet, extract: Value -> Value): (r: Sheet)
    ensures r.columns == sh.columns && |r.rows| == |sh.rows|
    ensures forall i :: 0 <= i < |sh.rows| ==> r.rows[i].Keys == sh.rows[i].Keys
    ensures forall i, k :: 0 <= i < |sh.rows| && k in sh.rows[i] && k != "nameid" ==>
      r.rows[i][k] == sh.rows[i][k]
    ensures "nameid" in sh.columns ==> forall i :: 0 <= i < |sh.rows| && "nameid" in sh.rows[i] ==>
      r.rows[i]["nameid"] == extract(sh.rows[i]["nameid"])
    ensures "nameid" !in sh.columns ==> r == sh
  {
    if "nameid" in sh.columns then
      Sheet(sh.columns, seq(|sh.rows|, i requires 0 <= i < |sh.rows| => RewriteNameId(sh.rows[i], extract)))
    else sh
  }

  /** process_excel_data of filetodb.py and forconst.py. */
  function ProcessExcelData(sh: Sheet): Sheet {
    RewriteNameIds(sh, NameId.ExtractNumber)
  }

  /** process_excel_data of back/updatefiletodb.py, with the older extraction. */
  function ProcessExcelDataOld(sh: Sheet): Sheet {
    RewriteNameIds(sh, NameId.ExtractNumberOld)
  }

  /** Processing a processed sheet again changes nothing, because the
      extraction is idempotent. */
  lemma ProcessExcelDataIdempotent(sh: Sheet)
    ensures ProcessExcelData(ProcessExcelData(sh)) == ProcessExcelData(sh)
  {
    var p := ProcessExcelData(sh);
    var q := ProcessExcelData(p);
    if "nameid" in sh.columns {
      forall i | 0 <= i < |sh.rows| ensures q.rows[i] == p.rows[i] {
        if "nameid" in sh.rows[i] {
          NameId.ExtractNumberIdempotent(sh.rows[i]["nameid"]);
          assert q.rows[i] == p.rows[i]["nameid" := NameId.ExtractNumber(p.rows[i]["nameid"])];
        }
      }
    }
  }

  lemma ProcessExcelDataOldIdempotent(sh: Sheet)
    ensures ProcessExcelDataOld(ProcessExcelDataOld(sh)) == ProcessExcelDataOld(sh)
  {
    var p := ProcessExcelDataOld(sh);
    var q := ProcessExcelDataOld(p);
    if "nameid" in sh.columns {
      forall i | 0 <= i < |sh.rows| ensures q.rows[i] == p.rows[i] {
        if "nameid" in sh.rows[i] {
          NameId.ExtractNumberOldIdempotent(sh.rows[i]["nameid"]);
          assert q.rows[i] == p.rows[i]["nameid" := NameId.ExtractNumberOld(p.rows[i]["nameid"])];
        }
      }
    }
  }

  // ---------------------------------------------------------------------------
  // filetodb.py: every column, null-like cells stored as 0

  /** The record loop of filetodb.py: one cleaned record per row. */
  method BuildRecords(sh: Sheet) returns (records: seq<Record>)
    ensures |records| == |sh.rows|
    ensures forall i :: 0 <= i < |sh.rows| ==> records[i] == Clean(sh.rows[i])
  {
    records := [];
    var i := 0;
    while i < |sh.rows|
      invariant 0 <= i <= |sh.rows|
      invariant |records| == i
      invariant forall j :: 0 <= j < i ==> records[j] == Clean(sh.rows[j])
    {
      var record := CleanDataRecord(sh.rows[i]);
      records := records + [record];
      i := i + 1;
    }
  }

  /** The records filetodb.py hands to the upsert. */
  function FileRecords(sh: Sheet): (records: seq<Record>)
    ensures |records| == |sh.rows|
  {
    var p := ProcessExcelData(sh);
    seq(|p.rows|, i requires 0 <= i < |p.rows| => Clean(p.rows[i]))
  }

  /** Each record of filetodb.py keeps all the sheet's columns; nameid is the
      cleaned extraction of the cell, every other field the cleaned cell. */
  lemma FileRecordsFields(sh: Sheet, i: nat)
    requires WellFormed(sh) && i < |sh.rows|
    ensures FileRecords(sh)[i].Keys == sh.columns
    ensures forall k :: k in sh.columns && k != "nameid" ==>
      FileRecords(sh)[i][k] == CleanValue(sh.rows[i][k])
    ensures "nameid" in sh.columns ==>
      FileRecords(sh)[i]["nameid"] == CleanValue(NameId.ExtractNumber(sh.rows[i]["nameid"]))
    ensures forall k :: k in FileRecords(sh)[i] ==> !NullLike(FileRecords(sh)[i][k])
  {
    CleanLeavesNothingNullLike(ProcessExcelData(sh).rows[i]);
  }

  // ---------------------------------------------------------------------------
  // forconst.py and importprice.py: name, nameid, spec and price only

  const KeyFields: set<string> := {"name", "nameid", "spec", "price"}

  /** A sheet these two importers accept has the name, nameid and spec columns. */
  predicate HasKeyColumns(sh: Sheet) {
    "name" in sh.columns && "nameid" in sh.columns && "spec" in sh.columns
  }

  /** The record built from one row: name, nameid and spec cleaned, and price
      cleaned, or 0 when the sheet has no price column. */
  function KeyRecord(row: Record): (r: Record)
    requires "name" in row && "nameid" in row && "spec" in row
    ensures r.Keys == KeyFields
    ensures "price" !in row ==> r["price"] == Int(0)
    ensures forall k :: k in r && k in row ==> r[k] == CleanValue(row[k])
  {
    map[
      "name" := CleanValue(row["name"]),
      "nameid" := CleanValue(row["nameid"]),
      "spec" := CleanValue(row["spec"]),
      "price" := if "price" in row then CleanValue(row["price"]) else Int(0)]
  }

  /** The whole import of one sheet: None when the file is skipped. */
  function KeyRecords(sh: Sheet): (r: Option<seq<Record>>)
    requires WellFormed(sh)
    ensures r.None? <==> !HasKeyColumns(sh)
    ensures r.Some? ==> |r.value| == |sh.rows|
  {
    if !HasKeyColumns(sh) then None
    else Some(seq(|sh.rows|, i requires 0 <= i < |sh.rows| => KeyRecord(sh.rows[i])))
  }

  /** The record loop of forconst.py and importprice.py. */
  method BuildKeyRecords(sh: Sheet) returns (records: Option<seq<Record>>)
    requires WellFormed(sh)
    ensures records == KeyRecords(sh)
  {
    if !HasKeyColumns(sh) {
      return None;
    }
    var built: seq<Record> := [];
    var i := 0;
    while i < |sh.rows|
      invariant 0 <= i <= |sh.rows|
      invariant |built| == i
      invariant forall j :: 0 <= j < i ==> built[j] == KeyRecord(sh.rows[j])
    {
      var row := sh.rows[i];
      assert row.Keys == sh.columns;
      var record: Record := map[];
      record := record["name" := CleanValue(row["name"])];
      record := record["nameid" := CleanValue(row["nameid"])];
      record := record["spec" := CleanValue(row["spec"])];
      if "price" in sh.columns {
        record := record["price" := CleanValue(row["price"])];
      } else {
        record := record["price" := Int(0)];
      }
      assert record == KeyRecord(row);
      built := built + [record];
      i := i + 1;
    }
    assert built == KeyRecords(sh).value;
    records := Some(built);
  }

  /** forconst.py rewrites nameid before building the records. */
  function ForconstRecords(sh: Sheet): Option<seq<Record>>
    requires WellFormed(sh)
  {
    KeyRecords(ProcessExcelData(sh))
  }

  /** importprice.py builds the records from the cells as read. */
  function ImportPriceRecords(sh: Sheet): Option<seq<Record>>
    requires WellFormed(sh)
  {
    KeyRecords(sh)
  }

  /** forconst.py: a file without name, nameid or spec is skipped; otherwise
      every record has exactly the four fields, nothing null-like, price 0
      without a price column, and nameid the cleaned extraction of the cell. */
  lemma ForconstRecordsFields(sh: Sheet)
    requires WellFormed(sh)
    ensures ForconstRecords(sh).None? <==> !HasKeyColumns(sh)
    ensures ForconstRecords(sh).Some? ==> forall i :: 0 <= i < |sh.rows| ==>
      var r := ForconstRecords(sh).value[i];
      r.Keys == KeyFields &&
      (forall k :: k in r ==> !NullLike(r[k])) &&
      r["nameid"] == CleanValue(NameId.ExtractNumber(sh.rows[i]["nameid"])) &&
      r["name"] == CleanValue(sh.rows[i]["name"]) &&
      r["spec"] == CleanValue(sh.rows[i]["spec"]) &&
      r["price"] == (if "price" in sh.columns then CleanValue(sh.rows[i]["price"]) else Int(0))
  {
    if HasKeyColumns(sh) {
      forall i | 0 <= i < |sh.rows| ensures ForconstRecordAt(sh, i) {
        ForconstRecordFields(sh, i);
      }
    }
  }

  /** The fields of the i-th record forconst.py builds. */
  predicate ForconstRecordAt(sh: Sheet, i: nat)
    requires WellFormed(sh) && HasKeyColumns(sh) && i < |sh.rows|
  {
    var r := ForconstRecords(sh).value[i];
    r.Keys == KeyFields &&
    (forall k :: k in r ==> !NullLike(r[k])) &&
    r["nameid"] == CleanValue(NameId.ExtractNumber(sh.rows[i]["nameid"])) &&
    r["name"] == CleanValue(sh.rows[i]["name"]) &&
    r["spec"] == CleanValue(sh.rows[i]["spec"]) &&
    r["price"] == (if "price" in sh.columns then CleanValue(sh.rows[i]["price"]) else Int(0))
  }

  lemma ForconstRecordFields(sh: Sheet, i: nat)
    requires WellFormed(sh) && HasKeyColumns(sh) && i < |sh.rows|
    ensures ForconstRecordAt(sh, i)
  {
    var p := ProcessExcelData(sh);
    var row, processed := sh.rows[i], p.rows[i];
    assert processed.Keys == row.Keys == sh.columns;
    assert processed["nameid"] == NameId.ExtractNumber(row["nameid"]);
    assert processed["name"] == row["name"] && processed["spec"] == row["spec"];
    assert "price" in sh.columns ==> processed["price"] == row["price"];
    var r := KeyRecord(processed);
    KeyRecordNotNullLike(processed);
    assert r["nameid"] == CleanValue(NameId.ExtractNumber(row["nameid"]));
    assert ForconstRecords(sh).value[i] == r;
  }

  lemma KeyRecordNotNullLike(row: Record)
    requires "name" in row && "nameid" in row && "spec" in row
    ensures forall k :: k in KeyRecord(row) ==> !NullLike(KeyRecord(row)[k])
  {
    ZeroIsNotNullLike();
  }

  /** importprice.py: the same shape, with nameid only cleaned, never extracted. */
  lemma ImportPriceRecordsFields(sh: Sheet)
    requires WellFormed(sh)
    ensures ImportPriceRecords(sh).None? <==> !HasKeyColumns(sh)
    ensures ImportPriceRecords(sh).Some? ==> forall i :: 0 <= i < |sh.rows| ==>
      var r := ImportPriceRecords(sh).value[i];
      r.Keys == KeyFields &&
      (forall k :: k in r ==> !NullLike(r[k])) &&
      r["nameid"] == CleanValue(sh.rows[i]["nameid"]) &&
      r["price"] == (if "price" in sh.columns then CleanValue(sh.rows[i]["price"]) else Int(0))
  {
    if HasKeyColumns(sh) {
      forall i | 0 <= i < |sh.rows|
        ensures forall k :: k in ImportPriceRecords(sh).value[i] ==> !NullLike(ImportPriceRecords(sh).value[i][k])
      {
        assert ImportPriceRecords(sh).value[i] == KeyRecord(sh.rows[i]);
      }
    }
  }

  // ---------------------------------------------------------------------------
  // back/updatefiletodb.py: every column, only missing cells stored as 0

  function FillNa(v: Value): (c: Value)
    ensures !IsNa(c)
    ensures IsNa(v) ==> c == Int(0)
    ensures !IsNa(v) ==> c == v
  {
    if IsNa(v) then Int(0) else v
  }

  /** The record loop of back/updatefiletodb.py. */
  method BuildFilledRecords(sh: Sheet) returns (records: seq<Record>)
    ensures |records| == |sh.rows|
    ensures forall i :: 0 <= i < |sh.rows| ==> records[i].Keys == sh.rows[i].Keys
    ensures forall i, k :: 0 <= i < |sh.rows| && k in sh.rows[i] ==> records[i][k] == FillNa(sh.rows[i][k])
  {
    records := [];
    var i := 0;
    while i < |sh.rows|
      invariant 0 <= i <= |sh.rows|
      invariant |records| == i
      invariant forall j :: 0 <= j < i ==> records[j].Keys == sh.rows[j].Keys
      invariant forall j, k :: 0 <= j < i && k in sh.rows[j] ==> records[j][k] == FillNa(sh.rows[j][k])
    {
      var row := sh.rows[i];
      var record: Record := map[];
      var rest := row.Keys;
      while rest != {}
        invariant rest <= row.Keys
        invariant record.Keys == row.Keys - rest
        invariant forall k :: k in record ==> record[k] == FillNa(row[k])
        decreases |rest|
      {
        var col :| col in rest;
        if IsNa(row[col]) {
          record := record[col := Int(0)];
        } else {
          record := record[col := row[col]];
        }
        rest := rest - {col};
      }
      records := records + [record];
      i := i + 1;
    }
  }
}

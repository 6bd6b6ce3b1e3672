/** The decisions of smart_upsert_to_mongodb and ensure_number_fields_zero:
    which documents are inserted, which fields of which documents are set.
    The collection is a map from nameid to document, read before any
    operation of the batch is written (the operations go out in one bulk
    write at the end). */
module Upsert {
  import opened PyValues
  import opened Records

  type Collection = map<Value, Record>

  /** pymongo.InsertOne(doc) and pymongo.UpdateOne({"nameid": key}, {"$set": fields}). */
  datatype Op = Insert(doc: Record) | Update(key: Value, fields: Record)

  /** What one input record leads to. */
  datatype Step = Skip | NoChange | Emit(op: Op)

  predicate IsNumberField(k: string) {
    StartsWith(k, "number")
  }

  /** existing.get(k): None when the field is absent. */
  function Get(r: Record, k: string): Value {
    if k in r then r[k] else Null
  }

  // ---------------------------------------------------------------------------
  // Update sets of filetodb.py / forconst.py and of importprice.py

  /** filetodb.py and forconst.py: every field other than nameid and the
      number fields that the stored document lacks or holds a different value for. */
  function ChangedFields(data: Record, existing: Record): (f: Record)
    ensures f.Keys <= data.Keys
    ensures forall k :: k in f ==> f[k] == data[k]
    ensures forall k :: k in data ==>
      (k in f <==> !IsNumberField(k) && k != "nameid" && (k !in existing || !PyEq(existing[k], data[k])))
  {
    map k | k in data && !IsNumberField(k) && k != "nameid" && (k !in existing || !PyEq(existing[k], data[k])) :: data[k]
  }

  const PriceFields: set<string> := {"price", "name", "spec"}

  /** importprice.py: price, name and spec, each when present in the data and
      different from what existing.get returns. */
  function ChangedPriceFields(data: Record, existing: Record): (f: Record)
    ensures f.Keys <= data.Keys && f.Keys <= PriceFields
    ensures forall k :: k in f ==> f[k] == data[k]
    ensures forall k :: k in data && k in PriceFields ==> (k in f <==> !PyEq(data[k], Get(existing, k)))
  {
    map k | k in data && k in PriceFields && !PyEq(data[k], Get(existing, k)) :: data[k]
  }

  /** The two importers that clean records and keep counters. */
  datatype Variant = AllFields | PriceNameSpec

  /** The fields a variant compares at all. */
  predicate Considered(v: Variant, k: string) {
    match v
    case AllFields => !IsNumberField(k) && k != "nameid"
    case PriceNameSpec => k in PriceFields
  }

  /** The variant's test that a considered field needs setting. */
  predicate Differs(v: Variant, data: Record, existing: Record, k: string)
    requires k in data
  {
    match v
    case AllFields => k !in existing || !PyEq(existing[k], data[k])
    case PriceNameSpec => !PyEq(data[k], Get(existing, k))
  }

  function UpdateSet(v: Variant, data: Record, existing: Record): (f: Record)
    ensures f.Keys <= data.Keys
    ensures forall k :: k in f ==> f[k] == data[k]
    ensures forall k :: k in data ==> (k in f <==> Considered(v, k) && Differs(v, data, existing, k))
  {
    match v
    case AllFields => ChangedFields(data, existing)
    case PriceNameSpec => ChangedPriceFields(data, existing)
  }

  /** The decision for one input record: clean it, skip it when it has no
      nameid, insert it when the nameid is new, otherwise set the changed fields. */
  function Decide(v: Variant, coll: Collection, raw: Record): Step {
    var data := Clean(raw);
    if "nameid" !in data || data["nameid"] == Null then Skip
    else
      var key := data["nameid"];
      if key in coll then
        var fields := UpdateSet(v, data, coll[key]);
        if fields == map[] then NoChange else Emit(Update(key, fields))
      else Emit(Insert(data))
  }

  /** The operation a step appends to the batch, if any. */
  function Emitted(s: Step): seq<Op> {
    if s.Emit? then [s.op] else []
  }

  /** The operations of a batch, in input order. */
  function Ops(v: Variant, coll: Collection, list: seq<Record>): (ops: seq<Op>)
    ensures |ops| <= |list|
  {
    if list == [] then []
    else Ops(v, coll, list[..|list| - 1]) + Emitted(Decide(v, coll, list[|list| - 1]))
  }

  function CountInserts(ops: seq<Op>): nat {
    if ops == [] then 0
    else CountInserts(ops[..|ops| - 1]) + (if ops[|ops| - 1].Insert? then 1 else 0)
  }

  function CountUpdates(ops: seq<Op>): nat {
    if ops == [] then 0
    else CountUpdates(ops[..|ops| - 1]) + (if ops[|ops| - 1].Update? then 1 else 0)
  }

  lemma OpsStep(v: Variant, coll: Collection, list: seq<Record>, i: nat)
    requires i < |list|
    ensures Ops(v, coll, list[..i + 1]) == Ops(v, coll, list[..i]) + Emitted(Decide(v, coll, list[i]))
  {
    assert list[..i + 1][..i] == list[..i];
  }

  lemma CountAppend(ops: seq<Op>, op: Op)
    ensures CountInserts(ops + [op]) == CountInserts(ops) + (if op.Insert? then 1 else 0)
    ensures CountUpdates(ops + [op]) == CountUpdates(ops) + (if op.Update? then 1 else 0)
  {
    assert (ops + [op])[..|ops|] == ops;
  }

  lemma {:induction false} CountsAddUp(ops: seq<Op>)
    ensures CountInserts(ops) + CountUpdates(ops) == |ops|
  {
    if ops != [] {
      CountsAddUp(ops[..|ops| - 1]);
    }
  }

  /** The loop of smart_upsert_to_mongodb up to the bulk write: the operations
      and the two counters. */
  method SmartUpsert(v: Variant, coll: Collection, dataList: seq<Record>)
    returns (ops: seq<Op>, inserted: nat, updated: nat)
    ensures ops == Ops(v, coll, dataList)
    ensures inserted == CountInserts(ops) && updated == CountUpdates(ops)
    ensures inserted + updated == |ops|
  {
    ops, inserted, updated := [], 0, 0;
    var i := 0;
    while i < |dataList|
      invariant 0 <= i <= |dataList|
      invariant ops == Ops(v, coll, dataList[..i])
      invariant inserted == CountInserts(ops) && updated == CountUpdates(ops)
    {
      OpsStep(v, coll, dataList, i);
      ghost var step := Decide(v, coll, dataList[i]);
      var data := CleanDataRecord(dataList[i]);
      if "nameid" in data && data["nameid"] != Null {
        var key := data["nameid"];
        if key in coll {
          var fields := UpdateSet(v, data, coll[key]);
          if fields != map[] {
            assert step == Emit(Update(key, fields));
            CountAppend(ops, Update(key, fields));
            ops := ops + [Update(key, fields)];
            updated := updated + 1;
          } else {
            assert step == NoChange;
          }
        } else {
          assert step == Emit(Insert(data));
          CountAppend(ops, Insert(data));
          ops := ops + [Insert(data)];
          inserted := inserted + 1;
        }
      } else {
        assert step == Skip;
      }
      i := i + 1;
    }
    assert dataList[..i] == dataList;
    CountsAddUp(ops);
  }

  // ---------------------------------------------------------------------------
  // Properties of the two cleaning variants

  /** A record is skipped exactly when it has no nameid key: cleaning has
      already turned a missing or null-like nameid into 0, so the None test
      never fires on a present key. */
  lemma SkipOnlyWithoutNameId(v: Variant, coll: Collection, raw: Record)
    ensures Decide(v, coll, raw) == Skip <==> "nameid" !in raw
    ensures "nameid" in raw && NullLike(raw["nameid"]) ==>
      Decide(v, coll, raw) ==
        (if Int(0) in coll then
           (var f := UpdateSet(v, Clean(raw), coll[Int(0)]); if f == map[] then NoChange else Emit(Update(Int(0), f)))
         else Emit(Insert(Clean(raw))))
  {
  }

  /** A nameid absent from the collection yields one insert of the whole
      cleaned record; a present one never yields an insert. */
  lemma InsertExactlyWhenNew(v: Variant, coll: Collection, raw: Record)
    requires "nameid" in raw
    ensures Clean(raw)["nameid"] !in coll <==> Decide(v, coll, raw) == Emit(Insert(Clean(raw)))
    ensures Clean(raw)["nameid"] in coll ==> !(Decide(v, coll, raw).Emit? && Decide(v, coll, raw).op.Insert?)
  {
  }

  /** An update targets a stored document, sets at least one field, never
      sets nameid or a number field, and sets each field to the cleaned value;
      the importprice.py variant only sets price, name and spec. */
  lemma UpdateShape(v: Variant, coll: Collection, raw: Record)
    requires Decide(v, coll, raw).Emit? && Decide(v, coll, raw).op.Update?
    ensures var u := Decide(v, coll, raw).op;
      u.key in coll && u.key == Clean(raw)["nameid"] && u.fields != map[] &&
      "nameid" !in u.fields && (forall k :: k in u.fields ==> !IsNumberField(k)) &&
      (forall k :: k in u.fields ==> k in raw && u.fields[k] == CleanValue(raw[k])) &&
      (v == PriceNameSpec ==> u.fields.Keys <= PriceFields)
  {
  }

  /** The effect of one operation on the collection (unique nameids assumed). */
  function Apply(coll: Collection, s: Step): Collection {
    match s
    case Emit(Insert(doc)) => if "nameid" in doc then coll[doc["nameid"] := doc] else coll
    case Emit(Update(key, fields)) => if key in coll then coll[key := coll[key] + fields] else coll
    case _ => coll
  }

  lemma CleanHasNoNaN(raw: Record)
    ensures forall k :: k in Clean(raw) ==> !Clean(raw)[k].NaN? && !Clean(raw)[k].Null?
  {
    CleanLeavesNothingNullLike(raw);
  }

  lemma NameIdIsNotNumberField()
    ensures !IsNumberField("nameid")
  {
    assert "nameid"[1] != "number"[1];
  }

  /** Once its operation is written, the same record leads to no operation:
      re-importing an imported file changes nothing. */
  lemma UpsertSettles(v: Variant, coll: Collection, raw: Record)
    requires "nameid" in raw
    ensures Decide(v, Apply(coll, Decide(v, coll, raw)), raw) == NoChange
  {
    var data := Clean(raw);
    CleanHasNoNaN(raw);
    var key := data["nameid"];
    var after := Apply(coll, Decide(v, coll, raw));
    assert key in after;
    var stored := after[key];
    forall k | k in data && Considered(v, k) ensures !Differs(v, data, stored, k) {
      if key in coll {
        var f := UpdateSet(v, data, coll[key]);
        if f != map[] {
          assert stored == coll[key] + f;
        }
      }
    }
    var g := UpdateSet(v, data, stored);
    forall k | k in data ensures k !in g {
    }
    assert g == map[];
  }

  /** On records with exactly name, nameid, spec and price (what forconst.py
      and importprice.py build), the two update rules decide alike. */
  lemma PriceVariantAgrees(coll: Collection, raw: Record)
    requires raw.Keys == KeyFields
    ensures Decide(PriceNameSpec, coll, raw) == Decide(AllFields, coll, raw)
  {
    var data := Clean(raw);
    CleanHasNoNaN(raw);
    var key := data["nameid"];
    if key in coll {
      KeyFieldsUpdateSetsAgree(data, coll[key]);
    }
  }

  /** On a record holding only the key fields, none of them None, the two
      update sets coincide. */
  lemma KeyFieldsUpdateSetsAgree(data: Record, existing: Record)
    requires data.Keys <= KeyFields
    requires forall k :: k in data ==> !data[k].Null?
    ensures UpdateSet(AllFields, data, existing) == UpdateSet(PriceNameSpec, data, existing)
  {
    NameIdIsNotNumberField();
    var a := UpdateSet(AllFields, data, existing);
    var b := UpdateSet(PriceNameSpec, data, existing);
    forall k | k in data ensures (k in a <==> k in b) {
      if k != "nameid" {
        assert k in PriceFields && !IsNumberField(k);
      }
    }
    assert a == b;
  }

  /** The number of records whose cleaned nameid is not in the collection. */
  function CountNew(coll: Collection, list: seq<Record>): nat {
    if list == [] then 0
    else
      var r := list[|list| - 1];
      CountNew(coll, list[..|list| - 1]) + (if "nameid" in r && Clean(r)["nameid"] !in coll then 1 else 0)
  }

  /** Lookups never see records of the same batch: every record with a new
      nameid is inserted, even two records with the same new nameid. */
  lemma {:induction false} InsertsCountNewIds(v: Variant, coll: Collection, list: seq<Record>)
    ensures CountInserts(Ops(v, coll, list)) == CountNew(coll, list)
  {
    if list != [] {
      var prefix := list[..|list| - 1];
      var r := list[|list| - 1];
      InsertsCountNewIds(v, coll, prefix);
      var s := Decide(v, coll, r);
      assert Ops(v, coll, list) == Ops(v, coll, prefix) + Emitted(s);
      if s.Emit? {
        CountAppend(Ops(v, coll, prefix), s.op);
      } else {
        assert Ops(v, coll, list) == Ops(v, coll, prefix);
      }
      if "nameid" in r {
        InsertExactlyWhenNew(v, coll, r);
      }
    }
  }

  /** Two records with the same new nameid in one batch are both inserted. */
  lemma DuplicateNewIdsBothInserted(v: Variant, coll: Collection, a: Record, b: Record)
    requires "nameid" in a && "nameid" in b
    requires Clean(a)["nameid"] == Clean(b)["nameid"] && Clean(a)["nameid"] !in coll
    ensures Ops(v, coll, [a, b]) == [Insert(Clean(a)), Insert(Clean(b))]
  {
    assert [a, b][..1] == [a];
    assert [a][..0] == [];
  }

  // ---------------------------------------------------------------------------
  // back/updatefiletodb.py: additive number fields, no cleaning, no counters

  /** a + b on stored values; None where Python raises TypeError. The str()
      text of a float sum is not modelled and left empty. */
  function PyAdd(a: Value, b: Value): (r: Option<Value>)
    ensures r.None? <==> !(IsNumber(a) && IsNumber(b)) && !(a.Str? && b.Str?)
    ensures (a.Int? || a.Bool?) && (b.Int? || b.Bool?) ==> r == Some(Int(NumValue(a).Floor + NumValue(b).Floor))
    ensures IsNumber(a) && IsNumber(b) && (a.NaN? || b.NaN?) ==> r == Some(NaN)
    ensures IsNumber(a) && IsNumber(b) && !a.NaN? && !b.NaN? && (a.Float? || b.Float?) ==>
      r.Some? && r.value.Float? && r.value.x == NumValue(a) + NumValue(b)
    ensures a.Str? && b.Str? ==> r == Some(Str(a.s + b.s))
  {
    if IsNumber(a) && IsNumber(b) then
      if a.NaN? || b.NaN? then Some(NaN)
      else if a.Float? || b.Float? then Some(Float(NumValue(a) + NumValue(b), ""))
      else Some(Int((NumValue(a) + NumValue(b)).Floor))
    else if a.Str? && b.Str? then Some(Str(a.s + b.s))
    else None
  }

  /** existing.get(k, 0), with a stored None read as 0. */
  function Base(existing: Record, k: string): Value {
    if k in existing && existing[k] != Null then existing[k] else Int(0)
  }

  /** The number fields to add: every number field whose new value is not missing. */
  predicate Added(data: Record, k: string) {
    k in data && IsNumberField(k) && !IsNa(data[k])
  }

  /** Whether every addition of a record succeeds. */
  predicate AdditionsDefined(data: Record, existing: Record) {
    forall k :: k in data && Added(data, k) ==> PyAdd(Base(existing, k), data[k]).Some?
  }

  /** A field other than nameid and the number fields is set when the stored
      document lacks it, or when the new value is not missing and differs. */
  predicate Replaced(data: Record, existing: Record, k: string) {
    k in data && !IsNumberField(k) && k != "nameid" &&
    (k !in existing || (!IsNa(data[k]) && !PyEq(existing[k], data[k])))
  }

  /** The update set of back/updatefiletodb.py, None on a TypeError. */
  function AdditiveFields(data: Record, existing: Record): (f: Option<Record>)
    ensures f.Some? <==> AdditionsDefined(data, existing)
    ensures f.Some? ==> forall k :: k in f.value <==> Added(data, k) || Replaced(data, existing, k)
  {
    if AdditionsDefined(data, existing) then
      Some(map k | k in data && (Added(data, k) || Replaced(data, existing, k)) ::
        if Added(data, k) then PyAdd(Base(existing, k), data[k]).value else data[k])
    else None
  }

  function FillNaRecord(data: Record): (r: Record)
    ensures r.Keys == data.Keys
  {
    map k | k in data :: FillNa(data[k])
  }

  /** The decision for one record, None on a TypeError. */
  function DecideAdditive(coll: Collection, data: Record): Option<Step>
    requires "nameid" in data
  {
    var key := data["nameid"];
    if key in coll then
      match AdditiveFields(data, coll[key])
      case None => None
      case Some(f) => Some(if f == map[] then NoChange else Emit(Update(key, f)))
    else Some(Emit(Insert(FillNaRecord(data))))
  }

  predicate AllKeyed(list: seq<Record>) {
    forall i :: 0 <= i < |list| ==> "nameid" in list[i]
  }

  /** The operations of a batch; None when an addition raises, which aborts
      the batch before anything is written. */
  function AdditiveOps(coll: Collection, list: seq<Record>): (r: Option<seq<Op>>)
    requires AllKeyed(list)
    ensures r.Some? ==> |r.value| <= |list|
  {
    if list == [] then Some([])
    else
      match AdditiveOps(coll, list[..|list| - 1])
      case None => None
      case Some(prev) =>
        match DecideAdditive(coll, list[|list| - 1])
        case None => None
        case Some(Emit(op)) => Some(prev + [op])
        case Some(_) => Some(prev)
  }

  /** The loop of smart_upsert_to_mongodb in back/updatefiletodb.py; a record
      without a nameid key raises KeyError, which the precondition excludes. */
  method SmartUpsertAdditive(coll: Collection, dataList: seq<Record>) returns (ops: Option<seq<Op>>)
    requires AllKeyed(dataList)
    ensures ops == AdditiveOps(coll, dataList)
  {
    var done: seq<Op> := [];
    var i := 0;
    while i < |dataList|
      invariant 0 <= i <= |dataList|
      invariant AdditiveOps(coll, dataList[..i]) == Some(done)
    {
      assert dataList[..i + 1][..i] == dataList[..i];
      var data := dataList[i];
      var key := data["nameid"];
      if key in coll {
        var existing := coll[key];
        if !AdditionsDefined(data, existing) {
          assert AdditiveOps(coll, dataList[..i + 1]) == None;
          assert forall j :: i < j <= |dataList| ==> AdditiveOps(coll, dataList[..j]) == None by {
            AbortStays(coll, dataList, i + 1);
          }
          assert dataList[..|dataList|] == dataList;
          return None;
        }
        var fields := AdditiveFields(data, existing).value;
        if fields != map[] {
          done := done + [Update(key, fields)];
        }
      } else {
        var filled: Record := FillNaRecord(data);
        done := done + [Insert(filled)];
      }
      i := i + 1;
    }
    assert dataList[..i] == dataList;
    ops := Some(done);
  }

  /** Once a prefix of the batch raises, every longer prefix does. */
  lemma AbortStays(coll: Collection, list: seq<Record>, n: nat)
    requires AllKeyed(list) && n <= |list|
    requires AdditiveOps(coll, list[..n]) == None
    ensures forall j :: n <= j <= |list| ==> AdditiveOps(coll, list[..j]) == None
  {
    forall j | n <= j <= |list| ensures AdditiveOps(coll, list[..j]) == None {
      AbortStaysFrom(coll, list, n, j);
    }
  }

  lemma {:induction false} AbortStaysFrom(coll: Collection, list: seq<Record>, n: nat, j: nat)
    requires AllKeyed(list) && n <= j <= |list|
    requires AdditiveOps(coll, list[..n]) == None
    ensures AdditiveOps(coll, list[..j]) == None
    decreases j - n
  {
    if j > n {
      AbortStaysFrom(coll, list, n, j - 1);
      assert list[..j][..j - 1] == list[..j - 1];
    }
  }

  /** For a stored nameid each non-missing number field is set to the stored
      value (absent or None read as 0) plus the new one, nameid is never set,
      and an update is emitted whenever there is such a number field, even
      when it adds 0. */
  lemma AdditiveUpdateShape(coll: Collection, data: Record, k: string)
    requires "nameid" in data && data["nameid"] in coll
    requires AdditionsDefined(data, coll[data["nameid"]])
    requires Added(data, k)
    ensures var existing := coll[data["nameid"]];
      var f := AdditiveFields(data, existing).value;
      DecideAdditive(coll, data) == Some(Emit(Update(data["nameid"], f))) &&
      "nameid" !in f && k in f && f[k] == PyAdd(Base(existing, k), data[k]).value
  {
    NameIdIsNotNumberField();
  }

  /** An inserted record has every missing value stored as 0 and keeps all fields. */
  lemma AdditiveInsertFilled(coll: Collection, data: Record)
    requires "nameid" in data && data["nameid"] !in coll
    ensures DecideAdditive(coll, data) == Some(Emit(Insert(FillNaRecord(data))))
    ensures forall k :: k in FillNaRecord(data) ==> !IsNa(FillNaRecord(data)[k])
    ensures forall k :: k in data && !IsNa(data[k]) ==> FillNaRecord(data)[k] == data[k]
  {
  }

  /** Adding 0 to a stored count still emits an update. */
  lemma AddingZeroStillUpdates(coll: Collection, data: Record)
    requires data == map["nameid" := Str("0701012400"), "number9" := Int(0)]
    requires coll == map[Str("0701012400") := map["nameid" := Str("0701012400"), "number9" := Int(5)]]
    ensures DecideAdditive(coll, data) == Some(Emit(Update(Str("0701012400"), map["number9" := Int(5)])))
  {
    var existing := coll[Str("0701012400")];
    assert "number9"[..6] == "number";
    NameIdIsNotNumberField();
    assert Added(data, "number9") && !Added(data, "nameid") && !Replaced(data, existing, "nameid");
    assert PyAdd(Base(existing, "number9"), data["number9"]) == Some(Int(5));
    assert AdditionsDefined(data, existing);
    var f := AdditiveFields(data, existing).value;
    assert f.Keys == {"number9"};
    assert f == map["number9" := Int(5)];
  }

  /** A stored text count and a new integer count cannot be added: the batch fails. */
  lemma TextCountAborts(coll: Collection, data: Record)
    requires data == map["nameid" := Str("0701012400"), "number9" := Int(1)]
    requires coll == map[Str("0701012400") := map["nameid" := Str("0701012400"), "number9" := Str("5")]]
    ensures DecideAdditive(coll, data) == None
    ensures AdditiveOps(coll, [data]) == None
  {
    assert "number9"[..6] == "number";
    assert Added(data, "number9");
    assert [data][..0] == [];
  }

  // ---------------------------------------------------------------------------
  // ensure_number_fields_zero

  /** The $set of one document: every number field holding None, set to 0. */
  function NullNumberFields(doc: Record): (f: Record)
    ensures forall k :: k in f <==> k in doc && IsNumberField(k) && doc[k] == Null
    ensures forall k :: k in f ==> f[k] == Int(0)
  {
    map k | k in doc && IsNumberField(k) && doc[k] == Null :: Int(0)
  }

  /** The update_one calls, by document: only documents with such a field. */
  function ZeroUpdates(coll: Collection): (u: map<Value, Record>)
    ensures u.Keys <= coll.Keys
    ensures forall key :: key in u ==> u[key] != map[]
  {
    map key | key in coll && NullNumberFields(coll[key]) != map[] :: NullNumberFields(coll[key])
  }

  /** The inner loop of ensure_number_fields_zero over the fields of one document. */
  method NumberFieldsToZero(doc: Record) returns (updateFields: Record, updateNeeded: bool)
    ensures updateFields == NullNumberFields(doc)
    ensures updateNeeded <==> updateFields != map[]
  {
    updateFields := map[];
    updateNeeded := false;
    var names := doc.Keys;
    while names != {}
      invariant names <= doc.Keys
      invariant forall k :: k in updateFields <==> k in doc && k !in names && IsNumberField(k) && doc[k] == Null
      invariant forall k :: k in updateFields ==> updateFields[k] == Int(0)
      invariant updateNeeded <==> updateFields != map[]
      decreases |names|
    {
      var name :| name in names;
      if IsNumberField(name) && doc[name] == Null {
        updateFields := updateFields[name := Int(0)];
        assert name in updateFields;
        updateNeeded := true;
      }
      names := names - {name};
    }
    assert updateFields == NullNumberFields(doc);
  }

  /** The loop of ensure_number_fields_zero over the documents. */
  method EnsureNumberFieldsZero(coll: Collection) returns (updates: map<Value, Record>)
    ensures updates == ZeroUpdates(coll)
  {
    updates := map[];
    var docs := coll.Keys;
    while docs != {}
      invariant docs <= coll.Keys
      invariant forall key :: key in updates <==> key in coll && key !in docs && NullNumberFields(coll[key]) != map[]
      invariant forall key :: key in updates ==> updates[key] == NullNumberFields(coll[key])
      decreases |docs|
    {
      var key :| key in docs;
      var updateFields, updateNeeded := NumberFieldsToZero(coll[key]);
      if updateNeeded {
        updates := updates[key := updateFields];
      }
      docs := docs - {key};
    }
    assert updates == ZeroUpdates(coll);
  }

  /** The collection after the $set updates. */
  function ApplySets(coll: Collection, updates: map<Value, Record>): Collection {
    map key | key in coll :: if key in updates then coll[key] + updates[key] else coll[key]
  }

  /** After ensure_number_fields_zero no number field holds None, every other
      value is as before, no field is added, and exactly the documents that
      had such a field were updated. */
  lemma EnsureZeroEffect(coll: Collection)
    ensures var after := ApplySets(coll, ZeroUpdates(coll));
      after.Keys == coll.Keys &&
      (forall key :: key in coll ==> after[key].Keys == coll[key].Keys) &&
      (forall key, k :: key in coll && k in coll[key] ==>
        after[key][k] == (if IsNumberField(k) && coll[key][k] == Null then Int(0) else coll[key][k])) &&
      (forall key :: key in coll ==>
        (key in ZeroUpdates(coll) <==> exists k :: k in coll[key] && IsNumberField(k) && coll[key][k] == Null))
  {
    var u := ZeroUpdates(coll);
    forall key | key in coll
      ensures key in u <==> exists k :: k in coll[key] && IsNumberField(k) && coll[key][k] == Null
    {
      var f := NullNumberFields(coll[key]);
      if exists k :: k in coll[key] && IsNumberField(k) && coll[key][k] == Null {
        var k :| k in coll[key] && IsNumberField(k) && coll[key][k] == Null;
        assert k in f;
      }
    }
  }
}

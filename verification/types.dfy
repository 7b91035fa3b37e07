/**
 The three record kinds of the tracker, as typed values, and their encoding
 as plain objects (the `Record` maps the record manager works on).

 `Encode` gives the object the host stores; `Decode` reads an object back as
 the typed record, failing when a field is missing or has the wrong kind of
 value. Extra keys are ignored by `Decode`, as they are by the typed view of
 a JavaScript object.
 */
module Types {
  import opened Records

  /** `'Pending' | 'Approved'` */
  datatype Status = Pending | Approved

  datatype DitoApplication = DitoApplication(
    id: string,
    fullName: string,
    address: string,
    applicationNo: string,
    mobileNo: string,
    processedBy: string,
    status: Status,
    dateAdded: string)

  datatype EAccessSystem = EAccessSystem(
    id: string,
    fullName: string,
    agencyName: string,
    mobile: string,
    processedBy: string,
    dateAdded: string)

  datatype Expense = Expense(
    id: string,
    date: string,
    description: string,
    amount: int)

  // ---------------------------------------------------------------------------
  // Field readers
  // ---------------------------------------------------------------------------

  function StatusText(st: Status): string
  {
    match st
    case Pending => "Pending"
    case Approved => "Approved"
  }

  /** The status a text denotes, if it is one of the two status names. */
  function ParseStatus(t: string): (r: Option<Status>)
    ensures r.Some? <==> t == "Pending" || t == "Approved"
    ensures r.Some? ==> StatusText(r.value) == t
  {
    if t == "Pending" then Some(Pending)
    else if t == "Approved" then Some(Approved)
    else None
  }

  /** The text of a string-valued field, if present. */
  function TextField(r: Record, k: string): (t: Option<string>)
    ensures t.Some? <==> k in r && r[k].Str?
    ensures t.Some? ==> r[k] == Str(t.value)
  {
    if k in r && r[k].Str? then Some(r[k].s) else None
  }

  /** The number of a number-valued field, if present. */
  function NumberField(r: Record, k: string): (n: Option<int>)
    ensures n.Some? <==> k in r && r[k].Num?
    ensures n.Some? ==> r[k] == Num(n.value)
  {
    if k in r && r[k].Num? then Some(r[k].n) else None
  }

  // ---------------------------------------------------------------------------
  // DitoApplication
  // ---------------------------------------------------------------------------

  const DitoKeys: set<string> :=
    {"id", "fullName", "address", "applicationNo", "mobileNo", "processedBy", "status", "dateAdded"}

  function EncodeDito(a: DitoApplication): (r: Record)
    ensures r.Keys == DitoKeys
    ensures forall k :: k in r ==> r[k].Str?
  {
    map["id" := Str(a.id), "fullName" := Str(a.fullName), "address" := Str(a.address),
        "applicationNo" := Str(a.applicationNo), "mobileNo" := Str(a.mobileNo),
        "processedBy" := Str(a.processedBy), "status" := Str(StatusText(a.status)),
        "dateAdded" := Str(a.dateAdded)]
  }

  function DecodeDito(r: Record): Option<DitoApplication>
  {
    var id :- TextField(r, "id");
    var fullName :- TextField(r, "fullName");
    var address :- TextField(r, "address");
    var applicationNo :- TextField(r, "applicationNo");
    var mobileNo :- TextField(r, "mobileNo");
    var processedBy :- TextField(r, "processedBy");
    var statusText :- TextField(r, "status");
    var status :- ParseStatus(statusText);
    var dateAdded :- TextField(r, "dateAdded");
    Some(DitoApplication(id, fullName, address, applicationNo, mobileNo, processedBy, status, dateAdded))
  }

  lemma DitoRoundTrip(a: DitoApplication)
    ensures DecodeDito(EncodeDito(a)) == Some(a)
  {
    assert ParseStatus(StatusText(a.status)) == Some(a.status);
  }

  /** A decoded object agrees with the encoding of its decoding on every application field. */
  lemma DitoDecodeAgrees(r: Record)
    requires DecodeDito(r).Some?
    ensures DitoKeys <= r.Keys
    ensures forall k :: k in DitoKeys ==> r[k] == EncodeDito(DecodeDito(r).value)[k]
  {
  }

  // ---------------------------------------------------------------------------
  // EAccessSystem
  // ---------------------------------------------------------------------------

  const EAccessKeys: set<string> :=
    {"id", "fullName", "agencyName", "mobile", "processedBy", "dateAdded"}

  function EncodeEAccess(a: EAccessSystem): (r: Record)
    ensures r.Keys == EAccessKeys
    ensures forall k :: k in r ==> r[k].Str?
  {
    map["id" := Str(a.id), "fullName" := Str(a.fullName), "agencyName" := Str(a.agencyName),
        "mobile" := Str(a.mobile), "processedBy" := Str(a.processedBy), "dateAdded" := Str(a.dateAdded)]
  }

  function DecodeEAccess(r: Record): Option<EAccessSystem>
  {
    var id :- TextField(r, "id");
    var fullName :- TextField(r, "fullName");
    var agencyName :- TextField(r, "agencyName");
    var mobile :- TextField(r, "mobile");
    var processedBy :- TextField(r, "processedBy");
    var dateAdded :- TextField(r, "dateAdded");
    Some(EAccessSystem(id, fullName, agencyName, mobile, processedBy, dateAdded))
  }

  lemma EAccessRoundTrip(a: EAccessSystem)
    ensures DecodeEAccess(EncodeEAccess(a)) == Some(a)
  {
  }

  lemma EAccessDecodeAgrees(r: Record)
    requires DecodeEAccess(r).Some?
    ensures EAccessKeys <= r.Keys
    ensures forall k :: k in EAccessKeys ==> r[k] == EncodeEAccess(DecodeEAccess(r).value)[k]
  {
  }

  // ---------------------------------------------------------------------------
  // Expense
  // ---------------------------------------------------------------------------

  const ExpenseKeys: set<string> := {"id", "date", "description", "amount"}

  function EncodeExpense(e: Expense): (r: Record)
    ensures r.Keys == ExpenseKeys
    ensures r[AmountKey] == Num(e.amount)
  {
    map["id" := Str(e.id), "date" := Str(e.date), "description" := Str(e.description),
        "amount" := Num(e.amount)]
  }

  function DecodeExpense(r: Record): Option<Expense>
  {
    var id :- TextField(r, "id");
    var date :- TextField(r, "date");
    var description :- TextField(r, "description");
    var amount :- NumberField(r, "amount");
    Some(Expense(id, date, description, amount))
  }

  lemma ExpenseRoundTrip(e: Expense)
    ensures DecodeExpense(EncodeExpense(e)) == Some(e)
  {
  }

  lemma ExpenseDecodeAgrees(r: Record)
    requires DecodeExpense(r).Some?
    ensures ExpenseKeys <= r.Keys
    ensures forall k :: k in ExpenseKeys ==> r[k] == EncodeExpense(DecodeExpense(r).value)[k]
  {
  }
}

/**
 * PatientController: the OR-ed substring search behind `get_patients`, and
 * `store`, which validates, then creates one patient inside a transaction.
 */
module PatientController {
  import opened Common
  import PatientGenderEnum
  import opened PatientModel

  // ---------------------------------------------------------------------------
  // get_patients

  /** `column LIKE '%term%'`; a NULL column never matches. */
  predicate Like(column: Value, term: string) {
    !column.Null? && IsSubstring(term, TextOf(column))
  }

  /** `whereAny(['hospital_id', 'name', 'phone'], 'like', ...)`. */
  predicate MatchesSearch(p: Patient, term: string) {
    Like(p.hospitalId, term) || Like(p.name, term) || Like(p.phone, term)
  }

  datatype SearchResponse = SearchResponse(code: int, message: string, patients: seq<Patient>, status: bool)

  /**
   * The search term is the request's `search` interpolated into `%...%`, so
   * an absent term matches every patient with a non-NULL searched column,
   * and an array term, even an empty one, throws. The flag and the message
   * tell whether anything matched; the code is 200 either way.
   */
  function GetPatients(patients: seq<Patient>, search: Value): (r: Answer<SearchResponse>)
    ensures !r.BindingMissing?
    ensures r.Thrown? <==> search.List?
    ensures r.Rendered? ==> r.props.code == 200
    ensures r.Rendered? ==> forall p :: p in r.props.patients <==> p in patients && MatchesSearch(p, TextOf(search))
    ensures r.Rendered? ==> (r.props.status <==> r.props.patients != [])
    ensures r.Rendered? ==> r.props.message == (if r.props.status then "Patient Found" else "No Patient Found")
  {
    if search.List? then Thrown
    else
      var term := TextOf(search);
      var found := Where(patients, (p: Patient) => MatchesSearch(p, term));
      if found == [] then Rendered(SearchResponse(200, "No Patient Found", [], false))
      else Rendered(SearchResponse(200, "Patient Found", found, true))
  }

  /** A search that does not throw finds nothing exactly when no stored patient matches it. */
  lemma {:induction false} EmptySearch(patients: seq<Patient>, search: Value)
    requires !search.List?
    ensures GetPatients(patients, search).Rendered?
    ensures !GetPatients(patients, search).props.status <==>
      forall p :: p in patients ==> !MatchesSearch(p, TextOf(search))
  {
    var r := GetPatients(patients, search).props;
    if r.patients != [] {
      assert r.patients[0] in r.patients;
    }
  }

  // ---------------------------------------------------------------------------
  // store

  /**
   * Laravel's `numeric` rule on the values a form sends: a number, or a
   * string made of an optional sign and a decimal number with an optional
   * fraction (`12`, `-3.5`, `.5`, `7.`).
   */
  predicate IsNumeric(v: Value) {
    match v
    case Int(_) => true
    case Str(s) => IsNumericLiteral(s)
    case _ => false
  }

  predicate IsNumericLiteral(s: string) {
    var u := if |s| > 0 && (s[0] == '-' || s[0] == '+') then s[1..] else s;
    exists k :: 0 <= k <= |u| && IsDecimal(u, k)
  }

  /** `u` is digits up to `k`, then nothing or a '.' followed by digits, with a digit somewhere. */
  predicate IsDecimal(u: string, k: int)
    requires 0 <= k <= |u|
  {
    AllDigits(u[..k]) &&
    (if k == |u| then k > 0
     else u[k] == '.' && AllDigits(u[k + 1..]) && (k > 0 || k + 1 < |u|))
  }

  /** The `unique:patients,column` rule: no stored value of that column equals the given one. */
  predicate Unused(stored: seq<Value>, v: Value) {
    forall i :: 0 <= i < |stored| ==> stored[i].Null? || TextOf(stored[i]) != TextOf(v)
  }

  function HospitalIds(patients: seq<Patient>): (r: seq<Value>)
    ensures |r| == |patients|
    ensures forall i :: 0 <= i < |patients| ==> r[i] == patients[i].hospitalId
  {
    if patients == [] then [] else [patients[0].hospitalId] + HospitalIds(patients[1..])
  }

  function Phones(patients: seq<Patient>): (r: seq<Value>)
    ensures |r| == |patients|
    ensures forall i :: 0 <= i < |patients| ==> r[i] == patients[i].phone
  {
    if patients == [] then [] else [patients[0].phone] + Phones(patients[1..])
  }

  /** The fields `store` rejects, given the stored patients. */
  function StoreErrors(patients: seq<Patient>, req: map<string, Value>): (errors: set<string>)
    ensures errors <= {"hospital_id", "name", "phone", "district"}
    ensures "hospital_id" !in errors <==>
      Required(Attr(req, "hospital_id")) && Unused(HospitalIds(patients), Attr(req, "hospital_id"))
    ensures "name" !in errors <==> Required(Attr(req, "name")) && IsString(Attr(req, "name"))
    ensures "phone" !in errors <==>
      Required(Attr(req, "phone")) && IsNumeric(Attr(req, "phone")) && Unused(Phones(patients), Attr(req, "phone"))
    ensures "district" !in errors <==> Required(Attr(req, "district")) && IsString(Attr(req, "district"))
  {
    var hospitalId := Attr(req, "hospital_id");
    var name := Attr(req, "name");
    var phone := Attr(req, "phone");
    var district := Attr(req, "district");
    FieldErrors(
      "hospital_id", Required(hospitalId) && Unused(HospitalIds(patients), hospitalId),
      "name", Required(name) && IsString(name),
      "phone", Required(phone) && IsNumeric(phone) && Unused(Phones(patients), phone),
      "district", Required(district) && IsString(district))
  }

  datatype StoreResponse =
    | Unprocessable(fields: set<string>)
    | Created(patient: Patient)
    | NotCreated

  /** The HTTP status of each outcome. */
  function Code(r: StoreResponse): int {
    match r
    case Unprocessable(_) => 422
    case Created(_) => 201
    case NotCreated => 409
  }

  /** No two patients share a hospital id, nor a phone number. */
  predicate UniqueKeys(patients: seq<Patient>) {
    forall i, j :: 0 <= i < j < |patients| ==>
      (patients[i].hospitalId.Null? || TextOf(patients[i].hospitalId) != TextOf(patients[j].hospitalId)) &&
      (patients[i].phone.Null? || TextOf(patients[i].phone) != TextOf(patients[j].phone))
  }

  /** Appending a patient whose keys are both present and unused keeps the keys unique. */
  lemma {:induction false} UniqueKeysAppend(patients: seq<Patient>, p: Patient)
    requires UniqueKeys(patients)
    requires !p.hospitalId.Null? && Unused(HospitalIds(patients), p.hospitalId)
    requires !p.phone.Null? && Unused(Phones(patients), p.phone)
    ensures UniqueKeys(patients + [p])
  {
    var all := patients + [p];
    forall i, j | 0 <= i < j < |all|
      ensures (all[i].hospitalId.Null? || TextOf(all[i].hospitalId) != TextOf(all[j].hospitalId)) &&
        (all[i].phone.Null? || TextOf(all[i].phone) != TextOf(all[j].phone))
    {
      if j == |patients| {
        assert HospitalIds(patients)[i] == all[i].hospitalId;
        assert Phones(patients)[i] == all[i].phone;
      }
    }
  }

  /**
   * What `store` answers: 422 with the failing fields before any write; 409
   * when the transaction throws (`fails`, or the gender cast rejecting the
   * value); otherwise 201 with the patient built from the request's values.
   */
  function StoreResult(patients: seq<Patient>, nextId: nat, req: map<string, Value>, fails: bool): (r: StoreResponse)
    ensures r.Unprocessable? <==> StoreErrors(patients, req) != {}
    ensures r.Unprocessable? ==> r.fields == StoreErrors(patients, req)
    ensures r == NotCreated <==> (StoreErrors(patients, req) == {} && (fails || Create(nextId, Fill(req)).None?))
    ensures r.Created? ==>
      (r.patient.id == nextId &&
       r.patient.hospitalId == Attr(req, "hospital_id") && r.patient.name == Attr(req, "name") &&
       r.patient.phone == Attr(req, "phone") && r.patient.district == Attr(req, "district") &&
       !r.patient.hospitalId.Null? && Unused(HospitalIds(patients), r.patient.hospitalId) &&
       !r.patient.phone.Null? && Unused(Phones(patients), r.patient.phone))
    ensures r.Created? ==>
      (Some(r.patient.gender) == CastGender(Attr(req, "gender")) && r.patient.dob == Attr(req, "dob") &&
       r.patient.address == Attr(req, "address") && r.patient.city == Attr(req, "city") &&
       r.patient.state == Attr(req, "state") && r.patient.pinCode == Attr(req, "pin_code"))
    ensures r.Created? ==> Some(r.patient) == Create(nextId, Fill(req))
  {
    var errors := StoreErrors(patients, req);
    if errors != {} then Unprocessable(errors)
    else
      var created := Create(nextId, Fill(req));
      if fails || created.None? then NotCreated
      else
        Created(created.value)
  }

  class PatientTable {
    var patients: seq<Patient>
    var nextId: nat

    ghost predicate Valid()
      reads this
    {
      (forall i :: 0 <= i < |patients| ==> patients[i].id < nextId) &&
      (forall i, j :: 0 <= i < j < |patients| ==> patients[i].id < patients[j].id)
    }

    constructor ()
      ensures Valid() && patients == [] && nextId == 1
    {
      patients := [];
      nextId := 1;
    }

    /**
     * `store`: the answer is `StoreResult`; only a 201 writes, and it adds
     * exactly the created patient and advances the id counter.
     */
    method Store(req: map<string, Value>, fails: bool) returns (r: StoreResponse)
      requires Valid()
      modifies this
      ensures Valid()
      ensures r == StoreResult(old(patients), old(nextId), req, fails)
      ensures !r.Created? ==> patients == old(patients) && nextId == old(nextId)
      ensures r.Created? ==> patients == old(patients) + [r.patient] && nextId == old(nextId) + 1
      ensures UniqueKeys(old(patients)) ==> UniqueKeys(patients)
    {
      r := StoreResult(patients, nextId, req, fails);
      if r.Created? {
        if UniqueKeys(patients) {
          UniqueKeysAppend(patients, r.patient);
        }
        AddPatient(r.patient);
      }
    }

    /** Inserts a patient carrying the next id. */
    method AddPatient(p: Patient)
      requires Valid() && p.id == nextId
      modifies this
      ensures Valid()
      ensures patients == old(patients) + [p] && nextId == old(nextId) + 1
    {
      ghost var before := patients;
      patients := patients + [p];
      nextId := nextId + 1;
      assert forall i :: 0 <= i < |before| ==> patients[i] == before[i];
      assert patients[|before|] == p;
    }
  }
}

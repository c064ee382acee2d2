/**
 * The Patient model: its mass-assignable attributes, the enum cast on
 * `gender`, and the pivot columns its `visit()` relation exposes.
 */
module PatientModel {
  import opened Common
  import PatientGenderEnum
  import PatientVisitMigration

  /** A stored patient; `gender` holds the cast enum case, or NULL. */
  datatype Patient = Patient(
    id: nat, hospitalId: Value, name: Value, gender: Option<PatientGenderEnum.Gender>, dob: Value,
    address: Value, city: Value, district: Value, state: Value, pinCode: Value, phone: Value)

  /** `$fillable`, in declaration order. */
  function Fillable(): (r: seq<string>)
    ensures |r| == 10
    ensures forall i, j :: 0 <= i < j < |r| ==> r[i] != r[j]
  {
    ["hospital_id", "name", "gender", "dob", "address", "city", "district", "state", "pin_code", "phone"]
  }

  /** The ten fillable attributes, NULL where none was assigned. */
  datatype Attributes = Attributes(
    hospitalId: Value, name: Value, gender: Value, dob: Value, address: Value,
    city: Value, district: Value, state: Value, pinCode: Value, phone: Value)

  /** An attribute's value, NULL when it was not assigned. */
  function Attr(attrs: map<string, Value>, key: string): Value {
    if key in attrs then attrs[key] else Null
  }

  /** Mass assignment: every fillable attribute is taken from `attrs`, by its own name. */
  function Fill(attrs: map<string, Value>): (a: Attributes)
    ensures a.hospitalId == Attr(attrs, Fillable()[0]) && a.name == Attr(attrs, Fillable()[1])
    ensures a.gender == Attr(attrs, Fillable()[2]) && a.dob == Attr(attrs, Fillable()[3])
    ensures a.address == Attr(attrs, Fillable()[4]) && a.city == Attr(attrs, Fillable()[5])
    ensures a.district == Attr(attrs, Fillable()[6]) && a.state == Attr(attrs, Fillable()[7])
    ensures a.pinCode == Attr(attrs, Fillable()[8]) && a.phone == Attr(attrs, Fillable()[9])
  {
    Attributes(Attr(attrs, "hospital_id"), Attr(attrs, "name"), Attr(attrs, "gender"), Attr(attrs, "dob"),
      Attr(attrs, "address"), Attr(attrs, "city"), Attr(attrs, "district"), Attr(attrs, "state"),
      Attr(attrs, "pin_code"), Attr(attrs, "phone"))
  }

  /** Mass assignment ignores every attribute that is not fillable, `id` and `status` included. */
  lemma {:induction false} FillIgnoresUnfillable(attrs: map<string, Value>, key: string, v: Value)
    requires key !in Fillable()
    ensures Fill(attrs[key := v]) == Fill(attrs)
  {
    var f := Fillable();
    assert key != f[0] && key != f[1] && key != f[2] && key != f[3] && key != f[4];
    assert key != f[5] && key != f[6] && key != f[7] && key != f[8] && key != f[9];
  }

  /**
   * Setting `gender` through its enum cast: NULL stays NULL; any other value
   * goes through `PatientGenderEnum::from`, which throws unless the value's
   * string form is exactly one of the backed values. `None` is the throw.
   */
  function CastGender(v: Value): (r: Option<Option<PatientGenderEnum.Gender>>)
    ensures v.Null? ==> r == Some(None)
    ensures !v.Null? ==> (r.Some? <==> TextOf(v) in PatientGenderEnum.Keys())
    ensures r.Some? && r.value.Some? ==> !v.Null? && PatientGenderEnum.Value(r.value.value) == TextOf(v)
  {
    if v.Null? then Some(None)
    else match PatientGenderEnum.TryFrom(TextOf(v))
      case None => None
      case Some(g) => Some(Some(g))
  }

  /**
   * `Patient::create` given the id the table assigns: the attributes are
   * stored as given, and the create throws (`None`) when the gender cast
   * does. The `dob` date cast, which can throw too, is not modelled.
   */
  function Create(id: nat, a: Attributes): (r: Option<Patient>)
    ensures r.Some? <==> CastGender(a.gender).Some?
    ensures r.Some? ==> var p := r.value;
      p.id == id && Some(p.gender) == CastGender(a.gender) &&
      p.hospitalId == a.hospitalId && p.name == a.name && p.dob == a.dob && p.address == a.address &&
      p.city == a.city && p.district == a.district && p.state == a.state &&
      p.pinCode == a.pinCode && p.phone == a.phone
  {
    match CastGender(a.gender)
    case None => None
    case Some(g) =>
      Some(Patient(id, a.hospitalId, a.name, g, a.dob, a.address, a.city, a.district, a.state, a.pinCode, a.phone))
  }

  /** A stored gender is NULL or one of the backed values. */
  lemma {:induction false} StoredGender(id: nat, a: Attributes)
    requires Create(id, a).Some?
    ensures var g := Create(id, a).value.gender;
      g.None? || PatientGenderEnum.Value(g.value) in ["MALE", "FEMALE", "OTHER"]
  {
    var g := Create(id, a).value.gender;
    if g.Some? {
      assert PatientGenderEnum.Value(g.value) in PatientGenderEnum.Keys();
    }
  }

  /**
   * The columns `visit()` reads from the pivot: the five `withPivot` columns
   * and the two `withTimestamps` columns: exactly the pivot table's columns
   * after its id and its two keys, in declaration order.
   */
  function VisitPivotColumns(): (cols: seq<string>)
    ensures |cols| == 7
    ensures forall i :: 0 <= i < |cols| ==> cols[i] == PatientVisitMigration.Table()[i + 3].name
  {
    ["date", "description", "advice_transcription", "status", "created_by", "created_at", "updated_at"]
  }
}

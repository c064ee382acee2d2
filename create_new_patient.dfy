/**
 * CreateNewPatient: the patient dialog's form state, its client-side
 * validation and its change handlers. The form is a record of ten text
 * fields keyed by their names, as the handlers address them
 * (`[id]: value`); the errors are a record from field name to message.
 */
module CreateNewPatient {
  import opened Common
  import opened DateFormat
  import PatientModel
  import PatientController
  import PatientGenderEnum

  /** The fields of `PatientFormData`, by the name the form and the inputs' ids give them. */
  datatype Field = HospitalId | Name | Gender | Dob | Address | City | District | State | PinCode | Phone

  function FieldName(k: Field): string {
    match k
    case HospitalId => "hospital_id"
    case Name => "name"
    case Gender => "gender"
    case Dob => "dob"
    case Address => "address"
    case City => "city"
    case District => "district"
    case State => "state"
    case PinCode => "pin_code"
    case Phone => "phone"
  }

  function AllFields(): seq<Field> {
    [HospitalId, Name, Gender, Dob, Address, City, District, State, PinCode, Phone]
  }

  /** A form record: every field present. */
  ghost predicate HasFields(f: map<Field, string>) {
    forall k: Field :: k in f
  }

  /** `initialFormData`: every field empty. */
  function InitialFormData(): (f: map<Field, string>)
    ensures HasFields(f)
    ensures forall k :: k in f ==> f[k] == ""
  {
    AllFieldsListed();
    map k | k in AllFields() :: ""
  }

  lemma AllFieldsListed()
    ensures forall k: Field :: k in AllFields()
  {
    forall k: Field ensures k in AllFields() {
      var i := match k
        case HospitalId => 0 case Name => 1 case Gender => 2 case Dob => 3 case Address => 4
        case City => 5 case District => 6 case State => 7 case PinCode => 8 case Phone => 9;
      assert AllFields()[i] == k;
    }
  }

  // ---------------------------------------------------------------------------
  // validateForm

  const HospitalIdRequired := "Hospital ID is required"
  const HospitalIdFormat := "Hospital ID must start with WS, PN, PS, or MG followed by numbers"
  const NameRequired := "Name is required"
  const NameTooShort := "Name must be at least 2 characters"
  const GenderRequired := "Please select a gender"
  const DistrictRequired := "District is required"
  const PhoneRequired := "Phone number is required"
  const PhoneFormat := "Phone number must be 10 digits"

  /** The hospital prefixes the pattern accepts. */
  predicate IsHospitalPrefix(p: string) {
    p == "WS" || p == "PN" || p == "PS" || p == "MG"
  }

  /** JavaScript's upper-casing of one ASCII character. */
  function UpperChar(c: char): char {
    if IsAsciiLower(c) then (c as int - 32) as char else c
  }

  /**
   * `HOSPITAL_ID_REGEX`, `/^(WS|PN|PS|MG)\d+$/i`: a prefix, matched without
   * regard to ASCII case, then one or more ASCII digits up to the end.
   */
  predicate MatchesHospitalId(s: string) {
    |s| >= 3 && IsHospitalPrefix([UpperChar(s[0]), UpperChar(s[1])]) && AllDigits(s[2..])
  }

  /** `!s.trim()`: every character is one JavaScript's `trim` strips. */
  predicate IsJsBlank(s: string) {
    s == [] || (IsJsSpace(s[0]) && IsJsBlank(s[1..]))
  }

  lemma {:induction false} IsJsBlankIsTrimEmpty(s: string)
    ensures IsJsBlank(s) <==> Trim(s, IsJsSpace) == ""
  {
    TrimEmpty(s, IsJsSpace);
    AllSpaces(s);
  }

  lemma {:induction false} AllSpaces(s: string)
    ensures IsJsBlank(s) <==> forall i :: 0 <= i < |s| ==> IsJsSpace(s[i])
  {
    if s != [] {
      AllSpaces(s[1..]);
      assert forall i :: 1 <= i < |s| ==> s[i] == s[1..][i - 1];
    }
  }

  /** The error, if any, of each validated field. */
  function HospitalIdError(h: string): (e: Option<string>)
    ensures e == Some(HospitalIdRequired) <==> IsJsBlank(h)
    ensures e == Some(HospitalIdFormat) <==> !IsJsBlank(h) && !MatchesHospitalId(AsciiUpper(h))
    ensures e.Some? ==> e == Some(HospitalIdRequired) || e == Some(HospitalIdFormat)
    ensures e.None? ==> |h| >= 3
  {
    if IsJsBlank(h) then Some(HospitalIdRequired)
    else if !MatchesHospitalId(AsciiUpper(h)) then Some(HospitalIdFormat)
    else None
  }

  /**
   * JavaScript's `length`: the number of UTF-16 code units, two for each
   * character beyond the Basic Multilingual Plane.
   */
  function Utf16Length(s: string): (n: nat)
    ensures |s| <= n <= 2 * |s|
    ensures (forall i :: 0 <= i < |s| ==> s[i] as int <= 0xFFFF) ==> n == |s|
  {
    if s == [] then 0
    else (if s[0] as int > 0xFFFF then 2 else 1) + Utf16Length(s[1..])
  }

  function NameError(n: string): (e: Option<string>)
    ensures e == Some(NameRequired) <==> IsJsBlank(n)
    ensures e == Some(NameTooShort) <==> !IsJsBlank(n) && Utf16Length(n) < 2
    ensures e.Some? ==> e == Some(NameRequired) || e == Some(NameTooShort)
    ensures |n| >= 2 && !IsJsBlank(n) ==> e.None?
  {
    if IsJsBlank(n) then Some(NameRequired)
    else if Utf16Length(n) < 2 then Some(NameTooShort)
    else None
  }

  function GenderError(g: string): (e: Option<string>)
    ensures e.Some? <==> g == ""
    ensures e.Some? ==> e.value == GenderRequired
  {
    if g == "" then Some(GenderRequired) else None
  }

  function DistrictError(d: string): (e: Option<string>)
    ensures e.Some? <==> IsJsBlank(d)
    ensures e.Some? ==> e.value == DistrictRequired
  {
    if IsJsBlank(d) then Some(DistrictRequired) else None
  }

  /** `/^\d{10}$/`: exactly ten ASCII digits. */
  predicate IsTenDigits(s: string) {
    |s| == 10 && AllDigits(s)
  }

  function PhoneError(p: string): (e: Option<string>)
    ensures e == Some(PhoneRequired) <==> IsJsBlank(p)
    ensures e == Some(PhoneFormat) <==> !IsJsBlank(p) && !IsTenDigits(p)
    ensures e.Some? ==> e == Some(PhoneRequired) || e == Some(PhoneFormat)
    ensures e.None? ==> |p| == 10
  {
    if IsJsBlank(p) then Some(PhoneRequired)
    else if !IsTenDigits(p) then Some(PhoneFormat)
    else None
  }

  /** The error, if any, `validateForm` records for field `k`; the unvalidated fields have none. */
  function FieldError(f: map<Field, string>, k: Field): Option<string>
    requires HasFields(f)
  {
    match k
    case HospitalId => HospitalIdError(f[HospitalId])
    case Name => NameError(f[Name])
    case Gender => GenderError(f[Gender])
    case District => DistrictError(f[District])
    case Phone => PhoneError(f[Phone])
    case _ => None
  }

  /**
   * The errors `validateForm` records: the five validated fields, each with
   * the message of the first rule it breaks; dob, address, city, state and
   * pin_code are never checked.
   */
  function FormErrors(f: map<Field, string>): (errors: map<Field, string>)
    requires HasFields(f)
    ensures forall k :: k in errors <==> FieldError(f, k).Some?
    ensures forall k :: k in errors ==> errors[k] == FieldError(f, k).value && errors[k] != ""
  {
    AllFieldsListed();
    map k | k in AllFields() && FieldError(f, k).Some? :: FieldError(f, k).value
  }

  /** Field by field, the rules `validateForm` applies, in the order it applies them. */
  lemma {:induction false} FormErrorsRules(f: map<Field, string>)
    requires HasFields(f)
    ensures HospitalId in FormErrors(f) <==>
      IsJsBlank(f[HospitalId]) || !MatchesHospitalId(AsciiUpper(f[HospitalId]))
    ensures HospitalId in FormErrors(f) ==>
      FormErrors(f)[HospitalId] == if IsJsBlank(f[HospitalId]) then HospitalIdRequired else HospitalIdFormat
    ensures Name in FormErrors(f) <==> IsJsBlank(f[Name]) || Utf16Length(f[Name]) < 2
    ensures Name in FormErrors(f) ==>
      FormErrors(f)[Name] == if IsJsBlank(f[Name]) then NameRequired else NameTooShort
    ensures Gender in FormErrors(f) <==> f[Gender] == ""
    ensures District in FormErrors(f) <==> IsJsBlank(f[District])
    ensures Phone in FormErrors(f) <==> IsJsBlank(f[Phone]) || !IsTenDigits(f[Phone])
    ensures Phone in FormErrors(f) ==>
      FormErrors(f)[Phone] == if IsJsBlank(f[Phone]) then PhoneRequired else PhoneFormat
    ensures Dob !in FormErrors(f) && Address !in FormErrors(f) && City !in FormErrors(f)
    ensures State !in FormErrors(f) && PinCode !in FormErrors(f)
  {
    assert FieldError(f, HospitalId) == HospitalIdError(f[HospitalId]);
    assert FieldError(f, Name) == NameError(f[Name]);
    assert FieldError(f, Gender) == GenderError(f[Gender]);
    assert FieldError(f, District) == DistrictError(f[District]);
    assert FieldError(f, Phone) == PhoneError(f[Phone]);
  }

  /** A hospital id with a space before or after it always fails, though it is not blank. */
  lemma {:induction false} SurroundingSpacesFail(h: string)
    requires |h| > 0 && (h[0] == ' ' || h[|h| - 1] == ' ')
    ensures HospitalIdError(h).Some?
  {
    var u := AsciiUpper(h);
    if |u| >= 3 {
      if h[0] == ' ' {
        assert u[0] == ' ';
      } else {
        assert u[2..][|u| - 3] == u[|u| - 1] == ' ';
      }
    }
  }

  /**
   * A form the client accepts meets the server's `required` rule for the
   * hospital id and the phone, and its `numeric` rule for the phone; the
   * uniqueness rules are the server's alone.
   */
  lemma {:induction false} AcceptedFormMeetsServerRules(f: map<Field, string>)
    requires HasFields(f) && FormErrors(f) == map[]
    ensures Required(Str(f[HospitalId]))
    ensures Required(Str(f[Phone])) && PatientController.IsNumeric(Str(f[Phone]))
  {
    assert HospitalId !in FormErrors(f) && Phone !in FormErrors(f);
    assert FieldError(f, HospitalId) == HospitalIdError(f[HospitalId]);
    assert FieldError(f, Phone) == PhoneError(f[Phone]);
    AcceptedHospitalId(f[HospitalId]);
    AcceptedPhone(f[Phone]);
  }

  lemma AcceptedHospitalId(h: string)
    requires HospitalIdError(h).None?
    ensures Required(Str(h))
  {
    var u := AsciiUpper(h);
    assert MatchesHospitalId(u);
    assert IsAsciiLower(h[0]) || IsAsciiUpper(h[0]) by {
      assert IsHospitalPrefix([UpperChar(u[0]), UpperChar(u[1])]);
    }
    NotBlank(h, 0);
  }

  lemma AcceptedPhone(p: string)
    requires PhoneError(p).None?
    ensures Required(Str(p)) && PatientController.IsNumeric(Str(p))
  {
    assert IsTenDigits(p);
    NotBlank(p, 0);
    assert p[..10] == p && PatientController.IsDecimal(p, 10);
  }

  /** A string with a character PHP's `trim` keeps is not blank to PHP. */
  lemma NotBlank(s: string, i: nat)
    requires i < |s| && !IsPhpSpace(s[i])
    ensures Required(Str(s))
  {
    TrimEmpty(s, IsPhpSpace);
  }

  /**
   * A name of two NUL characters passes the client's name rule (JavaScript's
   * `trim` keeps NUL) but not the server's `required` rule (PHP's strips it).
   */
  lemma NulNameGap()
    ensures NameError("\0\0").None?
    ensures !Required(Str("\0\0"))
  {
    NulsGap("\0\0");
  }

  /** Any name of two or more NUL characters falls in that gap. */
  lemma NulsGap(n: string)
    requires |n| >= 2 && forall i :: 0 <= i < |n| ==> n[i] == '\0'
    ensures NameError(n).None?
    ensures !Required(Str(n))
  {
    TrimEmpty(n, IsJsSpace);
    assert !IsJsSpace(n[0]);
    TrimEmpty(n, IsPhpSpace);
  }

  /**
   * A name of one character beyond the Basic Multilingual Plane (an emoji,
   * say) has length two to JavaScript and passes the name rule.
   */
  lemma AstralNamePasses(n: string)
    requires |n| == 1 && n[0] as int > 0xFFFF
    ensures Utf16Length(n) == 2
    ensures NameError(n).None?
  {
    assert n[1..] == [];
    assert !IsJsSpace(n[0]);
  }

  // ---------------------------------------------------------------------------
  // Gender options

  /** The values the gender select offers. */
  function GenderOptionsAsWritten(): seq<string> {
    ["male", "female", "other"]
  }

  /** None of the offered values survives the model's gender cast: creating such a patient throws. */
  lemma GenderOptionsAsWrittenRejected()
    ensures forall o :: o in GenderOptionsAsWritten() ==> PatientModel.CastGender(Str(o)).None?
  {
    assert "male" != "MALE" && "female" != "FEMALE" && "other" != "OTHER";
    assert "male"[0] == 'm' && "female"[0] == 'f' && "other"[0] == 'o';
  }

  /** The values the cast accepts: the enum's backed values. */
  function GenderOptions(): (r: seq<string>)
    ensures r == PatientGenderEnum.Keys()
  {
    PatientGenderEnum.Keys()
  }

  /** Every corrected option is stored as the gender it names. */
  lemma GenderOptionsAccepted()
    ensures forall o :: o in GenderOptions() ==>
      (PatientModel.CastGender(Str(o)).Some? && PatientModel.CastGender(Str(o)).value.Some? &&
       PatientGenderEnum.Value(PatientModel.CastGender(Str(o)).value.value) == o)
  {
  }

  // ---------------------------------------------------------------------------
  // The component's state

  class PatientForm {
    var formData: map<Field, string>
    var errors: map<Field, string>
    var showCustomDistrict: bool

    ghost predicate Valid()
      reads this
    {
      HasFields(formData)
    }

    /** The dialog starts with every field empty, no errors and the district select shown. */
    constructor ()
      ensures Valid()
      ensures formData == InitialFormData() && errors == map[] && !showCustomDistrict
    {
      formData := InitialFormData();
      errors := map[];
      showCustomDistrict := false;
    }

    /** `validateForm`: the recorded errors are exactly the form's errors, and it passes iff there are none. */
    method ValidateForm() returns (ok: bool)
      requires Valid()
      modifies this`errors
      ensures errors == FormErrors(formData)
      ensures ok <==> errors == map[]
    {
      errors := FormErrors(formData);
      ok := |errors| == 0;
    }

    /** The error cleared by a handler: `key`'s entry, when it holds a message. */
    static function Cleared(errors: map<Field, string>, key: Field): (r: map<Field, string>)
      ensures key in r ==> key in errors && errors[key] == "" && r[key] == ""
      ensures forall k :: k != key ==> (k in r <==> k in errors)
      ensures forall k :: k != key && k in r ==> r[k] == errors[k]
    {
      if key in errors && errors[key] != "" then errors - {key} else errors
    }

    /** `handleChange`: only field `id` takes the new value, and only `id`'s error is cleared. */
    method HandleChange(id: Field, value: string)
      requires Valid()
      modifies this`formData, this`errors
      ensures Valid()
      ensures formData == old(formData)[id := value]
      ensures errors == Cleared(old(errors), id)
      ensures forall k :: k != id ==>
        ((k in formData <==> k in old(formData)) && (k in formData ==> formData[k] == old(formData)[k]))
      ensures forall k :: k != id ==>
        ((k in errors <==> k in old(errors)) && (k in errors ==> errors[k] == old(errors)[k]))
    {
      formData := formData[id := value];
      errors := Cleared(errors, id);
    }

    /** The hospital id input stores the typed text upper-cased and leaves the errors as they are. */
    method HandleHospitalIdChange(value: string)
      requires Valid()
      modifies this`formData
      ensures Valid()
      ensures formData == old(formData)[HospitalId := AsciiUpper(value)]
    {
      formData := formData[HospitalId := AsciiUpper(value)];
    }

    /** `handleGenderChange`: the selected value becomes the gender, and the gender error is cleared. */
    method HandleGenderChange(value: string)
      requires Valid()
      modifies this`formData, this`errors
      ensures Valid()
      ensures formData == old(formData)[Gender := value]
      ensures errors == Cleared(old(errors), Gender)
    {
      formData := formData[Gender := value];
      errors := Cleared(errors, Gender);
    }

    /**
     * `handleDistrictChange`: 'other' opens the free-text district input and
     * empties the district; any other value closes it and becomes the
     * district. The district error is cleared either way.
     */
    method HandleDistrictChange(value: string)
      requires Valid()
      modifies this`formData, this`errors, this`showCustomDistrict
      ensures Valid()
      ensures showCustomDistrict == (value == "other")
      ensures formData == old(formData)[District := if value == "other" then "" else value]
      ensures errors == Cleared(old(errors), District)
    {
      if value == "other" {
        showCustomDistrict := true;
        formData := formData[District := ""];
      } else {
        showCustomDistrict := false;
        formData := formData[District := value];
      }
      errors := Cleared(errors, District);
    }

    /** `handleCustomDistrictChange`: the typed text becomes the district, and the district error is cleared. */
    method HandleCustomDistrictChange(value: string)
      requires Valid()
      modifies this`formData, this`errors
      ensures Valid()
      ensures formData == old(formData)[District := value]
      ensures errors == Cleared(old(errors), District)
    {
      formData := formData[District := value];
      errors := Cleared(errors, District);
    }

    /** `handleDateChange`: the picked day's `formatDate` text, or '' when the selection is cleared. */
    method HandleDateChange(picked: Option<CalendarDate>)
      requires Valid()
      requires picked.Some? ==> IsCalendarDate(picked.value)
      modifies this`formData
      ensures Valid()
      ensures formData == old(formData)[Dob := if picked.Some? then FormatDate(picked.value) else ""]
    {
      if picked.Some? {
        formData := formData[Dob := FormatDate(picked.value)];
      } else {
        formData := formData[Dob := ""];
      }
    }
  }
}

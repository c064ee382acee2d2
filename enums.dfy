/**
 * The three backed enums. Each exposes `keys()` (the backed values, in
 * declaration order, through `array_column(cases(), 'value')`) and `values()`
 * (backed value to case name, through `array_column(cases(), 'name', 'value')`).
 */

module VisitStatusEnum {
  import opened Common

  datatype VisitStatus = Open | Closed | Cancelled | Completed

  /** `cases()`, in declaration order. */
  function Cases(): seq<VisitStatus> {
    [Open, Closed, Cancelled, Completed]
  }

  /** The backed value of a case. */
  function Value(c: VisitStatus): string {
    match c
    case Open => "OPEN"
    case Closed => "CLOSED"
    case Cancelled => "CANCELLED"
    case Completed => "COMPLETED"
  }

  /** The declared name of a case. */
  function Name(c: VisitStatus): string {
    match c
    case Open => "Open"
    case Closed => "Closed"
    case Cancelled => "Cancelled"
    case Completed => "Completed"
  }

  function Keys(): (r: seq<string>)
    ensures r == ["OPEN", "CLOSED", "CANCELLED", "COMPLETED"]
    ensures forall i, j :: 0 <= i < j < |r| ==> r[i] != r[j]
  {
    Column(Cases(), Value)
  }

  function Values(): (m: map<string, string>)
    ensures m == map["OPEN" := "Open", "CLOSED" := "Closed", "CANCELLED" := "Cancelled", "COMPLETED" := "Completed"]
  {
    var cs := Cases();
    assert cs[..1][..0] == [];
    assert KeyedColumn(cs[..1], Value, Name) == map["OPEN" := "Open"];
    assert cs[..2][..1] == cs[..1];
    assert KeyedColumn(cs[..2], Value, Name) == map["OPEN" := "Open", "CLOSED" := "Closed"];
    assert cs[..3][..2] == cs[..2];
    assert KeyedColumn(cs[..3], Value, Name) == map["OPEN" := "Open", "CLOSED" := "Closed", "CANCELLED" := "Cancelled"];
    assert cs[..3] == cs[..|cs| - 1];
    KeyedColumn(cs, Value, Name)
  }

  /** `values()` has exactly the backed values as keys, each mapped to the name of its own case. */
  lemma ValuesByCase()
    ensures Values().Keys == set k | k in Keys()
    ensures forall i :: 0 <= i < |Cases()| ==> Values()[Keys()[i]] == Name(Cases()[i])
  {
    var cs, ks := Cases(), Keys();
    assert ks == Column(cs, Value);
    KeyedColumnDomain(cs, Value, Name);
    assert Values().Keys == set k | k in ks by {
      forall k ensures k in Values().Keys <==> k in ks {
        if k in ks {
          var i :| 0 <= i < |ks| && ks[i] == k;
          assert k == Value(cs[i]);
        }
      }
    }
    forall i | 0 <= i < |cs| ensures Values()[ks[i]] == Name(cs[i]) {
      KeyedColumnAt(cs, Value, Name, i);
    }
  }

  /** `VisitStatusEnum::tryFrom`: the case with that backed value, compared exactly. */
  function TryFrom(s: string): (r: Option<VisitStatus>)
    ensures r.Some? <==> s in Keys()
    ensures r.Some? ==> Value(r.value) == s
  {
    if s == "OPEN" then Some(Open)
    else if s == "CLOSED" then Some(Closed)
    else if s == "CANCELLED" then Some(Cancelled)
    else if s == "COMPLETED" then Some(Completed)
    else None
  }
}

module PatientVisitEnum {
  import opened Common

  datatype PatientVisitStatus = Pending | Confirm | Cancel | Attended

  function Cases(): seq<PatientVisitStatus> {
    [Pending, Confirm, Cancel, Attended]
  }

  function Value(c: PatientVisitStatus): string {
    match c
    case Pending => "pending"
    case Confirm => "confirm"
    case Cancel => "cancel"
    case Attended => "attended"
  }

  function Name(c: PatientVisitStatus): string {
    match c
    case Pending => "PENDING"
    case Confirm => "CONFIRM"
    case Cancel => "CANCEL"
    case Attended => "ATTENDED"
  }

  function Keys(): (r: seq<string>)
    ensures r == ["pending", "confirm", "cancel", "attended"]
    ensures forall i, j :: 0 <= i < j < |r| ==> r[i] != r[j]
  {
    Column(Cases(), Value)
  }

  function Values(): (m: map<string, string>)
    ensures m == map["pending" := "PENDING", "confirm" := "CONFIRM", "cancel" := "CANCEL", "attended" := "ATTENDED"]
  {
    var cs := Cases();
    assert cs[..1][..0] == [];
    assert KeyedColumn(cs[..1], Value, Name) == map["pending" := "PENDING"];
    assert cs[..2][..1] == cs[..1];
    assert KeyedColumn(cs[..2], Value, Name) == map["pending" := "PENDING", "confirm" := "CONFIRM"];
    assert cs[..3][..2] == cs[..2];
    assert KeyedColumn(cs[..3], Value, Name) == map["pending" := "PENDING", "confirm" := "CONFIRM", "cancel" := "CANCEL"];
    assert cs[..3] == cs[..|cs| - 1];
    KeyedColumn(cs, Value, Name)
  }

  /** `values()` has exactly the backed values as keys, each mapped to the name of its own case. */
  lemma ValuesByCase()
    ensures Values().Keys == set k | k in Keys()
    ensures forall i :: 0 <= i < |Cases()| ==> Values()[Keys()[i]] == Name(Cases()[i])
  {
    var cs, ks := Cases(), Keys();
    assert ks == Column(cs, Value);
    KeyedColumnDomain(cs, Value, Name);
    assert Values().Keys == set k | k in ks by {
      forall k ensures k in Values().Keys <==> k in ks {
        if k in ks {
          var i :| 0 <= i < |ks| && ks[i] == k;
          assert k == Value(cs[i]);
        }
      }
    }
    forall i | 0 <= i < |cs| ensures Values()[ks[i]] == Name(cs[i]) {
      KeyedColumnAt(cs, Value, Name, i);
    }
  }

  /**
   * `PatientVisitEnum::NAME`: a case looked up by its declared name. PHP class
   * constants are case-sensitive, so only the exact upper-case names resolve.
   */
  function CaseNamed(name: string): (r: Option<PatientVisitStatus>)
    ensures forall c :: Name(c) == name ==> r == Some(c)
    ensures r.Some? ==> Name(r.value) == name
  {
    if name == "PENDING" then Some(Pending)
    else if name == "CONFIRM" then Some(Confirm)
    else if name == "CANCEL" then Some(Cancel)
    else if name == "ATTENDED" then Some(Attended)
    else None
  }
}

module PatientGenderEnum {
  import opened Common

  datatype Gender = Male | Female | Other

  function Cases(): seq<Gender> {
    [Male, Female, Other]
  }

  function Value(c: Gender): string {
    match c
    case Male => "MALE"
    case Female => "FEMALE"
    case Other => "OTHER"
  }

  /** Every case is named exactly as its backed value. */
  function Name(c: Gender): (n: string)
    ensures n == Value(c)
  {
    match c
    case Male => "MALE"
    case Female => "FEMALE"
    case Other => "OTHER"
  }

  function Keys(): (r: seq<string>)
    ensures r == ["MALE", "FEMALE", "OTHER"]
    ensures forall i, j :: 0 <= i < j < |r| ==> r[i] != r[j]
  {
    Column(Cases(), Value)
  }

  function Values(): (m: map<string, string>)
    ensures m.Keys == set k | k in Keys()
    ensures forall k :: k in m ==> m[k] == k
    ensures m == map["MALE" := "MALE", "FEMALE" := "FEMALE", "OTHER" := "OTHER"]
  {
    var cs := Cases();
    assert cs[..1][..0] == [];
    assert KeyedColumn(cs[..1], Value, Name) == map["MALE" := "MALE"];
    assert cs[..2][..1] == cs[..1];
    assert KeyedColumn(cs[..2], Value, Name) == map["MALE" := "MALE", "FEMALE" := "FEMALE"];
    assert cs[..2] == cs[..|cs| - 1];
    KeyedColumn(cs, Value, Name)
  }

  /**
   * `PatientGenderEnum::from`, as the model's enum cast calls it: only the
   * three exact upper-case strings are members; anything else throws.
   */
  function TryFrom(s: string): (r: Option<Gender>)
    ensures r.Some? <==> s in Keys()
    ensures r.Some? ==> Value(r.value) == s
  {
    if s == "MALE" then Some(Male)
    else if s == "FEMALE" then Some(Female)
    else if s == "OTHER" then Some(Other)
    else None
  }
}

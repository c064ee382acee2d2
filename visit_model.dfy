/**
 * The Visit model: its stored record, its mass-assignable attributes and the
 * relations the listing controllers eager-load through it.
 */
module VisitModel {
  import opened Common
  import DepartmentController
  import PatientModel
  import PatientVisitMigration

  /**
   * A stored visit. The date is a day number; the other written columns hold
   * the request's values as given, since only `required` checks them; the
   * status is a backed value of VisitStatusEnum or the column default.
   */
  datatype Visit = Visit(id: nat, departmentId: Value, date: int, hospitalName: Value, slotNumber: Value, status: string)

  /** `$fillable`. */
  function Fillable(): seq<string> {
    ["date", "department_id", "hospital_name", "slot_number"]
  }

  /** The keys the controller puts in `$data` for both `create` and `update`. */
  function WrittenKeys(): seq<string> {
    ["department_id", "date", "hospital_name", "slot_number", "status"]
  }

  /**
   * Mass assignment keeps the written keys that are fillable: exactly the four
   * data columns, so the `status` the controller passes is discarded.
   */
  function AssignedKeys(): (keys: set<string>)
    ensures keys == set k | k in Fillable()
    ensures "status" in WrittenKeys() && "status" !in keys
  {
    set k | k in WrittenKeys() && k in Fillable()
  }

  /** The primary key, the sort key of every `orderBy('id', 'DESC')`. */
  function IdOf(v: Visit): int {
    v.id
  }

  /** The primary key, as route model binding looks it up. */
  function VisitId(v: Visit): nat {
    v.id
  }

  /** Primary keys: no two stored visits share an id. */
  predicate DistinctIds(vs: seq<Visit>) {
    forall i, j :: 0 <= i < j < |vs| ==> vs[i].id != vs[j].id
  }

  /** `->where(p)->orderBy('id', 'DESC')`: the selected visits, newest id first. */
  function SelectByIdDesc(vs: seq<Visit>, p: Visit -> bool): (r: seq<Visit>)
    ensures forall v :: v in r <==> v in vs && p(v)
    ensures multiset(r) == multiset(Where(vs, p))
    ensures Descending(r, IdOf)
  {
    SortByKeyDesc(Where(vs, p), IdOf)
  }

  /** Over distinct ids the order is strictly descending. */
  lemma {:induction false} SelectByIdDescStrict(vs: seq<Visit>, p: Visit -> bool)
    requires DistinctIds(vs)
    ensures StrictlyDescending(SelectByIdDesc(vs, p), IdOf)
  {
    WherePairwise(vs, p, (a: Visit, b: Visit) => a.id != b.id);
    SortByKeyDescStrict(Where(vs, p), IdOf);
  }

  /** Two tables that hold the same visits, position by position, but for their statuses. */
  predicate SameButStatus(vs: seq<Visit>, ws: seq<Visit>) {
    |vs| == |ws| && forall i :: 0 <= i < |vs| ==> vs[i].(status := ws[i].status) == ws[i]
  }

  /**
   * A selection whose filter does not look at the status picks, from two such
   * tables, the same visits in the same order.
   */
  lemma {:induction false} SelectByIdDescIgnoresStatus(vs: seq<Visit>, ws: seq<Visit>, p: Visit -> bool)
    requires SameButStatus(vs, ws)
    requires forall v: Visit, s: string :: p(v.(status := s)) == p(v)
    ensures SameButStatus(SelectByIdDesc(vs, p), SelectByIdDesc(ws, p))
  {
    WhereIgnoresStatus(vs, ws, p);
    SortIgnoresStatus(Where(vs, p), Where(ws, p));
  }

  lemma {:induction false} WhereIgnoresStatus(vs: seq<Visit>, ws: seq<Visit>, p: Visit -> bool)
    requires SameButStatus(vs, ws)
    requires forall v: Visit, s: string :: p(v.(status := s)) == p(v)
    ensures SameButStatus(Where(vs, p), Where(ws, p))
  {
    if vs != [] {
      assert vs[0].(status := ws[0].status) == ws[0];
      assert p(ws[0]) == p(vs[0]);
      assert SameButStatus(vs[1..], ws[1..]) by {
        forall i | 0 <= i < |vs| - 1
          ensures vs[1..][i].(status := ws[1..][i].status) == ws[1..][i]
        {
          assert vs[1..][i] == vs[i + 1] && ws[1..][i] == ws[i + 1];
        }
      }
      WhereIgnoresStatus(vs[1..], ws[1..], p);
      if p(vs[0]) {
        PrependSame(vs[0], ws[0], Where(vs[1..], p), Where(ws[1..], p));
      }
    }
  }

  lemma PrependSame(v: Visit, w: Visit, vs: seq<Visit>, ws: seq<Visit>)
    requires v.(status := w.status) == w && SameButStatus(vs, ws)
    ensures SameButStatus([v] + vs, [w] + ws)
  {
    forall i | 0 <= i < |vs| + 1
      ensures ([v] + vs)[i].(status := ([w] + ws)[i].status) == ([w] + ws)[i]
    {
      if i > 0 {
        assert ([v] + vs)[i] == vs[i - 1] && ([w] + ws)[i] == ws[i - 1];
      }
    }
  }

  lemma {:induction false} SortIgnoresStatus(vs: seq<Visit>, ws: seq<Visit>)
    requires SameButStatus(vs, ws)
    ensures SameButStatus(SortByKeyDesc(vs, IdOf), SortByKeyDesc(ws, IdOf))
  {
    if vs != [] {
      assert SameButStatus(vs[1..], ws[1..]) by {
        forall i | 0 <= i < |vs| - 1
          ensures vs[1..][i].(status := ws[1..][i].status) == ws[1..][i]
        {
          assert vs[1..][i] == vs[i + 1] && ws[1..][i] == ws[i + 1];
        }
      }
      SortIgnoresStatus(vs[1..], ws[1..]);
      assert vs[0].(status := ws[0].status) == ws[0];
      InsertIgnoresStatus(vs[0], ws[0], SortByKeyDesc(vs[1..], IdOf), SortByKeyDesc(ws[1..], IdOf));
    }
  }

  lemma {:induction false} InsertIgnoresStatus(v: Visit, w: Visit, vs: seq<Visit>, ws: seq<Visit>)
    requires v.(status := w.status) == w && SameButStatus(vs, ws)
    ensures SameButStatus(InsertByKeyDesc(v, vs, IdOf), InsertByKeyDesc(w, ws, IdOf))
  {
    if vs == [] || IdOf(v) >= IdOf(vs[0]) {
      assert ws == [] || IdOf(w) >= IdOf(ws[0]) by {
        if ws != [] {
          assert vs[0].(status := ws[0].status) == ws[0];
        }
      }
      PrependSame(v, w, vs, ws);
    } else {
      assert vs[0].(status := ws[0].status) == ws[0];
      assert IdOf(w) < IdOf(ws[0]);
      assert SameButStatus(vs[1..], ws[1..]) by {
        forall i | 0 <= i < |vs| - 1
          ensures vs[1..][i].(status := ws[1..][i].status) == ws[1..][i]
        {
          assert vs[1..][i] == vs[i + 1] && ws[1..][i] == ws[i + 1];
        }
      }
      InsertIgnoresStatus(v, w, vs[1..], ws[1..]);
      PrependSame(vs[0], ws[0], InsertByKeyDesc(v, vs[1..], IdOf), InsertByKeyDesc(w, ws[1..], IdOf));
    }
  }

  // ---------------------------------------------------------------------------
  // Relations

  /** The relations Patient declares: `visit`. */
  function PatientRelations(): set<string> {
    {"visit"}
  }

  /** The eager-load list `['department', 'patients.visit']`, as relation paths. */
  function Requested(): seq<seq<string>> {
    [["department"], ["patients", "visit"]]
  }

  /**
   * Whether every requested path resolves: its first segment on Visit and,
   * when nested, its second on Patient. An unresolved one throws.
   */
  predicate Resolves(relations: set<string>, paths: seq<seq<string>>) {
    forall i :: 0 <= i < |paths| ==>
      |paths[i]| > 0 && paths[i][0] in relations &&
      (|paths[i]| > 1 ==> paths[i][0] == "patients" && |paths[i]| == 2 && paths[i][1] in PatientRelations())
  }

  /** The relations the model declares. It declares none, so the eager loads cannot resolve. */
  function RelationsAsWritten(): (r: set<string>)
    ensures !Resolves(r, Requested())
  {
    assert Requested()[0][0] == "department";
    {}
  }

  /** The relations the listing controllers rely on: the visit's department and its patients. */
  function Relations(): (r: set<string>)
    ensures Resolves(r, Requested())
  {
    {"department", "patients"}
  }

  /** A patient loaded through the pivot, with the ids of the visits its own `visit` relation loads. */
  datatype LoadedPatient = LoadedPatient(patient: PatientModel.Patient, visitIds: seq<nat>)

  /** A visit with its relations loaded. */
  datatype LoadedVisit = LoadedVisit(
    visit: Visit, department: Option<DepartmentController.Department>, patients: seq<LoadedPatient>)

  /** `belongsTo(Department)`: the first department whose id the visit's department_id denotes. */
  function DepartmentOf(v: Visit, departments: seq<DepartmentController.Department>)
    : (r: Option<DepartmentController.Department>)
    ensures r.Some? ==> r.value in departments && DenotesId(v.departmentId, r.value.id)
    ensures r.None? ==> forall d :: d in departments ==> !DenotesId(v.departmentId, d.id)
  {
    FindById(departments, (d: DepartmentController.Department) => d.id, v.departmentId)
  }

  function PatientId(p: PatientModel.Patient): nat {
    p.id
  }

  /** The first patient with the given id. */
  function PatientWithId(patients: seq<PatientModel.Patient>, id: nat): (r: Option<PatientModel.Patient>)
    ensures r.Some? ==> r.value in patients && r.value.id == id
    ensures r.None? ==> forall p :: p in patients ==> p.id != id
  {
    match PositionOf(patients, PatientId, id)
    case None => None
    case Some(k) => Some(patients[k])
  }

  /** The ids of the visits a patient is linked to, one per pivot row. */
  function VisitIdsOf(rows: seq<PatientVisitMigration.PivotRow>, patientId: nat): (r: seq<nat>)
    ensures forall id :: id in r <==> exists row :: row in rows && row.patientId == patientId && row.visitId == id
  {
    if rows == [] then []
    else
      assert rows == [rows[0]] + rows[1..];
      (if rows[0].patientId == patientId then [rows[0].visitId] else []) + VisitIdsOf(rows[1..], patientId)
  }

  /**
   * `belongsToMany(Patient)` through `patient_visit`: one loaded patient per
   * pivot row of the visit whose patient exists, each with its own visits.
   */
  function PatientsOf(visitId: nat, rows: seq<PatientVisitMigration.PivotRow>, all: seq<PatientVisitMigration.PivotRow>,
                      patients: seq<PatientModel.Patient>): (r: seq<LoadedPatient>)
    ensures |r| <= |rows|
  {
    if rows == [] then []
    else
      var rest := PatientsOf(visitId, rows[1..], all, patients);
      var here := PatientWithId(patients, rows[0].patientId);
      if rows[0].visitId == visitId && here.Some? then
        [LoadedPatient(here.value, VisitIdsOf(all, here.value.id))] + rest
      else rest
  }

  /** Every loaded patient exists, carries its own visit ids, and is linked to the visit by a pivot row. */
  lemma {:induction false} PatientsOfSound(visitId: nat, rows: seq<PatientVisitMigration.PivotRow>,
                                           all: seq<PatientVisitMigration.PivotRow>,
                                           patients: seq<PatientModel.Patient>, lp: LoadedPatient)
    requires lp in PatientsOf(visitId, rows, all, patients)
    ensures lp.patient in patients && lp.visitIds == VisitIdsOf(all, lp.patient.id)
    ensures exists row :: row in rows && row.visitId == visitId && row.patientId == lp.patient.id
  {
    var rest := PatientsOf(visitId, rows[1..], all, patients);
    var here := PatientWithId(patients, rows[0].patientId);
    if rows[0].visitId == visitId && here.Some? && lp == LoadedPatient(here.value, VisitIdsOf(all, here.value.id)) {
      assert rows[0] in rows;
    } else {
      assert lp in rest;
      PatientsOfSound(visitId, rows[1..], all, patients, lp);
      var row :| row in rows[1..] && row.visitId == visitId && row.patientId == lp.patient.id;
      assert row in rows;
    }
  }

  /** Every pivot row of the visit whose patient exists yields a loaded patient. */
  lemma {:induction false} PatientsOfComplete(visitId: nat, rows: seq<PatientVisitMigration.PivotRow>,
                                              all: seq<PatientVisitMigration.PivotRow>,
                                              patients: seq<PatientModel.Patient>, row: PatientVisitMigration.PivotRow)
    requires row in rows && row.visitId == visitId && PatientWithId(patients, row.patientId).Some?
    ensures exists lp :: lp in PatientsOf(visitId, rows, all, patients) && lp.patient.id == row.patientId
  {
    var r := PatientsOf(visitId, rows, all, patients);
    if row == rows[0] {
      assert r[0] in r && r[0].patient.id == row.patientId;
    } else {
      assert row in rows[1..];
      PatientsOfComplete(visitId, rows[1..], all, patients, row);
      var lp :| lp in PatientsOf(visitId, rows[1..], all, patients) && lp.patient.id == row.patientId;
      assert lp in r;
    }
  }

  /** The loaded patients of a visit are exactly those its pivot rows link to it. */
  lemma PatientsOfExact(visitId: nat, rows: seq<PatientVisitMigration.PivotRow>, patients: seq<PatientModel.Patient>)
    ensures forall lp :: lp in PatientsOf(visitId, rows, rows, patients) ==>
      lp.patient in patients && exists row :: row in rows && row.visitId == visitId && row.patientId == lp.patient.id
    ensures forall row :: row in rows && row.visitId == visitId && PatientWithId(patients, row.patientId).Some? ==>
      exists lp :: lp in PatientsOf(visitId, rows, rows, patients) && lp.patient.id == row.patientId
  {
    forall lp | lp in PatientsOf(visitId, rows, rows, patients)
      ensures lp.patient in patients &&
        exists row :: row in rows && row.visitId == visitId && row.patientId == lp.patient.id
    {
      PatientsOfSound(visitId, rows, rows, patients, lp);
    }
    forall row | row in rows && row.visitId == visitId && PatientWithId(patients, row.patientId).Some?
      ensures exists lp :: lp in PatientsOf(visitId, rows, rows, patients) && lp.patient.id == row.patientId
    {
      PatientsOfComplete(visitId, rows, rows, patients, row);
    }
  }

  /** Loads the requested relations of one visit; `None` when a relation does not resolve. */
  function Load(relations: set<string>, v: Visit, departments: seq<DepartmentController.Department>,
                rows: seq<PatientVisitMigration.PivotRow>, patients: seq<PatientModel.Patient>): (r: Option<LoadedVisit>)
    ensures r.Some? <==> Resolves(relations, Requested())
    ensures r.Some? ==> (r.value.visit == v && r.value.department == DepartmentOf(v, departments) &&
      r.value.patients == PatientsOf(v.id, rows, rows, patients))
  {
    if Resolves(relations, Requested()) then
      Some(LoadedVisit(v, DepartmentOf(v, departments), PatientsOf(v.id, rows, rows, patients)))
    else None
  }

  /** `->with([...])->get()`: all visits loaded, or the exception when any relation does not resolve. */
  function LoadAll(relations: set<string>, vs: seq<Visit>, departments: seq<DepartmentController.Department>,
                   rows: seq<PatientVisitMigration.PivotRow>, patients: seq<PatientModel.Patient>)
    : (r: Option<seq<LoadedVisit>>)
    ensures r.Some? <==> vs == [] || Resolves(relations, Requested())
    ensures r.Some? ==> (|r.value| == |vs| &&
      forall i :: 0 <= i < |vs| ==> Load(relations, vs[i], departments, rows, patients) == Some(r.value[i]))
  {
    if vs == [] then Some([])
    else
      match Load(relations, vs[0], departments, rows, patients)
      case None => None
      case Some(first) =>
        var rest := LoadAll(relations, vs[1..], departments, rows, patients);
        assert rest.Some?;
        Some([first] + rest.value)
  }

  /** The selected visits loaded with both relations in place: one entry per visit, in order. */
  function LoadSelected(vs: seq<Visit>, departments: seq<DepartmentController.Department>,
                        rows: seq<PatientVisitMigration.PivotRow>, patients: seq<PatientModel.Patient>)
    : (r: seq<LoadedVisit>)
    ensures |r| == |vs|
    ensures forall i :: 0 <= i < |r| ==>
      r[i].visit == vs[i] &&
      r[i].department == DepartmentOf(vs[i], departments) &&
      r[i].patients == PatientsOf(vs[i].id, rows, rows, patients)
  {
    var loaded := LoadAll(Relations(), vs, departments, rows, patients);
    assert loaded.Some?;
    loaded.value
  }
}

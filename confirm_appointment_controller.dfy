/**
 * ConfirmAppointmentController: the OPEN visits still ahead, and one visit's
 * patient list, each with the department and the booked patients loaded.
 */
module ConfirmAppointmentController {
  import opened Common
  import opened VisitModel
  import AppointmentController
  import DepartmentController
  import PatientModel
  import PatientVisitMigration

  /**
   * `whereFuture('date')` and OPEN. A DATE column compared with the current
   * time is later only from the next day on, so a visit dated today is not
   * in the future.
   */
  predicate Upcoming(v: Visit, today: int) {
    v.date > today && AppointmentController.IsOpen(v)
  }

  /** The visits `index` selects, ordered by id descending. */
  function Selected(visits: seq<Visit>, today: int): (r: seq<Visit>)
    ensures forall v :: v in r <==> v in visits && v.date > today && v.status == "OPEN"
    ensures Descending(r, IdOf)
  {
    SelectByIdDesc(visits, (v: Visit) => Upcoming(v, today))
  }

  lemma {:induction false} SelectedStrictlyDescending(visits: seq<Visit>, today: int)
    requires DistinctIds(visits)
    ensures StrictlyDescending(Selected(visits, today), IdOf)
  {
    SelectByIdDescStrict(visits, (v: Visit) => Upcoming(v, today));
  }

  /**
   * `index` with the relations the eager load needs: the selected visits in
   * order, each with its department and its patients loaded.
   */
  function Index(visits: seq<Visit>, today: int, departments: seq<DepartmentController.Department>,
                 rows: seq<PatientVisitMigration.PivotRow>, patients: seq<PatientModel.Patient>)
    : (r: seq<LoadedVisit>)
    ensures |r| == |Selected(visits, today)|
    ensures forall i :: 0 <= i < |r| ==> r[i].visit in visits && Upcoming(r[i].visit, today)
    ensures forall i :: 0 <= i < |r| ==>
      r[i].visit == Selected(visits, today)[i] &&
      r[i].department == DepartmentOf(r[i].visit, departments) &&
      r[i].patients == PatientsOf(r[i].visit.id, rows, rows, patients)
  {
    LoadSelected(Selected(visits, today), departments, rows, patients)
  }

  /**
   * As written, Visit declares neither relation, so `index` throws as soon as
   * one visit is selected.
   */
  lemma {:induction false} IndexAsWrittenThrows(visits: seq<Visit>, today: int,
      departments: seq<DepartmentController.Department>, rows: seq<PatientVisitMigration.PivotRow>,
      patients: seq<PatientModel.Patient>)
    requires exists v :: v in visits && Upcoming(v, today)
    ensures LoadAll(RelationsAsWritten(), Selected(visits, today), departments, rows, patients).None?
  {
    var v :| v in visits && Upcoming(v, today);
    assert v in Selected(visits, today);
  }

  /** `patientList`: the bound visit with its relations loaded; 404 (`None`) without it. */
  function PatientList(visits: seq<Visit>, id: nat, departments: seq<DepartmentController.Department>,
                       rows: seq<PatientVisitMigration.PivotRow>, patients: seq<PatientModel.Patient>)
    : (r: Option<LoadedVisit>)
    ensures r.None? <==> AppointmentController.AddPatients(visits, id).None?
    ensures r.Some? ==> r.value.visit in visits && r.value.visit.id == id
    ensures r.Some? ==> r.value.department == DepartmentOf(r.value.visit, departments)
    ensures r.Some? ==> forall lp :: lp in r.value.patients ==>
      lp.patient in patients && exists row :: row in rows && row.visitId == id && row.patientId == lp.patient.id
    ensures r.Some? ==> (forall row :: row in rows && row.visitId == id && PatientWithId(patients, row.patientId).Some? ==>
        exists lp :: lp in r.value.patients && lp.patient.id == row.patientId)
  {
    match AppointmentController.AddPatients(visits, id)
    case None => None
    case Some(v) =>
      PatientsOfExact(v.id, rows, patients);
      Load(Relations(), v, departments, rows, patients)
  }

  /** As written, `patientList` throws for every existing visit. */
  lemma {:induction false} PatientListAsWrittenThrows(v: Visit, departments: seq<DepartmentController.Department>,
      rows: seq<PatientVisitMigration.PivotRow>, patients: seq<PatientModel.Patient>)
    ensures Load(RelationsAsWritten(), v, departments, rows, patients).None?
  {
  }
}

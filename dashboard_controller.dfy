/** DashboardController: today's visits, whatever their status, with their relations loaded. */
module DashboardController {
  import opened Common
  import opened VisitModel
  import DepartmentController
  import PatientModel
  import PatientVisitMigration

  /** `whereToday('date')`. */
  predicate OnToday(v: Visit, today: int) {
    v.date == today
  }

  /** The visits `index` selects, ordered by id descending. */
  function Selected(visits: seq<Visit>, today: int): (r: seq<Visit>)
    ensures forall v :: v in r <==> v in visits && v.date == today
    ensures Descending(r, IdOf)
  {
    SelectByIdDesc(visits, (v: Visit) => OnToday(v, today))
  }

  lemma {:induction false} SelectedStrictlyDescending(visits: seq<Visit>, today: int)
    requires DistinctIds(visits)
    ensures StrictlyDescending(Selected(visits, today), IdOf)
  {
    SelectByIdDescStrict(visits, (v: Visit) => OnToday(v, today));
  }

  /**
   * The status plays no part: two tables that differ only in statuses list
   * the same visits, in the same order.
   */
  lemma {:induction false} SelectedIgnoresStatus(visits: seq<Visit>, visits': seq<Visit>, today: int)
    requires SameButStatus(visits, visits')
    ensures |Selected(visits, today)| == |Selected(visits', today)|
    ensures forall i :: 0 <= i < |Selected(visits, today)| ==>
      Selected(visits, today)[i].id == Selected(visits', today)[i].id &&
      Selected(visits, today)[i].(status := Selected(visits', today)[i].status) == Selected(visits', today)[i]
  {
    SelectByIdDescIgnoresStatus(visits, visits', (v: Visit) => OnToday(v, today));
  }

  /** `index` with the relations the eager load needs. */
  function Index(visits: seq<Visit>, today: int, departments: seq<DepartmentController.Department>,
                 rows: seq<PatientVisitMigration.PivotRow>, patients: seq<PatientModel.Patient>)
    : (r: seq<LoadedVisit>)
    ensures |r| == |Selected(visits, today)|
    ensures forall i :: 0 <= i < |r| ==> r[i].visit in visits && r[i].visit.date == today
    ensures forall i :: 0 <= i < |r| ==>
      r[i].visit == Selected(visits, today)[i] &&
      r[i].department == DepartmentOf(r[i].visit, departments) &&
      r[i].patients == PatientsOf(r[i].visit.id, rows, rows, patients)
  {
    LoadSelected(Selected(visits, today), departments, rows, patients)
  }

  /** As written, the dashboard throws on every day that has a visit. */
  lemma {:induction false} IndexAsWrittenThrows(visits: seq<Visit>, today: int,
      departments: seq<DepartmentController.Department>, rows: seq<PatientVisitMigration.PivotRow>,
      patients: seq<PatientModel.Patient>)
    requires exists v :: v in visits && v.date == today
    ensures LoadAll(RelationsAsWritten(), Selected(visits, today), departments, rows, patients).None?
  {
    var v :| v in visits && v.date == today;
    assert v in Selected(visits, today);
  }
}

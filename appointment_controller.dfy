/** AppointmentController: the bookable (OPEN) visits, and the ticket page of one visit. */
module AppointmentController {
  import opened Common
  import opened VisitModel
  import VisitStatusEnum

  /** `where('status', VisitStatusEnum::Open)`: the stored status is the OPEN backed value. */
  predicate IsOpen(v: Visit) {
    v.status == VisitStatusEnum.Value(VisitStatusEnum.Open)
  }

  /**
   * `index`: every OPEN visit, past or future, and nothing else, ordered by
   * id descending.
   */
  function Index(visits: seq<Visit>): (r: seq<Visit>)
    ensures forall v :: v in r <==> v in visits && v.status == "OPEN"
    ensures Descending(r, IdOf)
  {
    SelectByIdDesc(visits, IsOpen)
  }

  /** Over a table's distinct ids, the listing is strictly descending and has no repeats. */
  lemma {:induction false} IndexStrictlyDescending(visits: seq<Visit>)
    requires DistinctIds(visits)
    ensures StrictlyDescending(Index(visits), IdOf)
  {
    SelectByIdDescStrict(visits, IsOpen);
  }

  /** `add_patients`: the bound visit, unchanged; 404 (`None`) when no visit has the id. */
  function AddPatients(visits: seq<Visit>, id: nat): (r: Option<Visit>)
    ensures r.Some? ==> r.value in visits && r.value.id == id
    ensures r.None? ==> forall v :: v in visits ==> v.id != id
  {
    match PositionOf(visits, VisitId, id)
    case None => None
    case Some(k) => Some(visits[k])
  }
}

/**
 * VisitController: the weekday indices offered by the create form, and the
 * visit writes. `store` and `update` validate their input and write inside a
 * transaction (an exception is the parameter `fails`: nothing is written and
 * the 'Something went wrong' flash is returned); `show` and `destroy` do
 * nothing.
 */
module VisitController {
  import opened Common
  import opened Weekdays
  import DepartmentController
  import opened VisitModel
  import VisitStatusEnum

  /**
   * The request's date as the `date` rule sees it: absent, not a date
   * `strtotime` understands, or a calendar day.
   */
  datatype DateInput = Missing | Unparsable | OnDay(day: int)

  /** The fields `store` and `update` read from the request. */
  datatype VisitRequest = VisitRequest(departmentId: Value, date: DateInput, hospitalName: Value, slotNumber: Value)

  datatype Outcome =
    | Invalid(fields: set<string>)
    | RedirectToEdit(visitId: nat, message: string)
    | Back(message: string)
    | NotFound

  const CreatedMessage := "Visit created successfully"
  const UpdatedMessage := "Visit Updated successfully"
  const FailedMessage := "Something went wrong"

  /**
   * `department_id`, `hospital_name` and `slot_number` need only be present;
   * `date` must be a date. Nothing relates the date to the department's
   * weekdays, the slot to `max_patients`, or the department id to a department.
   */
  function RequestErrors(req: VisitRequest): (errors: set<string>)
    ensures errors == {} <==>
      Required(req.departmentId) && req.date.OnDay? && Required(req.hospitalName) && Required(req.slotNumber)
    ensures "date" in errors <==> !req.date.OnDay?
  {
    FieldErrors(
      "department_id", Required(req.departmentId),
      "date", req.date.OnDay?,
      "hospital_name", Required(req.hospitalName),
      "slot_number", Required(req.slotNumber))
  }

  /**
   * The visit `Visit::create($data)` stores: the four fillable columns from
   * the request; the OPEN status in `$data` is not fillable (AssignedKeys),
   * so the status is the column default.
   */
  function NewVisit(id: nat, req: VisitRequest, statusDefault: string): (v: Visit)
    requires req.date.OnDay?
    ensures v.id == id && v.date == req.date.day && v.departmentId == req.departmentId
    ensures v.hospitalName == req.hospitalName && v.slotNumber == req.slotNumber
    ensures v.status == statusDefault
  {
    Visit(id, req.departmentId, req.date.day, req.hospitalName, req.slotNumber, statusDefault)
  }

  /**
   * `$visit->update($data)`: the four fillable columns change, and the status
   * (not fillable) and the id stay as they were.
   */
  function Assign(v: Visit, req: VisitRequest): (r: Visit)
    requires req.date.OnDay?
    ensures r.id == v.id && r.status == v.status
    ensures r.date == req.date.day && r.departmentId == req.departmentId
    ensures r.hospitalName == req.hospitalName && r.slotNumber == req.slotNumber
  {
    v.(departmentId := req.departmentId, date := req.date.day, hospitalName := req.hospitalName,
       slotNumber := req.slotNumber)
  }

  /** Updating twice with the same request is the same as updating once. */
  lemma {:induction false} AssignIdempotent(v: Visit, req: VisitRequest)
    requires req.date.OnDay?
    ensures Assign(Assign(v, req), req) == Assign(v, req)
  {
  }

  /** The last request wins: an update erases every trace of an earlier one. */
  lemma {:induction false} AssignOverwrites(v: Visit, first: VisitRequest, second: VisitRequest)
    requires first.date.OnDay? && second.date.OnDay?
    ensures Assign(Assign(v, first), second) == Assign(v, second)
  {
  }

  // ---------------------------------------------------------------------------
  // create

  /** `Department::pluck('name', 'id')`: id to name, a later duplicate id overwriting. */
  function DepartmentNames(ds: seq<DepartmentController.Department>): (m: map<nat, string>)
    ensures m.Keys == set d | d in ds :: d.id
    ensures forall d :: d in ds && (forall e :: e in ds && e.id == d.id ==> e == d) ==> m[d.id] == d.name
  {
    if ds == [] then map[]
    else
      var init := DepartmentNames(ds[..|ds| - 1]);
      assert forall d :: d in ds <==> d in ds[..|ds| - 1] || d == ds[|ds| - 1];
      init[ds[|ds| - 1].id := ds[|ds| - 1].name]
  }

  /** `select('day')->groupBy('day')->pluck('day')`: each stored label once. */
  function GroupedDays(rows: seq<DepartmentController.VisitDay>): (labels: seq<string>)
    ensures forall l :: l in labels <==> exists v :: v in rows && v.day == l
    ensures forall i, j :: 0 <= i < j < |labels| ==> labels[i] != labels[j]
  {
    if rows == [] then []
    else
      var rest := GroupedDays(rows[1..]);
      assert rows == [rows[0]] + rows[1..];
      if rows[0].day in rest then rest else [rows[0].day] + rest
  }

  datatype CreateForm = CreateForm(departments: map<nat, string>, days: seq<int>)

  /**
   * `create`: the department names, and the weekday indices of the labels
   * stored for any department, computed as `getDepartment` computes them for
   * one department.
   */
  function Create(ds: seq<DepartmentController.Department>, rows: seq<DepartmentController.VisitDay>)
    : (f: CreateForm)
    ensures f.departments == DepartmentNames(ds)
    ensures StrictlyIncreasing(f.days) && forall k :: k in f.days ==> 0 <= k < 7
    ensures forall i :: 0 <= i < 7 ==> (i in f.days <==> exists v :: v in rows && v.day == Week()[i])
  {
    CreateForm(DepartmentNames(ds), AllowedIndices(GroupedDays(rows)))
  }

  /** Every stored label, duplicates included, in table order. */
  function AllDays(rows: seq<DepartmentController.VisitDay>): (labels: seq<string>)
    ensures |labels| == |rows| && forall i :: 0 <= i < |rows| ==> labels[i] == rows[i].day
  {
    seq(|rows|, i requires 0 <= i < |rows| => rows[i].day)
  }

  /** Grouping the labels before the intersection changes nothing. */
  lemma {:induction false} CreateIgnoresGrouping(rows: seq<DepartmentController.VisitDay>)
    ensures AllowedIndices(GroupedDays(rows)) == AllowedIndices(AllDays(rows))
  {
    var all := AllDays(rows);
    forall l ensures l in GroupedDays(rows) <==> l in all {
      if l in all {
        var i :| 0 <= i < |all| && all[i] == l;
        assert rows[i] in rows;
      }
    }
    AllowedIndicesOfSameLabels(GroupedDays(rows), all);
  }

  /** What `store` answers: the failing fields, the failure flash when the transaction throws, or the new visit's edit page. */
  function StoreOutcome(nextId: nat, req: VisitRequest, fails: bool): (o: Outcome)
    ensures o.Invalid? <==> RequestErrors(req) != {}
    ensures o.Invalid? ==> o.fields == RequestErrors(req)
    ensures o == Back(FailedMessage) <==> (RequestErrors(req) == {} && fails)
    ensures o.RedirectToEdit? <==> (RequestErrors(req) == {} && !fails)
    ensures o.RedirectToEdit? ==> o == RedirectToEdit(nextId, CreatedMessage) && req.date.OnDay?
    ensures !o.NotFound?
  {
    var errors := RequestErrors(req);
    if errors != {} then Invalid(errors)
    else if fails then Back(FailedMessage)
    else RedirectToEdit(nextId, CreatedMessage)
  }

  /** What `update` answers: 404 without the visit, then as `store` with the update flash. */
  function UpdateOutcome(found: bool, id: nat, req: VisitRequest, fails: bool): (o: Outcome)
    ensures o.NotFound? <==> !found
    ensures o.Invalid? <==> (found && RequestErrors(req) != {})
    ensures o.Invalid? ==> o.fields == RequestErrors(req)
    ensures o == Back(FailedMessage) <==> (found && RequestErrors(req) == {} && fails)
    ensures o.RedirectToEdit? <==> (found && RequestErrors(req) == {} && !fails)
    ensures o.RedirectToEdit? ==> o == RedirectToEdit(id, UpdatedMessage) && req.date.OnDay?
  {
    if !found then NotFound
    else
      var errors := RequestErrors(req);
      if errors != {} then Invalid(errors)
      else if fails then Back(FailedMessage)
      else RedirectToEdit(id, UpdatedMessage)
  }

  class VisitTable {
    /** The visits table's default for `status`, which every new visit gets. */
    const statusDefault: string
    var visits: seq<Visit>
    var nextId: nat

    ghost predicate Valid()
      reads this
    {
      (forall i :: 0 <= i < |visits| ==> visits[i].id < nextId) &&
      (forall i, j :: 0 <= i < j < |visits| ==> visits[i].id < visits[j].id)
    }

    constructor (statusDefault: string)
      ensures Valid() && this.statusDefault == statusDefault && visits == [] && nextId == 1
    {
      this.statusDefault := statusDefault;
      visits := [];
      nextId := 1;
    }

    /** `index`: page `page` of all visits, ten per page, in table order. */
    function Index(page: Value): (r: seq<Visit>)
      reads this
      ensures |r| <= PerPage
      ensures forall v :: v in r ==> v in visits
      ensures visits != [] && CurrentPage(page) <= LastPage(|visits|) ==> r != []
      ensures r == PageOf(visits, CurrentPage(page))
      ensures forall i :: 0 <= i < |r| ==> r[i] == visits[(CurrentPage(page) - 1) * PerPage + i]
    {
      PageOf(visits, CurrentPage(page))
    }

    /** `store`: answers as `StoreOutcome`; only a redirect writes, appending the new visit with the default status. */
    method Store(req: VisitRequest, fails: bool) returns (outcome: Outcome)
      requires Valid()
      modifies this
      ensures Valid()
      ensures outcome == StoreOutcome(old(nextId), req, fails)
      ensures !outcome.RedirectToEdit? ==> visits == old(visits) && nextId == old(nextId)
      ensures outcome.RedirectToEdit? ==>
        visits == old(visits) + [NewVisit(old(nextId), req, statusDefault)] && nextId == old(nextId) + 1
    {
      outcome := StoreOutcome(nextId, req, fails);
      if outcome.RedirectToEdit? {
        AddVisit(NewVisit(nextId, req, statusDefault));
      }
    }

    /** Inserts a visit carrying the next id. */
    method AddVisit(v: Visit)
      requires Valid() && v.id == nextId
      modifies this
      ensures Valid()
      ensures visits == old(visits) + [v] && nextId == old(nextId) + 1
    {
      ghost var before := visits;
      visits := visits + [v];
      nextId := nextId + 1;
      assert forall i :: 0 <= i < |before| ==> visits[i] == before[i];
    }

    /**
     * `update`: answers as `UpdateOutcome`; only a redirect writes, and it
     * changes the four data columns of the bound visit and nothing else.
     */
    method Update(id: nat, req: VisitRequest, fails: bool) returns (outcome: Outcome)
      requires Valid()
      modifies this
      ensures Valid() && nextId == old(nextId)
      ensures outcome == UpdateOutcome(PositionOf(old(visits), VisitId, id).Some?, id, req, fails)
      ensures !outcome.RedirectToEdit? ==> visits == old(visits)
      ensures outcome.RedirectToEdit? ==>
        visits == old(visits)[PositionOf(old(visits), VisitId, id).value := Assign(old(visits)[PositionOf(old(visits), VisitId, id).value], req)]
      ensures |visits| == |old(visits)| &&
        forall i :: 0 <= i < |visits| ==> visits[i].id == old(visits)[i].id && visits[i].status == old(visits)[i].status
    {
      var found := PositionOf(visits, VisitId, id);
      outcome := UpdateOutcome(found.Some?, id, req, fails);
      if outcome.RedirectToEdit? {
        SetVisit(found.value, req);
      }
    }

    /** Assigns the request's data columns to the visit at `k`. */
    method SetVisit(k: nat, req: VisitRequest)
      requires Valid() && k < |visits| && req.date.OnDay?
      modifies this`visits
      ensures Valid()
      ensures visits == old(visits)[k := Assign(old(visits)[k], req)]
      ensures forall i :: 0 <= i < |visits| ==> visits[i].id == old(visits)[i].id && visits[i].status == old(visits)[i].status
    {
      visits := visits[k := Assign(visits[k], req)];
    }

    /** `show` has an empty body: it changes nothing and only the route binding can answer 404. */
    method Show(id: nat) returns (found: bool)
      ensures found <==> PositionOf(visits, VisitId, id).Some?
    {
      found := PositionOf(visits, VisitId, id).Some?;
    }

    /** `destroy` has an empty body: no visit is ever removed. */
    method Destroy(id: nat) returns (found: bool)
      ensures found <==> exists i :: 0 <= i < |visits| && visits[i].id == id
    {
      found := PositionOf(visits, VisitId, id).Some?;
    }
  }
}

/**
 * DepartmentController: departments and their visit-day rows.
 *
 * The two tables are the fields of `DepartmentTable`; `store` and `update`
 * are its methods. A database transaction is all-or-nothing, so an exception
 * inside it is the parameter `fails`: when it is set, nothing is written and
 * the 'Something went wrong' flash is returned.
 */
module DepartmentController {
  import opened Common
  import opened Weekdays

  datatype Department = Department(id: nat, name: string, maxPatients: int)

  /** A row of the visit-days table: one bookable weekday label of a department. */
  datatype VisitDay = VisitDay(id: nat, departmentId: nat, day: string)

  /** The fields `store` and `update` read from the request. */
  datatype DepartmentRequest = DepartmentRequest(name: Value, maxPatients: Value, days: Value)

  datatype Outcome =
    | Invalid(fields: set<string>)
    | Saved(message: string)
    | Failed(message: string)
    | NotFound

  const CreatedMessage := "Department created successfully"
  const UpdatedMessage := "Department updated successfully"
  const FailedMessage := "Something went wrong"

  /**
   * The validation of `store` and `update`: name `required|string`,
   * max_patients `required|integer`, days `required|array`. The labels inside
   * `days` and the sign of max_patients are not checked.
   */
  function RequestErrors(req: DepartmentRequest): (errs: set<string>)
    ensures errs <= {"name", "max_patients", "days"}
    ensures errs == {} <==>
      req.name.Str? && Trim(req.name.s, IsPhpSpace) != "" &&
      IsInteger(req.maxPatients) &&
      req.days.List? && req.days.items != []
  {
    var nameOk := Required(req.name) && IsString(req.name);
    var maxOk := Required(req.maxPatients) && IsInteger(req.maxPatients);
    var daysOk := Required(req.days) && req.days.List?;
    var errs := (if nameOk then {} else {"name"}) + (if maxOk then {} else {"max_patients"}) +
      (if daysOk then {} else {"days"});
    assert IsInteger(req.maxPatients) ==> Required(req.maxPatients) by {
      if IsInteger(req.maxPatients) {
        IntegerIsRequired(req.maxPatients);
      }
    }
    assert !nameOk ==> "name" in errs;
    assert !maxOk ==> "max_patients" in errs;
    assert !daysOk ==> "days" in errs;
    errs
  }

  /** The labels of department `d`'s visit-day rows, in stored order (`->pluck('day')`). */
  function DaysOf(rows: seq<VisitDay>, d: nat): (r: seq<string>)
    ensures |r| <= |rows|
    ensures forall l :: l in r <==> exists v :: v in rows && v.departmentId == d && v.day == l
  {
    if rows == [] then []
    else
      assert rows == [rows[0]] + rows[1..];
      (if rows[0].departmentId == d then [rows[0].day] else []) + DaysOf(rows[1..], d)
  }

  lemma {:induction false} DaysOfAppend(a: seq<VisitDay>, b: seq<VisitDay>, d: nat)
    ensures DaysOf(a + b, d) == DaysOf(a, d) + DaysOf(b, d)
  {
    if a != [] {
      assert (a + b)[0] == a[0] && (a + b)[1..] == a[1..] + b;
      DaysOfAppend(a[1..], b, d);
      assert DaysOf(a + b, d) == (if a[0].departmentId == d then [a[0].day] else []) + DaysOf(a[1..] + b, d);
    } else {
      assert a + b == b;
    }
  }

  /** The rows `store`'s loop writes: one per label, in order, with consecutive ids. */
  function DayRows(d: nat, firstId: nat, labels: seq<string>): (rows: seq<VisitDay>)
    ensures |rows| == |labels|
    ensures forall i :: 0 <= i < |labels| ==> rows[i] == VisitDay(firstId + i, d, labels[i])
  {
    seq(|labels|, i requires 0 <= i < |labels| => VisitDay(firstId + i, d, labels[i]))
  }

  /** The labels read back from freshly written rows are exactly the written ones. */
  lemma {:induction false} DaysOfDayRows(d: nat, firstId: nat, labels: seq<string>)
    ensures DaysOf(DayRows(d, firstId, labels), d) == labels
    decreases |labels|
  {
    if labels != [] {
      var rows := DayRows(d, firstId, labels);
      assert rows[1..] == DayRows(d, firstId + 1, labels[1..]);
      DaysOfDayRows(d, firstId + 1, labels[1..]);
    }
  }

  /** Rows of other departments contribute no label to `d`. */
  lemma {:induction false} DaysOfForeign(rows: seq<VisitDay>, d: nat)
    requires forall v :: v in rows ==> v.departmentId != d
    ensures DaysOf(rows, d) == []
  {
    if rows != [] {
      assert rows[0] in rows;
      DaysOfForeign(rows[1..], d);
    }
  }

  /** `$department->visitDays()->delete()`: all rows of other departments, in order. */
  function RowsNotOf(rows: seq<VisitDay>, d: nat): (r: seq<VisitDay>)
    ensures forall v :: v in r <==> v in rows && v.departmentId != d
    ensures forall e :: e != d ==> DaysOf(r, e) == DaysOf(rows, e)
  {
    if rows == [] then []
    else
      var rest := RowsNotOf(rows[1..], d);
      assert rows == [rows[0]] + rows[1..];
      if rows[0].departmentId != d then
        assert [rows[0]] + rest == [rows[0]] + rest;
        DaysOfAppend([rows[0]], rest, rows[0].departmentId);
        [rows[0]] + rest
      else rest
  }

  lemma {:induction false} RowsNotOfAppend(a: seq<VisitDay>, b: seq<VisitDay>, d: nat)
    ensures RowsNotOf(a + b, d) == RowsNotOf(a, d) + RowsNotOf(b, d)
  {
    if a != [] {
      assert (a + b)[0] == a[0] && (a + b)[1..] == a[1..] + b;
      RowsNotOfAppend(a[1..], b, d);
      assert RowsNotOf(a + b, d) == (if a[0].departmentId != d then [a[0]] else []) + RowsNotOf(a[1..] + b, d);
    } else {
      assert a + b == b;
    }
  }

  /** The primary key, as route model binding looks it up. */
  function DepartmentId(d: Department): nat {
    d.id
  }

  /** `->when($request->name, fn => where('name', 'like', "%{$name}%"))`; an array name throws. */
  function NameMatches(ds: seq<Department>, name: Value): (r: Option<seq<Department>>)
    ensures r.None? <==> LikeThrows(name)
    ensures r.Some? ==> |r.value| <= |ds|
    ensures r.Some? ==> forall d :: d in r.value <==> d in ds && LikeKeeps(name, d.name)
    ensures !Truthy(name) ==> r == Some(ds)
  {
    WhenLike(ds, name, (d: Department) => d.name)
  }

  /** One department of the index page, with its eager-loaded visit-day labels. */
  datatype Listing = Listing(department: Department, days: seq<string>)

  /** `index`: the filtered departments, ten per page, each with its day labels; an array filter throws. */
  function Index(ds: seq<Department>, rows: seq<VisitDay>, name: Value, page: Value): (r: Answer<seq<Listing>>)
    ensures !r.BindingMissing?
    ensures r.Thrown? <==> LikeThrows(name)
    ensures r.Rendered? ==> |r.props| <= PerPage
    ensures r.Rendered? ==> forall i :: 0 <= i < |r.props| ==>
      r.props[i].department in ds && r.props[i].days == DaysOf(rows, r.props[i].department.id) &&
      LikeKeeps(name, r.props[i].department.name)
    ensures r.Rendered? ==> (|r.props| == |PageOf(NameMatches(ds, name).value, CurrentPage(page))| &&
      forall i :: 0 <= i < |r.props| ==> r.props[i].department == PageOf(NameMatches(ds, name).value, CurrentPage(page))[i])
    ensures !Truthy(name) ==> (r.Rendered? && |r.props| == |PageOf(ds, CurrentPage(page))| &&
      forall i :: 0 <= i < |r.props| ==> r.props[i].department == PageOf(ds, CurrentPage(page))[i])
    ensures r.Rendered? && CurrentPage(page) == 1 && (exists d :: d in ds && LikeKeeps(name, d.name)) ==> r.props != []
  {
    match NameMatches(ds, name)
    case None => Thrown
    case Some(kept) =>
      var shown := PageOf(kept, CurrentPage(page));
      assert forall d :: d in ds && LikeKeeps(name, d.name) ==> d in kept;
      Rendered(seq(|shown|, i requires 0 <= i < |shown| => Listing(shown[i], DaysOf(rows, shown[i].id))))
  }

  /**
   * `getDepartment`: the weekday indices of one department's labels; a
   * missing department is a 404.
   */
  function GetDepartment(ds: seq<Department>, rows: seq<VisitDay>, id: nat): (r: Option<seq<int>>)
    ensures r.None? <==> PositionOf(ds, DepartmentId, id).None?
    ensures r.Some? ==> StrictlyIncreasing(r.value) && (forall k :: k in r.value ==> 0 <= k < 7)
    ensures r.Some? ==> forall i :: 0 <= i < 7 ==>
      (i in r.value <==> exists v :: v in rows && v.departmentId == id && v.day == Week()[i])
  {
    if PositionOf(ds, DepartmentId, id).None? then None else Some(AllowedIndices(DaysOf(rows, id)))
  }

  /** The departments left after deleting the one with id `id`. */
  function Remaining(ds: seq<Department>, id: nat): (r: seq<Department>)
    ensures forall d :: d in r <==> d in ds && d.id != id
  {
    Where(ds, (d: Department) => d.id != id)
  }

  /** What `store` answers: the failing fields, the failure flash when the transaction throws, or the success flash. */
  function StoreOutcome(req: DepartmentRequest, fails: bool): (o: Outcome)
    ensures o.Invalid? <==> RequestErrors(req) != {}
    ensures o.Invalid? ==> o.fields == RequestErrors(req)
    ensures o == Failed(FailedMessage) <==> (RequestErrors(req) == {} && fails)
    ensures o.Saved? <==> (RequestErrors(req) == {} && !fails)
    ensures o.Saved? ==> (o == Saved(CreatedMessage) && req.name.Str? && IsInteger(req.maxPatients) && req.days.List?)
    ensures !o.NotFound?
  {
    var errs := RequestErrors(req);
    if errs != {} then Invalid(errs)
    else if fails then Failed(FailedMessage)
    else Saved(CreatedMessage)
  }

  /** What `update` answers: 404 without the department, then as `store` with the update flash. */
  function UpdateOutcome(ds: seq<Department>, id: nat, req: DepartmentRequest, fails: bool): (o: Outcome)
    ensures o.NotFound? <==> PositionOf(ds, DepartmentId, id).None?
    ensures o.Invalid? <==> (PositionOf(ds, DepartmentId, id).Some? && RequestErrors(req) != {})
    ensures o.Invalid? ==> o.fields == RequestErrors(req)
    ensures o == Failed(FailedMessage) <==> (PositionOf(ds, DepartmentId, id).Some? && RequestErrors(req) == {} && fails)
    ensures o.Saved? <==> (PositionOf(ds, DepartmentId, id).Some? && RequestErrors(req) == {} && !fails)
    ensures o.Saved? ==> (o == Saved(UpdatedMessage) && req.name.Str? && IsInteger(req.maxPatients) && req.days.List?)
  {
    if PositionOf(ds, DepartmentId, id).None? then NotFound
    else
      var errs := RequestErrors(req);
      if errs != {} then Invalid(errs)
      else if fails then Failed(FailedMessage)
      else Saved(UpdatedMessage)
  }

  datatype DestroyOutcome = DestroyNotFound | RedirectTo(page: Option<int>, message: string)

  class DepartmentTable {
    var departments: seq<Department>
    var visitDays: seq<VisitDay>
    var nextDepartmentId: nat
    var nextVisitDayId: nat

    /** Ids are auto-incremented: increasing, below the next id, and every row names an issued id. */
    ghost predicate Valid()
      reads this
    {
      (forall i :: 0 <= i < |departments| ==> departments[i].id < nextDepartmentId) &&
      (forall i, j :: 0 <= i < j < |departments| ==> departments[i].id < departments[j].id) &&
      (forall v :: v in visitDays ==> v.departmentId < nextDepartmentId && v.id < nextVisitDayId)
    }

    constructor ()
      ensures Valid() && departments == [] && visitDays == []
    {
      departments := [];
      visitDays := [];
      nextDepartmentId := 1;
      nextVisitDayId := 1;
    }

    /** Appends one visit-day row per label, as the `foreach` of `store` and `update` does. */
    method InsertDays(d: nat, labels: seq<string>)
      requires Valid() && d < nextDepartmentId
      modifies this`visitDays, this`nextVisitDayId
      ensures Valid()
      ensures visitDays == old(visitDays) + DayRows(d, old(nextVisitDayId), labels)
      ensures nextVisitDayId == old(nextVisitDayId) + |labels|
    {
      var k := 0;
      while k < |labels|
        invariant 0 <= k <= |labels|
        invariant Valid()
        invariant nextVisitDayId == old(nextVisitDayId) + k
        invariant visitDays == old(visitDays) + DayRows(d, old(nextVisitDayId), labels[..k])
      {
        assert DayRows(d, old(nextVisitDayId), labels[..k + 1]) ==
          DayRows(d, old(nextVisitDayId), labels[..k]) + [VisitDay(nextVisitDayId, d, labels[k])];
        visitDays := visitDays + [VisitDay(nextVisitDayId, d, labels[k])];
        nextVisitDayId := nextVisitDayId + 1;
        k := k + 1;
      }
      assert labels[..k] == labels;
    }

    /**
     * `store`: answers as `StoreOutcome`; on success, one new department and
     * exactly one visit-day row per submitted label, in order, duplicates and
     * unknown labels included.
     */
    method Store(req: DepartmentRequest, fails: bool) returns (outcome: Outcome)
      requires Valid()
      modifies this
      ensures Valid()
      ensures outcome == StoreOutcome(req, fails)
      ensures !outcome.Saved? ==> departments == old(departments) && visitDays == old(visitDays)
      ensures outcome.Saved? ==>
        departments == old(departments) +
          [Department(old(nextDepartmentId), req.name.s, IntegerOf(req.maxPatients))] &&
        visitDays == old(visitDays) + DayRows(old(nextDepartmentId), old(nextVisitDayId), req.days.items) &&
        DaysOf(visitDays, old(nextDepartmentId)) == req.days.items
    {
      outcome := StoreOutcome(req, fails);
      if outcome.Saved? {
        AddDepartment(req.name.s, IntegerOf(req.maxPatients), req.days.items);
      }
    }

    /** Inserts a department with the next id and one visit-day row per label. */
    method AddDepartment(name: string, maxPatients: int, labels: seq<string>)
      requires Valid()
      modifies this
      ensures Valid()
      ensures departments == old(departments) + [Department(old(nextDepartmentId), name, maxPatients)]
      ensures visitDays == old(visitDays) + DayRows(old(nextDepartmentId), old(nextVisitDayId), labels)
      ensures DaysOf(visitDays, old(nextDepartmentId)) == labels
    {
      var id := nextDepartmentId;
      ghost var written := DayRows(id, nextVisitDayId, labels);
      departments := departments + [Department(id, name, maxPatients)];
      nextDepartmentId := id + 1;
      assert Valid();
      DaysOfForeign(visitDays, id);
      DaysOfAppend(visitDays, written, id);
      DaysOfDayRows(id, nextVisitDayId, labels);
      InsertDays(id, labels);
    }

    /**
     * `update`: answers as `UpdateOutcome`; on success, sets the
     * department's name and max_patients, deletes all of its visit-day rows
     * and writes the submitted list afresh. Other departments and their rows
     * are unchanged.
     */
    method Update(id: nat, req: DepartmentRequest, fails: bool) returns (outcome: Outcome)
      requires Valid()
      modifies this
      ensures Valid()
      ensures outcome == UpdateOutcome(old(departments), id, req, fails)
      ensures !outcome.Saved? ==> departments == old(departments) && visitDays == old(visitDays)
      ensures outcome.Saved? ==>
        departments == old(departments)[PositionOf(old(departments), DepartmentId, id).value :=
          Department(id, req.name.s, IntegerOf(req.maxPatients))] &&
        visitDays == RowsNotOf(old(visitDays), id) + DayRows(id, old(nextVisitDayId), req.days.items) &&
        DaysOf(visitDays, id) == req.days.items &&
        (forall e :: e != id ==> DaysOf(visitDays, e) == DaysOf(old(visitDays), e))
    {
      outcome := UpdateOutcome(departments, id, req, fails);
      if outcome.Saved? {
        Rewrite(PositionOf(departments, DepartmentId, id).value, id, req.name.s, IntegerOf(req.maxPatients), req.days.items);
      }
    }

    /** Replaces the department at `k` and its visit-day rows with the given ones. */
    method Rewrite(k: nat, id: nat, name: string, maxPatients: int, labels: seq<string>)
      requires Valid() && k < |departments| && departments[k].id == id
      modifies this
      ensures Valid()
      ensures departments == old(departments)[k := Department(id, name, maxPatients)]
      ensures visitDays == RowsNotOf(old(visitDays), id) + DayRows(id, old(nextVisitDayId), labels)
      ensures DaysOf(visitDays, id) == labels
      ensures forall e :: e != id ==> DaysOf(visitDays, e) == DaysOf(old(visitDays), e)
    {
      assert id < nextDepartmentId;
      departments := departments[k := Department(id, name, maxPatients)];
      var kept := RowsNotOf(visitDays, id);
      visitDays := kept;
      InsertDays(id, labels);
      var written := DayRows(id, old(nextVisitDayId), labels);
      DaysOfForeign(kept, id);
      DaysOfAppend(kept, written, id);
      DaysOfDayRows(id, old(nextVisitDayId), labels);
      forall e | e != id ensures DaysOf(visitDays, e) == DaysOf(old(visitDays), e) {
        DaysOfAppend(kept, written, e);
        DaysOfForeign(written, e);
      }
    }

    /**
     * `destroy`: removes the department (its visit-day rows are left as they
     * are) and redirects to the requested page, clamped to the last page of
     * what remains.
     */
    method Destroy(id: nat, page: Option<int>) returns (outcome: DestroyOutcome)
      requires Valid()
      modifies this`departments
      ensures Valid()
      ensures PositionOf(old(departments), DepartmentId, id).None? ==>
        outcome == DestroyNotFound && departments == old(departments)
      ensures PositionOf(old(departments), DepartmentId, id).Some? ==>
        departments == Remaining(old(departments), id) &&
        outcome == RedirectTo(RedirectPage(page, |departments|), "Department Deleted Successfully")
    {
      if PositionOf(departments, DepartmentId, id).None? {
        return DestroyNotFound;
      }
      WherePairwise(departments, (d: Department) => d.id != id, (a: Department, b: Department) => a.id < b.id);
      departments := Remaining(departments, id);
      return RedirectTo(RedirectPage(page, |departments|), "Department Deleted Successfully");
    }
  }
}

/**
 * The visit edit page: the weekday indices it computes from the visit's
 * department, the date text it stores when a day is picked, the department
 * switch that reloads the allowed weekdays, and the date picker it renders.
 */
module VisitEdit {
  import opened Common
  import opened Weekdays
  import opened DateFormat
  import DatePicker
  import DepartmentController
  import VisitModel

  // ---------------------------------------------------------------------------
  // getVisitDays

  /** `week.filter(day => days.includes(day))`. */
  function FilterIncluded(week: seq<string>, days: seq<string>): (r: seq<string>)
    ensures forall x :: x in r <==> x in week && x in days
  {
    if week == [] then []
    else (if week[0] in days then [week[0]] else []) + FilterIncluded(week[1..], days)
  }

  /** JavaScript's `indexOf`: the first position of `x`, or -1. */
  function IndexOf(xs: seq<string>, x: string): (r: int)
    ensures -1 <= r < |xs|
    ensures r >= 0 ==> xs[r] == x && x !in xs[..r]
    ensures r == -1 <==> x !in xs
  {
    if xs == [] then -1
    else if xs[0] == x then 0
    else
      var r := IndexOf(xs[1..], x);
      if r == -1 then -1 else (assert xs[..r + 1] == [xs[0]] + xs[1..][..r]; r + 1)
  }

  function IndicesOf(week: seq<string>, xs: seq<string>): (r: seq<int>)
    ensures |r| == |xs|
    ensures forall i :: 0 <= i < |r| ==> r[i] == IndexOf(week, xs[i])
  {
    if xs == [] then [] else [IndexOf(week, xs[0])] + IndicesOf(week, xs[1..])
  }

  /**
   * `getVisitDays`: the labels of the visit's department's visit days,
   * matched against the week and turned into the week's positions.
   */
  function GetVisitDays(visitDays: seq<string>): (r: seq<int>)
    ensures forall i :: 0 <= i < |r| ==> 0 <= r[i] < 7 && Week()[r[i]] in visitDays
  {
    WeekDistinct();
    IndicesOf(Week(), FilterIncluded(Week(), visitDays))
  }

  /** The week has seven distinct labels. */
  lemma WeekDistinct()
    ensures |Week()| == 7
    ensures forall i, j :: 0 <= i < j < 7 ==> Week()[i] != Week()[j]
  {
    var w := Week();
    assert w[0][0] == 'S' && w[1][0] == 'M' && w[2][0] == 'T' && w[3][0] == 'W';
    assert w[4][0] == 'T' && w[5][0] == 'F' && w[6][0] == 'S';
    assert w[2][1] == 'u' && w[4][1] == 'h' && w[0][1] == 'u' && w[6][1] == 'a';
  }

  lemma {:induction false} WeekIndexOf(k: nat)
    requires k < 7
    ensures IndexOf(Week(), Week()[k]) == k
  {
    WeekDistinct();
    assert Week()[k] in Week();
    var r := IndexOf(Week(), Week()[k]);
    assert forall i :: 0 <= i < r ==> Week()[..r][i] == Week()[i];
  }

  lemma {:induction false} GetVisitDaysFrom(days: seq<string>, k: nat)
    requires k <= 7
    ensures IndicesOf(Week(), FilterIncluded(Week()[k..], days)) == IndicesFrom(days, k)
    decreases 7 - k
  {
    if k < 7 {
      var w := Week()[k..];
      assert w != [] && w[0] == Week()[k] && w[1..] == Week()[k + 1..];
      var rest := FilterIncluded(Week()[k + 1..], days);
      assert FilterIncluded(w, days) == (if Week()[k] in days then [Week()[k]] else []) + rest;
      GetVisitDaysFrom(days, k + 1);
      if Week()[k] in days {
        var xs := [Week()[k]] + rest;
        assert xs[0] == Week()[k] && xs[1..] == rest;
        WeekIndexOf(k);
        assert IndicesOf(Week(), xs) == [k] + IndicesFrom(days, k + 1);
      } else {
        assert [] + rest == rest;
      }
    }
  }

  /**
   * The page's `getVisitDays` and the server's "allowed weekday indices"
   * rule give the same list for the same labels.
   */
  lemma GetVisitDaysIsAllowedIndices(visitDays: seq<string>)
    ensures GetVisitDays(visitDays) == AllowedIndices(visitDays)
    ensures StrictlyIncreasing(GetVisitDays(visitDays))
    ensures forall i :: 0 <= i < 7 ==> (i in GetVisitDays(visitDays) <==> Week()[i] in visitDays)
  {
    assert Week()[0..] == Week();
    GetVisitDaysFrom(visitDays, 0);
  }

  /** For a department's own visit days, the page computes what `getDepartment` answers. */
  lemma GetVisitDaysMatchesGetDepartment(ds: seq<DepartmentController.Department>,
                                         rows: seq<DepartmentController.VisitDay>, id: nat)
    requires PositionOf(ds, DepartmentController.DepartmentId, id).Some?
    ensures DepartmentController.GetDepartment(ds, rows, id) ==
      Some(GetVisitDays(DepartmentController.DaysOf(rows, id)))
  {
    GetVisitDaysIsAllowedIndices(DepartmentController.DaysOf(rows, id));
  }

  // ---------------------------------------------------------------------------
  // The form

  /** The visit as the page receives it; `departmentDays` are its department's visit-day labels. */
  datatype PageVisit = PageVisit(id: nat, date: string, departmentId: nat, departmentDays: seq<string>,
                                 hospitalName: string, slotNumber: int)

  /** The keys of the form `useForm` holds and `patch` sends. */
  function FormKeys(): seq<string> {
    ["date", "department_id", "hospital_name", "slot_number"]
  }

  /** The form sends exactly the Visit model's fillable attributes, and no status. */
  lemma FormKeysAreFillable()
    ensures (set k | k in FormKeys()) == (set k | k in VisitModel.Fillable())
    ensures "status" !in FormKeys()
  {
  }

  /** What the department lookup answers: a response with its status and body, or a rejection or network error. */
  datatype Response = Answered(status: int, data: seq<int>) | Rejected

  /** The picker the page renders: no past days, 60 days ahead, the allowed weekdays. */
  function EditPicker(allowedDays: seq<int>): (p: DatePicker.Props)
    ensures !p.allowPastDates && p.maxFutureDays == Some(60) && p.allowedDays == Some(allowedDays)
    ensures p.disabledDays.None?
  {
    DatePicker.MakeProps(Some(false), Some(60), Some(allowedDays), None)
  }

  /**
   * With any allowed weekday the page's past and horizon props are ignored:
   * a day is disabled exactly when its weekday is not allowed. Only when the
   * list is empty do they apply.
   */
  lemma EditPickerRules(allowedDays: seq<int>, today: int, date: int)
    ensures allowedDays != [] ==>
      (DatePicker.IsDateDisabled(EditPicker(allowedDays), today, date) <==> Weekday(date) !in allowedDays)
    ensures allowedDays == [] ==>
      (DatePicker.IsDateDisabled(EditPicker(allowedDays), today, date) <==> date < today || date > today + 60)
  {
  }

  /**
   * For the indices of a department's labels, a day is disabled exactly when
   * its weekday's label is not among them, or, when no label names a weekday,
   * exactly outside today through 60 days ahead.
   */
  lemma {:induction false} PickerFollowsLabels(labels: seq<string>, today: int, date: int)
    ensures var disabled := DatePicker.IsDateDisabled(EditPicker(GetVisitDays(labels)), today, date);
      ((exists i :: 0 <= i < 7 && Week()[i] in labels) ==> (disabled <==> Week()[Weekday(date)] !in labels)) &&
      ((forall i :: 0 <= i < 7 ==> Week()[i] !in labels) ==> (disabled <==> date < today || date > today + 60))
  {
    var allowed := GetVisitDays(labels);
    GetVisitDaysIsAllowedIndices(labels);
    EditPickerRules(allowed, today, date);
    if allowed != [] {
      assert allowed[0] in allowed;
    }
  }

  class EditForm {
    var date: string
    var departmentId: string
    var hospitalName: string
    var slotNumber: string
    var allowedDays: seq<int>

    /** The form starts from the visit, with the visit's department's weekdays allowed. */
    constructor (v: PageVisit)
      ensures date == v.date && departmentId == NatToString(v.departmentId)
      ensures hospitalName == v.hospitalName && slotNumber == IntToString(v.slotNumber)
      ensures allowedDays == AllowedIndices(v.departmentDays)
    {
      date := v.date;
      departmentId := NatToString(v.departmentId);
      hospitalName := v.hospitalName;
      slotNumber := IntToString(v.slotNumber);
      GetVisitDaysIsAllowedIndices(v.departmentDays);
      allowedDays := GetVisitDays(v.departmentDays);
    }

    /** `handleDateChange`: the picked day's text, or '' when the selection is cleared. */
    method HandleDateChange(picked: Option<CalendarDate>)
      requires picked.Some? ==> IsCalendarDate(picked.value)
      modifies this`date
      ensures picked.None? ==> date == ""
      ensures picked.Some? ==> date == FormatDate(picked.value) && ParseDate(date) == picked
    {
      if picked.Some? {
        date := FormatDate(picked.value);
        FormatDateRoundTrip(picked.value);
      } else {
        date := "";
      }
    }

    /**
     * `changeDepartment`: only a 200 answer replaces the allowed weekdays and
     * selects the department; another status, a rejection or a network error
     * changes neither.
     */
    method ChangeDepartment(value: string, response: Response)
      modifies this`allowedDays, this`departmentId
      ensures response.Answered? && response.status == 200 ==>
        allowedDays == response.data && departmentId == value
      ensures !(response.Answered? && response.status == 200) ==>
        allowedDays == old(allowedDays) && departmentId == old(departmentId)
    {
      if response.Answered? && response.status == 200 {
        allowedDays := response.data;
        departmentId := value;
      }
    }
  }
}

/**
 * The department create and edit pages: the form each starts from, and the
 * weekday checkboxes whose toggle builds the submitted `days` list. Both
 * pages toggle the same way, so the toggle is defined once.
 */
module DepartmentForms {
  import opened Common
  import opened Weekdays

  /** The checkbox labels, Monday first. */
  function DayOptions(): seq<string> {
    ["Mon", "Tue", "Wed", "Thu", "Fri", "Sat", "Sun"]
  }

  /** Every option is a label of the server's week, so each checked box counts as a weekday there. */
  lemma DayOptionsAreWeekLabels()
    ensures forall o :: o in DayOptions() ==> o in Week()
    ensures forall w :: w in Week() ==> w in DayOptions()
  {
    var d, w := DayOptions(), Week();
    assert d[0] == w[1] && d[1] == w[2] && d[2] == w[3] && d[3] == w[4];
    assert d[4] == w[5] && d[5] == w[6] && d[6] == w[0];
  }

  /** `days.filter(d => d !== day)`. */
  function Without(days: seq<string>, day: string): (r: seq<string>)
    ensures day !in r
    ensures forall x :: x != day ==> (x in r <==> x in days)
    ensures |r| <= |days|
  {
    if days == [] then []
    else (if days[0] == day then [] else [days[0]]) + Without(days[1..], day)
  }

  /** `handleDayToggle`: checking appends the day at the end; unchecking removes every occurrence of it. */
  function Toggle(days: seq<string>, day: string, checked: bool): (r: seq<string>)
    ensures checked ==> r == days + [day]
    ensures !checked ==> r == Without(days, day)
  {
    if checked then days + [day] else Without(days, day)
  }

  /** `checked={days.includes(day)}`. */
  predicate IsChecked(days: seq<string>, day: string) {
    day in days
  }

  /** After a toggle the day's box shows the new value and every other box is as it was. */
  lemma ToggleChecks(days: seq<string>, day: string, checked: bool, other: string)
    requires other != day
    ensures IsChecked(Toggle(days, day, checked), day) == checked
    ensures IsChecked(Toggle(days, day, checked), other) == IsChecked(days, other)
  {
  }

  /** Filtering distributes over concatenation, so the other days keep their relative order. */
  lemma {:induction false} WithoutAppend(a: seq<string>, b: seq<string>, day: string)
    ensures Without(a + b, day) == Without(a, day) + Without(b, day)
  {
    if a != [] {
      assert (a + b)[0] == a[0] && (a + b)[1..] == a[1..] + b;
      WithoutAppend(a[1..], b, day);
    } else {
      assert a + b == b;
    }
  }

  /** Unchecking removes only the day: every other day keeps its number of occurrences. */
  lemma {:induction false} WithoutCounts(days: seq<string>, day: string)
    ensures multiset(Without(days, day)) == multiset(days)[day := 0]
  {
    if days != [] {
      WithoutCounts(days[1..], day);
      assert days == [days[0]] + days[1..];
    }
  }

  /** A list without the day is left as it is by unchecking it. */
  lemma {:induction false} WithoutAbsent(days: seq<string>, day: string)
    requires day !in days
    ensures Without(days, day) == days
  {
    if days != [] {
      WithoutAbsent(days[1..], day);
      assert days == [days[0]] + days[1..];
    }
  }

  /** Checking an unchecked day and then unchecking it restores the list. */
  lemma ToggleOnThenOff(days: seq<string>, day: string)
    requires day !in days
    ensures Toggle(Toggle(days, day, true), day, false) == days
  {
    WithoutAppend(days, [day], day);
    WithoutAbsent(days, day);
    assert Without([day], day) == [];
  }

  /** The create page's form: empty name and capacity, no day. */
  class CreateForm {
    var name: string
    var maxPatients: string
    var days: seq<string>

    constructor ()
      ensures name == "" && maxPatients == "" && days == []
    {
      name := "";
      maxPatients := "";
      days := [];
    }

    method HandleDayToggle(day: string, checked: bool)
      modifies this`days
      ensures days == Toggle(old(days), day, checked)
    {
      days := Toggle(days, day, checked);
    }
  }

  /**
   * The edit page's form: the department's name and capacity, and the labels
   * of its visit days in the order they arrive, or no day when the
   * department comes without them.
   */
  class EditForm {
    var name: string
    var maxPatients: int
    var days: seq<string>

    constructor (departmentName: string, departmentMaxPatients: int, visitDays: Option<seq<string>>)
      ensures name == departmentName && maxPatients == departmentMaxPatients
      ensures visitDays.Some? ==> days == visitDays.value
      ensures visitDays.None? ==> days == []
    {
      name := departmentName;
      maxPatients := departmentMaxPatients;
      days := if visitDays.Some? then visitDays.value else [];
    }

    method HandleDayToggle(day: string, checked: bool)
      modifies this`days
      ensures days == Toggle(old(days), day, checked)
    {
      days := Toggle(days, day, checked);
    }
  }
}

/**
 * `formatDate`, written identically in the visit edit page and the patient
 * form: a JavaScript date as `year/MM/DD`, and a reader that takes such a
 * text back apart.
 */
module DateFormat {
  import opened Common

  /** What a JavaScript `Date` reports: `getFullYear`, `getMonth` (0 for January) and `getDate`. */
  datatype CalendarDate = CalendarDate(year: int, month: int, day: int)

  predicate IsCalendarDate(d: CalendarDate) {
    0 <= d.month < 12 && 1 <= d.day <= 31
  }

  /** `padStart(2, '0')`. */
  function Pad2(s: string): (r: string)
    ensures |s| >= 2 ==> r == s
    ensures |s| < 2 ==> |r| == 2 && r[2 - |s|..] == s && forall i :: 0 <= i < 2 - |s| ==> r[i] == '0'
  {
    if |s| >= 2 then s else if |s| == 1 then "0" + s else "00"
  }

  /** A number below 100, as `toString().padStart(2, '0')`: two digits denoting it. */
  lemma TwoDigits(n: nat)
    requires n < 100
    ensures var s := Pad2(NatToString(n)); |s| == 2 && AllDigits(s) && DigitsValue(s) == n
  {
    var t := NatToString(n);
    DigitsOfNat(n);
    var s := Pad2(t);
    if n < 10 {
      assert s == ['0'] + t;
      assert s[..1] == "0";
      assert DigitsValue(s[..1]) == 0 by {
        assert s[..1][..0] == [];
      }
    }
  }

  /** `formatDate`: the year unpadded, then the month and the day of month, each on two digits, joined by '/'. */
  function FormatDate(d: CalendarDate): (r: string)
    requires IsCalendarDate(d)
    ensures |r| >= 7 && r[|r| - 6] == '/' && r[|r| - 3] == '/'
    ensures r[..|r| - 6] == IntToString(d.year)
    ensures var mm := r[|r| - 5..|r| - 3]; AllDigits(mm) && DigitsValue(mm) == d.month + 1
    ensures var dd := r[|r| - 2..]; AllDigits(dd) && DigitsValue(dd) == d.day
  {
    var year := IntToString(d.year);
    var mm := Pad2(NatToString(d.month + 1));
    var dd := Pad2(NatToString(d.day));
    TwoDigits(d.month + 1);
    TwoDigits(d.day);
    JoinedParts(year, mm, dd);
    year + "/" + mm + "/" + dd
  }

  /** Where the parts of a `year/MM/DD` text sit, counted from its end. */
  lemma JoinedParts(year: string, mm: string, dd: string)
    requires |mm| == 2 && |dd| == 2
    ensures var r := year + "/" + mm + "/" + dd;
      |r| == |year| + 6 && r[|r| - 6] == '/' && r[|r| - 3] == '/' &&
      r[..|r| - 6] == year && r[|r| - 5..|r| - 3] == mm && r[|r| - 2..] == dd
  {
    var r := year + "/" + mm + "/" + dd;
    assert r[..|r| - 6] == year;
    assert r[|r| - 5..|r| - 3] == mm;
    assert r[|r| - 2..] == dd;
  }

  /** The integer an `IntToString` text denotes. */
  function YearValue(s: string): Option<int> {
    if |s| >= 2 && s[0] == '-' && AllDigits(s[1..]) then Some(-(DigitsValue(s[1..]) as int))
    else if |s| >= 1 && AllDigits(s) then Some(DigitsValue(s))
    else None
  }

  /** An integer's text reads back as that integer. */
  lemma YearRoundTrip(year: int)
    ensures YearValue(IntToString(year)) == Some(year)
  {
    var t := NatToString(if year < 0 then -year else year);
    DigitsOfNat(if year < 0 then -year else year);
    if year < 0 {
      var s := "-" + t;
      assert IntToString(year) == s;
      assert s[1..] == t && AllDigits(s[1..]);
      assert YearValue(s) == Some(-(DigitsValue(t) as int));
    } else {
      assert IntToString(year) == t;
      assert IsDigit(t[0]);
      assert YearValue(t) == Some(DigitsValue(t));
    }
  }

  /** Reads a `formatDate` text back: year, then two-digit month and day. */
  function ParseDate(s: string): (r: Option<CalendarDate>)
  {
    if |s| >= 7 && s[|s| - 6] == '/' && s[|s| - 3] == '/' &&
       AllDigits(s[|s| - 5..|s| - 3]) && AllDigits(s[|s| - 2..]) && YearValue(s[..|s| - 6]).Some?
    then Some(CalendarDate(YearValue(s[..|s| - 6]).value, DigitsValue(s[|s| - 5..|s| - 3]) - 1, DigitsValue(s[|s| - 2..])))
    else None
  }

  /** The stored text determines the picked day: reading it back gives the same year, month and day. */
  lemma FormatDateRoundTrip(d: CalendarDate)
    requires IsCalendarDate(d)
    ensures ParseDate(FormatDate(d)) == Some(d)
  {
    YearRoundTrip(d.year);
  }
}

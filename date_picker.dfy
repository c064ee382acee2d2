/**
 * DatePicker: which calendar days the picker greys out, and what it does
 * when a day is picked. A calendar day is a day number (as in Weekdays);
 * `today` is the day holding the current instant, a parameter since the
 * clock is not modelled. The calendar hands `isDateDisabled` the start of
 * each day it draws, so comparing day numbers is comparing those instants.
 */
module DatePicker {
  import opened Common
  import opened Weekdays

  /** The props the rules read; an absent prop is None. */
  datatype Props = Props(
    allowPastDates: bool,
    maxFutureDays: Option<int>,
    allowedDays: Option<seq<int>>,
    disabledDays: Option<seq<int>>)

  /** The props as received: an absent `allowPastDates` takes its default, false. */
  function MakeProps(allowPastDates: Option<bool>, maxFutureDays: Option<int>,
                     allowedDays: Option<seq<int>>, disabledDays: Option<seq<int>>): (p: Props)
    ensures allowPastDates.None? ==> !p.allowPastDates
    ensures allowPastDates.Some? ==> p.allowPastDates == allowPastDates.value
    ensures p.maxFutureDays == maxFutureDays && p.allowedDays == allowedDays && p.disabledDays == disabledDays
  {
    Props(if allowPastDates.Some? then allowPastDates.value else false, maxFutureDays, allowedDays, disabledDays)
  }

  /** Whether the allow-list rule is in force: a non-empty `allowedDays`. */
  predicate HasAllowList(p: Props) {
    p.allowedDays.Some? && |p.allowedDays.value| > 0
  }

  /**
   * `isDateDisabled`: a non-empty allow-list alone decides; otherwise a
   * listed disabled weekday, a day before today (unless past days are
   * allowed) or a day after `today + maxFutureDays` is disabled.
   */
  function IsDateDisabled(p: Props, today: int, date: int): (disabled: bool)
    ensures HasAllowList(p) ==> (disabled <==> Weekday(date) !in p.allowedDays.value)
    ensures !HasAllowList(p) && p.disabledDays.Some? && Weekday(date) in p.disabledDays.value ==> disabled
    ensures !HasAllowList(p) && !p.allowPastDates && date < today ==> disabled
    ensures !HasAllowList(p) && p.maxFutureDays.Some? && date > today + p.maxFutureDays.value ==> disabled
    ensures (!HasAllowList(p) && disabled) ==>
      (p.disabledDays.Some? && Weekday(date) in p.disabledDays.value) ||
      (!p.allowPastDates && date < today) ||
      (p.maxFutureDays.Some? && date > today + p.maxFutureDays.value)
  {
    var w := Weekday(date);
    if HasAllowList(p) then w !in p.allowedDays.value
    else if p.disabledDays.Some? && w in p.disabledDays.value then true
    else if !p.allowPastDates && date < today then true
    else if p.maxFutureDays.Some? && date > today + p.maxFutureDays.value then true
    else false
  }

  /** Under an allow-list only the weekday matters: a day and the same day a week later agree. */
  lemma AllowListIsWeekly(p: Props, today: int, date: int, weeks: int)
    requires HasAllowList(p)
    ensures IsDateDisabled(p, today, date + 7 * weeks) == IsDateDisabled(p, today, date)
  {
    assert (date + 7 * weeks + 4) % 7 == (date + 4) % 7;
  }

  /**
   * Without allow-list or disabled weekdays, with past days refused and a
   * horizon of `m` days, the enabled days are exactly today through
   * `today + m`, both ends included.
   */
  lemma EnabledWindow(p: Props, today: int, date: int)
    requires !HasAllowList(p) && (p.disabledDays.None? || p.disabledDays.value == [])
    requires !p.allowPastDates && p.maxFutureDays.Some?
    ensures !IsDateDisabled(p, today, date) <==> today <= date <= today + p.maxFutureDays.value
  {
  }

  /** With no rule given at all, every day from today on is enabled and every earlier day disabled. */
  lemma DefaultsRefusePast(today: int, date: int)
    ensures var p := MakeProps(None, None, None, None);
      IsDateDisabled(p, today, date) <==> date < today
  {
  }

  /**
   * The picker's state: the selected day (None when nothing is selected) and
   * the values handed to `onChange`, in order. `hasOnChange` says whether the
   * parent passed a handler at all.
   */
  class Picker {
    var date: Option<int>
    var notified: seq<Option<int>>
    const hasOnChange: bool

    /** The selection starts as the `value` prop. */
    constructor (value: Option<int>, hasOnChange: bool)
      ensures date == value && notified == [] && this.hasOnChange == hasOnChange
    {
      date := value;
      notified := [];
      this.hasOnChange := hasOnChange;
    }

    /** `handleDateChange`: the new day becomes the selection and, when there is a handler, is passed on unchanged. */
    method HandleDateChange(newDate: Option<int>)
      modifies this`date, this`notified
      ensures date == newDate
      ensures notified == old(notified) + (if hasOnChange then [newDate] else [])
    {
      date := newDate;
      if hasOnChange {
        notified := notified + [newDate];
      }
    }
  }
}

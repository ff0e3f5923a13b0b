/**
  The scheduling rule both birthday reports share
  (goit-pycore-hw-07/task_1.py and goit-pycore-hw-03/task_4.py):
  the next occurrence of a birthday counted from today, and the move of a
  weekend date to the following Monday. The two reports differ only in the
  window they keep, which each states itself.
*/
module BirthdayRule {
  import opened Wrappers
  import opened Calendar

  /** `birthday.replace(year=today.year)`, moved on with
      `.replace(year=today.year + 1)` when strictly before today.
      None where either `replace` raises ValueError. */
  function NextOccurrence(birthday: Date, today: Date): (r: Option<Date>)
    requires ValidDate(birthday) && ValidDate(today)
    ensures r.Some? ==> ValidDate(r.value)
  {
    match Replace(birthday, today.year)
    case None => None
    case Some(thisYear) =>
      if Before(thisYear, today) then Replace(thisYear, today.year + 1) else Some(thisYear)
  }

  /** The congratulation date: Saturday plus two days, Sunday plus one,
      any other day unchanged. */
  function ShiftOffWeekend(d: Date): (r: Date)
    requires ValidDate(d)
    ensures ValidDate(r)
  {
    LastDaysAreWeekdays();
    if Weekday(d) == Saturday then
      NextDayOrdinal(d);
      NextDayOrdinal(NextDay(d));
      NextDay(NextDay(d))
    else if Weekday(d) == Sunday then
      NextDayOrdinal(d);
      NextDay(d)
    else d
  }

  // ---------------------------------------------------------------------------
  // Properties

  /** The occurrence keeps the birthday's month and day, lies in this year or
      the next, is never before today, and rolls over to next year exactly
      when this year's date is strictly before today. */
  lemma NextOccurrenceFacts(birthday: Date, today: Date)
    requires ValidDate(birthday) && ValidDate(today)
    requires NextOccurrence(birthday, today).Some?
    ensures var o := NextOccurrence(birthday, today).value;
      && ValidDate(o)
      && o.month == birthday.month && o.day == birthday.day
      && (o.year == today.year + 1 <==> Before(Date(today.year, birthday.month, birthday.day), today))
      && (o.year == today.year || o.year == today.year + 1)
      && 0 <= DaysBetween(o, today)
      && (DaysBetween(o, today) == 0 <==> o == today)
  {
    var o := NextOccurrence(birthday, today).value;
    BeforeIsOrdinalOrder(o, today);
  }

  lemma LeapYearsAreApart(y: int)
    requires IsLeap(y)
    ensures !IsLeap(y + 1)
  {
  }

  /** `replace` raises exactly for a 29 February birthday whose year has no
      such day, and for a date before today in year 9999, which has no next
      year. */
  lemma NextOccurrenceFails(birthday: Date, today: Date)
    requires ValidDate(birthday) && ValidDate(today)
    ensures NextOccurrence(birthday, today).None? <==>
      var thisYear := Date(today.year, birthday.month, birthday.day);
      || (birthday.month == 2 && birthday.day == 29 && (!IsLeap(today.year) || Before(thisYear, today)))
      || (today.year == MaxYear && Before(thisYear, today))
  {
    if IsLeap(today.year) {
      LeapYearsAreApart(today.year);
    }
  }

  /** The congratulation date is never a Saturday or Sunday, is the
      occurrence itself on a weekday, and otherwise the Monday after it. */
  lemma ShiftOffWeekendFacts(d: Date)
    requires ValidDate(d)
    ensures !IsWeekend(ShiftOffWeekend(d))
    ensures ShiftOffWeekend(d) == d <==> !IsWeekend(d)
    ensures DaysBetween(ShiftOffWeekend(d), d) == (if Weekday(d) == Saturday then 2 else if Weekday(d) == Sunday then 1 else 0)
    ensures IsWeekend(d) ==> Weekday(ShiftOffWeekend(d)) == 0
  {
    if Weekday(d) == Saturday {
      SaturdayShift(d);
    } else if Weekday(d) == Sunday {
      SundayShift(d);
    }
  }

  /** A Saturday moves two days on, to a Monday. */
  lemma SaturdayShift(d: Date)
    requires ValidDate(d) && Weekday(d) == Saturday
    ensures Ordinal(ShiftOffWeekend(d)) == Ordinal(d) + 2
    ensures Weekday(ShiftOffWeekend(d)) == 0
  {
    DayAfter(d);
    DayAfter(NextDay(d));
  }

  /** A Sunday moves one day on, to a Monday. */
  lemma SundayShift(d: Date)
    requires ValidDate(d) && Weekday(d) == Sunday
    ensures Ordinal(ShiftOffWeekend(d)) == Ordinal(d) + 1
    ensures Weekday(ShiftOffWeekend(d)) == 0
  {
    DayAfter(d);
  }

  /** The day after a weekend day is a valid date one day on: the last
      representable day is a Friday. */
  lemma DayAfter(d: Date)
    requires ValidDate(d) && IsWeekend(d)
    ensures ValidDate(NextDay(d))
    ensures Ordinal(NextDay(d)) == Ordinal(d) + 1
    ensures Weekday(NextDay(d)) == (Weekday(d) + 1) % 7
  {
    LastDaysAreWeekdays();
    NextDayOrdinal(d);
    NextDayWeekday(d);
  }
}

/**
  The proleptic Gregorian calendar as Python's `datetime.date` implements it:
  years 1..9999, day numbers as `date.toordinal()` (0001-01-01 is day 1),
  `weekday()` with Monday = 0, comparison of dates, `replace(year=...)`
  and adding one day.
*/
module Calendar {
  import opened Wrappers

  datatype Date = Date(year: int, month: int, day: int)

  const MinYear: int := 1
  const MaxYear: int := 9999

  const Saturday: int := 5
  const Sunday: int := 6

  predicate IsLeap(y: int) {
    y % 4 == 0 && (y % 100 != 0 || y % 400 == 0)
  }

  function YearLength(y: int): int {
    if IsLeap(y) then 366 else 365
  }

  predicate ValidMonth(m: int) {
    1 <= m <= 12
  }

  function DaysInMonth(y: int, m: int): (n: int)
    requires ValidMonth(m)
    ensures 28 <= n <= 31
  {
    if m == 2 then (if IsLeap(y) then 29 else 28)
    else if m == 4 || m == 6 || m == 9 || m == 11 then 30
    else 31
  }

  /** A date the `date` constructor accepts. */
  predicate ValidDate(d: Date) {
    MinYear <= d.year <= MaxYear && ValidMonth(d.month) && 1 <= d.day <= DaysInMonth(d.year, d.month)
  }

  /** Days in the years before `y`, as in `_days_before_year`. */
  function DaysBeforeYear(y: int): int {
    var p := y - 1;
    p * 365 + p / 4 - p / 100 + p / 400
  }

  /** Days in the months of a common year before month `m`. */
  function CommonDaysBeforeMonth(m: int): int
    requires ValidMonth(m)
  {
    [0, 0, 31, 59, 90, 120, 151, 181, 212, 243, 273, 304, 334][m]
  }

  /** Days in year `y` before month `m`, as in `_days_before_month`. */
  function DaysBeforeMonth(y: int, m: int): int
    requires ValidMonth(m)
  {
    CommonDaysBeforeMonth(m) + (if m > 2 && IsLeap(y) then 1 else 0)
  }

  /** `date.toordinal()`. */
  function Ordinal(d: Date): int
    requires ValidMonth(d.month)
  {
    DaysBeforeYear(d.year) + DaysBeforeMonth(d.year, d.month) + d.day
  }

  /** `date.weekday()`: Monday is 0, Sunday is 6. */
  function Weekday(d: Date): (w: int)
    requires ValidMonth(d.month)
    ensures 0 <= w < 7
  {
    (Ordinal(d) + 6) % 7
  }

  predicate IsWeekend(d: Date)
    requires ValidMonth(d.month)
  {
    Weekday(d) == Saturday || Weekday(d) == Sunday
  }

  /** `(a - b).days` for two dates. */
  function DaysBetween(a: Date, b: Date): int
    requires ValidMonth(a.month) && ValidMonth(b.month)
  {
    Ordinal(a) - Ordinal(b)
  }

  /** Python's `a < b` on dates: (year, month, day) compared lexicographically. */
  predicate Before(a: Date, b: Date) {
    a.year < b.year
    || (a.year == b.year && a.month < b.month)
    || (a.year == b.year && a.month == b.month && a.day < b.day)
  }

  /** `d.replace(year=y)`: None where Python raises ValueError (29 February
      in a common year, or a year outside 1..9999). */
  function Replace(d: Date, y: int): (r: Option<Date>)
    requires ValidDate(d)
    ensures r.Some? <==> MinYear <= y <= MaxYear && !(d.month == 2 && d.day == 29 && !IsLeap(y))
    ensures r.Some? ==> ValidDate(r.value) && r.value == Date(y, d.month, d.day)
  {
    var c := Date(y, d.month, d.day);
    if ValidDate(c) then Some(c) else None
  }

  /** `d + timedelta(days=1)`, before the range check Python makes on the year. */
  function NextDay(d: Date): Date
    requires ValidDate(d)
  {
    if d.day < DaysInMonth(d.year, d.month) then Date(d.year, d.month, d.day + 1)
    else if d.month < 12 then Date(d.year, d.month + 1, 1)
    else Date(d.year + 1, 1, 1)
  }

  // ---------------------------------------------------------------------------
  // Day numbers

  lemma DaysBeforeYearStep(y: int)
    requires y >= 1
    ensures DaysBeforeYear(y + 1) == DaysBeforeYear(y) + YearLength(y)
  {
    QuotientStep4(y);
    QuotientStep100(y);
    QuotientStep400(y);
  }

  lemma QuotientStep4(y: int)
    ensures y / 4 == (y - 1) / 4 + (if y % 4 == 0 then 1 else 0)
  {
  }

  lemma QuotientStep100(y: int)
    ensures y / 100 == (y - 1) / 100 + (if y % 100 == 0 then 1 else 0)
  {
  }

  lemma QuotientStep400(y: int)
    ensures y / 400 == (y - 1) / 400 + (if y % 400 == 0 then 1 else 0)
  {
  }

  lemma {:induction false} DaysBeforeYearMonotone(y1: int, y2: int)
    requires 1 <= y1 < y2
    ensures DaysBeforeYear(y1) + YearLength(y1) <= DaysBeforeYear(y2)
    decreases y2 - y1
  {
    DaysBeforeYearStep(y1);
    if y1 + 1 < y2 {
      DaysBeforeYearMonotone(y1 + 1, y2);
    }
  }

  lemma MonthStep(y: int, m: int)
    requires 1 <= m < 12
    ensures DaysBeforeMonth(y, m + 1) == DaysBeforeMonth(y, m) + DaysInMonth(y, m)
  {
  }

  lemma {:induction false} DaysBeforeMonthMonotone(y: int, m1: int, m2: int)
    requires 1 <= m1 < m2 <= 12
    ensures DaysBeforeMonth(y, m1) + DaysInMonth(y, m1) <= DaysBeforeMonth(y, m2)
    decreases m2 - m1
  {
    MonthStep(y, m1);
    if m1 + 1 < m2 {
      DaysBeforeMonthMonotone(y, m1 + 1, m2);
    }
  }

  /** A valid date's day number lies inside its year. */
  lemma OrdinalWithinYear(d: Date)
    requires ValidDate(d)
    ensures DaysBeforeYear(d.year) < Ordinal(d) <= DaysBeforeYear(d.year) + YearLength(d.year)
  {
    if d.month < 12 {
      DaysBeforeMonthMonotone(d.year, d.month, 12);
    }
  }

  /** Python's lexicographic date order is the order of day numbers. */
  lemma BeforeIsOrdinalOrder(a: Date, b: Date)
    requires ValidDate(a) && ValidDate(b)
    ensures Before(a, b) <==> Ordinal(a) < Ordinal(b)
    ensures a == b <==> Ordinal(a) == Ordinal(b)
  {
    OrdinalWithinYear(a);
    OrdinalWithinYear(b);
    if a.year < b.year {
      DaysBeforeYearMonotone(a.year, b.year);
    } else if b.year < a.year {
      DaysBeforeYearMonotone(b.year, a.year);
    } else if a.month < b.month {
      DaysBeforeMonthMonotone(a.year, a.month, b.month);
    } else if b.month < a.month {
      DaysBeforeMonthMonotone(a.year, b.month, a.month);
    }
  }

  /** The day after a valid date is one day number later, and it is valid
      unless the date is 9999-12-31. */
  lemma NextDayOrdinal(d: Date)
    requires ValidDate(d)
    ensures Ordinal(NextDay(d)) == Ordinal(d) + 1
    ensures ValidDate(NextDay(d)) <==> d != Date(MaxYear, 12, 31)
  {
    if d.day < DaysInMonth(d.year, d.month) {
      assert NextDay(d) == Date(d.year, d.month, d.day + 1);
    } else if d.month < 12 {
      MonthEnd(d);
    } else {
      YearEnd(d);
    }
  }

  lemma MonthEnd(d: Date)
    requires ValidDate(d) && d.day == DaysInMonth(d.year, d.month) && d.month < 12
    ensures NextDay(d) == Date(d.year, d.month + 1, 1)
    ensures Ordinal(NextDay(d)) == Ordinal(d) + 1
    ensures ValidDate(NextDay(d))
  {
    MonthStep(d.year, d.month);
  }

  lemma YearEnd(d: Date)
    requires ValidDate(d) && d.day == DaysInMonth(d.year, d.month) && d.month == 12
    ensures NextDay(d) == Date(d.year + 1, 1, 1)
    ensures Ordinal(NextDay(d)) == Ordinal(d) + 1
    ensures ValidDate(NextDay(d)) <==> d.year < MaxYear
  {
    DaysBeforeYearStep(d.year);
  }

  /** Weekdays advance by one, Sunday wrapping to Monday. */
  lemma NextDayWeekday(d: Date)
    requires ValidDate(d)
    ensures Weekday(NextDay(d)) == (Weekday(d) + 1) % 7
  {
    NextDayOrdinal(d);
    ModSevenStep(Ordinal(d) + 6);
  }

  lemma ModSevenStep(n: int)
    ensures (n + 1) % 7 == (n % 7 + 1) % 7
  {
  }

  /** The last two days of the calendar fall on a Thursday and a Friday,
      so a weekend day always has two valid days after it. */
  lemma LastDaysAreWeekdays()
    ensures Weekday(Date(MaxYear, 12, 30)) == 3
    ensures Weekday(Date(MaxYear, 12, 31)) == 4
  {
  }
}

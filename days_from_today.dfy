/**
  `get_days_from_today` (goit-pycore-hw-03/task_1.py): the signed number of
  days from a `YYYY-MM-DD` date to today, or None for a text that is not
  such a date. The clock is the parameter `today`.
*/
module DaysFromToday {
  import opened Wrappers
  import opened Calendar
  import opened DateText

  const Dash: char := '-'

  function ParseIso(text: string): (r: Option<Date>)
    ensures r.Some? ==> ValidDate(r.value)
  {
    Strptime(text, Dash, YearMonthDay)
  }

  /** `today - date` in whole days, None where `strptime` raises ValueError. */
  function GetDaysFromToday(text: string, today: Date): (r: Option<int>)
    requires ValidDate(today)
    ensures r.None? <==> ParseIso(text).None?
    ensures r.Some? ==> r.value == Ordinal(today) - Ordinal(ParseIso(text).value)
  {
    match ParseIso(text)
    case None => None
    case Some(d) => Some(DaysBetween(today, d))
  }

  /** The sign of the result says where the date lies: positive in the past,
      negative in the future, zero exactly for today. */
  lemma SignOfDifference(text: string, today: Date)
    requires ValidDate(today) && ParseIso(text).Some?
    ensures var d := ParseIso(text).value; var n := GetDaysFromToday(text, today).value;
      && (n > 0 <==> Before(d, today))
      && (n < 0 <==> Before(today, d))
      && (n == 0 <==> d == today)
  {
    var d := ParseIso(text).value;
    BeforeIsOrdinalOrder(d, today);
    BeforeIsOrdinalOrder(today, d);
  }

  /** Every date written as `YYYY-MM-DD` is read back, so the difference is
      defined for all of them. */
  lemma FormattedDateIsAccepted(d: Date, today: Date)
    requires ValidDate(d) && ValidDate(today)
    ensures GetDaysFromToday(Strftime(d, Dash, YearMonthDay), today) == Some(Ordinal(today) - Ordinal(d))
  {
    ParseFormatted(d, Dash, YearMonthDay);
  }

  /** A thirteenth month is refused. */
  lemma MonthThirteenGivesNone(text: string, today: Date)
    requires ValidDate(today) && text == "2024-13-01"
    ensures GetDaysFromToday(text, today).None?
  {
    assert text == "2024" + [Dash] + "13" + [Dash] + "01";
    StrptimeJoined("2024", "13", "01", Dash, YearMonthDay);
  }

  /** 29 February of a common year is refused. */
  lemma MissingLeapDayGivesNone(text: string, today: Date)
    requires ValidDate(today) && text == "2023-02-29"
    ensures GetDaysFromToday(text, today).None?
  {
    var y, m, d := "2023", "02", "29";
    assert text == y + [Dash] + m + [Dash] + d;
    FourDigits(y);
    TwoDigits(m);
    TwoDigits(d);
    assert DigitsValue(y) == 2023 && MonthValue(m) == 2 && DayValue(d) == 29;
    assert !ValidDate(Date(2023, 2, 29));
    assert ParseIso(text).None? by {
      StrptimeJoined(y, m, d, Dash, YearMonthDay);
    }
  }

  /** Letters among the digits are refused. */
  lemma LettersGiveNone(text: string, today: Date)
    requires ValidDate(today) && text == "202d-10-0f"
    ensures GetDaysFromToday(text, today).None?
  {
    assert text == "202d" + [Dash] + "10" + [Dash] + "0f";
    StrptimeJoined("202d", "10", "0f", Dash, YearMonthDay);
    assert !IsDigit("202d"[3]);
  }
}

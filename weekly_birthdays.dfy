/**
  `get_upcoming_birthdays(users)` (goit-pycore-hw-03/task_4.py): the list of
  users to congratulate in the coming week, in input order, with the
  congratulation day moved off the weekend. Dates are read and written as
  `YYYY.MM.DD`; `today` is a parameter.
*/
module WeeklyBirthdays {
  import opened Wrappers
  import opened Calendar
  import opened DateText
  import opened BirthdayRule

  /** One `{"name": ..., "birthday": ...}` dictionary of the input. */
  datatype User = User(name: string, birthday: string)

  /** One `{"name": ..., "congratulation_day": ...}` dictionary of the output. */
  datatype Greeting = Greeting(name: string, congratulationDay: string)

  /** The ValueErrors the function lets escape: `strptime` rejecting the
      text, or `replace` finding no such day in the target year. */
  datatype Failure = MalformedDate(text: string) | NoSuchDay(birthday: Date)

  const Dot: char := '.'

  /** The window of this list: 0 to 7 days ahead, both ends included. */
  predicate InWindow(days: int) {
    0 <= days <= 7
  }

  /** What the loop body does with one user: `Ok(None)` when the user is
      skipped. */
  function Congratulation(u: User, today: Date): (r: Result<Option<Greeting>, Failure>)
    requires ValidDate(today)
    ensures r.Ok? && r.value.Some? ==> r.value.value.name == u.name
    ensures r.Err? <==> (Strptime(u.birthday, Dot, YearMonthDay).None?
      || NextOccurrence(Strptime(u.birthday, Dot, YearMonthDay).value, today).None?)
  {
    match Strptime(u.birthday, Dot, YearMonthDay)
    case None => Err(MalformedDate(u.birthday))
    case Some(b) =>
      match NextOccurrence(b, today)
      case None => Err(NoSuchDay(b))
      case Some(o) =>
        if InWindow(DaysBetween(o, today)) then
          Ok(Some(Greeting(u.name, Strftime(ShiftOffWeekend(o), Dot, YearMonthDay))))
        else Ok(None)
  }

  /** The result after the loop has seen `users`: the first failure, or the
      greetings appended so far. */
  function Upcoming(users: seq<User>, today: Date): Result<seq<Greeting>, Failure>
    requires ValidDate(today)
    decreases |users|
  {
    if users == [] then Ok([])
    else
      match Upcoming(users[..|users| - 1], today)
      case Err(e) => Err(e)
      case Ok(prev) =>
        match Congratulation(users[|users| - 1], today)
        case Err(e) => Err(e)
        case Ok(None) => Ok(prev)
        case Ok(Some(g)) => Ok(prev + [g])
  }

  method GetUpcomingBirthdays(users: seq<User>, today: Date) returns (r: Result<seq<Greeting>, Failure>)
    requires ValidDate(today)
    ensures r == Upcoming(users, today)
  {
    var list: seq<Greeting> := [];
    for i := 0 to |users|
      invariant Upcoming(users[..i], today) == Ok(list)
    {
      assert users[..i + 1][..i] == users[..i];
      var c := Congratulation(users[i], today);
      match c {
        case Err(e) =>
          UpcomingStopsAtFailure(users, i + 1, today);
          return Err(e);
        case Ok(None) =>
        case Ok(Some(g)) =>
          list := list + [g];
      }
    }
    assert users[..|users|] == users;
    return Ok(list);
  }

  // ---------------------------------------------------------------------------
  // Properties

  /** Once a user fails, the exception ends the whole call. */
  lemma {:induction false} UpcomingStopsAtFailure(users: seq<User>, n: nat, today: Date)
    requires ValidDate(today) && n <= |users|
    requires Upcoming(users[..n], today).Err?
    ensures Upcoming(users, today) == Upcoming(users[..n], today)
    decreases |users| - n
  {
    if n == |users| {
      assert users[..n] == users;
    } else {
      var m := |users| - 1;
      assert users[..m][..n] == users[..n];
      UpcomingStopsAtFailure(users[..m], n, today);
    }
  }

  /** The greeting one user contributes: none when skipped or failed. */
  function Contribution(c: Result<Option<Greeting>, Failure>): (r: seq<Greeting>)
    ensures |r| <= 1
  {
    if c.Ok? && c.value.Some? then [c.value.value] else []
  }

  /** The users kept, read front to back: an independent definition of the
      output. */
  function Selected(users: seq<User>, today: Date): (r: seq<Greeting>)
    requires ValidDate(today)
    ensures |r| <= |users|
  {
    if users == [] then []
    else
      Contribution(Congratulation(users[0], today)) + Selected(users[1..], today)
  }

  lemma {:induction false} SelectedAppend(users: seq<User>, u: User, today: Date)
    requires ValidDate(today)
    ensures Selected(users + [u], today) == Selected(users, today) + Contribution(Congratulation(u, today))
    decreases |users|
  {
    if users == [] {
      assert [u][1..] == [];
    } else {
      assert (users + [u])[1..] == users[1..] + [u];
      SelectedAppend(users[1..], u, today);
    }
  }

  /** The call fails exactly when some user fails, and otherwise returns
      the kept users front to back. */
  lemma {:induction false} UpcomingIsSelected(users: seq<User>, today: Date)
    requires ValidDate(today)
    ensures Upcoming(users, today).Err? <==> exists i :: 0 <= i < |users| && Congratulation(users[i], today).Err?
    ensures Upcoming(users, today).Ok? ==> Upcoming(users, today).value == Selected(users, today)
    decreases |users|
  {
    if users != [] {
      var m := |users| - 1;
      var init := users[..m];
      UpcomingIsSelected(init, today);
      assert users == init + [users[m]];
      SelectedAppend(init, users[m], today);
      assert forall i :: 0 <= i < m ==> init[i] == users[i];
    }
  }

  /** A greeting is in the selection exactly when some user produces it. */
  lemma {:induction false} SelectedMembers(users: seq<User>, today: Date, g: Greeting)
    requires ValidDate(today)
    ensures g in Selected(users, today) <==> exists i :: 0 <= i < |users| && Congratulation(users[i], today) == Ok(Some(g))
    decreases |users|
  {
    if users != [] {
      SelectedMembers(users[1..], today, g);
      assert forall i :: 1 <= i < |users| ==> users[1..][i - 1] == users[i];
      if exists i :: 0 <= i < |users| && Congratulation(users[i], today) == Ok(Some(g)) {
        var i :| 0 <= i < |users| && Congratulation(users[i], today) == Ok(Some(g));
        if i > 0 {
          assert users[1..][i - 1] == users[i];
        }
      }
    }
  }

  /** A user is congratulated exactly when the next occurrence lies 0 to 7
      days ahead, inclusive; the day written out reads back as the
      occurrence moved 2 days on from a Saturday, 1 day on from a Sunday and
      kept otherwise, so it is a weekday at most two days after it. */
  lemma CongratulationFacts(u: User, today: Date)
    requires ValidDate(today)
    requires Congratulation(u, today).Ok?
    ensures var b := Strptime(u.birthday, Dot, YearMonthDay).value;
      var o := NextOccurrence(b, today).value;
      && (Congratulation(u, today).value.Some? <==> DaysBetween(o, today) <= 7)
      && (Congratulation(u, today).value.Some? ==>
            var day := Strptime(Congratulation(u, today).value.value.congratulationDay, Dot, YearMonthDay);
            && day.Some?
            && day.value == ShiftOffWeekend(o)
            && DaysBetween(day.value, o) == (if Weekday(o) == Saturday then 2 else if Weekday(o) == Sunday then 1 else 0)
            && !IsWeekend(day.value)
            && 0 <= DaysBetween(day.value, o) <= 2)
  {
    var b := Strptime(u.birthday, Dot, YearMonthDay).value;
    NextOccurrenceFacts(b, today);
    var o := NextOccurrence(b, today).value;
    ShiftOffWeekendFacts(o);
    ParseFormatted(ShiftOffWeekend(o), Dot, YearMonthDay);
  }

  /** A birthday exactly a week ahead is still on this list. */
  lemma SeventhDayIncluded(u: User, today: Date)
    requires ValidDate(today)
    requires Strptime(u.birthday, Dot, YearMonthDay).Some?
    requires NextOccurrence(Strptime(u.birthday, Dot, YearMonthDay).value, today).Some?
    requires DaysBetween(NextOccurrence(Strptime(u.birthday, Dot, YearMonthDay).value, today).value, today) == 7
    ensures Congratulation(u, today).Ok? && Congratulation(u, today).value.Some?
  {
  }
}

/**
  The contact book of goit-pycore-hw-07/task_1.py: the validated field
  types `Phone` and `Birthday`, the `Record` that owns a name, a list of
  phones and an optional birthday, and the `AddressBook` dictionary of
  records with its weekly birthday report.

  Raised exceptions become an `Error` value; the objects whose attributes
  the source updates in place are classes, and each class gives a value
  snapshot of itself (`Value`, `State`) that the contracts speak about.
*/
module ContactBook {
  import opened Wrappers
  import opened Calendar
  import opened DateText
  import opened Sequences
  import opened BirthdayRule

  /** The exceptions the handlers raise, as `input_error` tells them apart. */
  datatype Error = ValueError(message: string) | KeyError | IndexError | AttributeError

  const PhoneMessage: string := "Phone number must be 10 digits."
  const BirthdayMessage: string := "Invalid date format. Use DD.MM.YYYY"
  const OldPhoneMessage: string := "Old phone number not found."

  // ---------------------------------------------------------------------------
  // Fields

  /** A `Phone` field: only ever built from a valid number. */
  datatype Phone = Phone(value: string)

  /** `value.isdigit() and len(value) == 10`, on ASCII digits. */
  predicate ValidPhone(v: string) {
    |v| == 10 && AllDigits(v)
  }

  /** `Phone(value)`. */
  function NewPhone(v: string): (r: Result<Phone, Error>)
    ensures r.Ok? <==> ValidPhone(v)
    ensures r.Ok? ==> r.value.value == v
    ensures r.Err? ==> r.error == ValueError(PhoneMessage)
  {
    if ValidPhone(v) then Ok(Phone(v)) else Err(ValueError(PhoneMessage))
  }

  /** A `Birthday` field: the date `strptime` read. */
  datatype Birthday = Birthday(value: Date)

  const Dot: char := '.'

  /** `Birthday(value)`: `%d.%m.%Y`, any parse failure reported with one
      message. */
  function NewBirthday(s: string): (r: Result<Birthday, Error>)
    ensures r.Ok? <==> Strptime(s, Dot, DayMonthYear).Some?
    ensures r.Ok? ==> ValidDate(r.value.value) && Strptime(s, Dot, DayMonthYear) == Some(r.value.value)
    ensures r.Err? ==> r.error == ValueError(BirthdayMessage)
  {
    match Strptime(s, Dot, DayMonthYear)
    case None => Err(ValueError(BirthdayMessage))
    case Some(d) => Ok(Birthday(d))
  }

  /** `Birthday.__str__`: `%d.%m.%Y`. */
  function BirthdayText(b: Birthday): string
    requires ValidDate(b.value)
  {
    Strftime(b.value, Dot, DayMonthYear)
  }

  /** Every birthday written out reads back as itself. */
  lemma BirthdayRoundTrip(b: Birthday)
    requires ValidDate(b.value)
    ensures NewBirthday(BirthdayText(b)) == Ok(b)
  {
    ParseFormatted(b.value, Dot, DayMonthYear);
  }

  /** A birthday read from text is written back as the same text exactly
      when that text was zero-padded `DD.MM.YYYY`. */
  lemma BirthdayTextOfParsed(s: string)
    requires NewBirthday(s).Ok?
    ensures BirthdayText(NewBirthday(s).value) == s <==> Canonical(s, DayMonthYear)
  {
    FormatParsed(s, Dot, DayMonthYear);
  }

  // ---------------------------------------------------------------------------
  // Records as values

  /** What a `Record` holds at one moment. */
  datatype RecordValue = RecordValue(name: string, phones: seq<Phone>, birthday: Option<Birthday>)

  /** What the field constructors guarantee about a record's contents. */
  predicate ValidRecordValue(v: RecordValue) {
    && (forall i :: 0 <= i < |v.phones| ==> ValidPhone(v.phones[i].value))
    && (v.birthday.Some? ==> ValidDate(v.birthday.value.value))
  }

  function PhoneValues(phones: seq<Phone>): (r: seq<string>)
    ensures |r| == |phones| && forall i :: 0 <= i < |r| ==> r[i] == phones[i].value
  {
    seq(|phones|, i requires 0 <= i < |phones| => phones[i].value)
  }

  /** `add_phone`: validate, then append. */
  function AddPhoneValue(v: RecordValue, number: string): (r: Result<RecordValue, Error>)
    ensures r.Ok? <==> ValidPhone(number)
    ensures r.Ok? ==> r.value == v.(phones := v.phones + [Phone(number)])
    ensures r.Err? ==> r.error == ValueError(PhoneMessage)
  {
    match NewPhone(number)
    case Err(e) => Err(e)
    case Ok(p) => Ok(v.(phones := v.phones + [p]))
  }

  /** `edit_phone` on the phone list: look for the first phone equal to
      `old_number` and only then validate `new_number`. */
  function EditPhones(phones: seq<Phone>, oldNumber: string, newNumber: string): (r: Result<seq<Phone>, Error>)
  {
    match FirstIndex(PhoneValues(phones), oldNumber)
    case None => Err(ValueError(OldPhoneMessage))
    case Some(i) =>
      match NewPhone(newNumber)
      case Err(e) => Err(e)
      case Ok(p) => Ok(phones[i := p])
  }

  function EditPhoneValue(v: RecordValue, oldNumber: string, newNumber: string): (r: Result<RecordValue, Error>)
    ensures r.Ok? <==> EditPhones(v.phones, oldNumber, newNumber).Ok?
    ensures r.Ok? ==> r.value == v.(phones := EditPhones(v.phones, oldNumber, newNumber).value)
    ensures r.Err? ==> EditPhones(v.phones, oldNumber, newNumber) == Err(r.error)
  {
    match EditPhones(v.phones, oldNumber, newNumber)
    case Err(e) => Err(e)
    case Ok(ps) => Ok(v.(phones := ps))
  }

  /** `add_birthday`: set or replace the birthday. */
  function AddBirthdayValue(v: RecordValue, s: string): (r: Result<RecordValue, Error>)
    ensures r.Ok? <==> NewBirthday(s).Ok?
    ensures r.Ok? ==> r.value == v.(birthday := Some(NewBirthday(s).value))
    ensures r.Err? ==> r.error == ValueError(BirthdayMessage)
  {
    match NewBirthday(s)
    case Err(e) => Err(e)
    case Ok(b) => Ok(v.(birthday := Some(b)))
  }

  /** `Record.__str__`. */
  function RecordText(v: RecordValue): string
    requires ValidRecordValue(v)
  {
    "Contact name: " + v.name + ", phones: " + Join(PhoneValues(v.phones), "; ")
      + (if v.birthday.Some? then ", birthday: " + BirthdayText(v.birthday.value) else "")
  }

  // ---------------------------------------------------------------------------
  // Properties of the record operations

  /** A missing old number is reported before an invalid new one; a match
      replaces the first occurrence of the old number and nothing else. */
  lemma EditPhonesFacts(phones: seq<Phone>, oldNumber: string, newNumber: string)
    ensures var r := EditPhones(phones, oldNumber, newNumber);
      && (r == Err(ValueError(OldPhoneMessage)) <==> forall i :: 0 <= i < |phones| ==> phones[i].value != oldNumber)
      && (r == Err(ValueError(PhoneMessage)) <==> (exists i :: 0 <= i < |phones| && phones[i].value == oldNumber) && !ValidPhone(newNumber))
      && (r.Ok? <==> (exists i :: 0 <= i < |phones| && phones[i].value == oldNumber) && ValidPhone(newNumber))
      && (r.Ok? ==>
            exists i :: 0 <= i < |phones|
              && phones[i].value == oldNumber
              && (forall j :: 0 <= j < i ==> phones[j].value != oldNumber)
              && r.value == phones[i := Phone(newNumber)])
  {
    var values := PhoneValues(phones);
    assert forall i :: 0 <= i < |phones| ==> values[i] == phones[i].value;
    assert (oldNumber in values) <==> exists i :: 0 <= i < |phones| && phones[i].value == oldNumber;
    match FirstIndex(values, oldNumber)
    case None =>
    case Some(i) =>
      assert forall j :: 0 <= j < i ==> values[..i][j] == values[j];
  }

  /** Editing keeps every phone valid. */
  lemma EditPhonesKeepsValid(phones: seq<Phone>, oldNumber: string, newNumber: string)
    requires forall i :: 0 <= i < |phones| ==> ValidPhone(phones[i].value)
    requires EditPhones(phones, oldNumber, newNumber).Ok?
    ensures var ps := EditPhones(phones, oldNumber, newNumber).value;
      |ps| == |phones| && forall i :: 0 <= i < |ps| ==> ValidPhone(ps[i].value)
  {
  }

  /** Each record operation keeps the guarantees of the fields and the
      record's name. */
  lemma RecordOperationsKeepValid(v: RecordValue, a: string, b: string)
    requires ValidRecordValue(v)
    ensures AddPhoneValue(v, a).Ok? ==> ValidRecordValue(AddPhoneValue(v, a).value) && AddPhoneValue(v, a).value.name == v.name
    ensures EditPhoneValue(v, a, b).Ok? ==> ValidRecordValue(EditPhoneValue(v, a, b).value) && EditPhoneValue(v, a, b).value.name == v.name
    ensures AddBirthdayValue(v, a).Ok? ==> ValidRecordValue(AddBirthdayValue(v, a).value) && AddBirthdayValue(v, a).value.name == v.name
  {
    if EditPhoneValue(v, a, b).Ok? {
      EditPhonesKeepsValid(v.phones, a, b);
    }
  }

  /** The text starts with the name and the phones, and ends with a
      birthday that reads back as the stored one when one is set. */
  lemma RecordTextParts(v: RecordValue)
    requires ValidRecordValue(v)
    ensures var head := "Contact name: " + v.name + ", phones: " + Join(PhoneValues(v.phones), "; ");
      && RecordText(v)[..|head|] == head
      && (v.birthday.None? ==> RecordText(v) == head)
      && (v.birthday.Some? ==>
            var tail := RecordText(v)[|head| + |", birthday: "|..];
            NewBirthday(tail) == Ok(v.birthday.value))
  {
    var head := "Contact name: " + v.name + ", phones: " + Join(PhoneValues(v.phones), "; ");
    if v.birthday.Some? {
      var t := BirthdayText(v.birthday.value);
      assert RecordText(v) == head + ", birthday: " + t;
      assert RecordText(v)[|head| + |", birthday: "|..] == t;
      BirthdayRoundTrip(v.birthday.value);
    }
  }

  // ---------------------------------------------------------------------------
  // Record objects

  class Record {
    const name: string
    var phones: seq<Phone>
    var birthday: Option<Birthday>

    function Value(): RecordValue
      reads this
    {
      RecordValue(name, phones, birthday)
    }

    ghost predicate Valid()
      reads this
    {
      ValidRecordValue(Value())
    }

    /** `Record(name)`: no phones, no birthday. */
    constructor (name: string)
      ensures Valid()
      ensures Value() == RecordValue(name, [], None)
    {
      this.name := name;
      phones := [];
      birthday := None;
    }

    method AddPhone(number: string) returns (r: Result<(), Error>)
      requires Valid()
      modifies this
      ensures Valid()
      ensures r.Ok? <==> AddPhoneValue(old(Value()), number).Ok?
      ensures r.Ok? ==> Value() == AddPhoneValue(old(Value()), number).value
      ensures r.Err? ==> r.error == AddPhoneValue(old(Value()), number).error && Value() == old(Value())
    {
      var p := NewPhone(number);
      if p.Err? {
        return Err(p.error);
      }
      phones := phones + [p.value];
      return Ok(());
    }

    /** The loop of `edit_phone`: replace the first equal phone in place. */
    method EditPhone(oldNumber: string, newNumber: string) returns (r: Result<(), Error>)
      requires Valid()
      modifies this
      ensures Valid()
      ensures r.Ok? <==> EditPhoneValue(old(Value()), oldNumber, newNumber).Ok?
      ensures r.Ok? ==> Value() == EditPhoneValue(old(Value()), oldNumber, newNumber).value
      ensures r.Err? ==> r.error == EditPhoneValue(old(Value()), oldNumber, newNumber).error && Value() == old(Value())
    {
      ghost var values := PhoneValues(phones);
      for i := 0 to |phones|
        invariant phones == old(phones)
        invariant oldNumber !in values[..i]
      {
        assert values[..i + 1] == values[..i] + [values[i]];
        if phones[i].value == oldNumber {
          assert FirstIndex(values, oldNumber) == Some(i) by {
            assert values == values[..i] + [oldNumber] + values[i + 1..];
            FirstIndexAfter(values[..i], oldNumber, values[i + 1..]);
          }
          var p := NewPhone(newNumber);
          if p.Err? {
            return Err(p.error);
          }
          phones := phones[i := p.value];
          return Ok(());
        }
      }
      assert values[..|phones|] == values;
      return Err(ValueError(OldPhoneMessage));
    }

    /** `find_phone`: the first phone with that number. */
    method FindPhone(number: string) returns (r: Option<Phone>)
      ensures r.None? <==> forall i :: 0 <= i < |phones| ==> phones[i].value != number
      ensures r.Some? ==> exists i :: (0 <= i < |phones| && r.value == phones[i]
          && phones[i].value == number && forall j :: 0 <= j < i ==> phones[j].value != number)
    {
      for i := 0 to |phones|
        invariant forall j :: 0 <= j < i ==> phones[j].value != number
      {
        if phones[i].value == number {
          return Some(phones[i]);
        }
      }
      return None;
    }

    method AddBirthday(s: string) returns (r: Result<(), Error>)
      requires Valid()
      modifies this
      ensures Valid()
      ensures r.Ok? <==> AddBirthdayValue(old(Value()), s).Ok?
      ensures r.Ok? ==> Value() == AddBirthdayValue(old(Value()), s).value
      ensures r.Err? ==> r.error == AddBirthdayValue(old(Value()), s).error && Value() == old(Value())
    {
      var b := NewBirthday(s);
      if b.Err? {
        return Err(b.error);
      }
      birthday := Some(b.value);
      return Ok(());
    }
  }

  // ---------------------------------------------------------------------------
  // The book as a value

  /** The dictionary at one moment: its keys in insertion order and the
      contents of the record under each key. */
  datatype BookState = BookState(order: seq<string>, records: map<string, RecordValue>)

  /** One record per name, filed under its own name, keys listed once. */
  predicate WellFormed(st: BookState) {
    && NoRepeats(st.order)
    && (forall k :: k in st.order ==> k in st.records)
    && (forall k :: k in st.records ==> k in st.order && st.records[k].name == k && ValidRecordValue(st.records[k]))
  }

  predicate AllValid(rs: seq<RecordValue>) {
    forall i :: 0 <= i < |rs| ==> ValidRecordValue(rs[i])
  }

  /** `self.data.values()`: the records in insertion order. */
  function Rows(st: BookState): (rs: seq<RecordValue>)
    requires WellFormed(st)
    ensures |rs| == |st.order| && AllValid(rs)
    ensures forall i :: 0 <= i < |rs| ==> rs[i] == st.records[st.order[i]] && rs[i].name == st.order[i]
  {
    seq(|st.order|, i requires 0 <= i < |st.order| => st.records[st.order[i]])
  }

  /** `self.data[name] = record`: a new key goes last, an existing key keeps
      its place. */
  function Upsert(st: BookState, v: RecordValue): BookState {
    BookState(if v.name in st.records then st.order else st.order + [v.name], st.records[v.name := v])
  }

  /** `delete(name)`. */
  function DeleteName(st: BookState, name: string): (r: Result<BookState, Error>)
    ensures r.Err? <==> name !in st.records
    ensures r.Err? ==> r.error == KeyError
  {
    if name in st.records then Ok(BookState(Remove(st.order, name), st.records - {name}))
    else Err(KeyError)
  }

  /** Storing a record files it under its name and leaves every other
      entry and the order of the keys as they were. */
  lemma UpsertFacts(st: BookState, v: RecordValue)
    requires WellFormed(st) && ValidRecordValue(v)
    ensures var st' := Upsert(st, v);
      && WellFormed(st')
      && st'.records[v.name] == v
      && (forall k :: k in st.records && k != v.name ==> k in st'.records && st'.records[k] == st.records[k])
      && st'.records.Keys == st.records.Keys + {v.name}
      && (v.name in st.records ==> st'.order == st.order)
      && (v.name !in st.records ==> st'.order == st.order + [v.name])
  {
  }

  /** Storing a record's own value again changes nothing. */
  lemma UpsertSame(st: BookState, name: string)
    requires WellFormed(st) && name in st.records
    ensures Upsert(st, st.records[name]) == st
  {
  }

  /** Deleting removes that key alone and keeps the others in order. */
  lemma DeleteFacts(st: BookState, name: string)
    requires WellFormed(st) && name in st.records
    ensures var st' := DeleteName(st, name).value;
      && WellFormed(st')
      && st'.records.Keys == st.records.Keys - {name}
      && (forall k :: k in st'.records ==> st'.records[k] == st.records[k])
      && exists i :: 0 <= i < |st.order| && st.order[i] == name && st'.order == st.order[..i] + st.order[i + 1..]
  {
    RemoveKeepsNoRepeats(st.order, name);
    var i :| 0 <= i < |st.order| && st.order[i] == name;
    RemoveAt(st.order, name, i);
  }

  // ---------------------------------------------------------------------------
  // The weekly report of the book

  /** The window of the book: 0 to 6 days ahead; a birthday exactly a week
      away is not listed. */
  predicate InWindow(days: int) {
    0 <= days < 7
  }

  /** The body of the loop over the records: the congratulation date, none
      when the record has no birthday or falls outside the window, or the
      birthday whose `replace` raises. */
  function Reminder(v: RecordValue, today: Date): (r: Result<Option<Date>, Date>)
    requires ValidRecordValue(v) && ValidDate(today)
    ensures r.Ok? && r.value.Some? ==> ValidDate(r.value.value) && !IsWeekend(r.value.value)
  {
    match v.birthday
    case None => Ok(None)
    case Some(b) =>
      match NextOccurrence(b.value, today)
      case None => Err(b.value)
      case Some(o) =>
        if InWindow(DaysBetween(o, today)) then
          ShiftOffWeekendFacts(o);
          Ok(Some(ShiftOffWeekend(o)))
        else Ok(None)
  }

  /** A record as the grouping loop sees it: its name and its reminder. */
  datatype Entry = Entry(name: string, reminder: Result<Option<Date>, Date>)

  function Entries(rs: seq<RecordValue>, today: Date): (es: seq<Entry>)
    requires AllValid(rs) && ValidDate(today)
    ensures |es| == |rs| && DatesValid(es)
    decreases |rs|
  {
    if rs == [] then []
    else
      var last := rs[|rs| - 1];
      assert AllValid(rs[..|rs| - 1]);
      Entries(rs[..|rs| - 1], today) + [Entry(last.name, Reminder(last, today))]
  }

  lemma {:induction false} EntriesAt(rs: seq<RecordValue>, today: Date, i: nat)
    requires AllValid(rs) && ValidDate(today) && i < |rs|
    ensures Entries(rs, today)[i] == Entry(rs[i].name, Reminder(rs[i], today))
    decreases |rs|
  {
    if i < |rs| - 1 {
      assert AllValid(rs[..|rs| - 1]);
      EntriesAt(rs[..|rs| - 1], today, i);
    }
  }

  predicate DatesValid(es: seq<Entry>) {
    forall i :: 0 <= i < |es| && es[i].reminder.Ok? && es[i].reminder.value.Some? ==> ValidDate(es[i].reminder.value.value)
  }

  /** Some record makes `replace` raise. */
  predicate Fails(es: seq<Entry>) {
    exists i :: 0 <= i < |es| && es[i].reminder.Err?
  }

  /** The names filed under date `d`, in record order. */
  function NamesOn(es: seq<Entry>, d: Date): seq<string>
    decreases |es|
  {
    if es == [] then []
    else
      var last := es[|es| - 1];
      NamesOn(es[..|es| - 1], d) + (if last.reminder == Ok(Some(d)) then [last.name] else [])
  }

  /** The keys of the `defaultdict`, in the order they were first used. */
  function FirstSeen(es: seq<Entry>): seq<Date>
    decreases |es|
  {
    if es == [] then []
    else
      var prev := FirstSeen(es[..|es| - 1]);
      var rem := es[|es| - 1].reminder;
      if rem.Ok? && rem.value.Some? && rem.value.value !in prev then prev + [rem.value.value] else prev
  }

  /** One step of `sorted` on dates: insert into an ascending list. */
  function InsertDate(d: Date, s: seq<Date>): (r: seq<Date>)
    ensures multiset(r) == multiset(s) + multiset{d}
    decreases |s|
  {
    if s == [] then [d]
    else if Before(s[0], d) then
      assert s == [s[0]] + s[1..];
      [s[0]] + InsertDate(d, s[1..])
    else [d] + s
  }

  /** `sorted(dates)`. */
  function SortDates(ds: seq<Date>): (r: seq<Date>)
    ensures multiset(r) == multiset(ds)
    decreases |ds|
  {
    if ds == [] then []
    else
      assert ds == [ds[0]] + ds[1..];
      InsertDate(ds[0], SortDates(ds[1..]))
  }

  predicate Ascending(s: seq<Date>) {
    forall i, j :: 0 <= i < j < |s| ==> Before(s[i], s[j])
  }

  const WeekdayNames: seq<string> := ["Monday", "Tuesday", "Wednesday", "Thursday", "Friday", "Saturday", "Sunday"]
  const MonthNames: seq<string> := ["January", "February", "March", "April", "May", "June", "July",
                                    "August", "September", "October", "November", "December"]

  /** `strftime("%A, %d %B")` with the English names. */
  function DateLabel(d: Date): string
    requires ValidDate(d)
  {
    WeekdayNames[Weekday(d)] + ", " + Pad2(d.day) + " " + MonthNames[d.month - 1]
  }

  function ReportLine(d: Date, names: seq<string>): string
    requires ValidDate(d)
  {
    DateLabel(d) + ": " + Join(names, ", ")
  }

  const NoUpcoming: string := "No upcoming birthdays in the next week."

  /** One line per date, in the order given. */
  function Lines(es: seq<Entry>, sorted: seq<Date>): (lines: seq<string>)
    requires forall i :: 0 <= i < |sorted| ==> ValidDate(sorted[i])
    ensures |lines| == |sorted|
    decreases |sorted|
  {
    if sorted == [] then []
    else
      var last := sorted[|sorted| - 1];
      Lines(es, sorted[..|sorted| - 1]) + [ReportLine(last, NamesOn(es, last))]
  }

  /** The text built from the groups: one line per date, ascending. */
  function ReportText(es: seq<Entry>, sorted: seq<Date>): string
    requires forall i :: 0 <= i < |sorted| ==> ValidDate(sorted[i])
  {
    Join(Lines(es, sorted), "\n")
  }

  /** What `get_upcoming_birthdays` returns, None where it raises. */
  function Report(es: seq<Entry>): Option<string>
    requires DatesValid(es)
  {
    if Fails(es) then None
    else
      var keys := FirstSeen(es);
      if keys == [] then Some(NoUpcoming)
      else
        KeysValid(es);
        var sorted := SortDates(keys);
        assert forall i :: 0 <= i < |sorted| ==> sorted[i] in multiset(keys);
        Some(ReportText(es, sorted))
  }

  // ---------------------------------------------------------------------------
  // Properties of the report

  /** A record is listed exactly when it has a birthday whose next
      occurrence is 0 to 6 days ahead, under that occurrence moved off the
      weekend; `replace` raises exactly when the next occurrence does not
      exist. */
  lemma ReminderFacts(v: RecordValue, today: Date)
    requires ValidRecordValue(v) && ValidDate(today)
    ensures Reminder(v, today).Err? <==> v.birthday.Some? && NextOccurrence(v.birthday.value.value, today).None?
    ensures (Reminder(v, today).Ok? && Reminder(v, today).value.Some?) <==>
      (v.birthday.Some? && NextOccurrence(v.birthday.value.value, today).Some?
        && 0 <= DaysBetween(NextOccurrence(v.birthday.value.value, today).value, today) < 7)
    ensures Reminder(v, today).Ok? && Reminder(v, today).value.Some? ==>
      Reminder(v, today).value.value == ShiftOffWeekend(NextOccurrence(v.birthday.value.value, today).value)
  {
  }

  /** The first date of an ascending list comes before all the others. */
  lemma HeadBefore(s: seq<Date>)
    requires Ascending(s) && s != []
    ensures Ascending(s[1..])
    ensures forall x :: x in s[1..] ==> Before(s[0], x)
  {
    assert forall i :: 0 <= i < |s[1..]| ==> s[1..][i] == s[i + 1];
  }

  /** A date before all of an ascending list can be put in front of it. */
  lemma PrependAscending(x: Date, s: seq<Date>)
    requires Ascending(s) && forall k :: 0 <= k < |s| ==> Before(x, s[k])
    ensures Ascending([x] + s)
  {
    var r := [x] + s;
    forall i, j | 0 <= i < j < |r| ensures Before(r[i], r[j]) {
      assert r[j] == s[j - 1];
      if i > 0 {
        assert r[i] == s[i - 1];
      }
    }
  }

  lemma {:induction false} InsertAscending(d: Date, s: seq<Date>)
    requires Ascending(s) && d !in s
    ensures Ascending(InsertDate(d, s))
    decreases |s|
  {
    if s != [] && Before(s[0], d) {
      HeadBefore(s);
      InsertAscending(d, s[1..]);
      var rest := InsertDate(d, s[1..]);
      SameElements(rest, s[1..] + [d]);
      forall k | 0 <= k < |rest| ensures Before(s[0], rest[k]) {
        assert rest[k] in s[1..] + [d];
      }
      PrependAscending(s[0], rest);
      assert InsertDate(d, s) == [s[0]] + rest;
    }
  }

  /** `sorted` on distinct dates gives them in strictly ascending order. */
  lemma {:induction false} SortDatesAscending(ds: seq<Date>)
    requires NoRepeats(ds)
    ensures Ascending(SortDates(ds))
    decreases |ds|
  {
    if ds != [] {
      assert NoRepeats(ds[1..]) by {
        assert forall i, j :: 0 <= i < j < |ds[1..]| ==> ds[1..][i] == ds[i + 1] && ds[1..][j] == ds[j + 1];
      }
      SortDatesAscending(ds[1..]);
      assert ds[0] !in ds[1..];
      assert ds[0] !in multiset(ds[1..]);
      InsertAscending(ds[0], SortDates(ds[1..]));
    }
  }

  /** The keys are distinct, and a date is a key exactly when some record's
      reminder falls on it. */
  lemma {:induction false} FirstSeenFacts(es: seq<Entry>)
    ensures NoRepeats(FirstSeen(es))
    ensures forall d :: d in FirstSeen(es) <==> exists i :: 0 <= i < |es| && es[i].reminder == Ok(Some(d))
    decreases |es|
  {
    if es != [] {
      var init := es[..|es| - 1];
      FirstSeenFacts(init);
      assert forall i :: 0 <= i < |init| ==> init[i] == es[i];
      forall d | exists i :: 0 <= i < |es| && es[i].reminder == Ok(Some(d))
        ensures d in FirstSeen(es)
      {
        var i :| 0 <= i < |es| && es[i].reminder == Ok(Some(d));
        if i < |init| {
          assert init[i].reminder == Ok(Some(d));
        }
      }
    }
  }

  /** Exactly the records whose reminder falls on `d` are listed under it. */
  lemma {:induction false} NamesOnFacts(es: seq<Entry>, d: Date)
    ensures forall n :: n in NamesOn(es, d) <==> exists i :: 0 <= i < |es| && es[i].name == n && es[i].reminder == Ok(Some(d))
    ensures |NamesOn(es, d)| <= |es|
    decreases |es|
  {
    if es != [] {
      var init := es[..|es| - 1];
      NamesOnFacts(init, d);
      assert forall i :: 0 <= i < |init| ==> init[i] == es[i];
      forall n | exists i :: 0 <= i < |es| && es[i].name == n && es[i].reminder == Ok(Some(d))
        ensures n in NamesOn(es, d)
      {
        var i :| 0 <= i < |es| && es[i].name == n && es[i].reminder == Ok(Some(d));
        if i < |init| {
          assert init[i].name == n && init[i].reminder == Ok(Some(d));
        }
      }
    }
  }

  lemma KeysValid(es: seq<Entry>)
    requires DatesValid(es)
    ensures forall d :: d in FirstSeen(es) ==> ValidDate(d)
  {
    FirstSeenFacts(es);
  }

  /** Every line starts with the weekday's name, whose first letter is
      never `N`. */
  lemma ReportLineStart(d: Date, names: seq<string>)
    requires ValidDate(d)
    ensures |ReportLine(d, names)| > 0 && ReportLine(d, names)[0] != 'N'
  {
    var w := WeekdayNames[Weekday(d)];
    assert |w| > 0 && w[0] != 'N';
    assert ReportLine(d, names) == w + (", " + Pad2(d.day) + " " + MonthNames[d.month - 1] + ": " + Join(names, ", "));
  }

  /** A report with at least one date does not start with `N`. */
  lemma ReportTextStart(es: seq<Entry>, sorted: seq<Date>)
    requires forall i :: 0 <= i < |sorted| ==> ValidDate(sorted[i])
    requires sorted != []
    ensures |ReportText(es, sorted)| > 0 && ReportText(es, sorted)[0] != 'N'
  {
    var lines := Lines(es, sorted);
    JoinStartsWithFirst(lines, "\n");
    LinesAt(es, sorted, 0);
    ReportLineStart(sorted[0], NamesOn(es, sorted[0]));
  }

  /** Line `k` is the line of the `k`-th date. */
  lemma {:induction false} LinesAt(es: seq<Entry>, sorted: seq<Date>, k: nat)
    requires forall i :: 0 <= i < |sorted| ==> ValidDate(sorted[i])
    requires k < |sorted|
    ensures Lines(es, sorted)[k] == ReportLine(sorted[k], NamesOn(es, sorted[k]))
    decreases |sorted|
  {
    if k < |sorted| - 1 {
      LinesAt(es, sorted[..|sorted| - 1], k);
    }
  }

  /** The report says that nothing is coming exactly when no record raises
      and none falls in the window. */
  lemma ReportEmpty(es: seq<Entry>)
    requires DatesValid(es)
    ensures Report(es) == Some(NoUpcoming) <==>
      !Fails(es) && forall i :: 0 <= i < |es| ==> es[i].reminder == Ok(None)
  {
    FirstSeenFacts(es);
    if Fails(es) {
      assert Report(es) == None;
    } else if FirstSeen(es) == [] {
      assert Report(es) == Some(NoUpcoming);
    } else {
      var keys := FirstSeen(es);
      assert keys[0] in keys;
      var j :| 0 <= j < |es| && es[j].reminder == Ok(Some(keys[0]));
      KeysValid(es);
      var sorted := SortDates(keys);
      assert |sorted| == |keys| by {
        assert |multiset(sorted)| == |multiset(keys)|;
      }
      assert forall i :: 0 <= i < |sorted| ==> sorted[i] in multiset(keys);
      ReportTextStart(es, sorted);
      assert Report(es) == Some(ReportText(es, sorted));
      assert NoUpcoming[0] == 'N';
    }
  }

  /** The dates of the report are strictly ascending, and they are exactly
      the dates some record's reminder falls on. */
  lemma SortedKeys(es: seq<Entry>)
    requires DatesValid(es)
    ensures var sorted := SortDates(FirstSeen(es));
      && Ascending(sorted)
      && (forall d :: d in sorted <==> exists i :: 0 <= i < |es| && es[i].reminder == Ok(Some(d)))
      && (forall i :: 0 <= i < |sorted| ==> ValidDate(sorted[i]))
  {
    var keys := FirstSeen(es);
    var sorted := SortDates(keys);
    FirstSeenFacts(es);
    KeysValid(es);
    SortDatesAscending(keys);
    SameElements(keys, sorted);
    forall i | 0 <= i < |sorted| ensures ValidDate(sorted[i]) {
      assert sorted[i] in keys;
    }
  }

  /** When something is coming, the report has one line per date, in that
      order, each line listing the names filed under its date. */
  lemma ReportDates(es: seq<Entry>)
    requires DatesValid(es)
    requires !Fails(es) && FirstSeen(es) != []
    ensures var sorted := SortDates(FirstSeen(es));
      && (forall i :: 0 <= i < |sorted| ==> ValidDate(sorted[i]))
      && Report(es) == Some(ReportText(es, sorted))
  {
    SortedKeys(es);
  }

  /** What the `defaultdict` holds after the loop has seen `es`: the keys
      first seen, each with its names. */
  ghost predicate Grouped(es: seq<Entry>, groups: map<Date, seq<string>>, keys: seq<Date>) {
    && keys == FirstSeen(es)
    && (forall d :: d in groups <==> d in keys)
    && (forall d :: d in groups ==> groups[d] == NamesOn(es, d))
  }

  /** `upcoming_birthdays[d].append(name)` on a `defaultdict(list)` whose
      keys are kept in insertion order. */
  function Append(groups: map<Date, seq<string>>, keys: seq<Date>, d: Date, name: string): (map<Date, seq<string>>, seq<Date>) {
    if d in groups then (groups[d := groups[d] + [name]], keys)
    else (groups[d := [name]], keys + [d])
  }

  /** No name is filed under a date that is not a key. */
  lemma {:induction false} NamesOnEmpty(es: seq<Entry>, d: Date)
    ensures NamesOn(es, d) == [] <==> d !in FirstSeen(es)
    decreases |es|
  {
    if es != [] {
      NamesOnEmpty(es[..|es| - 1], d);
    }
  }

  /** Seeing one more record adds at most its date to the keys and at most
      its name to that date's names. */
  lemma SeenStep(es: seq<Entry>, i: nat)
    requires i < |es|
    ensures var rem := es[i].reminder;
      FirstSeen(es[..i + 1]) ==
        if rem.Ok? && rem.value.Some? && rem.value.value !in FirstSeen(es[..i])
        then FirstSeen(es[..i]) + [rem.value.value] else FirstSeen(es[..i])
    ensures forall d :: NamesOn(es[..i + 1], d) == NamesOn(es[..i], d) + (if es[i].reminder == Ok(Some(d)) then [es[i].name] else [])
  {
    assert es[..i + 1][..i] == es[..i];
  }

  /** A record outside the window leaves the groups as they are. */
  lemma GroupKeep(es: seq<Entry>, i: nat, groups: map<Date, seq<string>>, keys: seq<Date>)
    requires i < |es| && Grouped(es[..i], groups, keys) && es[i].reminder == Ok(None)
    ensures Grouped(es[..i + 1], groups, keys)
  {
    SeenStep(es, i);
  }

  /** A record inside the window is appended under its date. */
  lemma GroupAdd(es: seq<Entry>, i: nat, groups: map<Date, seq<string>>, keys: seq<Date>, d: Date)
    requires i < |es| && Grouped(es[..i], groups, keys) && es[i].reminder == Ok(Some(d))
    ensures Grouped(es[..i + 1], Append(groups, keys, d, es[i].name).0, Append(groups, keys, d, es[i].name).1)
  {
    KeysAdd(es, i, groups, keys, d);
    NamesAdd(es, i, groups, keys, d);
  }

  lemma KeysAdd(es: seq<Entry>, i: nat, groups: map<Date, seq<string>>, keys: seq<Date>, d: Date)
    requires i < |es| && Grouped(es[..i], groups, keys) && es[i].reminder == Ok(Some(d))
    ensures var next := Append(groups, keys, d, es[i].name);
      && next.1 == FirstSeen(es[..i + 1])
      && forall e :: e in next.0 <==> e in next.1
  {
    SeenStep(es, i);
  }

  lemma NamesAdd(es: seq<Entry>, i: nat, groups: map<Date, seq<string>>, keys: seq<Date>, d: Date)
    requires i < |es| && Grouped(es[..i], groups, keys) && es[i].reminder == Ok(Some(d))
    ensures var next := Append(groups, keys, d, es[i].name).0;
      forall e :: e in next ==> next[e] == NamesOn(es[..i + 1], e)
  {
    var next := Append(groups, keys, d, es[i].name).0;
    SeenStep(es, i);
    if d !in groups {
      NamesOnEmpty(es[..i], d);
    }
    forall e | e in next ensures next[e] == NamesOn(es[..i + 1], e) {
      if e != d {
        assert next[e] == groups[e];
      }
    }
  }

  /** The loop raises at record `i` or has not raised yet. */
  lemma FailsStep(es: seq<Entry>, i: nat)
    requires i < |es|
    ensures Fails(es[..i + 1]) <==> Fails(es[..i]) || es[i].reminder.Err?
  {
    assert es[..i + 1][i] == es[i];
    assert forall j :: 0 <= j < i ==> es[..i + 1][j] == es[..i][j];
  }

  lemma LinesStep(es: seq<Entry>, sorted: seq<Date>, j: nat)
    requires forall i :: 0 <= i < |sorted| ==> ValidDate(sorted[i])
    requires j < |sorted|
    ensures Lines(es, sorted[..j + 1]) == Lines(es, sorted[..j]) + [ReportLine(sorted[j], NamesOn(es, sorted[j]))]
  {
    assert sorted[..j + 1][..j] == sorted[..j];
  }

  /** An empty `defaultdict` (no keys) after a loop that did not raise
      gives the empty-week message. */
  lemma ReportWithoutGroups(es: seq<Entry>, groups: map<Date, seq<string>>, keys: seq<Date>)
    requires DatesValid(es) && Grouped(es, groups, keys) && !Fails(es) && keys == []
    ensures Report(es) == Some(NoUpcoming)
  {
  }

  /** A non-empty `defaultdict` after a loop that did not raise gives one
      line per sorted key, built from that key's group. */
  lemma ReportFromGroups(es: seq<Entry>, groups: map<Date, seq<string>>, keys: seq<Date>)
    requires DatesValid(es) && Grouped(es, groups, keys) && !Fails(es) && keys != []
    ensures var sorted := SortDates(keys);
      && (forall k :: 0 <= k < |sorted| ==> ValidDate(sorted[k]) && sorted[k] in groups && groups[sorted[k]] == NamesOn(es, sorted[k]))
      && Report(es) == Some(ReportText(es, sorted))
  {
    KeysValid(es);
    var sorted := SortDates(keys);
    assert forall k :: 0 <= k < |sorted| ==> sorted[k] in multiset(keys);
  }

  /** The values of a list of record objects. */
  function RecordValues(records: seq<Record>): (rs: seq<RecordValue>)
    reads set k | 0 <= k < |records| :: records[k]
    ensures |rs| == |records|
    ensures forall i :: 0 <= i < |records| ==> rs[i] == records[i].Value()
  {
    seq(|records|, i reads records requires 0 <= i < |records| => records[i].Value())
  }

  /** `get_upcoming_birthdays` on the records of the book, in insertion
      order: each record's congratulation date, if it is in the window, is
      appended to a `defaultdict` under that date, and the groups are then
      formatted. None where `replace` raises. */
  method UpcomingBirthdays(records: seq<Record>, today: Date) returns (r: Option<string>)
    requires AllValid(RecordValues(records)) && ValidDate(today)
    ensures r == Report(Entries(RecordValues(records), today))
  {
    ghost var rs := RecordValues(records);
    ghost var es := Entries(rs, today);
    var groups: map<Date, seq<string>> := map[];
    var keys: seq<Date> := [];
    for i := 0 to |records|
      invariant Grouped(es[..i], groups, keys)
      invariant !Fails(es[..i])
    {
      var record := records[i];
      var reminder := Reminder(record.Value(), today);
      EntriesAt(rs, today, i);
      FailsStep(es, i);
      match reminder {
        case Err(_) =>
          assert Fails(es);
          return None;
        case Ok(None) =>
          GroupKeep(es, i, groups, keys);
        case Ok(Some(d)) =>
          GroupAdd(es, i, groups, keys, d);
          groups, keys := Append(groups, keys, d, record.name).0, Append(groups, keys, d, record.name).1;
      }
    }
    assert es[..|records|] == es;
    var text := FormatReport(es, groups, keys);
    return Some(text);
  }

  /** The end of `get_upcoming_birthdays`: the empty-week message, or one
      line per key of the `defaultdict` in ascending order, joined by
      newlines. */
  method FormatReport(ghost es: seq<Entry>, groups: map<Date, seq<string>>, keys: seq<Date>) returns (text: string)
    requires DatesValid(es) && Grouped(es, groups, keys) && !Fails(es)
    ensures Report(es) == Some(text)
  {
    if keys == [] {
      ReportWithoutGroups(es, groups, keys);
      return NoUpcoming;
    }
    ReportFromGroups(es, groups, keys);
    var sorted := SortDates(keys);
    var lines := [];
    for j := 0 to |sorted|
      invariant lines == Lines(es, sorted[..j])
    {
      var line := ReportLine(sorted[j], groups[sorted[j]]);
      LinesStep(es, sorted, j);
      lines := lines + [line];
    }
    assert sorted[..|sorted|] == sorted;
    return Join(lines, "\n");
  }

  // ---------------------------------------------------------------------------
  // The book object

  /** The values of the records a dictionary holds. */
  function Snapshot(d: map<string, Record>): (m: map<string, RecordValue>)
    reads d.Values
    ensures m.Keys == d.Keys
    ensures forall k :: k in d ==> m[k] == d[k].Value()
  {
    map k | k in d :: d[k].Value()
  }

  lemma SnapshotUpdate(d: map<string, Record>, k: string, r: Record)
    ensures Snapshot(d[k := r]) == Snapshot(d)[k := r.Value()]
  {
  }

  /** Records left alone keep their values. */
  twostate lemma SnapshotFrame(d: map<string, Record>)
    requires unchanged(d.Values)
    ensures Snapshot(d) == old(Snapshot(d))
  {
  }

  lemma SnapshotRemove(d: map<string, Record>, k: string)
    ensures Snapshot(d - {k}) == Snapshot(d) - {k}
  {
  }

  class AddressBook {
    /** The keys of `self.data` in insertion order. */
    var order: seq<string>
    var data: map<string, Record>

    /** Every record is filed under its own name, and the names are listed
        once each in insertion order. */
    ghost predicate Valid()
      reads this, data.Values
    {
      WellFormed(State())
    }

    ghost function State(): BookState
      reads this, data.Values
    {
      BookState(order, Snapshot(data))
    }

    /** `AddressBook()`: an empty dictionary. */
    constructor ()
      ensures Valid()
      ensures State() == BookState([], map[])
    {
      order := [];
      data := map[];
    }

    /** `self.data.values()`: the records in insertion order. */
    function Records(): (records: seq<Record>)
      requires Valid()
      reads this, data.Values
      ensures |records| == |order| && forall i :: 0 <= i < |order| ==> records[i] == data[order[i]]
    {
      seq(|order|, i requires 0 <= i < |order| && order[i] in data reads this => data[order[i]])
    }

    /** The values of those records are the rows of the book. */
    lemma ValuesInOrder(records: seq<Record>)
      requires Valid()
      requires |records| == |order| && forall i :: 0 <= i < |order| ==> records[i] == data[order[i]]
      ensures RecordValues(records) == Rows(State())
    {
    }

    /** `add_record`: file the record under its name. */
    method AddRecord(record: Record)
      requires Valid() && record.Valid()
      modifies this
      ensures Valid()
      ensures data == old(data)[record.name := record]
      ensures State() == Upsert(old(State()), record.Value())
    {
      ghost var before := State();
      ghost var after := Upsert(before, record.Value());
      SnapshotUpdate(data, record.name, record);
      if record.name !in data {
        order := order + [record.name];
      }
      assert order == after.order;
      data := data[record.name := record];
      SnapshotFrame(data);
      UpsertFacts(before, record.Value());
    }

    /** `find`: `self.data.get(name)`. */
    function Find(name: string): (r: Option<Record>)
      reads this
      ensures r.Some? <==> name in data
      ensures r.Some? ==> r.value == data[name]
    {
      if name in data then Some(data[name]) else None
    }

    method Delete(name: string) returns (r: Result<(), Error>)
      requires Valid()
      modifies this
      ensures Valid()
      ensures r.Err? <==> DeleteName(old(State()), name).Err?
      ensures r.Err? ==> r.error == KeyError && State() == old(State())
      ensures r.Ok? ==> State() == DeleteName(old(State()), name).value
    {
      if name in data {
        ghost var before := State();
        ghost var after := DeleteName(before, name).value;
        SnapshotRemove(data, name);
        order := Remove(order, name);
        data := data - {name};
        SnapshotFrame(data);
        DeleteFacts(before, name);
        return Ok(());
      }
      return Err(KeyError);
    }
  
    /** `get_upcoming_birthdays`: group the names by congratulation date in
        a `defaultdict`, then list the dates in ascending order. None where
        `replace` raises. */
    method GetUpcomingBirthdays(today: Date) returns (r: Option<string>)
      requires Valid() && ValidDate(today)
      ensures r == Report(Entries(Rows(State()), today))
    {
      var records := Records();
      r := UpcomingBirthdays(records, today);
      ValuesInOrder(records);
    }
  }

  /** A handler changed the record filed under `name` in place and touched
      nothing else of the book: the book now holds the record's new value
      under that name. */
  twostate lemma RecordChanged(book: AddressBook, new name: string)
    requires old(book.Valid()) && name in old(book.data)
    requires unchanged(book) && unchanged(book.data.Values - {book.data[name]})
    requires book.data[name].Valid()
    ensures book.Valid()
    ensures book.State() == Upsert(old(book.State()), book.data[name].Value())
  {
    var before := old(book.State());
    var v := book.data[name].Value();
    assert v.name == name by {
      assert before.records[name].name == name;
    }
    assert Snapshot(book.data) == before.records[name := v];
    UpsertFacts(before, v);
  }
}

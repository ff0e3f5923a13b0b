# Assistant bot, contact book and small date and number utilities

This project is a Dafny model of a small Python homework repository. Its
core is the assistant bot of `goit-pycore-hw-07/task_1.py`:

- an in-memory `AddressBook` of `Record`s, each holding a name, a list of
  validated ten-digit phones and an optional birthday;
- the weekly report of upcoming birthday greetings, with weekend birthdays
  moved to Monday;
- `parse_input`, the `input_error` decorator, the command handlers and the
  `while True` loop of `main`.

Beside it are five small utilities:

- the weekly greeting list of `goit-pycore-hw-03/task_4.py`;
- the phone normaliser of `goit-pycore-hw-03/task_3.py`;
- the day counter of `goit-pycore-hw-03/task_1.py`;
- the lottery ticket of `goit-pycore-hw-03/task_2.py`;
- the memoised Fibonacci closure of `goit-pycore-hw-05/task_1.py`.

Modules, one file each:

- `Wrappers`: `Option` and `Result`.
- `Sequences`: the first index, `str.join`, removal, and no repeats.
- `Calendar`: Python's proleptic Gregorian `date`. It covers the ordinal,
  `weekday()`, the lexicographic `<`, `replace(year=…)` with its
  `ValueError`, and adding one day.
- `DateText`: `strptime` and `strftime` for the directives `%d`, `%m` and
  `%Y` with one separator character. Both directive orders are covered.
- `BirthdayRule`: the next occurrence of a birthday and the shift off a
  weekend. The two birthday reports share these.
- `ContactBook`: `Phone`, `Birthday`, the `Record` and `AddressBook`
  classes, and `get_upcoming_birthdays`.
  - The classes keep their fields and change them in place.
  - Every method is proved against a function on the record's value
    (`RecordValue`) or the book's value (`BookState`).
  - The book keeps `order` beside its `data` map, which is the insertion
    order Python's `dict` iterates in.
- `Assistant`: parsing a line, the handlers and the loop of `main`.
  - Each handler is a method on the book object.
  - Each is proved against a `…Spec` function on `BookState` that gives the
    text printed and the book afterwards.
  - `Respond` is one pass of the loop and `Transcript` a whole session.
- `WeeklyBirthdays`, `PhoneNormalizer`, `DaysFromToday`, `Lottery` and
  `Fibonacci`: the utilities.

Exceptions become values:

- `ValueError(message)`, `KeyError`, `IndexError` and `AttributeError` in
  `ContactBook.Error`.
- An exception that no handler catches is the outcome `Crash`.

The clock (`datetime.today()`) is a `today` parameter. The randomness of
`random.sample` is a sequence of coin flips.

### Where the written description of the bot and its code differ

The model follows the code in each case.

- **Too few arguments.** The description says too few arguments give "Not
  enough arguments. Please provide full command parameters.".
  - In the code, `name, phone, *_ = args` raises `ValueError`, whose text
    `input_error` prints, for example "not enough values to unpack
    (expected at least 2, got 1)".
  - `Assistant.TooFewArguments` proves that text is what every handler
    prints for too few arguments.
  - The `IndexError` branch can never be taken
    (`Assistant.NoHandlerRaisesIndexError`).
- **`change` with an unknown old number.** The description says this fails
  as "not found". The code raises `ValueError("Old phone number not
  found.")`, which prints that text
  (`Assistant.ChangeUnknownOldPhone`).
- **Crashes.** The description says a failing command never ends the
  session. In the code:
  - a line of whitespace only makes `parse_input` raise outside any
    handler;
  - `birthdays` is not wrapped, so a 29 February birthday in a common year,
    or a `replace` past year 9999, escapes too.
  - Both end the program (`Assistant.CrashesExactly`).
- **Invalid phone in `add`.** `add` with an invalid phone for a new name
  still files the new contact, without a phone, before the phone is
  rejected (`Assistant.AddContactFacts`, `Assistant.AddInvalidPhone`).
- **Blank lines.** Only the empty line is skipped silently. Other input is
  split with `str.split()`, which drops surrounding whitespace.
- **The window.** The book's report takes birthdays 0 to 6 days ahead
  (`ContactBook.ReminderFacts`). The greeting list of
  `goit-pycore-hw-03/task_4.py` takes 0 to 7 days ahead
  (`WeeklyBirthdays.SeventhDayIncluded`). Each is modelled as written.

## Model

| member | source | states |
|---|---|---|
| Sequences.FirstIndex | goit-pycore-hw-07/task_1.py:93-97 | the index found is that of the first element equal to the one sought, and there is none exactly when the element does not occur |
| Sequences.JoinStartsWithFirst | goit-pycore-hw-07/task_1.py:244 | `sep.join(parts)` of a non-empty list starts with its first part |
| Sequences.Remove | goit-pycore-hw-07/task_1.py:130 | removing a name leaves exactly the other elements as members, and never lengthens the sequence |
| Sequences.RemoveAbsent | goit-pycore-hw-07/task_1.py:130 | removing a name that does not occur changes nothing |
| Sequences.RemoveAt | goit-pycore-hw-07/task_1.py:130 | in a sequence without repeats, removing a name cuts out its one position and keeps the others in their order |
| Sequences.AppendKeepsNoRepeats | goit-pycore-hw-07/task_1.py:123 | inserting a new key at the end of the insertion order keeps it free of repeats |
| Sequences.RemoveKeepsNoRepeats | goit-pycore-hw-07/task_1.py:130 | deleting a key from the insertion order keeps it free of repeats |
| Calendar.Replace | goit-pycore-hw-07/task_1.py:149-153 | `date.replace(year=y)` succeeds exactly when y is in 1..9999 and the date is not 29 February of a common year, and then changes the year only |
| Calendar.BeforeIsOrdinalOrder | goit-pycore-hw-07/task_1.py:152 | the field-by-field `<` of dates is the order of their day ordinals, and equal dates have equal ordinals and back |
| Calendar.OrdinalWithinYear | goit-pycore-hw-07/task_1.py:156 | a date's ordinal lies strictly after the days of all earlier years and within its own year's length |
| Calendar.NextDayOrdinal | goit-pycore-hw-07/task_1.py:163-165 | adding one day adds one to the ordinal, and the result is a real date except after 31 December 9999 |
| Calendar.NextDayWeekday | goit-pycore-hw-07/task_1.py:161-165 | the day after has the following weekday, counting Monday as 0 |
| Calendar.LastDaysAreWeekdays | goit-pycore-hw-07/task_1.py:162-165 | 30 and 31 December 9999 are a Thursday and a Friday, so a weekend date is never the last date |
| BirthdayRule.NextOccurrenceFacts | goit-pycore-hw-07/task_1.py:149-156 | the occurrence keeps month and day; it falls next year exactly when this year's date is already past; it is 0 or more days ahead, and 0 only when it is today |
| BirthdayRule.NextOccurrenceFails | goit-pycore-hw-07/task_1.py:149-153 | `replace` raises exactly for 29 February when that year is common or the date is past, or when the birthday is past in year 9999 |
| BirthdayRule.ShiftOffWeekendFacts | goit-pycore-hw-07/task_1.py:160-167 | the greeting day is never a Saturday or Sunday; it equals the birthday exactly on a weekday; Saturday moves 2 days and Sunday 1, both to Monday |
| BirthdayRule.SaturdayShift | goit-pycore-hw-07/task_1.py:162-163 | a Saturday moves two days on, to a Monday |
| BirthdayRule.SundayShift | goit-pycore-hw-07/task_1.py:164-165 | a Sunday moves one day on, to a Monday |
| DateText.DigitChar | goit-pycore-hw-07/task_1.py:73 | the digit written for 0..9 reads back as that number |
| DateText.Pad2 | goit-pycore-hw-07/task_1.py:73 | `%d`/`%m` write two digits that read back as the number |
| DateText.Pad4 | goit-pycore-hw-07/task_1.py:73 | `%Y` writes four digits that read back as the year |
| DateText.Strptime | goit-pycore-hw-07/task_1.py:68 | a successful parse is a real calendar date |
| DateText.StrptimeJoined | goit-pycore-hw-07/task_1.py:68 | on three separator-free fields, the parse succeeds exactly when they are a `%d`, `%m` and `%Y` token naming a real date, and gives that date |
| DateText.StrptimeFields | goit-pycore-hw-07/task_1.py:68 | a successful parse split the text at two separators into tokens of the directives' shapes and returns their values |
| DateText.Split3Sound | goit-pycore-hw-07/task_1.py:68 | the three fields found are separator-free and, joined by the separator, give the text back |
| DateText.ParseFormatted | goit-pycore-hw-07/task_1.py:68-73 | `strptime` reads back every date `strftime` writes, in both directive orders |
| DateText.FormattedIsCanonical | goit-pycore-hw-07/task_1.py:73 | what `strftime` writes is zero-padded |
| DateText.FormatParsed | goit-pycore-hw-07/task_1.py:68-73 | writing a parsed date gives the text back exactly when the text was zero-padded |
| ContactBook.NewPhone | goit-pycore-hw-07/task_1.py:53-56 | a phone is accepted exactly when it is ten digits and keeps its text; otherwise ValueError "Phone number must be 10 digits." |
| ContactBook.NewBirthday | goit-pycore-hw-07/task_1.py:65-70 | a birthday is accepted exactly when `%d.%m.%Y` parses and holds that real date; otherwise ValueError "Invalid date format. Use DD.MM.YYYY" |
| ContactBook.BirthdayRoundTrip | goit-pycore-hw-07/task_1.py:65-73 | reading back `str(birthday)` gives the same birthday |
| ContactBook.BirthdayTextOfParsed | goit-pycore-hw-07/task_1.py:65-73 | `str` of a birthday read from text equals that text exactly when it was zero-padded `DD.MM.YYYY` |
| ContactBook.AddPhoneValue | goit-pycore-hw-07/task_1.py:87-89 | `add_phone` succeeds exactly for a valid phone and appends it last; otherwise the phone's ValueError |
| ContactBook.EditPhonesFacts | goit-pycore-hw-07/task_1.py:91-99 | "Old phone number not found." exactly when no phone matches; the phone error exactly when one matches and the new number is invalid; otherwise only the first match is replaced |
| ContactBook.EditPhoneValue | goit-pycore-hw-07/task_1.py:91-99 | `edit_phone` changes only the phone list, exactly as the phone-list edit does, and reports its error |
| ContactBook.AddBirthdayValue | goit-pycore-hw-07/task_1.py:107-108 | `add_birthday` sets the birthday exactly when the text parses; otherwise the birthday's ValueError |
| ContactBook.RecordOperationsKeepValid | goit-pycore-hw-07/task_1.py:87-108 | every record operation that succeeds keeps the name, keeps every phone valid and keeps the birthday a real date |
| ContactBook.RecordTextParts | goit-pycore-hw-07/task_1.py:110-113 | `str(record)` starts with "Contact name: ", the name, ", phones: " and the phones joined by "; "; that is all without a birthday; otherwise the text after ", birthday: " reads back as the birthday |
| ContactBook.Record.constructor | goit-pycore-hw-07/task_1.py:82-85 | a new record has the name, no phones and no birthday |
| ContactBook.Record.AddPhone | goit-pycore-hw-07/task_1.py:87-89 | on success the record becomes `AddPhoneValue` of its old value; on failure it is unchanged and the error is returned |
| ContactBook.Record.EditPhone | goit-pycore-hw-07/task_1.py:91-99 | on success the record becomes `EditPhoneValue` of its old value; on failure it is unchanged and the error is returned |
| ContactBook.Record.FindPhone | goit-pycore-hw-07/task_1.py:101-105 | no phone exactly when none has the number; otherwise the first phone that has it |
| ContactBook.Record.AddBirthday | goit-pycore-hw-07/task_1.py:107-108 | on success the record becomes `AddBirthdayValue` of its old value; on failure it is unchanged and the error is returned |
| ContactBook.Rows | goit-pycore-hw-07/task_1.py:143 | `data.values()` lists one valid record per name, in insertion order, each filed under its own name |
| ContactBook.UpsertFacts | goit-pycore-hw-07/task_1.py:122-123 | storing a record under its name keeps the book well formed, sets that entry and leaves the others; the name goes last in the order only if it is new |
| ContactBook.UpsertSame | goit-pycore-hw-07/task_1.py:122-123 | storing an entry again changes nothing |
| ContactBook.DeleteName | goit-pycore-hw-07/task_1.py:128-132 | `delete` fails with KeyError exactly when the name is absent |
| ContactBook.DeleteFacts | goit-pycore-hw-07/task_1.py:128-132 | deleting keeps the book well formed, removes exactly that name, leaves every other entry, and the insertion order loses that name's position only, the others keeping their order |
| ContactBook.Reminder | goit-pycore-hw-07/task_1.py:144-167 | a greeting day is a real date that is not a weekend day |
| ContactBook.ReminderFacts | goit-pycore-hw-07/task_1.py:144-167 | the loop fails on a record exactly when its birthday has no next occurrence; it greets exactly when that occurrence is 0 to 6 days ahead, on the weekend-shifted occurrence |
| ContactBook.EntriesAt | goit-pycore-hw-07/task_1.py:143-170 | entry i holds the i-th record's name and its reminder |
| ContactBook.InsertDate | goit-pycore-hw-07/task_1.py:176 | insertion adds exactly the one date |
| ContactBook.SortDates | goit-pycore-hw-07/task_1.py:176 | `sorted` returns a permutation of the keys |
| ContactBook.SortDatesAscending | goit-pycore-hw-07/task_1.py:176 | distinct keys come out in strictly ascending date order |
| ContactBook.FirstSeenFacts | goit-pycore-hw-07/task_1.py:141-170 | the `defaultdict`'s keys have no repeats and are exactly the dates some record is greeted on |
| ContactBook.NamesOnFacts | goit-pycore-hw-07/task_1.py:170 | the names listed under a date are exactly those of the records greeted on it |
| ContactBook.NamesOnEmpty | goit-pycore-hw-07/task_1.py:170 | a date has no names exactly when it is not a key |
| ContactBook.ReportEmpty | goit-pycore-hw-07/task_1.py:172-173 | the report is "No upcoming birthdays in the next week." exactly when no record fails and none is greeted |
| ContactBook.SortedKeys | goit-pycore-hw-07/task_1.py:176 | the sorted keys ascend and are exactly the greeting dates |
| ContactBook.LinesAt | goit-pycore-hw-07/task_1.py:175-182 | line k is the k-th sorted date, written "%A, %d %B", then ": " and its names joined by ", " |
| ContactBook.ReportDates | goit-pycore-hw-07/task_1.py:175-182 | when someone is greeted, the report is those lines for the sorted dates, joined by newlines |
| ContactBook.ReportLineStart | goit-pycore-hw-07/task_1.py:179-180 | a report line starts with a weekday name, so never with the "No upcoming" message's first letter |
| ContactBook.ReportTextStart | goit-pycore-hw-07/task_1.py:172-182 | a non-empty report never starts like the "No upcoming" message |
| ContactBook.ReportWithoutGroups | goit-pycore-hw-07/task_1.py:172-173 | grouping that found no dates gives the "No upcoming" message |
| ContactBook.ReportFromGroups | goit-pycore-hw-07/task_1.py:175-182 | grouping that found dates gives the report of the sorted keys, each with its names |
| ContactBook.UpcomingBirthdays | goit-pycore-hw-07/task_1.py:139-182 | the loop over the records and its formatting give exactly the report of the records' reminders, or no report when a `replace` raised |
| ContactBook.FormatReport | goit-pycore-hw-07/task_1.py:172-182 | formatting the grouped dictionary gives exactly the report |
| ContactBook.AddressBook.constructor | goit-pycore-hw-07/task_1.py:116-120 | a new book is empty |
| ContactBook.AddressBook.Records | goit-pycore-hw-07/task_1.py:143 | `data.values()` are the records filed under the names in insertion order |
| ContactBook.AddressBook.ValuesInOrder | goit-pycore-hw-07/task_1.py:143 | the values of those records are the rows of the book's state |
| ContactBook.AddressBook.AddRecord | goit-pycore-hw-07/task_1.py:122-123 | the record is filed under its name, and the book's state becomes the upsert of its value |
| ContactBook.AddressBook.Find | goit-pycore-hw-07/task_1.py:125-126 | `data.get(name)` gives the record filed under the name, or none exactly when the name is absent |
| ContactBook.AddressBook.Delete | goit-pycore-hw-07/task_1.py:128-132 | KeyError with the book unchanged exactly when the name is absent; otherwise exactly that entry is removed |
| ContactBook.AddressBook.GetUpcomingBirthdays | goit-pycore-hw-07/task_1.py:134-182 | the text is the report of the book's rows for `today` |
| ContactBook.RecordChanged | goit-pycore-hw-07/task_1.py:205-207 | changing one filed record in place changes the book's state as storing its new value would |
| Assistant.DropSpace | goit-pycore-hw-07/task_1.py:187 | skips exactly the leading whitespace |
| Assistant.TakeWord | goit-pycore-hw-07/task_1.py:187 | takes the longest whitespace-free prefix |
| Assistant.Words | goit-pycore-hw-07/task_1.py:187 | `str.split()` gives non-empty words without whitespace |
| Assistant.WordsOfJoin | goit-pycore-hw-07/task_1.py:187 | splitting words joined by single spaces gives the words back |
| Assistant.WordsEmpty | goit-pycore-hw-07/task_1.py:187 | a line splits into no words exactly when it is all whitespace |
| Assistant.Lower | goit-pycore-hw-07/task_1.py:188 | `lower()` maps each ASCII capital to its small letter and keeps every other character |
| Assistant.LowerIdempotent | goit-pycore-hw-07/task_1.py:188 | lower-casing twice is lower-casing once |
| Assistant.NatText | goit-pycore-hw-07/task_1.py:198 | `str(n)` is a non-empty run of digits |
| Assistant.NatTextRoundTrip | goit-pycore-hw-07/task_1.py:198 | `str(n)` reads back as n, and starts with 0 only for 0 |
| Assistant.Unpack | goit-pycore-hw-07/task_1.py:198 | unpacking k names succeeds exactly when there are at least k arguments |
| Assistant.ParseInput | goit-pycore-hw-07/task_1.py:185-189 | fails with the unpack ValueError exactly when the line has no words; otherwise the command is the lower-cased first word and the arguments are the other words |
| Assistant.InputError | goit-pycore-hw-07/task_1.py:17-28 | a handler's text passes through unchanged; a ValueError prints its own message; KeyError prints "Contact not found.", IndexError "Not enough arguments. …" and AttributeError "Birthday not set for this contact." |
| Assistant.TooFewArguments | goit-pycore-hw-07/task_1.py:20-22 | a handler given fewer arguments than it unpacks (`add` and `add-birthday` 2, `change` 3, `phone` and `show-birthday` 1) prints the unpacking message "not enough values to unpack (expected at least k, got n)", never "Not enough arguments. …", and leaves the book |
| Assistant.AddInvalidPhone | goit-pycore-hw-07/task_1.py:198-207 | `add` with a non-empty invalid phone prints "Phone number must be 10 digits.", and the name is filed all the same |
| Assistant.ChangeUnknownOldPhone | goit-pycore-hw-07/task_1.py:217-222 | `change` on a known contact without the old number prints "Old phone number not found." and leaves the book |
| Assistant.AddMalformedBirthday | goit-pycore-hw-07/task_1.py:253-258 | `add-birthday` on a known contact with text that is not a `DD.MM.YYYY` date prints "Invalid date format. Use DD.MM.YYYY" and leaves the book |
| Assistant.UnknownName | goit-pycore-hw-07/task_1.py:217-277 | `change`, `phone`, `add-birthday` and `show-birthday` with enough arguments and an unknown name print "Contact not found." and leave the book |
| Assistant.BirthdayUnset | goit-pycore-hw-07/task_1.py:272-275 | `show-birthday` for a contact without a birthday prints "Birthday not set for this contact." |
| Assistant.NoHandlerRaisesIndexError | goit-pycore-hw-07/task_1.py:25-26 | no handler raises IndexError, so that branch of `input_error` is never taken |
| Assistant.AddContactFacts | goit-pycore-hw-07/task_1.py:192-208 | `add` keeps the book well formed. With too few arguments it gives the unpack error and leaves the book. Otherwise it files the name (last, if new) and leaves the other contacts. It succeeds exactly for an empty or valid phone, saying "Contact added." or "Contact updated.", and appends the phone |
| Assistant.ChangeContactFacts | goit-pycore-hw-07/task_1.py:211-224 | `change` keeps names and order. Too few arguments give the unpack error, and an unknown name gives KeyError. Otherwise it succeeds exactly when the phone-list edit does, changing only that contact's phones; on any error the book is unchanged |
| Assistant.ShowPhoneFacts | goit-pycore-hw-07/task_1.py:227-238 | `phone` succeeds exactly for a known name and gives "Contact not found." otherwise; when the contact has phones, the text starts with the first one |
| Assistant.ShowAllFacts | goit-pycore-hw-07/task_1.py:241-244 | `all` says "No contacts found." exactly for an empty book, and otherwise starts with the first record filed |
| Assistant.AddBirthdayFacts | goit-pycore-hw-07/task_1.py:247-260 | `add-birthday` keeps names and order. Too few arguments give the unpack error, and an unknown name gives KeyError. Otherwise it succeeds exactly when the date parses, setting only that contact's birthday; on any error the book is unchanged |
| Assistant.ShowBirthdayFacts | goit-pycore-hw-07/task_1.py:263-277 | `show-birthday` succeeds exactly for a known name with a birthday, and its text reads back as that birthday. It gives "Birthday not set for this contact." without a birthday and "Contact not found." for an unknown name |
| Assistant.AddThenShowBirthday | goit-pycore-hw-07/task_1.py:247-277 | after `add-birthday` with a zero-padded date, `show-birthday` prints that date as typed |
| Assistant.AddThenShowPhone | goit-pycore-hw-07/task_1.py:192-238 | after `add` of a new name with a valid phone, `phone` prints that phone |
| Assistant.ChangeThenShowPhone | goit-pycore-hw-07/task_1.py:211-238 | after `change` of a contact's only phone to a valid number, `phone` prints the new number |
| Assistant.SessionAdd | goit-pycore-hw-07/task_1.py:192-208 | `add <name> <phone>` on the empty book says "Contact added." and files one contact with that phone |
| Assistant.SessionAddBirthday | goit-pycore-hw-07/task_1.py:247-260 | `add-birthday` on that contact says "Birthday added." and sets its birthday |
| Assistant.SessionShow | goit-pycore-hw-07/task_1.py:227-277 | `show-birthday` then prints the date as typed and `phone` prints the phone |
| Assistant.SessionChange | goit-pycore-hw-07/task_1.py:211-238 | `change` replaces the phone; `phone` then prints the new one, and another name gives "Contact not found." |
| Assistant.ExampleBirthday | goit-pycore-hw-07/task_1.py:65-73 | "09.11.1985" is accepted as a birthday and written back unchanged |
| Assistant.CommandOf | goit-pycore-hw-07/task_1.py:295-324 | "close" and "exit" exactly end the loop, and exactly the words of no branch are an unknown command |
| Assistant.Dispatch | goit-pycore-hw-07/task_1.py:295-324 | the loop stops exactly on close/exit, crashes exactly when `birthdays` raises, always prints something, and changes the book only for add, change and add-birthday |
| Assistant.SilentOnEmptyLine | goit-pycore-hw-07/task_1.py:290-291 | only the empty line goes unanswered |
| Assistant.StopsOnCloseOrExit | goit-pycore-hw-07/task_1.py:293-297 | a line stops the loop exactly when its first word, lower-cased, is "close" or "exit", and then prints "Good bye!" and leaves the book |
| Assistant.CrashesExactly | goit-pycore-hw-07/task_1.py:289-321 | a line ends the program with an uncaught exception exactly when it is non-empty whitespace, or when it is `birthdays` and a birthday cannot be moved to the target year |
| Assistant.DispatchKeepsWellFormed | goit-pycore-hw-07/task_1.py:295-324 | every command leaves the book well formed |
| Assistant.RespondFacts | goit-pycore-hw-07/task_1.py:289-324 | one pass of the loop keeps the book well formed and changes it only for add, change and add-birthday |
| Assistant.TranscriptStep | goit-pycore-hw-07/task_1.py:288-324 | a session answers the first line, then goes on with the rest unless that answer ended the loop |
| Assistant.ConsEndsOnlyAtEnd | goit-pycore-hw-07/task_1.py:295-297 | an answer that does not end the loop, put before answers that end it only last, keeps that so |
| Assistant.ConsSilentExactlyOnEmpty | goit-pycore-hw-07/task_1.py:290-291 | adding a first answer that is silent exactly for an empty line keeps every answer so |
| Assistant.TranscriptFacts | goit-pycore-hw-07/task_1.py:288-324 | a session answers at most one line each, silent exactly on empty lines. Only its last answer may be "Good bye!" or a crash, and it ends early only on one of those |
| Assistant.FileNewRecord | goit-pycore-hw-07/task_1.py:201-204 | `Record(name)` filed by `add_record` adds an empty contact under a new name |
| Assistant.AddPhoneInBook | goit-pycore-hw-07/task_1.py:205-207 | `record.add_phone` on a filed record changes the book as `add_phone` on its value does, and nothing on failure |
| Assistant.AddContact | goit-pycore-hw-07/task_1.py:192-208 | prints and changes the book as `AddContactSpec` says |
| Assistant.ChangeContact | goit-pycore-hw-07/task_1.py:211-224 | prints and changes the book as `ChangeContactSpec` says |
| Assistant.ShowPhone | goit-pycore-hw-07/task_1.py:227-238 | prints as `ShowPhoneSpec` says and changes nothing |
| Assistant.ShowAll | goit-pycore-hw-07/task_1.py:241-244 | prints as `ShowAllSpec` says and changes nothing |
| Assistant.AddBirthday | goit-pycore-hw-07/task_1.py:247-260 | prints and changes the book as `AddBirthdaySpec` says |
| Assistant.ShowBirthday | goit-pycore-hw-07/task_1.py:263-277 | prints as `ShowBirthdaySpec` says and changes nothing |
| Assistant.Birthdays | goit-pycore-hw-07/task_1.py:280-282 | gives the book's weekly report, or none when it raises |
| Assistant.HandleLine | goit-pycore-hw-07/task_1.py:289-324 | one pass of the loop answers and changes the book as `Respond` says |
| Assistant.Run | goit-pycore-hw-07/task_1.py:295-324 | the `if`/`elif` chain answers and changes the book as `Dispatch` says |
| Assistant.RunUpdate | goit-pycore-hw-07/task_1.py:302-315 | the add, change and add-birthday branches, as `Dispatch` says |
| Assistant.RunQuery | goit-pycore-hw-07/task_1.py:295-324 | every other branch, as `Dispatch` says, without changing the book |
| Assistant.Turn | goit-pycore-hw-07/task_1.py:288-324 | one pass of the loop on line i: the session from that line is its answer followed, unless the loop ends, by the session of the rest on the new book |
| Assistant.Serve | goit-pycore-hw-07/task_1.py:285-324 | `main` on a new, empty book answers the lines exactly as `Transcript` says |
| WeeklyBirthdays.Congratulation | goit-pycore-hw-03/task_4.py:8-33 | a greeting keeps the user's name; a user fails exactly when `strptime('%Y.%m.%d')` fails or `replace` raises |
| WeeklyBirthdays.CongratulationFacts | goit-pycore-hw-03/task_4.py:11-33 | a user is greeted exactly when the next birthday is 0 to 7 days ahead; the greeting day, written `%Y.%m.%d`, reads back as the birthday moved 2 days on from a Saturday, 1 day on from a Sunday and kept otherwise, so a weekday 0 to 2 days after it |
| WeeklyBirthdays.SeventhDayIncluded | goit-pycore-hw-03/task_4.py:21 | a birthday exactly seven days ahead is greeted |
| WeeklyBirthdays.GetUpcomingBirthdays | goit-pycore-hw-03/task_4.py:3-34 | the loop returns the list `Upcoming` defines, or the first failure |
| WeeklyBirthdays.UpcomingStopsAtFailure | goit-pycore-hw-03/task_4.py:6-8 | once a user's date fails, the users after it do not matter |
| WeeklyBirthdays.Contribution | goit-pycore-hw-03/task_4.py:30-33 | each user adds at most one greeting |
| WeeklyBirthdays.Selected | goit-pycore-hw-03/task_4.py:30-33 | there are never more greetings than users |
| WeeklyBirthdays.SelectedAppend | goit-pycore-hw-03/task_4.py:6-33 | one more user adds their greeting, if any, at the end |
| WeeklyBirthdays.UpcomingIsSelected | goit-pycore-hw-03/task_4.py:3-34 | the function fails exactly when some user fails; otherwise it returns the users' greetings in user order |
| WeeklyBirthdays.SelectedMembers | goit-pycore-hw-03/task_4.py:30-33 | a greeting is in the list exactly when some user produces it |
| DaysFromToday.ParseIso | goit-pycore-hw-03/task_1.py:12 | a successful `%Y-%m-%d` parse is a real date |
| DaysFromToday.GetDaysFromToday | goit-pycore-hw-03/task_1.py:5-18 | None exactly when the text does not parse; otherwise today's day number minus the date's |
| DaysFromToday.SignOfDifference | goit-pycore-hw-03/task_1.py:6-9 | the count is positive exactly for a past date, negative exactly for a future one and 0 exactly for today |
| DaysFromToday.FormattedDateIsAccepted | goit-pycore-hw-03/task_1.py:12 | every date written `YYYY-MM-DD` is accepted with its true distance |
| DaysFromToday.MonthThirteenGivesNone | goit-pycore-hw-03/task_1.py:16-18 | month 13 is rejected |
| DaysFromToday.MissingLeapDayGivesNone | goit-pycore-hw-03/task_1.py:16-18 | 29 February of a common year is rejected |
| DaysFromToday.LettersGiveNone | goit-pycore-hw-03/task_1.py:23 | "202d-10-0f" is rejected |
| Lottery.Draw | goit-pycore-hw-03/task_2.py:11-12 | the draw gives `quantity` numbers in range, in strictly ascending order, so they are distinct |
| Lottery.GetNumbersTicket | goit-pycore-hw-03/task_2.py:4-12 | rejected parameters give the empty list; a negative quantity that passes the guard makes `random.sample` raise; otherwise the ticket has `quantity` distinct numbers in range, sorted |
| Lottery.DrawReachesEverySample | goit-pycore-hw-03/task_2.py:11-12 | every sorted choice of distinct numbers in range is the ticket for some coin flips, as every sample of `random.sample` is possible |
| Lottery.AscendingFits | goit-pycore-hw-03/task_2.py:9 | no more than `max - min + 1` distinct numbers fit in the range, so the guard rejects exactly the impossible sizes |
| PhoneNormalizer.Clean | goit-pycore-hw-03/task_3.py:10 | removing characters never lengthens the text |
| PhoneNormalizer.CleanConcat | goit-pycore-hw-03/task_3.py:10 | cleaning works piece by piece |
| PhoneNormalizer.CleanKeepsCleanText | goit-pycore-hw-03/task_3.py:10 | text of digits and `+` is left unchanged |
| PhoneNormalizer.CleanDropsOthers | goit-pycore-hw-03/task_3.py:10 | the cleaned text holds exactly the digits and `+` of the input |
| PhoneNormalizer.NormalizePhone | goit-pycore-hw-03/task_3.py:4-26 | the result is "Invalid phone number" or a `+38` number |
| PhoneNormalizer.NormalizeRules | goit-pycore-hw-03/task_3.py:13-26 | the first matching rule decides: `+38…` is kept, `380…` gets `+`, `0` and nine digits gets `+38`, and "Invalid phone number" exactly when none matches |
| PhoneNormalizer.PatternsByFirstChar | goit-pycore-hw-03/task_3.py:13-17 | the first rule starts with `+` and the second with `3` |
| PhoneNormalizer.LocalRule | goit-pycore-hw-03/task_3.py:21-23 | a local number gets `+38` in front |
| PhoneNormalizer.MissingPlusRule | goit-pycore-hw-03/task_3.py:17-19 | a number starting `380` gets `+` in front |
| PhoneNormalizer.NormalizeIdempotent | goit-pycore-hw-03/task_3.py:4-26 | normalising a normalised number changes nothing |
| PhoneNormalizer.CleanSingle | goit-pycore-hw-03/task_3.py:10 | one character is kept exactly when it is a digit or `+` |
| PhoneNormalizer.CleanSplice | goit-pycore-hw-03/task_3.py:10 | a dropped character between two pieces disappears |
| PhoneNormalizer.CleanBracketShape | goit-pycore-hw-03/task_3.py:10 | brackets around a prefix disappear |
| PhoneNormalizer.CleanDashShape | goit-pycore-hw-03/task_3.py:10 | separators between four groups disappear |
| PhoneNormalizer.CleanBracketed | goit-pycore-hw-03/task_3.py:36 | "(050)8889900" cleans to "0508889900" |
| PhoneNormalizer.CleanDashed | goit-pycore-hw-03/task_3.py:37 | "38050-111-22-22" cleans to "380501112222" |
| PhoneNormalizer.LocalExample | goit-pycore-hw-03/task_3.py:21-23 | a text cleaning to "0508889900" becomes "+380508889900" |
| PhoneNormalizer.MissingPlusExample | goit-pycore-hw-03/task_3.py:17-19 | a text cleaning to "380501112222" becomes "+380501112222" |
| PhoneNormalizer.BracketedLocalNumber | goit-pycore-hw-03/task_3.py:36 | "(050)8889900" normalises to "+380508889900" |
| PhoneNormalizer.DashedNumberWithCountryCode | goit-pycore-hw-03/task_3.py:37 | "38050-111-22-22" normalises to "+380501112222" |
| Fibonacci.Fib | goit-pycore-hw-05/task_1.py:8-16 | the number is 0 exactly for indices at or below 0 |
| Fibonacci.StoreNext | goit-pycore-hw-05/task_1.py:15 | storing the next number after a complete run keeps every cached value correct |
| Fibonacci.FibonacciCache.constructor | goit-pycore-hw-05/task_1.py:6 | a new closure starts with an empty cache |
| Fibonacci.FibonacciCache.Fibonacci | goit-pycore-hw-05/task_1.py:8-16 | returns the n-th Fibonacci number; afterwards the cache holds correct values for exactly the old indices and 2..n, and a cached index or one below 2 leaves the cache as it was |
| Fibonacci.TenthAndFifteenth | goit-pycore-hw-05/task_1.py:25-26 | the 10th and 15th numbers are 55 and 610 |
| Fibonacci.Demo | goit-pycore-hw-05/task_1.py:22-26 | the two calls on one cache give 55 and 610 |

## Left out

- `str.isspace`, `str.isdigit`, `str.lower` and the regex `\d` are modelled for ASCII digits and letters and the whitespace `str.split()` skips. Other Unicode digits and case mappings are not modelled.
- `%Y` is written as four zero-padded digits. Below year 1000 the C library may write fewer digits; that platform difference is not modelled.
- The clock: `datetime.today()` is a parameter, `today`.
- Randomness: `random.sample` is a sequence of coin flips. Every possible sample can be drawn, but the probabilities are not modelled.
- Console I/O:
  - the banner "Welcome to the assistant bot!";
  - `input()` and `print`, which become the lines and the answers of a session;
  - the top-level demonstration prints of each script.
- `get_days_from_today` prints a message before returning `None`; the model returns `None` only.
- The text of an uncaught exception (traceback) is not modelled; such a run ends with the outcome `Crash`.
- End of input: when the input runs out, `input()` raises EOFError and `main` ends with a traceback. `Transcript` and `Serve` simply stop after the last line.
- The clock within a session: `get_upcoming_birthdays` reads `datetime.today()` on every `birthdays` command, while `Transcript` and `Serve` use one `today` for the whole session.
- Python's recursion limit in the Fibonacci closure is not modelled; the model computes any index.
- `UserDict`'s methods other than those `AddressBook` defines or the handlers use are not modelled.
- `Field`, `Name` and `Field.__str__` are not modelled separately: a name is its string and a phone's text is its value.
- ContactBook.AddressBook.GetUpcomingBirthdays: split into the class method, the loop `UpcomingBirthdays` and the formatting `FormatReport`. `if not upcoming_birthdays` is modelled as "no key was inserted", which is the same condition for a `defaultdict` filled only by `append`.
- ContactBook.Reminder: states only that a greeting day is a real weekday; the full rule is stated by `ContactBook.ReminderFacts`.
- DateText.Strptime: states only that a parse gives a real date; the token rules are stated by `DateText.StrptimeJoined` and `DateText.StrptimeFields`.
- PhoneNormalizer.NormalizePhone: states only the shape of the result; the rule order is stated by `PhoneNormalizer.NormalizeRules`.

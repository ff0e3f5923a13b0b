/**
  The command layer of the assistant bot in goit-pycore-hw-07/task_1.py:
  `parse_input`, the `input_error` decorator, the handlers that read and
  change the `AddressBook`, and the dispatch of one input line by command
  name. Each handler is a method on the book object, proved against a
  function on the book's value (`BookState`) that says what it returns and
  what the book holds afterwards.
*/
module Assistant {
  import opened Wrappers
  import opened Calendar
  import opened DateText
  import opened Sequences
  import opened ContactBook

  // ---------------------------------------------------------------------------
  // Reading a line

  /** `str.isspace()` of one character, as `str.split()` uses it. */
  predicate IsSpace(c: char) {
    var n := c as int;
    || 9 <= n <= 13 || 28 <= n <= 32 || n == 0x85 || n == 0xA0 || n == 0x1680
    || 0x2000 <= n <= 0x200A || n == 0x2028 || n == 0x2029 || n == 0x202F
    || n == 0x205F || n == 0x3000
  }

  predicate NoSpace(s: string) {
    forall i :: 0 <= i < |s| ==> !IsSpace(s[i])
  }

  predicate AllSpace(s: string) {
    forall i :: 0 <= i < |s| ==> IsSpace(s[i])
  }

  /** `s` without its leading whitespace. */
  function DropSpace(s: string): (r: string)
    ensures |r| <= |s| && r == s[|s| - |r|..]
    ensures AllSpace(s[..|s| - |r|])
    ensures r == [] || !IsSpace(r[0])
    decreases |s|
  {
    if s != [] && IsSpace(s[0]) then
      var r := DropSpace(s[1..]);
      assert s[..|s| - |r|] == [s[0]] + s[1..][..|s[1..]| - |r|];
      r
    else s
  }

  /** The longest prefix of `s` without whitespace. */
  function TakeWord(s: string): (r: string)
    ensures |r| <= |s| && r == s[..|r|] && NoSpace(r)
    ensures |r| < |s| ==> IsSpace(s[|r|])
    ensures s != [] && !IsSpace(s[0]) ==> |r| >= 1
    decreases |s|
  {
    if s == [] || IsSpace(s[0]) then []
    else [s[0]] + TakeWord(s[1..])
  }

  /** Words as `split()` returns them: nonempty, without whitespace. */
  predicate WordList(ws: seq<string>) {
    forall i :: 0 <= i < |ws| ==> ws[i] != [] && NoSpace(ws[i])
  }

  lemma ConsWordList(w: string, ws: seq<string>)
    requires w != [] && NoSpace(w) && WordList(ws)
    ensures WordList([w] + ws)
  {
    assert forall i :: 1 <= i < |[w] + ws| ==> ([w] + ws)[i] == ws[i - 1];
  }

  /** `s.split()`: the maximal runs of non-whitespace characters. */
  function Words(s: string): (r: seq<string>)
    ensures WordList(r)
    decreases |s|
  {
    var t := DropSpace(s);
    if t == [] then []
    else
      var w := TakeWord(t);
      var rest := Words(t[|w|..]);
      ConsWordList(w, rest);
      [w] + rest
  }

  /** `str.lower()` on one character, ASCII letters only. */
  function LowerChar(c: char): (r: char)
    ensures 'A' <= c <= 'Z' ==> 'a' <= r <= 'z' && r as int == c as int + 32
    ensures !('A' <= c <= 'Z') ==> r == c
  {
    if 'A' <= c <= 'Z' then (c as int + 32) as char else c
  }

  function Lower(s: string): (r: string)
    ensures |r| == |s| && forall i :: 0 <= i < |s| ==> r[i] == LowerChar(s[i])
  {
    seq(|s|, i requires 0 <= i < |s| => LowerChar(s[i]))
  }

  /** `str(n)` of a natural number. */
  function NatText(n: nat): (s: string)
    ensures |s| >= 1 && AllDigits(s)
    decreases n
  {
    if n < 10 then [DigitChar(n)] else NatText(n / 10) + [DigitChar(n % 10)]
  }

  /** The text of the ValueError that `a, b, *_ = args` raises when `args`
      holds fewer than the `expected` names. */
  function UnpackMessage(expected: nat, got: nat): string {
    "not enough values to unpack" + " (expected at least " + NatText(expected) + ", got " + NatText(got) + ")"
  }

  /** Unpacking the first `k` arguments. */
  function Unpack(args: seq<string>, k: nat): (r: Result<(), Error>)
    ensures r.Ok? <==> |args| >= k
  {
    if |args| >= k then Ok(()) else Err(ValueError(UnpackMessage(k, |args|)))
  }

  /** `parse_input`: `cmd, *args = user_input.split()` followed by
      `cmd.strip().lower()`. A word of `split()` holds no whitespace, so
      `strip()` leaves it as it is. Input with no word at all makes the
      unpacking raise. */
  function ParseInput(line: string): (r: Result<(string, seq<string>), Error>)
    ensures r.Err? <==> Words(line) == []
    ensures r.Err? ==> r.error == ValueError(UnpackMessage(1, 0))
    ensures r.Ok? ==> r.value.0 == Lower(Words(line)[0]) && r.value.1 == Words(line)[1..]
  {
    var words := Words(line);
    if words == [] then Err(ValueError(UnpackMessage(1, 0)))
    else Ok((Lower(words[0]), words[1..]))
  }

  // ---------------------------------------------------------------------------
  // The decorator

  const ContactNotFound: string := "Contact not found."
  const NotEnoughArguments: string := "Not enough arguments." + " Please provide full command parameters."
  const BirthdayNotSet: string := "Birthday not set for this contact."

  /** `input_error`: the handler's text, or the text its exception maps to.
      A ValueError prints its own message, whatever raised it; the other
      three kinds print a fixed text each. */
  function InputError(r: Result<string, Error>): (text: string)
    ensures r.Ok? ==> text == r.value
    ensures r.Err? && r.error.ValueError? ==> text == r.error.message
    ensures r == Err(KeyError) ==> text == ContactNotFound
    ensures r == Err(IndexError) ==> text == NotEnoughArguments
    ensures r == Err(AttributeError) ==> text == BirthdayNotSet
  {
    match r
    case Ok(t) => t
    case Err(ValueError(m)) => m
    case Err(KeyError) => ContactNotFound
    case Err(IndexError) => NotEnoughArguments
    case Err(AttributeError) => BirthdayNotSet
  }

  // ---------------------------------------------------------------------------
  // What each handler does to the book's value

  /** A handler's outcome: its result or exception, and the book after it. */
  datatype Handled = Handled(result: Result<string, Error>, book: BookState)

  const ContactAdded: string := "Contact added."
  const ContactUpdated: string := "Contact updated."
  const PhoneChanged: string := "Contact phone changed."
  const BirthdayAdded: string := "Birthday added."
  const NoContacts: string := "No contacts found."

  /** `add_contact`: a new name gets an empty record filed before the phone
      is validated; a non-empty phone is then appended to the record. */
  function AddContactSpec(st: BookState, args: seq<string>): Handled
    requires WellFormed(st)
  {
    match Unpack(args, 2)
    case Err(e) => Handled(Err(e), st)
    case Ok(_) =>
      var name, phone := args[0], args[1];
      var added := name !in st.records;
      var st1 := if added then Upsert(st, RecordValue(name, [], None)) else st;
      var message := if added then ContactAdded else ContactUpdated;
      if phone == "" then Handled(Ok(message), st1)
      else
        match AddPhoneValue(st1.records[name], phone)
        case Err(e) => Handled(Err(e), st1)
        case Ok(v) => Handled(Ok(message), Upsert(st1, v))
  }

  /** `change_contact`. */
  function ChangeContactSpec(st: BookState, args: seq<string>): Handled
    requires WellFormed(st)
  {
    match Unpack(args, 3)
    case Err(e) => Handled(Err(e), st)
    case Ok(_) =>
      var name := args[0];
      if name !in st.records then Handled(Err(KeyError), st)
      else
        match EditPhoneValue(st.records[name], args[1], args[2])
        case Err(e) => Handled(Err(e), st)
        case Ok(v) => Handled(Ok(PhoneChanged), Upsert(st, v))
  }

  /** `show_phone`: the numbers joined by ", ". */
  function ShowPhoneSpec(st: BookState, args: seq<string>): Result<string, Error>
    requires WellFormed(st)
  {
    match Unpack(args, 1)
    case Err(e) => Err(e)
    case Ok(_) =>
      if args[0] !in st.records then Err(KeyError)
      else Ok(Join(PhoneValues(st.records[args[0]].phones), ", "))
  }

  function RecordTexts(rs: seq<RecordValue>): (texts: seq<string>)
    requires AllValid(rs)
    ensures |texts| == |rs| && forall i :: 0 <= i < |rs| ==> texts[i] == RecordText(rs[i])
  {
    seq(|rs|, i requires 0 <= i < |rs| && AllValid(rs) => RecordText(rs[i]))
  }

  /** `show_all`: one line per record, in insertion order. */
  function ShowAllSpec(st: BookState): string
    requires WellFormed(st)
  {
    if st.records == map[] then NoContacts
    else Join(RecordTexts(Rows(st)), "\n")
  }

  /** `add_birthday`. */
  function AddBirthdaySpec(st: BookState, args: seq<string>): Handled
    requires WellFormed(st)
  {
    match Unpack(args, 2)
    case Err(e) => Handled(Err(e), st)
    case Ok(_) =>
      var name := args[0];
      if name !in st.records then Handled(Err(KeyError), st)
      else
        match AddBirthdayValue(st.records[name], args[1])
        case Err(e) => Handled(Err(e), st)
        case Ok(v) => Handled(Ok(BirthdayAdded), Upsert(st, v))
  }

  /** `show_birthday`. */
  function ShowBirthdaySpec(st: BookState, args: seq<string>): Result<string, Error>
    requires WellFormed(st)
  {
    match Unpack(args, 1)
    case Err(e) => Err(e)
    case Ok(_) =>
      if args[0] !in st.records then Err(KeyError)
      else
        var v := st.records[args[0]];
        if v.birthday.None? then Err(AttributeError)
        else Ok(BirthdayText(v.birthday.value))
  }

  /** `birthdays`: not wrapped by `input_error`, so None (the `replace`
      exception) ends the program. */
  function BirthdaysSpec(st: BookState, today: Date): Option<string>
    requires WellFormed(st) && ValidDate(today)
  {
    Report(Entries(Rows(st), today))
  }

  // ---------------------------------------------------------------------------
  // One line of the main loop

  /** What the loop does with one line: nothing (empty input), print a
      text, print a text and leave the loop, or die of an exception nobody
      catches. */
  datatype Outcome = Silent | Say(text: string) | Stop(text: string) | Crash

  const GoodBye: string := "Good bye!"
  const HowCanIHelp: string := "How can I help you?"
  const InvalidCommand: string := "Invalid command."

  /** The branches of the `if`/`elif` chain in `main`. */
  datatype Command = Leave | Greet | AddContactCommand | ChangeContactCommand | ShowPhoneCommand | ShowAllCommand | AddBirthdayCommand
                   | ShowBirthdayCommand | BirthdaysCommand | Unknown

  /** Which branch a (lower-cased) command word takes. */
  function CommandOf(word: string): (c: Command)
    ensures c == Leave <==> word == "close" || word == "exit"
    ensures c == Unknown <==> word !in {"close", "exit", "hello", "add", "change", "phone", "all",
                                        "add-birthday", "show-birthday", "birthdays"}
  {
    if word == "close" || word == "exit" then Leave
    else if word == "hello" then Greet
    else if word == "add" then AddContactCommand
    else if word == "change" then ChangeContactCommand
    else if word == "phone" then ShowPhoneCommand
    else if word == "all" then ShowAllCommand
    else if word == "add-birthday" then AddBirthdayCommand
    else if word == "show-birthday" then ShowBirthdayCommand
    else if word == "birthdays" then BirthdaysCommand
    else Unknown
  }

  /** The commands whose handler may change the book. */
  predicate Updates(command: Command) {
    command == AddContactCommand || command == ChangeContactCommand || command == AddBirthdayCommand
  }

  /** What one branch prints and leaves in the book: only `close`/`exit`
      leave the loop, only an impossible birthday ends the program, and only
      the three updating commands touch the book. */
  function Dispatch(st: BookState, command: Command, args: seq<string>, today: Date): (r: (Outcome, BookState))
    requires WellFormed(st) && ValidDate(today)
    ensures r.0.Stop? <==> command == Leave
    ensures r.0 == Crash <==> command == BirthdaysCommand && BirthdaysSpec(st, today).None?
    ensures r.0 != Silent
    ensures !Updates(command) ==> r.1 == st
  {
    match command
    case Leave => (Stop(GoodBye), st)
    case Greet => (Say(HowCanIHelp), st)
    case AddContactCommand =>
      var h := AddContactSpec(st, args);
      (Say(InputError(h.result)), h.book)
    case ChangeContactCommand =>
      var h := ChangeContactSpec(st, args);
      (Say(InputError(h.result)), h.book)
    case ShowPhoneCommand => (Say(InputError(ShowPhoneSpec(st, args))), st)
    case ShowAllCommand => (Say(ShowAllSpec(st)), st)
    case AddBirthdayCommand =>
      var h := AddBirthdaySpec(st, args);
      (Say(InputError(h.result)), h.book)
    case ShowBirthdayCommand => (Say(InputError(ShowBirthdaySpec(st, args))), st)
    case BirthdaysCommand =>
      (match BirthdaysSpec(st, today)
       case None => (Crash, st)
       case Some(t) => (Say(t), st))
    case Unknown => (Say(InvalidCommand), st)
  }

  /** The body of the `while True` loop of `main` for one input line. */
  function Respond(st: BookState, line: string, today: Date): (Outcome, BookState)
    requires WellFormed(st) && ValidDate(today)
  {
    if line == "" then (Silent, st)
    else
      match ParseInput(line)
      case Err(_) => (Crash, st)
      case Ok((command, args)) => Dispatch(st, CommandOf(command), args, today)
  }

  /** The answers of the `while True` loop of `main` to the lines typed in
      turn on a book in state `st`. */
  function Transcript(st: BookState, lines: seq<string>, today: Date): seq<Outcome>
    requires WellFormed(st) && ValidDate(today)
    decreases |lines|
  {
    if lines == [] then []
    else
      var (out, next) := Respond(st, lines[0], today);
      if out.Stop? || out == Crash then [out]
      else
        RespondFacts(st, lines[0], today);
        [out] + Transcript(next, lines[1..], today)
  }

  /** One turn of the loop: the first line's answer, then the rest unless
      that answer ends the loop. */
  lemma TranscriptStep(st: BookState, lines: seq<string>, i: nat, today: Date, out: Outcome, next: BookState)
    requires WellFormed(st) && ValidDate(today) && i < |lines|
    requires (out, next) == Respond(st, lines[i], today)
    ensures WellFormed(next)
    ensures Transcript(st, lines[i..], today) ==
      if out.Stop? || out == Crash then [out] else [out] + Transcript(next, lines[i + 1..], today)
  {
    RespondFacts(st, lines[i], today);
    assert lines[i..][0] == lines[i];
    assert lines[i..][1..] == lines[i + 1..];
  }

  /** Only the last answer may end the loop. */
  predicate EndsOnlyAtEnd(r: seq<Outcome>) {
    forall i :: 0 <= i < |r| - 1 ==> !r[i].Stop? && r[i] != Crash
  }

  /** Exactly the empty lines go unanswered. */
  predicate SilentExactlyOnEmpty(r: seq<Outcome>, lines: seq<string>)
    requires |r| <= |lines|
  {
    forall i :: 0 <= i < |r| ==> (r[i] == Silent <==> lines[i] == "")
  }

  lemma ConsEndsOnlyAtEnd(out: Outcome, rest: seq<Outcome>)
    requires !out.Stop? && out != Crash && EndsOnlyAtEnd(rest)
    ensures EndsOnlyAtEnd([out] + rest)
  {
    forall i | 0 <= i < |[out] + rest| - 1
      ensures !([out] + rest)[i].Stop? && ([out] + rest)[i] != Crash
    {
      if i > 0 {
        assert ([out] + rest)[i] == rest[i - 1];
      }
    }
  }

  lemma ConsSilentExactlyOnEmpty(out: Outcome, rest: seq<Outcome>, lines: seq<string>)
    requires 0 < |lines| && |rest| <= |lines| - 1
    requires (out == Silent <==> lines[0] == "") && SilentExactlyOnEmpty(rest, lines[1..])
    ensures SilentExactlyOnEmpty([out] + rest, lines)
  {
    forall i | 0 <= i < |[out] + rest|
      ensures (([out] + rest)[i] == Silent <==> lines[i] == "")
    {
      if i > 0 {
        assert ([out] + rest)[i] == rest[i - 1] && lines[i] == lines[1..][i - 1];
      }
    }
  }

  /** The loop ends after "Good bye!" or when an exception escapes, and
      every line before that is answered, an empty line with nothing. */
  lemma {:induction false} TranscriptFacts(st: BookState, lines: seq<string>, today: Date)
    requires WellFormed(st) && ValidDate(today)
    ensures var r := Transcript(st, lines, today);
      && |r| <= |lines|
      && SilentExactlyOnEmpty(r, lines)
      && EndsOnlyAtEnd(r)
      && (|r| < |lines| ==> r != [] && (r[|r| - 1].Stop? || r[|r| - 1] == Crash))
    decreases |lines|
  {
    if lines != [] {
      var (out, next) := Respond(st, lines[0], today);
      SilentOnEmptyLine(st, lines[0], today);
      if !(out.Stop? || out == Crash) {
        RespondFacts(st, lines[0], today);
        var rest := Transcript(next, lines[1..], today);
        assert Transcript(st, lines, today) == [out] + rest;
        TranscriptFacts(next, lines[1..], today);
        ConsEndsOnlyAtEnd(out, rest);
        ConsSilentExactlyOnEmpty(out, rest, lines);
      }
    }
  }

  /** Only the empty line goes unanswered. */
  lemma SilentOnEmptyLine(st: BookState, line: string, today: Date)
    requires WellFormed(st) && ValidDate(today)
    ensures Respond(st, line, today).0 == Silent <==> line == ""
  {
  }

  // ---------------------------------------------------------------------------
  // Properties of reading a line

  lemma DropSpaceKeeps(t: string)
    requires t == [] || !IsSpace(t[0])
    ensures DropSpace(t) == t
  {
  }

  /** Leading whitespace does not change the words. */
  lemma WordsAfterSpace(c: char, x: string)
    requires IsSpace(c)
    ensures Words([c] + x) == Words(x)
  {
    assert ([c] + x)[1..] == x;
  }

  lemma {:induction false} TakeWordBeforeSpace(w: string, rest: string)
    requires NoSpace(w) && (rest == [] || IsSpace(rest[0]))
    ensures TakeWord(w + rest) == w
    decreases |w|
  {
    if w != [] {
      assert (w + rest)[1..] == w[1..] + rest;
      TakeWordBeforeSpace(w[1..], rest);
    }
  }

  /** One word alone splits into itself. */
  lemma WordsOfWord(w: string)
    requires w != [] && NoSpace(w)
    ensures Words(w) == [w]
  {
    DropSpaceKeeps(w);
    TakeWordBeforeSpace(w, []);
    assert w + [] == w;
    assert w[|w|..] == [];
  }

  /** A word followed by a blank splits off as the first word. */
  lemma WordsOfWordThenRest(w: string, rest: string)
    requires w != [] && NoSpace(w)
    ensures Words(w + ([' '] + rest)) == [w] + Words(rest)
  {
    var s := w + ([' '] + rest);
    DropSpaceKeeps(s);
    TakeWordBeforeSpace(w, [' '] + rest);
    assert s[|w|..] == [' '] + rest;
    WordsAfterSpace(' ', rest);
  }

  lemma JoinStep(ws: seq<string>)
    requires |ws| > 1
    ensures Join(ws, " ") == ws[0] + ([' '] + Join(ws[1..], " "))
  {
  }

  lemma WordsOfJoinCons(ws: seq<string>)
    requires |ws| > 1 && ws[0] != [] && NoSpace(ws[0])
    requires Words(Join(ws[1..], " ")) == ws[1..]
    ensures Words(Join(ws, " ")) == ws
  {
    JoinStep(ws);
    WordsOfWordThenRest(ws[0], Join(ws[1..], " "));
    assert ws == [ws[0]] + ws[1..];
  }

  /** `split()` takes back apart words joined by single blanks. */
  lemma {:induction false} WordsOfJoin(ws: seq<string>)
    requires WordList(ws)
    ensures Words(Join(ws, " ")) == ws
    decreases |ws|
  {
    if |ws| == 1 {
      WordsOfWord(ws[0]);
    } else if |ws| > 1 {
      WordsOfJoin(ws[1..]);
      WordsOfJoinCons(ws);
    }
  }

  /** A line has no word exactly when it is all whitespace; the empty line
      is one of them. */
  lemma WordsEmpty(s: string)
    ensures Words(s) == [] <==> AllSpace(s)
  {
    var t := DropSpace(s);
    if t == [] {
      assert s[..|s|] == s;
    } else {
      assert s[|s| - |t|] == t[0];
    }
  }

  /** Lower-casing twice is lower-casing once. */
  lemma LowerIdempotent(s: string)
    ensures Lower(Lower(s)) == Lower(s)
  {
  }

  /** The digits written by `str(n)` read back as `n`, with no leading zero. */
  lemma {:induction false} NatTextRoundTrip(n: nat)
    ensures DigitsValue(NatText(n)) == n
    ensures NatText(n)[0] == '0' <==> n == 0
    decreases n
  {
    if n >= 10 {
      NatTextRoundTrip(n / 10);
      var s := NatText(n);
      assert s[..|s| - 1] == NatText(n / 10);
    }
  }

  // ---------------------------------------------------------------------------
  // Properties of the handlers

  lemma UnpackMessageStart(k: nat, n: nat)
    ensures |UnpackMessage(k, n)| > 0 && UnpackMessage(k, n)[0] == 'n'
  {
  }

  /** How many names each handler unpacks from its arguments
      (`name, phone, *_ = args` and the like); the other branches unpack
      none. */
  function NeededArgs(command: Command): nat {
    match command
    case AddContactCommand => 2
    case ChangeContactCommand => 3
    case ShowPhoneCommand => 1
    case AddBirthdayCommand => 2
    case ShowBirthdayCommand => 1
    case _ => 0
  }

  /** Too few arguments make the unpacking raise ValueError, so the
      decorator prints the unpacking message, never its own "Not enough
      arguments" text, and the book is left as it was. */
  lemma TooFewArguments(st: BookState, command: Command, args: seq<string>, today: Date)
    requires WellFormed(st) && ValidDate(today)
    requires |args| < NeededArgs(command)
    ensures Dispatch(st, command, args, today) == (Say(UnpackMessage(NeededArgs(command), |args|)), st)
    ensures Dispatch(st, command, args, today).0 != Say(NotEnoughArguments)
  {
    UnpackMessageStart(NeededArgs(command), |args|);
    assert NotEnoughArguments[0] == 'N';
  }

  /** `add` with an invalid phone prints the phone's own error text; the
      name has been filed all the same. */
  lemma AddInvalidPhone(st: BookState, args: seq<string>, today: Date)
    requires WellFormed(st) && ValidDate(today)
    requires |args| >= 2 && args[1] != "" && !ValidPhone(args[1])
    ensures Dispatch(st, AddContactCommand, args, today).0 == Say(PhoneMessage)
    ensures args[0] in Dispatch(st, AddContactCommand, args, today).1.records
  {
    AddContactFacts(st, args);
  }

  /** `change` with an old number the contact does not have prints
      "Old phone number not found." and leaves the book. */
  lemma ChangeUnknownOldPhone(st: BookState, args: seq<string>, today: Date)
    requires WellFormed(st) && ValidDate(today)
    requires |args| >= 3 && args[0] in st.records
    requires forall i :: 0 <= i < |st.records[args[0]].phones| ==> st.records[args[0]].phones[i].value != args[1]
    ensures Dispatch(st, ChangeContactCommand, args, today) == (Say(OldPhoneMessage), st)
  {
    ChangeContactFacts(st, args);
    EditPhonesFacts(st.records[args[0]].phones, args[1], args[2]);
  }

  /** `add-birthday` with text that is not a `DD.MM.YYYY` date prints the
      birthday's own error text and leaves the book. */
  lemma AddMalformedBirthday(st: BookState, args: seq<string>, today: Date)
    requires WellFormed(st) && ValidDate(today)
    requires |args| >= 2 && args[0] in st.records && NewBirthday(args[1]).Err?
    ensures Dispatch(st, AddBirthdayCommand, args, today) == (Say(BirthdayMessage), st)
  {
    AddBirthdayFacts(st, args);
  }

  /** A name the book does not hold prints "Contact not found." in every
      handler that looks it up, and leaves the book. */
  lemma UnknownName(st: BookState, command: Command, args: seq<string>, today: Date)
    requires WellFormed(st) && ValidDate(today)
    requires command in {ChangeContactCommand, ShowPhoneCommand, AddBirthdayCommand, ShowBirthdayCommand}
    requires |args| >= NeededArgs(command) && args[0] !in st.records
    ensures Dispatch(st, command, args, today) == (Say(ContactNotFound), st)
  {
  }

  /** `show-birthday` for a contact without a birthday prints "Birthday not
      set for this contact.". */
  lemma BirthdayUnset(st: BookState, args: seq<string>, today: Date)
    requires WellFormed(st) && ValidDate(today)
    requires |args| >= 1 && args[0] in st.records && st.records[args[0]].birthday.None?
    ensures Dispatch(st, ShowBirthdayCommand, args, today) == (Say(BirthdayNotSet), st)
  {
  }

  /** No handler raises IndexError, so that branch of `input_error` is never
      taken. */
  lemma NoHandlerRaisesIndexError(st: BookState, args: seq<string>)
    requires WellFormed(st)
    ensures AddContactSpec(st, args).result != Err(IndexError)
    ensures ChangeContactSpec(st, args).result != Err(IndexError)
    ensures ShowPhoneSpec(st, args) != Err(IndexError)
    ensures AddBirthdaySpec(st, args).result != Err(IndexError)
    ensures ShowBirthdaySpec(st, args) != Err(IndexError)
  {
    if |args| >= 3 && args[0] in st.records {
      EditPhonesFacts(st.records[args[0]].phones, args[1], args[2]);
    }
  }

  /** `add_contact`: "Contact added." for a new name and "Contact
      updated." for a known one; the record is filed before the phone is
      checked, so an invalid phone leaves a new name with no phones; only
      that name's record changes. */
  lemma AddContactFacts(st: BookState, args: seq<string>)
    requires WellFormed(st)
    ensures var h := AddContactSpec(st, args);
      && WellFormed(h.book)
      && (|args| < 2 ==> h == Handled(Err(ValueError(UnpackMessage(2, |args|))), st))
      && (|args| >= 2 ==>
            var name, phone, known := args[0], args[1], args[0] in st.records;
            && h.book.records.Keys == st.records.Keys + {name}
            && h.book.order == (if known then st.order else st.order + [name])
            && (forall k :: k in st.records && k != name ==> h.book.records[k] == st.records[k])
            && (h.result.Ok? <==> phone == "" || ValidPhone(phone))
            && (h.result.Ok? ==> h.result.value == if known then ContactUpdated else ContactAdded)
            && (h.result.Err? ==> h.result.error == ValueError(PhoneMessage))
            && h.book.records[name].phones ==
                 (if known then st.records[name].phones else [])
                 + (if h.result.Ok? && phone != "" then [Phone(phone)] else [])
            && h.book.records[name].birthday == (if known then st.records[name].birthday else None))
  {
    if |args| >= 2 {
      var name, phone := args[0], args[1];
      var st1 := if name !in st.records then Upsert(st, RecordValue(name, [], None)) else st;
      if name !in st.records {
        UpsertFacts(st, RecordValue(name, [], None));
      }
      if phone != "" && ValidPhone(phone) {
        RecordOperationsKeepValid(st1.records[name], phone, phone);
        UpsertFacts(st1, AddPhoneValue(st1.records[name], phone).value);
      }
    }
  }

  /** `change_contact`: the first phone equal to the old number is
      replaced when the name is known, the old number is there and the new
      one is valid; any failure leaves the book as it was. */
  lemma ChangeContactFacts(st: BookState, args: seq<string>)
    requires WellFormed(st)
    ensures var h := ChangeContactSpec(st, args);
      && WellFormed(h.book)
      && h.book.order == st.order && h.book.records.Keys == st.records.Keys
      && (h.result.Err? ==> h.book == st)
      && (|args| < 3 ==> h.result == Err(ValueError(UnpackMessage(3, |args|))))
      && (|args| >= 3 && args[0] !in st.records ==> h.result == Err(KeyError))
      && (|args| >= 3 && args[0] in st.records ==>
            var edited := EditPhones(st.records[args[0]].phones, args[1], args[2]);
            && (h.result.Ok? <==> edited.Ok?)
            && (h.result.Err? ==> h.result.error == edited.error)
            && (h.result.Ok? ==>
                  h.result.value == PhoneChanged
                  && h.book.records == st.records[args[0] := st.records[args[0]].(phones := edited.value)]))
  {
    if |args| >= 3 && args[0] in st.records {
      var v := st.records[args[0]];
      RecordOperationsKeepValid(v, args[1], args[2]);
      if EditPhoneValue(v, args[1], args[2]).Ok? {
        UpsertFacts(st, EditPhoneValue(v, args[1], args[2]).value);
      }
    }
  }

  /** `add_birthday`: sets or replaces the birthday of a known name when
      the text is a date in `DD.MM.YYYY`; any failure leaves the book as it
      was. */
  lemma AddBirthdayFacts(st: BookState, args: seq<string>)
    requires WellFormed(st)
    ensures var h := AddBirthdaySpec(st, args);
      && WellFormed(h.book)
      && h.book.order == st.order && h.book.records.Keys == st.records.Keys
      && (h.result.Err? ==> h.book == st)
      && (|args| < 2 ==> h.result == Err(ValueError(UnpackMessage(2, |args|))))
      && (|args| >= 2 && args[0] !in st.records ==> h.result == Err(KeyError))
      && (|args| >= 2 && args[0] in st.records ==>
            && (h.result.Ok? <==> NewBirthday(args[1]).Ok?)
            && (h.result.Err? ==> h.result.error == ValueError(BirthdayMessage))
            && (h.result.Ok? ==>
                  h.result.value == BirthdayAdded
                  && h.book.records == st.records[args[0] := st.records[args[0]].(birthday := Some(NewBirthday(args[1]).value))]))
  {
    if |args| >= 2 && args[0] in st.records {
      var v := st.records[args[0]];
      RecordOperationsKeepValid(v, args[1], args[1]);
      if AddBirthdayValue(v, args[1]).Ok? {
        UpsertFacts(st, AddBirthdayValue(v, args[1]).value);
      }
    }
  }

  /** `show_birthday` answers for a known name with a birthday, and its
      text reads back as that birthday. */
  lemma ShowBirthdayFacts(st: BookState, args: seq<string>)
    requires WellFormed(st)
    ensures var r := ShowBirthdaySpec(st, args);
      && (r.Ok? <==> |args| >= 1 && args[0] in st.records && st.records[args[0]].birthday.Some?)
      && (r.Ok? ==> NewBirthday(r.value) == Ok(st.records[args[0]].birthday.value))
      && (|args| >= 1 && args[0] in st.records && st.records[args[0]].birthday.None? ==> InputError(r) == BirthdayNotSet)
      && (|args| >= 1 && args[0] !in st.records ==> InputError(r) == ContactNotFound)
  {
    if |args| >= 1 && args[0] in st.records && st.records[args[0]].birthday.Some? {
      BirthdayRoundTrip(st.records[args[0]].birthday.value);
    }
  }

  /** `add-birthday` followed by `show-birthday` gives back the text given,
      when it was written zero-padded. */
  lemma AddThenShowBirthday(st: BookState, name: string, text: string)
    requires WellFormed(st) && name in st.records
    requires NewBirthday(text).Ok? && Canonical(text, DayMonthYear)
    ensures var h := AddBirthdaySpec(st, [name, text]);
      h.result == Ok(BirthdayAdded) && ShowBirthdaySpec(h.book, [name]) == Ok(text)
  {
    AddBirthdayFacts(st, [name, text]);
    BirthdayTextOfParsed(text);
  }

  /** `phone` answers for a known name with its numbers joined by ", ". */
  lemma ShowPhoneFacts(st: BookState, args: seq<string>)
    requires WellFormed(st)
    ensures var r := ShowPhoneSpec(st, args);
      && (r.Ok? <==> |args| >= 1 && args[0] in st.records)
      && (|args| >= 1 && args[0] !in st.records ==> InputError(r) == ContactNotFound)
      && (r.Ok? && st.records[args[0]].phones != [] ==>
            var first := st.records[args[0]].phones[0].value;
            |r.value| >= 10 && r.value[..10] == first)
  {
    if |args| >= 1 && args[0] in st.records && st.records[args[0]].phones != [] {
      var values := PhoneValues(st.records[args[0]].phones);
      JoinStartsWithFirst(values, ", ");
    }
  }

  /** Adding a new contact with a valid phone and asking for its phones
      gives that phone back. */
  lemma AddThenShowPhone(st: BookState, name: string, phone: string)
    requires WellFormed(st) && name !in st.records && ValidPhone(phone)
    ensures var h := AddContactSpec(st, [name, phone]);
      h.result == Ok(ContactAdded) && ShowPhoneSpec(h.book, [name]) == Ok(phone)
  {
    AddContactFacts(st, [name, phone]);
    var h := AddContactSpec(st, [name, phone]);
    assert h.book.records[name].phones == [Phone(phone)];
    assert PhoneValues([Phone(phone)]) == [phone];
  }

  /** `change` on a contact with the old number as its only phone leaves
      the new number as its only phone. */
  lemma ChangeThenShowPhone(st: BookState, name: string, oldNumber: string, newNumber: string)
    requires WellFormed(st) && name in st.records && st.records[name].phones == [Phone(oldNumber)]
    requires ValidPhone(newNumber)
    ensures var h := ChangeContactSpec(st, [name, oldNumber, newNumber]);
      h.result == Ok(PhoneChanged) && ShowPhoneSpec(h.book, [name]) == Ok(newNumber)
  {
    var phones := [Phone(oldNumber)];
    EditPhonesFacts(phones, oldNumber, newNumber);
    assert phones[0].value == oldNumber;
    ChangeContactFacts(st, [name, oldNumber, newNumber]);
    assert PhoneValues([Phone(newNumber)]) == [newNumber];
  }

  /** A book holding one contact with one phone. */
  function OneContact(name: string, phone: string, birthday: Option<Birthday>): BookState {
    BookState([name], map[name := RecordValue(name, [Phone(phone)], birthday)])
  }

  /** `add <name> <phone>` on the empty book files one contact. */
  lemma SessionAdd(name: string, phone: string)
    requires ValidPhone(phone)
    ensures AddContactSpec(BookState([], map[]), [name, phone]) == Handled(Ok(ContactAdded), OneContact(name, phone, None))
  {
    var st0 := BookState([], map[]);
    AddContactFacts(st0, [name, phone]);
    var h := AddContactSpec(st0, [name, phone]);
    assert h.book.records.Keys == {name};
    assert h.book.records[name] == RecordValue(name, [Phone(phone)], None);
  }

  /** `add-birthday <name> <date>` then sets its birthday. */
  lemma SessionAddBirthday(name: string, phone: string, text: string)
    requires ValidPhone(phone) && NewBirthday(text).Ok?
    ensures WellFormed(OneContact(name, phone, None))
    ensures AddBirthdaySpec(OneContact(name, phone, None), [name, text])
      == Handled(Ok(BirthdayAdded), OneContact(name, phone, Some(NewBirthday(text).value)))
  {
    var st := OneContact(name, phone, None);
    assert WellFormed(st);
    AddBirthdayFacts(st, [name, text]);
  }

  /** `show-birthday <name>` gives the date back as typed when it was typed
      zero-padded, and `phone <name>` gives the phone. */
  lemma SessionShow(name: string, phone: string, text: string)
    requires ValidPhone(phone) && NewBirthday(text).Ok? && Canonical(text, DayMonthYear)
    ensures WellFormed(OneContact(name, phone, Some(NewBirthday(text).value)))
    ensures ShowBirthdaySpec(OneContact(name, phone, Some(NewBirthday(text).value)), [name]) == Ok(text)
    ensures ShowPhoneSpec(OneContact(name, phone, Some(NewBirthday(text).value)), [name]) == Ok(phone)
  {
    BirthdayTextOfParsed(text);
    assert PhoneValues([Phone(phone)]) == [phone];
  }

  /** `change <name> <phone> <new phone>` replaces the phone; `phone` then
      gives the new one, and any other name is not found. */
  lemma SessionChange(name: string, phone: string, newPhone: string, birthday: Option<Birthday>, other: string)
    requires ValidPhone(phone) && ValidPhone(newPhone) && other != name
    requires birthday.Some? ==> ValidDate(birthday.value.value)
    ensures WellFormed(OneContact(name, phone, birthday))
    ensures ChangeContactSpec(OneContact(name, phone, birthday), [name, phone, newPhone])
      == Handled(Ok(PhoneChanged), OneContact(name, newPhone, birthday))
    ensures WellFormed(OneContact(name, newPhone, birthday))
    ensures ShowPhoneSpec(OneContact(name, newPhone, birthday), [name]) == Ok(newPhone)
    ensures InputError(ShowPhoneSpec(OneContact(name, newPhone, birthday), [other])) == ContactNotFound
  {
    var st := OneContact(name, phone, birthday);
    assert WellFormed(st);
    ChangeContactFacts(st, [name, phone, newPhone]);
    EditPhonesFacts([Phone(phone)], phone, newPhone);
    assert [Phone(phone)][0 := Phone(newPhone)] == [Phone(newPhone)];
    assert PhoneValues([Phone(newPhone)]) == [newPhone];
  }

  /** The end-to-end example `add John 1234567890`, `add-birthday John
      09.11.1985`, `show-birthday John`, `phone John`, `change John
      1234567890 0987654321`, `phone John`, `phone Unknown` is an instance
      of the Session lemmas: its phones are valid and its names differ... */
  lemma ExamplePhones()
    ensures ValidPhone("1234567890") && ValidPhone("0987654321") && "Unknown" != "John"
  {
  }

  /** ... and its date is read and written back unchanged, so the answers
      are "Contact added.", "Birthday added.", "09.11.1985", "1234567890",
      "Contact phone changed.", "0987654321" and "Contact not found.". */
  lemma ExampleBirthday()
    ensures NewBirthday("09.11.1985").Ok? && Canonical("09.11.1985", DayMonthYear)
  {
    var d := Date(1985, 11, 9);
    assert Pad2(9) == "09" && Pad2(11) == "11" && Pad4(1985) == "1985";
    assert Strftime(d, Dot, DayMonthYear) == "09.11.1985";
    ParseFormatted(d, Dot, DayMonthYear);
    FormattedIsCanonical(d, Dot, DayMonthYear);
  }

  /** `all` says "No contacts found." exactly for an empty book, and
      otherwise starts with the first record filed. */
  lemma ShowAllFacts(st: BookState)
    requires WellFormed(st)
    ensures ShowAllSpec(st) == NoContacts <==> st.records == map[]
    ensures st.records != map[] ==>
      var first := RecordText(st.records[st.order[0]]);
      |ShowAllSpec(st)| >= |first| && ShowAllSpec(st)[..|first|] == first
  {
    if st.records != map[] {
      var k :| k in st.records;
      assert k in st.order;
      var texts := RecordTexts(Rows(st));
      JoinStartsWithFirst(texts, "\n");
      var first := texts[0];
      assert first[0] == 'C';
      assert ShowAllSpec(st)[0] == first[0];
    }
  }

  // ---------------------------------------------------------------------------
  // Properties of one line

  /** The loop ends exactly on a first word that lower-cases to "close" or
      "exit", and then the book is unchanged. */
  lemma StopsOnCloseOrExit(st: BookState, line: string, today: Date)
    requires WellFormed(st) && ValidDate(today)
    ensures Respond(st, line, today).0.Stop? <==>
      Words(line) != [] && Lower(Words(line)[0]) in {"close", "exit"}
    ensures Respond(st, line, today).0.Stop? ==> Respond(st, line, today) == (Stop(GoodBye), st)
  {
    if line == "" {
      assert Words(line) == [];
    }
  }

  /** The program dies on a line of whitespace only, and on `birthdays`
      when some birthday has no date in the year it is moved to. */
  lemma CrashesExactly(st: BookState, line: string, today: Date)
    requires WellFormed(st) && ValidDate(today)
    ensures Respond(st, line, today).0 == Crash <==>
      (line != "" && AllSpace(line))
      || (Words(line) != [] && CommandOf(Lower(Words(line)[0])) == BirthdaysCommand
          && BirthdaysSpec(st, today).None?)
  {
    WordsEmpty(line);
  }

  /** Every branch leaves the book well formed. */
  lemma DispatchKeepsWellFormed(st: BookState, command: Command, args: seq<string>, today: Date)
    requires WellFormed(st) && ValidDate(today)
    ensures WellFormed(Dispatch(st, command, args, today).1)
  {
    match command
    case AddContactCommand => AddContactFacts(st, args);
    case ChangeContactCommand => ChangeContactFacts(st, args);
    case AddBirthdayCommand => AddBirthdayFacts(st, args);
    case _ =>
  }

  /** Only `add`, `change` and `add-birthday` change the book, and every
      line keeps it well formed. */
  lemma RespondFacts(st: BookState, line: string, today: Date)
    requires WellFormed(st) && ValidDate(today)
    ensures WellFormed(Respond(st, line, today).1)
    ensures Respond(st, line, today).1 != st ==>
      Words(line) != [] && Updates(CommandOf(Lower(Words(line)[0])))
  {
    if line != "" && Words(line) != [] {
      DispatchKeepsWellFormed(st, CommandOf(Lower(Words(line)[0])), Words(line)[1..], today);
    }
  }

  // ---------------------------------------------------------------------------
  // The handlers on the book object

  method AddContact(args: seq<string>, book: AddressBook) returns (text: string)
    requires book.Valid()
    modifies book, book.data.Values
    ensures book.Valid()
    ensures fresh(book.data.Values - old(book.data.Values))
    ensures text == InputError(AddContactSpec(old(book.State()), args).result)
    ensures book.State() == AddContactSpec(old(book.State()), args).book
  {
    var u := Unpack(args, 2);
    if u.Err? {
      return InputError(Err(u.error));
    }
    var name, phone := args[0], args[1];
    var message := ContactUpdated;
    var found := book.Find(name);
    if found.None? {
      FileNewRecord(book, name);
      message := ContactAdded;
    }
    if phone != "" {
      var r := AddPhoneInBook(book, name, phone);
      if r.Err? {
        return InputError(Err(r.error));
      }
    }
    return message;
  }

  /** `record = Record(name)` and `book.add_record(record)` for a name the
      book does not hold yet. */
  method FileNewRecord(book: AddressBook, name: string)
    requires book.Valid() && name !in book.data
    modifies book
    ensures book.Valid() && name in book.data
    ensures fresh(book.data.Values - old(book.data.Values))
    ensures book.State() == Upsert(old(book.State()), RecordValue(name, [], None))
  {
    var record := new Record(name);
    book.AddRecord(record);
  }

  /** `record.add_phone(phone)` on the record the book files under `name`. */
  method AddPhoneInBook(book: AddressBook, name: string, phone: string) returns (r: Result<(), Error>)
    requires book.Valid() && name in book.data
    modifies book.data[name]
    ensures book.Valid()
    ensures var added := AddPhoneValue(old(book.State()).records[name], phone);
      && (r.Ok? <==> added.Ok?)
      && (r.Err? ==> r.error == added.error && book.State() == old(book.State()))
      && (r.Ok? ==> book.State() == Upsert(old(book.State()), added.value))
  {
    r := book.data[name].AddPhone(phone);
    RecordChanged(book, name);
    if r.Err? {
      UpsertSame(old(book.State()), name);
    }
  }

  method ChangeContact(args: seq<string>, book: AddressBook) returns (text: string)
    requires book.Valid()
    modifies book.data.Values
    ensures book.Valid()
    ensures text == InputError(ChangeContactSpec(old(book.State()), args).result)
    ensures book.State() == ChangeContactSpec(old(book.State()), args).book
  {
    var u := Unpack(args, 3);
    if u.Err? {
      return InputError(Err(u.error));
    }
    var found := book.Find(args[0]);
    if found.None? {
      return InputError(Err(KeyError));
    }
    var r := found.value.EditPhone(args[1], args[2]);
    RecordChanged(book, args[0]);
    if r.Err? {
      return InputError(Err(r.error));
    }
    return PhoneChanged;
  }

  method ShowPhone(args: seq<string>, book: AddressBook) returns (text: string)
    requires book.Valid()
    ensures text == InputError(ShowPhoneSpec(book.State(), args))
  {
    var u := Unpack(args, 1);
    if u.Err? {
      return InputError(Err(u.error));
    }
    var found := book.Find(args[0]);
    if found.None? {
      return InputError(Err(KeyError));
    }
    return Join(PhoneValues(found.value.phones), ", ");
  }

  method ShowAll(book: AddressBook) returns (text: string)
    requires book.Valid()
    ensures text == ShowAllSpec(book.State())
  {
    if book.data == map[] {
      assert book.State().records == map[];
      return NoContacts;
    }
    assert book.State().records != map[] by {
      var k :| k in book.data;
    }
    var records := book.Records();
    book.ValuesInOrder(records);
    return Join(RecordTexts(RecordValues(records)), "\n");
  }

  method AddBirthday(args: seq<string>, book: AddressBook) returns (text: string)
    requires book.Valid()
    modifies book.data.Values
    ensures book.Valid()
    ensures text == InputError(AddBirthdaySpec(old(book.State()), args).result)
    ensures book.State() == AddBirthdaySpec(old(book.State()), args).book
  {
    var u := Unpack(args, 2);
    if u.Err? {
      return InputError(Err(u.error));
    }
    var found := book.Find(args[0]);
    if found.None? {
      return InputError(Err(KeyError));
    }
    var r := found.value.AddBirthday(args[1]);
    RecordChanged(book, args[0]);
    if r.Err? {
      return InputError(Err(r.error));
    }
    return BirthdayAdded;
  }

  method ShowBirthday(args: seq<string>, book: AddressBook) returns (text: string)
    requires book.Valid()
    ensures text == InputError(ShowBirthdaySpec(book.State(), args))
  {
    var u := Unpack(args, 1);
    if u.Err? {
      return InputError(Err(u.error));
    }
    var found := book.Find(args[0]);
    if found.None? {
      return InputError(Err(KeyError));
    }
    var birthday := found.value.birthday;
    if birthday.None? {
      return InputError(Err(AttributeError));
    }
    return BirthdayText(birthday.value);
  }

  /** `birthdays(args, book)`: the arguments are ignored. */
  method Birthdays(args: seq<string>, book: AddressBook, today: Date) returns (r: Option<string>)
    requires book.Valid() && ValidDate(today)
    ensures r == BirthdaysSpec(book.State(), today)
  {
    r := book.GetUpcomingBirthdays(today);
  }

  /** One pass of the loop in `main`, `today` standing for the clock. */
  method HandleLine(book: AddressBook, line: string, today: Date) returns (out: Outcome)
    requires book.Valid() && ValidDate(today)
    modifies book, book.data.Values
    ensures book.Valid()
    ensures fresh(book.data.Values - old(book.data.Values))
    ensures (out, book.State()) == Respond(old(book.State()), line, today)
  {
    if line == "" {
      return Silent;
    }
    var parsed := ParseInput(line);
    if parsed.Err? {
      return Crash;
    }
    out := Run(CommandOf(parsed.value.0), parsed.value.1, book, today);
  }

  /** The `if`/`elif` chain: call the handler the command names. */
  method Run(command: Command, args: seq<string>, book: AddressBook, today: Date) returns (out: Outcome)
    requires book.Valid() && ValidDate(today)
    modifies book, book.data.Values
    ensures book.Valid()
    ensures fresh(book.data.Values - old(book.data.Values))
    ensures (out, book.State()) == Dispatch(old(book.State()), command, args, today)
  {
    if Updates(command) {
      out := RunUpdate(command, args, book);
    } else {
      out := RunQuery(command, args, book, today);
    }
  }

  method RunUpdate(command: Command, args: seq<string>, book: AddressBook) returns (out: Outcome)
    requires book.Valid() && Updates(command)
    modifies book, book.data.Values
    ensures book.Valid()
    ensures fresh(book.data.Values - old(book.data.Values))
    ensures forall today | ValidDate(today) ::
      (out, book.State()) == Dispatch(old(book.State()), command, args, today)
  {
    var text: string;
    if command == AddContactCommand {
      text := AddContact(args, book);
    } else if command == ChangeContactCommand {
      text := ChangeContact(args, book);
    } else {
      text := AddBirthday(args, book);
    }
    out := Say(text);
  }

  method RunQuery(command: Command, args: seq<string>, book: AddressBook, today: Date) returns (out: Outcome)
    requires book.Valid() && ValidDate(today) && !Updates(command)
    ensures (out, book.State()) == Dispatch(book.State(), command, args, today)
  {
    match command {
      case Leave =>
        out := Stop(GoodBye);
      case Greet =>
        out := Say(HowCanIHelp);
      case ShowPhoneCommand =>
        var text := ShowPhone(args, book);
        out := Say(text);
      case ShowAllCommand =>
        var text := ShowAll(book);
        out := Say(text);
      case ShowBirthdayCommand =>
        var text := ShowBirthday(args, book);
        out := Say(text);
      case BirthdaysCommand =>
        var r := Birthdays(args, book, today);
        out := if r.None? then Crash else Say(r.value);
      case Unknown =>
        out := Say(InvalidCommand);
    }
  }

  /** One turn of `main` on line `i`: the session from that line on is
      its answer followed, unless the loop ends, by the rest. */
  method Turn(book: AddressBook, lines: seq<string>, i: nat, today: Date) returns (out: Outcome)
    requires book.Valid() && ValidDate(today) && i < |lines|
    modifies book, book.data.Values
    ensures book.Valid()
    ensures fresh(book.data.Values - old(book.data.Values))
    ensures Transcript(old(book.State()), lines[i..], today) ==
      if out.Stop? || out == Crash then [out] else [out] + Transcript(book.State(), lines[i + 1..], today)
  {
    ghost var st := book.State();
    out := HandleLine(book, lines[i], today);
    TranscriptStep(st, lines, i, today, out, book.State());
  }

  /** `main`: a new, empty book, then one pass of the loop per line typed,
      until "Good bye!" or an exception that escapes the handlers. */
  method Serve(lines: seq<string>, today: Date) returns (outs: seq<Outcome>)
    requires ValidDate(today)
    ensures outs == Transcript(BookState([], map[]), lines, today)
  {
    var book := new AddressBook();
    outs := [];
    var i := 0;
    while i < |lines|
      invariant 0 <= i <= |lines|
      invariant book.Valid() && fresh(book) && fresh(book.data.Values)
      invariant Transcript(BookState([], map[]), lines, today) == outs + Transcript(book.State(), lines[i..], today)
    {
      var out := Turn(book, lines, i, today);
      outs := outs + [out];
      if out.Stop? || out == Crash {
        return;
      }
      i := i + 1;
    }
  }
}

/**
  The two date conversions the programs use: `datetime.strptime` with a
  format made of `%d`, `%m`, `%Y` and one separator character, and
  `date.strftime` with the same format. Only ASCII digits are modelled.
*/
module DateText {
  import opened Wrappers
  import opened Calendar
  import opened Sequences

  predicate IsDigit(c: char) {
    '0' <= c <= '9'
  }

  predicate IsNonZeroDigit(c: char) {
    '1' <= c <= '9'
  }

  predicate AllDigits(s: string) {
    forall i :: 0 <= i < |s| ==> IsDigit(s[i])
  }

  function DigitValue(c: char): (v: nat)
    requires IsDigit(c)
    ensures v < 10
  {
    (c as int) - ('0' as int)
  }

  function DigitChar(n: int): (c: char)
    requires 0 <= n < 10
    ensures IsDigit(c) && DigitValue(c) == n
  {
    (('0' as int) + n) as char
  }

  /** `int(s)` for a string of ASCII digits. */
  function DigitsValue(s: string): nat
    requires AllDigits(s)
    decreases |s|
  {
    if s == [] then 0 else DigitsValue(s[..|s| - 1]) * 10 + DigitValue(s[|s| - 1])
  }

  lemma OneDigit(s: string)
    requires |s| == 1 && AllDigits(s)
    ensures DigitsValue(s) == DigitValue(s[0])
  {
    assert s[..0] == [];
  }

  lemma TwoDigits(s: string)
    requires |s| == 2 && AllDigits(s)
    ensures DigitsValue(s) == DigitValue(s[0]) * 10 + DigitValue(s[1])
  {
    OneDigit(s[..1]);
  }

  lemma FourDigits(s: string)
    requires |s| == 4 && AllDigits(s)
    ensures DigitsValue(s) == ((DigitValue(s[0]) * 10 + DigitValue(s[1])) * 10 + DigitValue(s[2])) * 10 + DigitValue(s[3])
  {
    var p3 := s[..3];
    assert p3[..2] == s[..2];
    TwoDigits(s[..2]);
  }

  lemma DecimalDigits(n: int)
    requires 0 <= n < 10000
    ensures ((n / 1000 * 10 + n / 100 % 10) * 10 + n / 10 % 10) * 10 + n % 10 == n
  {
    var q1 := n / 10;
    var q2 := q1 / 10;
    assert n / 100 == q2;
    assert n / 1000 == q2 / 10;
    assert q2 / 10 * 10 + q2 % 10 == q2;
    assert q2 * 10 + q1 % 10 == q1;
    assert q1 * 10 + n % 10 == n;
  }

  /** The order in which a format names its three fields. */
  datatype Layout = DayMonthYear | YearMonthDay

  /** The separator of a format: a literal that no field can contain. */
  predicate ValidSeparator(sep: char) {
    sep != ' ' && !IsDigit(sep)
  }

  /** What `%d` matches: `3[01]|[12]\d|0[1-9]|[1-9]| [1-9]`. */
  predicate DayToken(t: string) {
    (|t| == 2 && t[0] == '3' && (t[1] == '0' || t[1] == '1'))
    || (|t| == 2 && (t[0] == '1' || t[0] == '2') && IsDigit(t[1]))
    || (|t| == 2 && t[0] == '0' && IsNonZeroDigit(t[1]))
    || (|t| == 1 && IsNonZeroDigit(t[0]))
    || (|t| == 2 && t[0] == ' ' && IsNonZeroDigit(t[1]))
  }

  /** What `%m` matches: `1[0-2]|0[1-9]|[1-9]`. */
  predicate MonthToken(t: string) {
    (|t| == 2 && t[0] == '1' && '0' <= t[1] <= '2')
    || (|t| == 2 && t[0] == '0' && IsNonZeroDigit(t[1]))
    || (|t| == 1 && IsNonZeroDigit(t[0]))
  }

  /** What `%Y` matches: exactly four digits. */
  predicate YearToken(t: string) {
    |t| == 4 && AllDigits(t)
  }

  /** `int(t)` of a day token; `int` skips the leading blank of " 7". */
  function DayValue(t: string): (v: nat)
    requires DayToken(t)
    ensures 1 <= v <= 31
  {
    if t[0] == ' ' then DigitValue(t[1])
    else if |t| == 1 then OneDigit(t); DigitsValue(t)
    else TwoDigits(t); DigitsValue(t)
  }

  function MonthValue(t: string): (v: nat)
    requires MonthToken(t)
    ensures 1 <= v <= 12
  {
    if |t| == 1 then OneDigit(t); DigitsValue(t)
    else TwoDigits(t); DigitsValue(t)
  }

  /** The three fields of `s` around exactly two separators, or None. */
  function Split3(s: string, sep: char): Option<(string, string, string)> {
    match FirstIndex(s, sep)
    case None => None
    case Some(i) =>
      var rest := s[i + 1..];
      match FirstIndex(rest, sep)
      case None => None
      case Some(j) =>
        var last := rest[j + 1..];
        if sep in last then None else Some((s[..i], rest[..j], last))
  }

  /** `datetime.strptime(s, fmt).date()`, None where Python raises ValueError:
      a field that does not match its pattern, text left over or missing,
      or a day the month does not have. */
  function Strptime(s: string, sep: char, layout: Layout): (r: Option<Date>)
    requires ValidSeparator(sep)
    ensures r.Some? ==> ValidDate(r.value)
  {
    match Split3(s, sep)
    case None => None
    case Some((first, mid, last)) =>
      var (dt, mt, yt) := if layout == DayMonthYear then (first, mid, last) else (last, mid, first);
      if DayToken(dt) && MonthToken(mt) && YearToken(yt) then
        var d := Date(DigitsValue(yt), MonthValue(mt), DayValue(dt));
        if ValidDate(d) then Some(d) else None
      else None
  }

  /** `%d` and `%m` in `strftime`: two digits, zero padded. */
  function Pad2(n: int): (s: string)
    requires 0 <= n < 100
    ensures |s| == 2 && AllDigits(s) && DigitsValue(s) == n
  {
    var s := [DigitChar(n / 10), DigitChar(n % 10)];
    TwoDigits(s);
    s
  }

  /** `%Y` in `strftime`, as four digits. */
  function Pad4(n: int): (s: string)
    requires 0 <= n < 10000
    ensures |s| == 4 && AllDigits(s) && DigitsValue(s) == n
  {
    var s := [DigitChar(n / 1000), DigitChar(n / 100 % 10), DigitChar(n / 10 % 10), DigitChar(n % 10)];
    FourDigits(s);
    DecimalDigits(n);
    s
  }

  /** `date.strftime(fmt)` with the same format. */
  function Strftime(d: Date, sep: char, layout: Layout): string
    requires ValidDate(d)
  {
    if layout == DayMonthYear then Pad2(d.day) + [sep] + Pad2(d.month) + [sep] + Pad4(d.year)
    else Pad4(d.year) + [sep] + Pad2(d.month) + [sep] + Pad2(d.day)
  }

  /** A date text `strftime` itself could have written: both short fields
      two characters wide and the day without a leading blank. */
  predicate Canonical(s: string, layout: Layout) {
    |s| == 10 && (if layout == DayMonthYear then s[0] != ' ' else s[8] != ' ')
  }

  // ---------------------------------------------------------------------------
  // Properties

  /** Splitting the joined fields gives the fields back. */
  lemma Split3Join(a: string, b: string, c: string, sep: char)
    requires sep !in a && sep !in b && sep !in c
    ensures Split3(a + [sep] + b + [sep] + c, sep) == Some((a, b, c))
  {
    var s := a + [sep] + b + [sep] + c;
    FirstIndexAfter(a, sep, b + [sep] + c);
    assert s == a + [sep] + (b + [sep] + c);
    assert s[..|a|] == a;
    var rest := s[|a| + 1..];
    assert rest == b + [sep] + c;
    FirstIndexAfter(b, sep, c);
    assert rest[..|b|] == b;
    assert rest[|b| + 1..] == c;
  }

  lemma Rejoin(s: string, sep: char, i: nat, j: nat)
    requires i < |s| && s[i] == sep
    requires j < |s[i + 1..]| && s[i + 1..][j] == sep
    ensures s == s[..i] + [sep] + s[i + 1..][..j] + [sep] + s[i + 1..][j + 1..]
  {
    var rest := s[i + 1..];
    assert s == s[..i] + [sep] + rest;
    assert rest == rest[..j] + [sep] + rest[j + 1..];
  }

  /** Parsing joined fields is checking each field against its pattern. */
  lemma StrptimeJoined(a: string, b: string, c: string, sep: char, layout: Layout)
    requires ValidSeparator(sep) && sep !in a && sep !in b && sep !in c
    ensures var f := Fields((a, b, c), layout);
      Strptime(a + [sep] + b + [sep] + c, sep, layout) ==
        if DayToken(f.0) && MonthToken(f.1) && YearToken(f.2) && ValidDate(Date(DigitsValue(f.2), MonthValue(f.1), DayValue(f.0)))
        then Some(Date(DigitsValue(f.2), MonthValue(f.1), DayValue(f.0)))
        else None
  {
    Split3Join(a, b, c, sep);
  }

  /** A successful split cuts `s` at exactly two separators. */
  lemma Split3Sound(s: string, sep: char)
    requires Split3(s, sep).Some?
    ensures var parts := Split3(s, sep).value;
      s == parts.0 + [sep] + parts.1 + [sep] + parts.2
      && sep !in parts.0 && sep !in parts.1 && sep !in parts.2
  {
    var i := FirstIndex(s, sep).value;
    var rest := s[i + 1..];
    var j := FirstIndex(rest, sep).value;
    Rejoin(s, sep, i, j);
    assert Split3(s, sep).value == (s[..i], rest[..j], rest[j + 1..]);
  }

  lemma Pad2NoSeparator(n: int, sep: char)
    requires 0 <= n < 100 && ValidSeparator(sep)
    ensures sep !in Pad2(n)
  {
    var s := Pad2(n);
    assert s == [s[0], s[1]];
  }

  lemma Pad4NoSeparator(n: int, sep: char)
    requires 0 <= n < 10000 && ValidSeparator(sep)
    ensures sep !in Pad4(n)
  {
    var s := Pad4(n);
    assert s == [s[0], s[1], s[2], s[3]];
  }

  /** Two zero-padded digits of a day or a month are tokens of `%d` / `%m`
      whose value is the number padded. */
  lemma Pad2Tokens(n: int)
    requires 1 <= n <= 31
    ensures DayToken(Pad2(n)) && DayValue(Pad2(n)) == n
    ensures n <= 12 ==> MonthToken(Pad2(n)) && MonthValue(Pad2(n)) == n
  {
  }

  /** Formatting a valid date and parsing it with the same format gives the
      date back. */
  lemma ParseFormatted(d: Date, sep: char, layout: Layout)
    requires ValidDate(d) && ValidSeparator(sep)
    ensures Strptime(Strftime(d, sep, layout), sep, layout) == Some(d)
  {
    Pad2NoSeparator(d.day, sep);
    Pad2NoSeparator(d.month, sep);
    Pad4NoSeparator(d.year, sep);
    Pad2Tokens(d.day);
    Pad2Tokens(d.month);
    if layout == DayMonthYear {
      Split3Join(Pad2(d.day), Pad2(d.month), Pad4(d.year), sep);
    } else {
      Split3Join(Pad4(d.year), Pad2(d.month), Pad2(d.day), sep);
    }
  }

  /** A two-character token of `%d` or `%m` is the padding of its value. */
  lemma TwoDigitToken(t: string)
    requires |t| == 2 && AllDigits(t)
    ensures DigitsValue(t) < 100 && Pad2(DigitsValue(t)) == t
  {
    TwoDigits(t);
    var v := DigitsValue(t);
    assert Pad2(v)[0] == DigitChar(v / 10) == t[0];
    assert Pad2(v)[1] == DigitChar(v % 10) == t[1];
  }

  lemma {:induction false} FourDigitToken(t: string)
    requires YearToken(t)
    ensures DigitsValue(t) < 10000 && Pad4(DigitsValue(t)) == t
  {
    var a, b, c, e := DigitValue(t[0]), DigitValue(t[1]), DigitValue(t[2]), DigitValue(t[3]);
    FourDigits(t);
    var v := DigitsValue(t);
    DigitsOfFour(a, b, c, e);
    var p := Pad4(v);
    assert p[0] == t[0] && p[1] == t[1] && p[2] == t[2] && p[3] == t[3];
  }

  /** The four decimal digits of a number below 10000, read back. */
  lemma DigitsOfFour(a: int, b: int, c: int, e: int)
    requires 0 <= a < 10 && 0 <= b < 10 && 0 <= c < 10 && 0 <= e < 10
    ensures var v := ((a * 10 + b) * 10 + c) * 10 + e;
      v / 1000 == a && v / 100 % 10 == b && v / 10 % 10 == c && v % 10 == e
  {
    var q2 := a * 10 + b;
    var q1 := q2 * 10 + c;
    var v := q1 * 10 + e;
    assert v / 10 == q1 && v % 10 == e;
    assert q1 / 10 == q2 && q1 % 10 == c;
    assert q2 / 10 == a && q2 % 10 == b;
    assert v / 100 == q2 by { assert v == q2 * 100 + (c * 10 + e); }
    assert v / 1000 == a by { assert v == a * 1000 + (b * 100 + c * 10 + e); }
  }

  /** What `strftime` writes is canonical. */
  lemma FormattedIsCanonical(d: Date, sep: char, layout: Layout)
    requires ValidDate(d)
    ensures Canonical(Strftime(d, sep, layout), layout)
  {
    var f := Strftime(d, sep, layout);
    if layout == DayMonthYear {
      assert f[0] == Pad2(d.day)[0];
    } else {
      assert f[8] == Pad2(d.day)[0];
    }
  }

  lemma DayTokenShape(t: string)
    requires DayToken(t)
    ensures 1 <= |t| <= 2
    ensures |t| == 2 && t[0] != ' ' ==> AllDigits(t) && DayValue(t) == DigitsValue(t)
  {
  }

  lemma MonthTokenShape(t: string)
    requires MonthToken(t)
    ensures 1 <= |t| <= 2 && AllDigits(t)
  {
  }

  /** The fields of a successful parse, in the order the layout names them. */
  function Fields(parts: (string, string, string), layout: Layout): (string, string, string) {
    if layout == DayMonthYear then parts else (parts.2, parts.1, parts.0)
  }

  lemma StrptimeFields(s: string, sep: char, layout: Layout)
    requires ValidSeparator(sep) && Strptime(s, sep, layout).Some?
    ensures Split3(s, sep).Some?
    ensures var f := Fields(Split3(s, sep).value, layout);
      DayToken(f.0) && MonthToken(f.1) && YearToken(f.2)
      && Strptime(s, sep, layout).value == Date(DigitsValue(f.2), MonthValue(f.1), DayValue(f.0))
  {
  }

  /** A parsed text is exactly what formatting the parsed date writes iff it
      is canonical: "9.11.1985" and " 9.11.1985" parse, but render as
      "09.11.1985". */
  lemma FormatParsed(s: string, sep: char, layout: Layout)
    requires ValidSeparator(sep) && Strptime(s, sep, layout).Some?
    ensures Strftime(Strptime(s, sep, layout).value, sep, layout) == s <==> Canonical(s, layout)
  {
    var d := Strptime(s, sep, layout).value;
    FormattedIsCanonical(d, sep, layout);
    if Canonical(s, layout) {
      StrptimeFields(s, sep, layout);
      Split3Sound(s, sep);
      var parts := Split3(s, sep).value;
      var f := Fields(parts, layout);
      DayTokenShape(f.0);
      MonthTokenShape(f.1);
      FourDigitToken(f.2);
      assert |f.0| == 2 && |f.1| == 2;
      if layout == DayMonthYear {
        assert s[0] == f.0[0];
      } else {
        assert s[8] == f.0[0];
      }
      TwoDigitToken(f.0);
      TwoDigitToken(f.1);
    }
  }
}

/**
  `normalize_phone` (goit-pycore-hw-03/task_3.py): drop every character
  but ASCII digits and '+', then try three patterns in order.
*/
module PhoneNormalizer {
  import opened DateText

  const Invalid: string := "Invalid phone number"

  predicate Kept(c: char) {
    IsDigit(c) || c == '+'
  }

  predicate AllKept(s: string) {
    forall i :: 0 <= i < |s| ==> Kept(s[i])
  }

  /** `re.sub("[^0-9+]", "", s)`. */
  function Clean(s: string): (r: string)
    ensures |r| <= |s|
  {
    if s == [] then []
    else if Kept(s[0]) then [s[0]] + Clean(s[1..])
    else Clean(s[1..])
  }

  /** `^\+38\d+$` */
  predicate International(c: string) {
    |c| > 3 && c[..3] == "+38" && AllDigits(c[3..])
  }

  /** `^380\d+$` */
  predicate MissingPlus(c: string) {
    |c| > 3 && c[..3] == "380" && AllDigits(c[3..])
  }

  /** `^0\d{9}$` */
  predicate Local(c: string) {
    |c| == 10 && c[0] == '0' && AllDigits(c[1..])
  }

  function NormalizePhone(phone: string): (r: string)
    ensures r == Invalid || International(r)
  {
    var c := Clean(phone);
    if International(c) then c
    else if MissingPlus(c) then "+" + c
    else if Local(c) then "+38" + c
    else Invalid
  }

  // ---------------------------------------------------------------------------
  // Properties

  /** Cleaning works character by character, so it keeps order. */
  lemma {:induction false} CleanConcat(a: string, b: string)
    ensures Clean(a + b) == Clean(a) + Clean(b)
    decreases |a|
  {
    if a == [] {
      assert a + b == b;
    } else {
      assert (a + b)[1..] == a[1..] + b;
      CleanConcat(a[1..], b);
    }
  }

  /** A text of digits and '+' only is already clean. */
  lemma {:induction false} CleanKeepsCleanText(s: string)
    requires AllKept(s)
    ensures Clean(s) == s
    decreases |s|
  {
    if s != [] {
      CleanKeepsCleanText(s[1..]);
    }
  }

  /** Cleaning removes exactly the other characters. */
  lemma {:induction false} CleanDropsOthers(s: string)
    ensures forall c :: c in Clean(s) <==> c in s && Kept(c)
    decreases |s|
  {
    if s != [] {
      CleanDropsOthers(s[1..]);
      assert forall c :: c in s <==> c == s[0] || c in s[1..];
    }
  }

  /** Each successful result is `+38` and digits, and normalising it again
      gives it back. */
  lemma NormalizeIdempotent(phone: string)
    requires NormalizePhone(phone) != Invalid
    ensures NormalizePhone(NormalizePhone(phone)) == NormalizePhone(phone)
  {
    var r := NormalizePhone(phone);
    assert International(r);
    assert AllKept(r) by {
      forall i | 0 <= i < |r| ensures Kept(r[i]) {
        if i >= 3 {
          assert r[i] == r[3..][i - 3];
        } else {
          assert r[i] == r[..3][i];
        }
      }
    }
    CleanKeepsCleanText(r);
  }

  /** The three rules and their order, stated on the cleaned text. */
  lemma NormalizeRules(phone: string)
    ensures var c := Clean(phone);
      && (International(c) ==> NormalizePhone(phone) == c)
      && (!International(c) && MissingPlus(c) ==> NormalizePhone(phone) == "+" + c)
      && (!International(c) && !MissingPlus(c) && Local(c) ==> NormalizePhone(phone) == "+38" + c)
      && (NormalizePhone(phone) == Invalid <==> !International(c) && !MissingPlus(c) && !Local(c))
  {
    var c := Clean(phone);
    assert Invalid[0] == 'I';
    if MissingPlus(c) && !International(c) {
      assert ("+" + c)[0] == '+';
    } else if Local(c) && !International(c) {
      assert ("+38" + c)[0] == '+';
    }
  }

  lemma PatternsByFirstChar(c: string)
    ensures International(c) ==> c[0] == '+'
    ensures MissingPlus(c) ==> c[0] == '3'
  {
    if |c| > 3 {
      assert c[0] == c[..3][0];
    }
  }

  lemma LocalRule(phone: string)
    requires Local(Clean(phone))
    ensures NormalizePhone(phone) == "+38" + Clean(phone)
  {
    PatternsByFirstChar(Clean(phone));
  }

  lemma MissingPlusRule(phone: string)
    requires MissingPlus(Clean(phone))
    ensures NormalizePhone(phone) == "+" + Clean(phone)
  {
    PatternsByFirstChar(Clean(phone));
  }

  lemma CleanSingle(c: char)
    ensures Clean([c]) == if Kept(c) then [c] else []
  {
    assert [c][1..] == [];
  }

  /** Dropping one separator between two texts. */
  lemma CleanSplice(x: string, sep: char, y: string)
    requires !Kept(sep)
    ensures Clean(x + [sep] + y) == Clean(x) + Clean(y)
  {
    CleanConcat(x + [sep], y);
    CleanConcat(x, [sep]);
    CleanSingle(sep);
  }

  /** `(050)8889900`-shaped input: brackets around the first group. */
  lemma CleanBracketShape(o: char, a: string, c: char, b: string)
    requires !Kept(o) && !Kept(c) && AllKept(a) && AllKept(b)
    ensures Clean([o] + a + [c] + b) == a + b
  {
    CleanConcat([o], a);
    CleanSingle(o);
    CleanSplice([o] + a, c, b);
    CleanKeepsCleanText(a);
    CleanKeepsCleanText(b);
  }

  /** `38050-111-22-22`-shaped input: groups joined by one separator. */
  lemma CleanDashShape(a: string, b: string, c: string, d: string, sep: char)
    requires !Kept(sep) && AllKept(a) && AllKept(b) && AllKept(c) && AllKept(d)
    ensures Clean(a + [sep] + b + [sep] + c + [sep] + d) == a + b + c + d
  {
    var ab := a + [sep] + b;
    var abc := ab + [sep] + c;
    CleanSplice(a, sep, b);
    CleanSplice(ab, sep, c);
    CleanSplice(abc, sep, d);
    CleanKeepsCleanText(a);
    CleanKeepsCleanText(b);
    CleanKeepsCleanText(c);
    CleanKeepsCleanText(d);
  }

  /** Line 36's input. */
  lemma CleanBracketed(phone: string)
    requires phone == "(050)8889900"
    ensures Clean(phone) == "0508889900"
  {
    assert phone == ['('] + "050" + [')'] + "8889900";
    CleanBracketShape('(', "050", ')', "8889900");
  }

  /** Line 37's input. */
  lemma CleanDashed(phone: string)
    requires phone == "38050-111-22-22"
    ensures Clean(phone) == "380501112222"
  {
    assert phone == "38050" + ['-'] + "111" + ['-'] + "22" + ['-'] + "22";
    CleanDashShape("38050", "111", "22", "22", '-');
  }

  lemma LocalExample(phone: string, c: string)
    requires c == Clean(phone) && c == "0508889900"
    ensures NormalizePhone(phone) == "+38" + c
  {
    assert c[1..] == "508889900";
    LocalRule(phone);
  }

  lemma MissingPlusExample(phone: string, c: string)
    requires c == Clean(phone) && c == "380501112222"
    ensures NormalizePhone(phone) == "+" + c
  {
    assert c[..3] == "380" && c[3..] == "501112222";
    MissingPlusRule(phone);
  }

  /** The worked example on line 36: a local number in brackets. */
  lemma BracketedLocalNumber(phone: string)
    requires phone == "(050)8889900"
    ensures NormalizePhone(phone) == "+380508889900"
  {
    CleanBracketed(phone);
    LocalExample(phone, Clean(phone));
  }

  /** The worked example on line 37: a number with the country code but no '+'. */
  lemma DashedNumberWithCountryCode(phone: string)
    requires phone == "38050-111-22-22"
    ensures NormalizePhone(phone) == "+380501112222"
  {
    CleanDashed(phone);
    MissingPlusExample(phone, Clean(phone));
  }
}

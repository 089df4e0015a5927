/** The three regular expressions of the built-in rule set, as predicates on
    strings: the phone pattern (international prefix, an ITU-T E.164 country
    code, 1 to 14 further digits), the password pattern (three look-aheads,
    a minimum length and a non-blank last character) and the e-mail pattern,
    which is left abstract. */
module Patterns {

  predicate IsDigit(c: char) {
    '0' <= c <= '9'
  }

  predicate Digits(s: string) {
    forall i | 0 <= i < |s| :: IsDigit(s[i])
  }

  // ---------------------------------------------------------------------
  // Phone: ^(?:00|\+)(<country code>)\d{1,14}$

  /** The second digits of the three-digit alternatives `9[976]\d`,
      `8[987530]\d`, `6[987]\d`, `5[90]\d`, `42\d`, `3[875]\d` and
      `2[98654321]\d`, by their lead digit; empty for any other lead. */
  function ThreeDigitSeconds(lead: char): string {
    match lead
    case '9' => "976"
    case '8' => "987530"
    case '6' => "987"
    case '5' => "90"
    case '4' => "2"
    case '3' => "875"
    case '2' => "98654321"
    case _ => ""
  }

  /** The second digits of the two-digit alternatives `9[8543210]`,
      `8[6421]`, `6[6543210]`, `5[87654321]`, `4[987654310]`, `3[9643210]`
      and `2[70]`, by their lead digit; empty for any other lead. */
  function TwoDigitSeconds(lead: char): string {
    match lead
    case '9' => "8543210"
    case '8' => "6421"
    case '6' => "6543210"
    case '5' => "87654321"
    case '4' => "987654310"
    case '3' => "9643210"
    case '2' => "70"
    case _ => ""
  }

  /** The character class `[digits]` matches `c`. */
  predicate InSet(c: char, digits: string) {
    c in digits
  }

  /** The country-code group: one of its alternatives matches all of `cc`
      (the single-digit ones are `7` and `1`). */
  predicate CountryCode(cc: string) {
    || (|cc| == 1 && (cc[0] == '7' || cc[0] == '1'))
    || (|cc| == 2 && InSet(cc[1], TwoDigitSeconds(cc[0])))
    || (|cc| == 3 && InSet(cc[1], ThreeDigitSeconds(cc[0])) && IsDigit(cc[2]))
  }

  /** Every alternative is made of digits and leads with a non-zero one. */
  lemma SecondsAreDigits(lead: char)
    ensures forall c | c in TwoDigitSeconds(lead) :: IsDigit(c)
    ensures forall c | c in ThreeDigitSeconds(lead) :: IsDigit(c)
    ensures TwoDigitSeconds(lead) != "" || ThreeDigitSeconds(lead) != "" ==> IsDigit(lead) && lead != '0'
  {
  }

  /** `(?:00|\+)` */
  predicate DialPrefix(p: string) {
    p == "00" || p == "+"
  }

  /** The phone pattern matches `s`: `s` splits into a dial prefix, a
      country code and 1 to 14 digits. */
  predicate PhoneMatches(s: string) {
    exists i, j | 0 <= i <= j <= |s| ::
      DialPrefix(s[..i]) && CountryCode(s[i..j]) && 1 <= |s| - j <= 14 && Digits(s[j..])
  }

  /** What follows the dial prefix. */
  function National(s: string): string {
    if |s| >= 1 && s[0] == '+' then s[1..] else if |s| >= 2 then s[2..] else ""
  }

  /** Every country code is one to three digits, the first not a zero. */
  lemma CountryCodeShape(cc: string)
    requires CountryCode(cc)
    ensures 1 <= |cc| <= 3 && Digits(cc) && cc[0] != '0'
  {
    SecondsAreDigits(cc[0]);
  }

  lemma DigitsConcat(a: string, b: string)
    requires Digits(a) && Digits(b)
    ensures Digits(a + b)
  {
    forall n | 0 <= n < |a + b| ensures IsDigit((a + b)[n]) {
      if n < |a| { assert (a + b)[n] == a[n]; } else { assert (a + b)[n] == b[n - |a|]; }
    }
  }

  lemma SliceSplit(s: string, i: int, j: int)
    requires 0 <= i <= j <= |s|
    ensures s[i..j] + s[j..] == s[i..]
  {
  }

  /** A matching phone number starts with "00" or "+", and what follows is
      made of 2 to 17 digits. */
  lemma PhoneShape(s: string)
    requires PhoneMatches(s)
    ensures (|s| >= 2 && s[..2] == "00") || (|s| >= 1 && s[0] == '+')
    ensures Digits(National(s)) && 2 <= |National(s)| <= 17
  {
    var i, j :| 0 <= i <= j <= |s| && DialPrefix(s[..i]) && CountryCode(s[i..j])
                && 1 <= |s| - j <= 14 && Digits(s[j..]);
    CountryCodeShape(s[i..j]);
    DigitsConcat(s[i..j], s[j..]);
    SliceSplit(s, i, j);
    assert |s[..i]| == i;
    if s[..i] == "00" {
      assert s[0] == s[..i][0] && s[1] == s[..i][1];
    } else {
      assert s[0] == s[..i][0];
    }
    assert National(s) == s[i..];
  }

  /** A number in international format is accepted. */
  lemma PhoneAcceptsInternational()
    ensures PhoneMatches("+14155550123")
  {
    var s := "+14155550123";
    assert DialPrefix(s[..1]) && CountryCode(s[1..2]) && Digits(s[2..]);
  }

  /** Text that starts with neither '0' nor '+' is refused. */
  lemma PhoneNeedsPrefix(s: string)
    requires |s| > 0 && s[0] != '0' && s[0] != '+'
    ensures !PhoneMatches(s)
  {
    if PhoneMatches(s) {
      PhoneShape(s);
    }
  }

  /** Without the "00" or "+" prefix the same number is refused. */
  lemma PhoneRejectsNational()
    ensures !PhoneMatches("4155550123")
  {
    PhoneNeedsPrefix("4155550123");
  }

  // ---------------------------------------------------------------------
  // Password: ^((?=\S*?[A-Z])(?=\S*?[a-z])(?=\S*?[0-9]).{7,})\S$

  /** `\s` in a JavaScript regular expression. */
  predicate IsWhitespace(c: char) {
    var n := c as int;
    n == 0x09 || n == 0x0A || n == 0x0B || n == 0x0C || n == 0x0D || n == 0x20
    || n == 0xA0 || n == 0x1680 || (0x2000 <= n <= 0x200A) || n == 0x2028
    || n == 0x2029 || n == 0x202F || n == 0x205F || n == 0x3000 || n == 0xFEFF
  }

  /** The characters that `.` does not match. */
  predicate IsLineTerminator(c: char) {
    var n := c as int;
    n == 0x0A || n == 0x0D || n == 0x2028 || n == 0x2029
  }

  datatype CharClass = Uppercase | Lowercase | Numeral

  predicate InClass(c: char, k: CharClass) {
    match k
    case Uppercase => 'A' <= c <= 'Z'
    case Lowercase => 'a' <= c <= 'z'
    case Numeral => IsDigit(c)
  }

  /** `(?=\S*?[X])` at the start: some character of class `k` has only
      non-whitespace characters before it. */
  predicate LooksAhead(s: string, k: CharClass) {
    exists i | 0 <= i < |s| :: InClass(s[i], k) && forall j | 0 <= j < i :: !IsWhitespace(s[j])
  }

  /** The password pattern matches `s`. */
  predicate PasswordMatches(s: string) {
    && LooksAhead(s, Uppercase) && LooksAhead(s, Lowercase) && LooksAhead(s, Numeral)
    && |s| >= 8
    && (forall i | 0 <= i < |s| - 1 :: !IsLineTerminator(s[i]))
    && !IsWhitespace(s[|s| - 1])
  }

  /** The index of the first whitespace character of `s`, `|s|` if none. */
  function FirstSpace(s: string): (r: nat)
    ensures r <= |s|
    ensures forall j | 0 <= j < r :: !IsWhitespace(s[j])
    ensures r < |s| ==> IsWhitespace(s[r])
  {
    if s == [] then 0
    else if IsWhitespace(s[0]) then 0
    else 1 + FirstSpace(s[1..])
  }

  /** A look-ahead holds exactly when a character of its class occurs before
      the first whitespace character. */
  lemma LooksAheadBeforeSpace(s: string, k: CharClass)
    ensures LooksAhead(s, k) <==> exists i | 0 <= i < FirstSpace(s) :: InClass(s[i], k)
  {
    var w := FirstSpace(s);
    if LooksAhead(s, k) {
      var i :| 0 <= i < |s| && InClass(s[i], k) && forall j | 0 <= j < i :: !IsWhitespace(s[j]);
      assert !IsWhitespace(s[i]);
      assert i < w;
    }
    if exists i | 0 <= i < w :: InClass(s[i], k) {
      var i :| 0 <= i < w && InClass(s[i], k);
      assert forall j | 0 <= j < i :: !IsWhitespace(s[j]);
    }
  }

  /** A matching password is at least 8 characters long, ends in a
      non-whitespace character, and has an uppercase letter, a lowercase
      letter and a digit before its first whitespace character. */
  lemma PasswordShape(s: string)
    requires PasswordMatches(s)
    ensures |s| >= 8 && !IsWhitespace(s[|s| - 1])
    ensures exists i | 0 <= i < FirstSpace(s) :: InClass(s[i], Uppercase)
    ensures exists i | 0 <= i < FirstSpace(s) :: InClass(s[i], Lowercase)
    ensures exists i | 0 <= i < FirstSpace(s) :: InClass(s[i], Numeral)
  {
    LooksAheadBeforeSpace(s, Uppercase);
    LooksAheadBeforeSpace(s, Lowercase);
    LooksAheadBeforeSpace(s, Numeral);
  }

  /** Where a matching password may hold whitespace: never a line
      terminator, never first or last, and any other whitespace character
      only after an uppercase letter, a lowercase letter and a digit. */
  lemma PasswordSpaces(s: string)
    requires PasswordMatches(s)
    ensures forall i | 0 <= i < |s| :: !IsLineTerminator(s[i])
    ensures forall i | 0 <= i < |s| && IsWhitespace(s[i]) ::
      && 0 < i < |s| - 1
      && (exists j | 0 <= j < i :: InClass(s[j], Uppercase))
      && (exists j | 0 <= j < i :: InClass(s[j], Lowercase))
      && (exists j | 0 <= j < i :: InClass(s[j], Numeral))
  {
    LooksAheadBeforeSpace(s, Uppercase);
    LooksAheadBeforeSpace(s, Lowercase);
    LooksAheadBeforeSpace(s, Numeral);
    var w := FirstSpace(s);
    forall i | 0 <= i < |s| && IsWhitespace(s[i])
      ensures && 0 < i < |s| - 1
              && (exists j | 0 <= j < i :: InClass(s[j], Uppercase))
              && (exists j | 0 <= j < i :: InClass(s[j], Lowercase))
              && (exists j | 0 <= j < i :: InClass(s[j], Numeral))
    {
      assert w <= i;
    }
  }

  /** A password of the documented kind is accepted. */
  lemma PasswordAcceptsExample()
    ensures PasswordMatches("Abcdefg1")
  {
    var good := "Abcdefg1";
    assert InClass(good[0], Uppercase) && InClass(good[1], Lowercase) && InClass(good[7], Numeral);
    assert forall j | 0 <= j < 7 :: !IsWhitespace(good[j]);
    assert LooksAhead(good, Uppercase) && LooksAhead(good, Lowercase) && LooksAhead(good, Numeral);
  }

  /** Without an uppercase letter the same password is refused. */
  lemma PasswordRejectsLowercase()
    ensures !PasswordMatches("abcdefg1")
  {
    var lower := "abcdefg1";
    assert forall i | 0 <= i < |lower| :: !InClass(lower[i], Uppercase);
  }

  /** The look-aheads stop at the first space: the digits after it do not
      count. */
  lemma PasswordRejectsDigitsAfterSpace()
    ensures !PasswordMatches("Abc 123A")
  {
    var spaced := "Abc 123A";
    assert IsWhitespace(spaced[3]);
  }

  // ---------------------------------------------------------------------
  // E-mail

  /** The e-mail regular expression, applied unanchored. Its grammar is not
      spelled out here: the model takes the matcher as given. */
  type EmailPattern = string -> bool

  /** The one fact the model relies on about the e-mail matcher: any text it
      matches contains an '@', which the pattern requires literally. */
  ghost predicate NeedsAt(p: EmailPattern) {
    forall s :: p(s) ==> '@' in s
  }
}

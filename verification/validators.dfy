/** Field validators of src/lib/validators.ts, used by the Step 4 submit gates.

    Each validator is modelled as the source writes it and paired with an
    independent description of what it accepts: the email check with the
    shape its regular expression matches, the date check with the calendar
    triples it admits, the name check with "two words", the salary check with
    "some digit is not zero". The current year, read from the clock in the
    source, is a parameter. */
module Validators {
  import opened Text
  import opened Formatters

  // ---------------------------------------------------------------------------
  // The validators as written

  predicate ValidateCPF(cpf: string) {
    |Digits(cpf)| == 11
  }

  /** `validateDate`, with `new Date().getFullYear()` passed in as `currentYear`. */
  predicate ValidateDate(date: string, currentYear: int) {
    var n := Digits(date);
    if |n| != 8 then false
    else
      var day := DecimalValue(n[0..2]);
      var month := DecimalValue(n[2..4]);
      var year := DecimalValue(n[4..8]);
      if month < 1 || month > 12 then false
      else if day < 1 || day > 31 then false
      else if year < 1900 || year > currentYear then false
      else true
  }

  /** A character of the class `[^\s@]`. */
  predicate PlainChar(c: char) {
    !IsWhitespace(c) && c != '@'
  }

  predicate Plain(s: string) {
    forall i :: 0 <= i < |s| ==> PlainChar(s[i])
  }

  /** `/^[^\s@]+@[^\s@]+\.[^\s@]+$/.test(email)`: the string splits as
      local `@` host `.` suffix, three non-empty runs of the class `[^\s@]`
      (the host and the suffix may themselves contain dots). */
  predicate ValidateEmail(email: string) {
    exists at: nat, dot: nat | at < dot < |email| ::
      EmailSplit(email, at, dot) && Plain(email[..at]) && Plain(email[at + 1..dot]) && Plain(email[dot + 1..])
  }

  /** The positions of the `@` and of the matched `.` in a regular-expression match. */
  predicate EmailSplit(email: string, at: nat, dot: nat) {
    0 < at && at + 1 < dot < |email| - 1 && email[at] == '@' && email[dot] == '.'
  }

  predicate ValidateWhatsApp(whatsapp: string) {
    |Digits(whatsapp)| >= 10
  }

  predicate ValidateFullName(name: string) {
    var trimmed := Trim(name);
    |Split(trimmed, ' ')| >= 2 && |trimmed| > 0
  }

  predicate ValidateSalary(salary: string) {
    var n := Digits(salary);
    |n| > 0 && DecimalValue(n) > 0
  }

  // ---------------------------------------------------------------------------
  // Only digits matter

  /** The digit-count validators read nothing but the digits of their input. */
  lemma DigitValidatorsIgnoreNonDigits(s: string, currentYear: int)
    ensures ValidateCPF(s) == ValidateCPF(Digits(s))
    ensures ValidateDate(s, currentYear) == ValidateDate(Digits(s), currentYear)
    ensures ValidateWhatsApp(s) == ValidateWhatsApp(Digits(s))
    ensures ValidateSalary(s) == ValidateSalary(Digits(s))
  {
    DigitsIdempotent(s);
  }

  /** The CPF check is a digit count: there is no check-digit verification. */
  lemma CpfAcceptsAnyElevenDigits(s: string)
    requires AllDigits(s) && |s| == 11
    ensures ValidateCPF(s)
  {
    DigitsOfDigits(s);
  }

  /** A masked CPF field passes exactly when at least 11 digits were typed:
      the mask drops any digit after the eleventh. */
  lemma ValidateMaskedCpf(s: string)
    ensures ValidateCPF(FormatCPF(s)) <==> |Digits(s)| >= 11
  {
    CpfDigitsAndLength(s);
  }

  /** A masked phone field passes exactly when the raw input has at least 10 digits. */
  lemma ValidateMaskedWhatsApp(s: string)
    ensures ValidateWhatsApp(FormatWhatsApp(s)) <==> ValidateWhatsApp(s)
  {
    WhatsAppDigitsAndLength(s);
  }

  /** A masked date field is judged on the first eight digits typed. */
  lemma ValidateMaskedDate(s: string, currentYear: int)
    ensures ValidateDate(FormatDate(s), currentYear)
      <==> |Digits(s)| >= 8 && ValidateDate(Digits(s)[..8], currentYear)
  {
    DateDigitsAndLength(s);
    if |Digits(s)| >= 8 {
      DigitsOfDigits(Digits(s)[..8]);
    }
  }

  // ---------------------------------------------------------------------------
  // The date check, against the calendar triples it admits

  /** `k` written with exactly `w` decimal digits, zero-padded (and reduced
      modulo `10^w`). */
  function Padded(k: nat, w: nat): (r: string)
    ensures |r| == w && AllDigits(r)
  {
    if w == 0 then [] else Padded(k / 10, w - 1) + [DigitChar(k % 10)]
  }

  function Pow10(w: nat): (p: nat)
    ensures p > 0
  {
    if w == 0 then 1 else 10 * Pow10(w - 1)
  }

  /** A number below `10^w` reads back from its `w`-digit rendering. */
  lemma {:induction false} PaddedValue(k: nat, w: nat)
    requires k < Pow10(w)
    ensures DecimalValue(Padded(k, w)) == k
  {
    if w > 0 {
      var p, q, d := Pow10(w - 1), k / 10, k % 10;
      assert k == 10 * q + d && 0 <= d < 10;
      assert k < 10 * p;
      assert q < p;
      PaddedValue(q, w - 1);
      var r := Padded(k, w);
      assert r == Padded(q, w - 1) + [DigitChar(d)];
      assert r[..|r| - 1] == Padded(q, w - 1);
      assert DecimalValue(r) == DecimalValue(Padded(q, w - 1)) * 10 + DigitValue(DigitChar(d));
    }
  }

  /** A `w`-digit string is worth less than `10^w`. */
  lemma {:induction false} DecimalBound(d: string)
    ensures DecimalValue(d) < Pow10(|d|)
  {
    if d != [] {
      DecimalBound(d[..|d| - 1]);
    }
  }

  /** Every digit string is the padded rendering of its own value. */
  lemma {:induction false} PaddedOfValue(d: string)
    requires AllDigits(d)
    ensures Padded(DecimalValue(d), |d|) == d
  {
    if d != [] {
      var init := d[..|d| - 1];
      var v := DecimalValue(d);
      PaddedOfValue(init);
      assert v / 10 == DecimalValue(init);
      assert DigitChar(v % 10) == d[|d| - 1];
      assert d == init + [d[|d| - 1]];
    }
  }

  /** The eight digits `DDMMYYYY` of a calendar triple. */
  function DateDigits(day: nat, month: nat, year: nat): (r: string)
    ensures |r| == 8
  {
    Padded(day, 2) + Padded(month, 2) + Padded(year, 4)
  }

  /** The dates the check is meant to admit: some day 1..31, month 1..12 and
      four-digit year from 1900 to the current year, whatever the month's length. */
  predicate AdmissibleDate(date: string, currentYear: int) {
    exists day: nat, month: nat, year: nat ::
      1 <= day <= 31 && 1 <= month <= 12 && 1900 <= year <= currentYear && year < 10000
      && Digits(date) == DateDigits(day, month, year)
  }

  /** Every date `validateDate` accepts is admissible. */
  lemma ValidDateIsAdmissible(date: string, currentYear: int)
    requires ValidateDate(date, currentYear)
    ensures AdmissibleDate(date, currentYear)
  {
    var n := Digits(date);
    var day, month, year := DecimalValue(n[0..2]), DecimalValue(n[2..4]), DecimalValue(n[4..8]);
    PaddedOfValue(n[0..2]);
    PaddedOfValue(n[2..4]);
    PaddedOfValue(n[4..8]);
    DecimalBound(n[4..8]);
    assert Pow10(4) == 10000;
    assert n == n[0..2] + n[2..4] + n[4..8];
    assert n == DateDigits(day, month, year);
  }

  /** Every admissible date is accepted by `validateDate`. */
  lemma AdmissibleDateIsValid(date: string, currentYear: int)
    requires AdmissibleDate(date, currentYear)
    ensures ValidateDate(date, currentYear)
  {
    var n := Digits(date);
    var day: nat, month: nat, year: nat :|
      1 <= day <= 31 && 1 <= month <= 12 && 1900 <= year <= currentYear && year < 10000
      && n == DateDigits(day, month, year);
    assert n[0..2] == Padded(day, 2);
    assert n[2..4] == Padded(month, 2);
    assert n[4..8] == Padded(year, 4);
    assert Pow10(2) == 100 && Pow10(4) == 10000;
    PaddedValue(day, 2);
    PaddedValue(month, 2);
    PaddedValue(year, 4);
  }

  /** `validateDate` accepts exactly the admissible dates. */
  lemma ValidateDateMeaning(date: string, currentYear: int)
    ensures ValidateDate(date, currentYear) <==> AdmissibleDate(date, currentYear)
  {
    if ValidateDate(date, currentYear) {
      ValidDateIsAdmissible(date, currentYear);
    }
    if AdmissibleDate(date, currentYear) {
      AdmissibleDateIsValid(date, currentYear);
    }
  }

  /** There is no days-in-month check: 31 February 2020 (typed `31/02/2020`,
      whose digits are these) is accepted. */
  lemma FebruaryThirtyFirstAccepted()
    ensures ValidateDate("31022020", 2024)
  {
    var n := "31022020";
    FebruaryDigits();
    FebruaryPieces();
    FebruaryValues();
  }

  lemma FebruaryDigits()
    ensures Digits("31022020") == "31022020"
  {
    DigitsOfDigits("31022020");
  }

  lemma FebruaryPieces()
    ensures "31022020"[0..2] == "31" && "31022020"[2..4] == "02" && "31022020"[4..8] == "2020"
  {
  }

  lemma FebruaryValues()
    ensures DecimalValue("31") == 31 && DecimalValue("02") == 2 && DecimalValue("2020") == 2020
  {
    assert "31"[..1] == "3" && "02"[..1] == "0";
    assert "2020"[..3] == "202" && "202"[..2] == "20" && "20"[..1] == "2";
  }

  // ---------------------------------------------------------------------------
  // The email check, as a scan of the string

  /** The scan the regular expression amounts to: no white space, exactly one
      `@`, something before it, and a dot after it that is neither the first
      character after the `@` nor the last character. */
  predicate EmailScan(email: string) {
    (forall i :: 0 <= i < |email| ==> !IsWhitespace(email[i]))
    && Occurrences(email, '@') == 1
    && exists at: nat, dot: nat | at < dot < |email| :: EmailSplit(email, at, dot)
  }

  lemma MatchedEmailPassesScan(email: string)
    requires ValidateEmail(email)
    ensures EmailScan(email)
  {
    var at: nat, dot: nat :| at < dot < |email| && EmailSplit(email, at, dot)
      && Plain(email[..at]) && Plain(email[at + 1..dot]) && Plain(email[dot + 1..]);
    forall i | 0 <= i < |email| && i != at ensures PlainChar(email[i]) {
      if i < at {
        assert email[..at][i] == email[i];
      } else if at < i < dot {
        assert email[at + 1..dot][i - at - 1] == email[i];
      } else if dot < i {
        assert email[dot + 1..][i - dot - 1] == email[i];
      }
    }
    OnlyOneAt(email, at);
  }

  lemma ScannedEmailMatches(email: string)
    requires EmailScan(email)
    ensures ValidateEmail(email)
  {
    var at: nat, dot: nat :| at < dot < |email| && EmailSplit(email, at, dot);
    forall i | 0 <= i < |email| && i != at ensures email[i] != '@' {
      if email[i] == '@' {
        TwoAts(email, at, i);
      }
    }
    assert Plain(email[..at]);
    assert Plain(email[at + 1..dot]);
    assert Plain(email[dot + 1..]);
  }

  /** The regular expression accepts exactly the strings passing the scan. */
  lemma ValidateEmailMeaning(email: string)
    ensures ValidateEmail(email) <==> EmailScan(email)
  {
    if ValidateEmail(email) {
      MatchedEmailPassesScan(email);
    }
    if EmailScan(email) {
      ScannedEmailMatches(email);
    }
  }

  /** A string whose only `@` is at `at` has one occurrence of `@`. */
  lemma {:induction false} OnlyOneAt(s: string, at: nat)
    requires at < |s| && s[at] == '@'
    requires forall i :: 0 <= i < |s| && i != at ==> s[i] != '@'
    ensures Occurrences(s, '@') == 1
  {
    if at == 0 {
      NoOccurrences(s[1..], '@');
    } else {
      OnlyOneAt(s[1..], at - 1);
    }
  }

  lemma {:induction false} NoOccurrences(s: string, c: char)
    requires forall i :: 0 <= i < |s| ==> s[i] != c
    ensures Occurrences(s, c) == 0
  {
    if s != [] {
      NoOccurrences(s[1..], c);
    }
  }

  /** Two `@` at different positions make at least two occurrences. */
  lemma {:induction false} TwoAts(s: string, i: nat, j: nat)
    requires i < |s| && j < |s| && i != j && s[i] == '@' && s[j] == '@'
    ensures Occurrences(s, '@') >= 2
  {
    if i == 0 || j == 0 {
      var k := if i == 0 then j else i;
      OccurrencesPositive(s[1..], '@');
      assert s[1..][k - 1] == '@';
    } else {
      TwoAts(s[1..], i - 1, j - 1);
    }
  }

  // ---------------------------------------------------------------------------
  // The name check

  /** The name passes exactly when its trimmed form contains a space character;
      tabs and other white space between words do not count. */
  lemma ValidateFullNameMeaning(name: string)
    ensures ValidateFullName(name) <==> ' ' in Trim(name)
  {
    OccurrencesPositive(Trim(name), ' ');
  }

  /** A passing name has a non-empty first part and a non-empty last part
      around an interior space. */
  lemma ValidFullNameHasTwoParts(name: string)
    requires ValidateFullName(name)
    ensures exists i :: 0 < i < |Trim(name)| - 1 && Trim(name)[i] == ' '
  {
    ValidateFullNameMeaning(name);
    var t := Trim(name);
    var i :| 0 <= i < |t| && t[i] == ' ';
    assert TrimEnd(TrimStart(name)) == t;
    assert !IsWhitespace(t[0]) && !IsWhitespace(t[|t| - 1]) by {
      TrimKeepsEnds(name);
    }
    assert 0 < i < |t| - 1;
  }

  /** The trimmed string begins and ends with a character that is not white space. */
  lemma TrimKeepsEnds(s: string)
    requires Trim(s) != []
    ensures !IsWhitespace(Trim(s)[0]) && !IsWhitespace(Trim(s)[|Trim(s)| - 1])
  {
    var a := TrimStart(s);
    var t := TrimEnd(a);
    assert t == a[..|t|];
    assert t[0] == a[0];
  }

  // ---------------------------------------------------------------------------
  // The salary check

  /** The salary passes exactly when some character of it is a digit other than '0'. */
  lemma ValidateSalaryMeaning(salary: string)
    ensures ValidateSalary(salary) <==> HasNonzeroDigit(salary)
  {
    var n := Digits(salary);
    DecimalPositiveIffNonzeroDigit(n);
    NonzeroDigitOfDigits(salary);
  }

  predicate HasNonzeroDigit(s: string) {
    exists i :: 0 <= i < |s| && IsDigit(s[i]) && s[i] != '0'
  }

  lemma {:induction false} NonzeroDigitOfDigits(s: string)
    ensures HasNonzeroDigit(Digits(s)) <==> HasNonzeroDigit(s)
  {
    if s != [] {
      NonzeroDigitOfDigits(s[1..]);
      var head := if IsDigit(s[0]) then [s[0]] else [];
      var rest := Digits(s[1..]);
      assert Digits(s) == head + rest;
      if HasNonzeroDigit(s) {
        var i :| 0 <= i < |s| && IsDigit(s[i]) && s[i] != '0';
        if i > 0 {
          assert s[1..][i - 1] == s[i];
          var j :| 0 <= j < |rest| && IsDigit(rest[j]) && rest[j] != '0';
          assert Digits(s)[|head| + j] == rest[j];
        } else {
          assert Digits(s)[0] == s[0];
        }
      }
      if HasNonzeroDigit(Digits(s)) {
        var i :| 0 <= i < |Digits(s)| && IsDigit(Digits(s)[i]) && Digits(s)[i] != '0';
        if i >= |head| {
          assert rest[i - |head|] == Digits(s)[i];
          var j :| 0 <= j < |s[1..]| && IsDigit(s[1..][j]) && s[1..][j] != '0';
          assert s[j + 1] == s[1..][j];
        } else {
          assert s[0] == Digits(s)[i];
        }
      }
    }
  }
}

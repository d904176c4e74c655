/**
 * Field validators (util/ValidationUtils.kt): blankness, the phone-number
 * shape, and calendar dates written in the ISO 8601 extended calendar-date
 * form YYYY-MM-DD (ISO 8601:2004, section 4.1.2.2) under the Gregorian
 * leap-year rule. `isValidEmail` delegates to Android's EMAIL_ADDRESS
 * pattern, which is not part of this model: wherever it is needed it is a
 * parameter `isValidEmail: string -> bool`.
 */
module ValidationUtils {
  import opened Text
  import opened Numerals

  /** `isFieldBlank`: the value trims (Kotlin rule) to nothing. */
  predicate IsFieldBlank(value: string)
    ensures IsFieldBlank(value) <==> Trim(KotlinTrim, value) == []
  {
    IsBlank(value)
  }

  // ---------------------------------------------------------------- phone

  /**
   * `isValidPhone`: the whole string matches `^\+?[1-9]\d{1,14}$`, that is an
   * optional '+', a digit 1-9, then 1 to 14 more digits, with `\d` read as
   * '0'..'9'.
   */
  predicate IsValidPhone(phone: string) {
    var digits := if phone != [] && phone[0] == '+' then phone[1..] else phone;
    2 <= |digits| <= 15 && '1' <= digits[0] <= '9' && AllDigits(digits)
  }

  /**
   * The accepted phones are exactly the numbers from 10 up to 10^15 - 1
   * written in decimal, with or without a leading '+': 2 to 15 digits.
   */
  lemma PhoneIsNumber(phone: string)
    ensures IsValidPhone(phone) <==>
      exists n: nat :: 10 <= n < Pow10(15) && (phone == Decimal(n) || phone == "+" + Decimal(n))
  {
    if IsValidPhone(phone) {
      ValidPhoneIsNumber(phone);
    }
    forall n: nat | 10 <= n < Pow10(15) && (phone == Decimal(n) || phone == "+" + Decimal(n))
      ensures IsValidPhone(phone)
    {
      NumberIsValidPhone(n, phone);
    }
  }

  /** An accepted phone is the decimal rendering of the number its digits spell, with or without '+'. */
  lemma ValidPhoneIsNumber(phone: string)
    requires IsValidPhone(phone)
    ensures var digits := if phone != [] && phone[0] == '+' then phone[1..] else phone;
      var n := ValueOf(digits);
      10 <= n < Pow10(15) && (phone == Decimal(n) || phone == "+" + Decimal(n))
  {
    var digits := if phone != [] && phone[0] == '+' then phone[1..] else phone;
    var n := ValueOf(digits);
    DecimalOfValue(digits);
    DigitCountRange(n, 2, 15);
    if phone != [] && phone[0] == '+' {
      assert phone == "+" + digits;
    }
  }

  /** Every number of 2 to 15 digits, with or without '+', is accepted. */
  lemma NumberIsValidPhone(n: nat, phone: string)
    requires 10 <= n < Pow10(15) && (phone == Decimal(n) || phone == "+" + Decimal(n))
    ensures IsValidPhone(phone)
  {
    DigitCountRange(n, 2, 15);
    DigitStringIsValidPhone(Decimal(n));
  }

  /** 2 to 15 digits without a leading zero are accepted, with or without '+'. */
  lemma DigitStringIsValidPhone(s: string)
    requires AllDigits(s) && 2 <= |s| <= 15 && s[0] != '0'
    ensures IsValidPhone(s) && IsValidPhone("+" + s)
  {
    assert ("+" + s)[1..] == s;
  }

  /** A valid phone is never blank, so the phone-empty check only catches blank input. */
  lemma ValidPhoneNotBlank(phone: string)
    requires IsValidPhone(phone)
    ensures !IsFieldBlank(phone)
  {
    var digits := if phone != [] && phone[0] == '+' then phone[1..] else phone;
    assert digits[0] == phone[|phone| - |digits|];
  }

  /** The phones the app's tests use. */
  lemma PhoneExamples()
    ensures IsValidPhone("+123456789012345")  // 15 digits: the longest accepted
    ensures IsValidPhone("1234567890") && IsValidPhone("+1234567890")
    ensures !IsValidPhone("abc123")
    ensures !IsValidPhone("+1234567890123456")  // 16 digits
    ensures !IsValidPhone("0987654321")  // leading zero
    ensures !IsValidPhone("1") && !IsValidPhone("+") && !IsValidPhone("")
  {
    assert "abc123"[0] == 'a';
  }

  // ----------------------------------------------------------------- date

  /** `(0[1-9]|1[0-2])`. */
  predicate MonthField(a: char, b: char) {
    (a == '0' && '1' <= b <= '9') || (a == '1' && '0' <= b <= '2')
  }

  /** `(0[1-9]|[12]\d|3[01])`. */
  predicate DayField(a: char, b: char) {
    (a == '0' && '1' <= b <= '9') || ('1' <= a <= '2' && IsDigit(b)) || (a == '3' && '0' <= b <= '1')
  }

  /** The whole string matches `^\d{4}-(0[1-9]|1[0-2])-(0[1-9]|[12]\d|3[01])$`. */
  predicate MatchesDatePattern(t: string) {
    && |t| == 10
    && AllDigits(t[..4]) && t[4] == '-'
    && MonthField(t[5], t[6]) && t[7] == '-'
    && DayField(t[8], t[9])
  }

  /** The year, month and day fields of a string that matches the date pattern. */
  function YearField(t: string): nat
    requires MatchesDatePattern(t)
  {
    ValueOf(t[..4])
  }

  function MonthNumber(t: string): nat
    requires MatchesDatePattern(t)
  {
    assert AllDigits(t[5..7]);
    ValueOf(t[5..7])
  }

  function DayNumber(t: string): nat
    requires MatchesDatePattern(t)
  {
    assert AllDigits(t[8..]);
    ValueOf(t[8..])
  }

  /** The month range check and the `when (month)` of `isValidDate`. */
  predicate DayFitsMonth(year: nat, month: nat, day: nat) {
    if month < 1 || month > 12 then false
    else if month == 2 then
      var isLeapYear := (year % 4 == 0 && year % 100 != 0) || year % 400 == 0;
      1 <= day <= if isLeapYear then 29 else 28
    else if month == 4 || month == 6 || month == 9 || month == 11 then 1 <= day <= 30
    else 1 <= day <= 31
  }

  /**
   * `isValidDate`: reject the empty string; trim; check the pattern; split at
   * '-' into year, month and day; check the day against the month, with
   * February's length decided by the Gregorian leap-year rule. No comparison
   * with the current date is made.
   */
  predicate IsValidDate(date: string) {
    if date == [] then false
    else
      var t := Trim(KotlinTrim, date);
      if !MatchesDatePattern(t) then false
      else DayFitsMonth(YearField(t), MonthNumber(t), DayNumber(t))
  }

  // Reference calendar: ISO 8601 calendar dates with four-digit years.

  predicate IsLeapYear(y: nat) {
    (y % 4 == 0 && y % 100 != 0) || y % 400 == 0
  }

  function DaysInMonth(y: nat, m: nat): nat
    requires 1 <= m <= 12
  {
    [31, if IsLeapYear(y) then 29 else 28, 31, 30, 31, 30, 31, 31, 30, 31, 30, 31][m - 1]
  }

  predicate IsCalendarDate(y: nat, m: nat, d: nat) {
    y <= 9999 && 1 <= m <= 12 && 1 <= d <= DaysInMonth(y, m)
  }

  /** `n` written with exactly `width` digits, zero-padded on the left. */
  function Pad(n: nat, width: nat): (s: string)
    ensures |s| == width && AllDigits(s)
  {
    if width == 0 then [] else Pad(n / 10, width - 1) + [DigitChar(n % 10)]
  }

  lemma {:induction false} ValueOfPad(n: nat, width: nat)
    requires n < Pow10(width)
    ensures ValueOf(Pad(n, width)) == n
  {
    if width > 0 {
      ValueOfPad(n / 10, width - 1);
      assert Pad(n, width)[..width - 1] == Pad(n / 10, width - 1);
    }
  }

  lemma {:induction false} PadOfValue(s: string)
    requires AllDigits(s)
    ensures Pad(ValueOf(s), |s|) == s
  {
    if s != [] {
      var p := s[..|s| - 1];
      var q, r := ValueOf(p), DigitValue(s[|s| - 1]);
      PadOfValue(p);
      DivMod10(q, r);
      calc {
        Pad(ValueOf(s), |s|);
        Pad(q * 10 + r, |s|);
        Pad(q, |p|) + [DigitChar(r)];
        p + [s[|s| - 1]];
        s;
      }
    }
  }

  lemma DivMod10(q: nat, r: nat)
    requires r < 10
    ensures (q * 10 + r) / 10 == q && (q * 10 + r) % 10 == r
  {
  }

  /** Two-digit padding spelled out. */
  lemma Pad2(n: nat)
    requires n < 100
    ensures Pad(n, 2) == [DigitChar(n / 10), DigitChar(n % 10)]
  {
    assert (n / 10) % 10 == n / 10;
    assert Pad(n / 10, 1) == [DigitChar((n / 10) % 10)];
  }

  /** The YYYY-MM-DD rendering of a year, month and day. */
  function FormatDate(y: nat, m: nat, d: nat): (s: string)
    requires y <= 9999 && m <= 99 && d <= 99
    ensures |s| == 10
  {
    Pad(y, 4) + "-" + Pad(m, 2) + "-" + Pad(d, 2)
  }

  lemma FormatDateParts(y: nat, m: nat, d: nat)
    requires y <= 9999 && m <= 99 && d <= 99
    ensures var s := FormatDate(y, m, d);
      && s[..4] == Pad(y, 4) && s[4] == '-' && s[5..7] == Pad(m, 2) && s[7] == '-' && s[8..] == Pad(d, 2)
      && s[5] == DigitChar(m / 10) && s[6] == DigitChar(m % 10)
      && s[8] == DigitChar(d / 10) && s[9] == DigitChar(d % 10)
  {
    var s := FormatDate(y, m, d);
    Pad2(m);
    Pad2(d);
    var a, b, c := Pad(y, 4), Pad(m, 2), Pad(d, 2);
    assert s == a + ("-" + (b + ("-" + c)));
    assert s[..4] == a;
    assert s[5..7] == b;
    assert s[8..] == c;
  }

  /** A rendered date has nothing to trim. */
  lemma FormatDateTrimmed(y: nat, m: nat, d: nat)
    requires y <= 9999 && m <= 99 && d <= 99
    ensures Trim(KotlinTrim, FormatDate(y, m, d)) == FormatDate(y, m, d)
  {
    var s := FormatDate(y, m, d);
    FormatDateParts(y, m, d);
    assert s[0] == Pad(y, 4)[0] && IsDigit(s[0]);
    TrimUnchanged(KotlinTrim, s);
  }

  /**
   * A four-digit year, two-digit month and two-digit day, written as
   * YYYY-MM-DD, are accepted exactly when they name a day of the Gregorian
   * calendar.
   */
  lemma FormattedDateValid(y: nat, m: nat, d: nat)
    requires y <= 9999 && m <= 99 && d <= 99
    ensures IsValidDate(FormatDate(y, m, d)) <==> IsCalendarDate(y, m, d)
  {
    var s := FormatDate(y, m, d);
    FormatDateTrimmed(y, m, d);
    FormattedDatePattern(y, m, d);
    WhenAgreesWithCalendar(y, m, d);
    ValidTrimmedDate(s);
  }

  /** On a string with nothing to trim, the verdict is the pattern plus the day check. */
  lemma ValidTrimmedDate(t: string)
    requires |t| == 10 && Trim(KotlinTrim, t) == t
    ensures IsValidDate(t) <==> MatchesDatePattern(t) && DayFitsMonth(YearField(t), MonthNumber(t), DayNumber(t))
  {
  }

  /** A rendered date matches the pattern exactly when month and day are in range, and splits back into its parts. */
  lemma FormattedDatePattern(y: nat, m: nat, d: nat)
    requires y <= 9999 && m <= 99 && d <= 99
    ensures var s := FormatDate(y, m, d);
      && (MatchesDatePattern(s) <==> 1 <= m <= 12 && 1 <= d <= 31)
      && (MatchesDatePattern(s) ==> YearField(s) == y && MonthNumber(s) == m && DayNumber(s) == d)
  {
    var s := FormatDate(y, m, d);
    FormatDateParts(y, m, d);
    ValueOfPad(y, 4);
    ValueOfPad(m, 2);
    ValueOfPad(d, 2);
    MonthFieldDigits(m);
    DayFieldDigits(d);
  }

  /** The month alternative of the pattern accepts the two digits of `m` exactly when m is 1 to 12. */
  lemma MonthFieldDigits(m: nat)
    requires m <= 99
    ensures MonthField(DigitChar(m / 10), DigitChar(m % 10)) <==> 1 <= m <= 12
  {
  }

  /** The day alternative of the pattern accepts the two digits of `d` exactly when d is 1 to 31. */
  lemma DayFieldDigits(d: nat)
    requires d <= 99
    ensures DayField(DigitChar(d / 10), DigitChar(d % 10)) <==> 1 <= d <= 31
  {
  }

  /** The source's month-by-month day check is the Gregorian month length. */
  lemma WhenAgreesWithCalendar(y: nat, m: nat, d: nat)
    requires y <= 9999
    ensures DayFitsMonth(y, m, d) <==> IsCalendarDate(y, m, d)
  {
  }

  /**
   * Every accepted string is, once trimmed, the rendering of a day of the
   * Gregorian calendar; together with FormattedDateValid this characterises
   * IsValidDate completely.
   */
  lemma ValidDateIsCalendarDate(date: string)
    requires IsValidDate(date)
    ensures exists y: nat, m: nat, d: nat ::
      IsCalendarDate(y, m, d) && Trim(KotlinTrim, date) == FormatDate(y, m, d)
  {
    var t := Trim(KotlinTrim, date);
    var y, m, d := YearField(t), MonthNumber(t), DayNumber(t);
    WhenAgreesWithCalendar(y, m, d);
    PatternIsFormatted(t);
  }

  /** A string matching the pattern is the rendering of its own fields. */
  lemma PatternIsFormatted(t: string)
    requires MatchesDatePattern(t)
    ensures YearField(t) <= 9999 && MonthNumber(t) <= 99 && DayNumber(t) <= 99
    ensures t == FormatDate(YearField(t), MonthNumber(t), DayNumber(t))
  {
    var y, m, d := YearField(t), MonthNumber(t), DayNumber(t);
    PadOfValue(t[..4]);
    PadOfValue(t[5..7]);
    PadOfValue(t[8..]);
    DateSplit(t);
  }

  /** A ten-character string with dashes at 4 and 7 is its three fields joined by dashes. */
  lemma DateSplit(t: string)
    requires |t| == 10 && t[4] == '-' && t[7] == '-'
    ensures t == t[..4] + "-" + t[5..7] + "-" + t[8..]
  {
  }

  /** Surrounding whitespace never changes the verdict on a non-empty string. */
  lemma ValidDateIgnoresSurroundingWhitespace(date: string)
    requires date != []
    ensures IsValidDate(date) <==> IsValidDate(Trim(KotlinTrim, date))
  {
    var t := Trim(KotlinTrim, date);
    if t != [] {
      TrimUnchanged(KotlinTrim, t);
    }
  }

  /** February 29th is accepted exactly in leap years. */
  lemma LeapDay(y: nat)
    requires y <= 9999
    ensures IsValidDate(FormatDate(y, 2, 29)) <==> IsLeapYear(y)
  {
    FormattedDateValid(y, 2, 29);
  }

  /** April, June, September and November have 30 days; the other long months 31. */
  lemma MonthLengths(y: nat, m: nat)
    requires y <= 9999 && 1 <= m <= 12 && m != 2
    ensures IsValidDate(FormatDate(y, m, 30))
    ensures IsValidDate(FormatDate(y, m, 31)) <==> !(m == 4 || m == 6 || m == 9 || m == 11)
  {
    FormattedDateValid(y, m, 30);
    FormattedDateValid(y, m, 31);
    LongAndShortMonths(y, m);
  }

  /** The table's entry for every month but February. */
  lemma LongAndShortMonths(y: nat, m: nat)
    requires 1 <= m <= 12 && m != 2
    ensures DaysInMonth(y, m) == if m == 4 || m == 6 || m == 9 || m == 11 then 30 else 31
  {
    if m == 1 {
    } else if m == 3 {
    } else if m == 4 {
    } else if m == 5 {
    } else if m == 6 {
    } else if m == 7 {
    } else if m == 8 {
    } else if m == 9 {
    } else if m == 10 {
    } else if m == 11 {
    } else {
      assert m == 12;
    }
  }

  /** The leap day of 2000 (divisible by 400) is accepted. */
  lemma LeapDay2000Accepted()
    ensures IsValidDate("2000-02-29")
  {
    assert IsCalendarDate(2000, 2, 29);
    Formats2000_02_29();
    DateExample(2000, 2, 29, "2000-02-29");
  }

  /** 2023 is not a leap year, so its February 29th is rejected. */
  lemma LeapDay2023Rejected()
    ensures !IsValidDate("2023-02-29")
  {
    assert !IsCalendarDate(2023, 2, 29);
    Formats2023_02_29();
    DateExample(2023, 2, 29, "2023-02-29");
  }

  /** No comparison with today's date is made: a date in the year 3000 is accepted. */
  lemma FutureDateAccepted()
    ensures IsValidDate("3000-01-01")
  {
    assert IsCalendarDate(3000, 1, 1);
    Formats3000_01_01();
    DateExample(3000, 1, 1, "3000-01-01");
  }

  /** A plain date is accepted. */
  lemma PlainDateAccepted()
    ensures IsValidDate("1990-01-01")
  {
    assert IsCalendarDate(1990, 1, 1);
    Formats1990_01_01();
    DateExample(1990, 1, 1, "1990-01-01");
  }

  /** Surrounding blanks are trimmed before the check. */
  lemma PaddedDateAccepted()
    ensures IsValidDate(" 1990-01-01 ")
  {
    PlainDateAccepted();
    PaddedDateTrims();
    ValidDateIgnoresSurroundingWhitespace(" 1990-01-01 ");
  }

  lemma PaddedDateTrims()
    ensures Trim(KotlinTrim, " 1990-01-01 ") == "1990-01-01"
  {
    var padded := " 1990-01-01 ";
    assert SkipForward(KotlinTrim, padded, 0) == 1;
    assert SkipBackward(KotlinTrim, padded, 12) == 11;
  }

  /** Month 13 is rejected. */
  lemma MonthThirteenRejected()
    ensures !IsValidDate("1990-13-01")
  {
    assert !IsCalendarDate(1990, 13, 1);
    Formats1990_13_01();
    DateExample(1990, 13, 1, "1990-13-01");
  }

  /** Day 32 is rejected. */
  lemma DayThirtyTwoRejected()
    ensures !IsValidDate("1990-01-32")
  {
    assert !IsCalendarDate(1990, 1, 32);
    Formats1990_01_32();
    DateExample(1990, 1, 32, "1990-01-32");
  }

  // The literal dates of the examples, each as its calendar triple formatted.
  lemma Formats2000_02_29()
    ensures FormatDate(2000, 2, 29) == "2000-02-29"
  {
  }
  lemma Formats2023_02_29()
    ensures FormatDate(2023, 2, 29) == "2023-02-29"
  {
  }
  lemma Formats3000_01_01()
    ensures FormatDate(3000, 1, 1) == "3000-01-01"
  {
  }
  lemma Formats1990_01_01()
    ensures FormatDate(1990, 1, 1) == "1990-01-01"
  {
  }
  lemma Formats1990_13_01()
    ensures FormatDate(1990, 13, 1) == "1990-13-01"
  {
  }
  lemma Formats1990_01_32()
    ensures FormatDate(1990, 1, 32) == "1990-01-32"
  {
  }

  /** One literal date, decided through its calendar reading. */
  lemma DateExample(y: nat, m: nat, d: nat, s: string)
    requires y <= 9999 && m <= 99 && d <= 99 && s == FormatDate(y, m, d)
    ensures IsValidDate(s) <==> IsCalendarDate(y, m, d)
  {
    FormattedDateValid(y, m, d);
  }

  /** Strings the app's tests reject for their shape. */
  lemma RejectedShapeExamples()
    ensures !IsValidDate("")
    ensures !IsValidDate("1990/01/01") && !IsValidDate("01-01-1990")
    ensures !IsValidDate("invalid-date")
  {
    TrimUnchanged(KotlinTrim, "1990/01/01");
    TrimUnchanged(KotlinTrim, "01-01-1990");
    TrimUnchanged(KotlinTrim, "invalid-date");
  }
}

/**
 * Decimal digits, taken to be '0'..'9' (the model's reading of the `\d` in
 * the phone and date patterns), the value of a digit string (`String.toInt`
 * on digits) and the canonical decimal rendering of a natural number.
 */
module Numerals {

  predicate IsDigit(c: char) {
    '0' <= c <= '9'
  }

  predicate AllDigits(s: string) {
    forall k :: 0 <= k < |s| ==> IsDigit(s[k])
  }

  function DigitValue(c: char): (d: nat)
    requires IsDigit(c)
    ensures d < 10
  {
    c as int - '0' as int
  }

  function DigitChar(d: nat): (c: char)
    requires d < 10
    ensures IsDigit(c) && DigitValue(c) == d
  {
    ('0' as int + d) as char
  }

  function Pow10(k: nat): (p: nat)
    ensures p >= 1
  {
    if k == 0 then 1 else 10 * Pow10(k - 1)
  }

  lemma {:induction false} Pow10Monotone(j: nat, k: nat)
    requires j <= k
    ensures Pow10(j) <= Pow10(k)
  {
    if j < k {
      Pow10Monotone(j, k - 1);
    }
  }

  /** The value of a string of digits, most significant first. */
  function ValueOf(s: string): (n: nat)
    requires AllDigits(s)
    ensures n < Pow10(|s|)
  {
    if s == [] then 0 else ValueOf(s[..|s| - 1]) * 10 + DigitValue(s[|s| - 1])
  }

  /** The shortest decimal rendering of `n`, without sign or leading zeros. */
  function Decimal(n: nat): (s: string)
    ensures |s| >= 1 && AllDigits(s)
    ensures n >= 10 ==> s[0] != '0'
    ensures 1 <= n < 10 ==> s[0] != '0'
  {
    if n < 10 then [DigitChar(n)] else Decimal(n / 10) + [DigitChar(n % 10)]
  }

  /** Reading back a rendered number gives the number. */
  lemma {:induction false} ValueOfDecimal(n: nat)
    ensures ValueOf(Decimal(n)) == n
  {
    var s := Decimal(n);
    if n >= 10 {
      ValueOfDecimal(n / 10);
      assert s[..|s| - 1] == Decimal(n / 10);
    }
  }

  /** Rendering the value of a digit string without leading zeros gives the string back. */
  lemma {:induction false} DecimalOfValue(s: string)
    requires AllDigits(s) && |s| >= 1 && (s[0] != '0' || |s| == 1)
    ensures Decimal(ValueOf(s)) == s
  {
    if |s| > 1 {
      var p := s[..|s| - 1];
      DecimalOfValue(p);
      LeadingDigitBound(p);
      var n := ValueOf(s);
      assert n == ValueOf(p) * 10 + DigitValue(s[|s| - 1]);
      assert n / 10 == ValueOf(p) && n % 10 == DigitValue(s[|s| - 1]);
      assert s == p + [s[|s| - 1]];
    }
  }

  /** A digit string that does not start with '0' has at least its leading power of ten as value. */
  lemma {:induction false} LeadingDigitBound(s: string)
    requires AllDigits(s) && |s| >= 1 && s[0] != '0'
    ensures Pow10(|s| - 1) <= ValueOf(s)
  {
    if |s| > 1 {
      LeadingDigitBound(s[..|s| - 1]);
    }
  }

  /** A positive number has exactly as many digits as its order of magnitude says. */
  lemma DecimalLength(n: nat)
    requires n >= 1
    ensures Pow10(|Decimal(n)| - 1) <= n < Pow10(|Decimal(n)|)
  {
    ValueOfDecimal(n);
    LeadingDigitBound(Decimal(n));
  }

  /** `n` has between `lo` and `hi` digits exactly when it lies in [10^(lo-1), 10^hi). */
  lemma DigitCountRange(n: nat, lo: nat, hi: nat)
    requires 1 <= lo <= hi && n >= 1
    ensures lo <= |Decimal(n)| <= hi <==> Pow10(lo - 1) <= n < Pow10(hi)
  {
    var k := |Decimal(n)|;
    DecimalLength(n);
    if lo <= k <= hi {
      Pow10Monotone(lo - 1, k - 1);
      Pow10Monotone(k, hi);
    } else if k < lo {
      Pow10Monotone(k, lo - 1);
    } else {
      Pow10Monotone(hi, k - 1);
    }
  }
}

/** Decimal text for integer quantities: Python's `str(n)` on an int and the subset of `int(s)`
    that the quantity column and typed-in numbers use (an optional sign followed by ASCII digits). */
module Decimal {
  import opened Keys

  predicate IsDigit(c: char)
  {
    '0' <= c <= '9'
  }

  predicate AllDigits(s: string)
  {
    forall i :: 0 <= i < |s| ==> IsDigit(s[i])
  }

  function DigitValue(c: char): (d: nat)
    requires IsDigit(c)
    ensures d < 10
  {
    c as int - '0' as int
  }

  function DigitChar(d: nat): (c: char)
    requires d < 10
    ensures IsDigit(c) && DigitValue(c) == d
  {
    ('0' as int + d) as char
  }

  /** The digits of n, most significant first, without leading zeros ("0" for zero). */
  function DigitsOf(n: nat): (s: string)
    ensures |s| > 0 && AllDigits(s)
    ensures n < 10 ==> |s| == 1
    ensures n >= 10 ==> |s| > 1 && s[0] != '0'
    decreases n
  {
    if n < 10 then [DigitChar(n)] else DigitsOf(n / 10) + [DigitChar(n % 10)]
  }

  /** The value of a digit string, read most significant digit first. */
  function DigitsValue(s: string): nat
    requires AllDigits(s)
    decreases |s|
  {
    if |s| == 0 then 0 else DigitsValue(s[..|s| - 1]) * 10 + DigitValue(s[|s| - 1])
  }

  /** `str(n)` for an int n. */
  function DecimalString(n: int): (s: string)
    ensures |s| > 0
    ensures s[0] == '-' <==> n < 0
  {
    if n < 0 then "-" + DigitsOf(-n) else DigitsOf(n)
  }

  /** `int(s)`: None where Python raises ValueError. */
  function ParseDecimal(s: string): (r: Option<int>)
    ensures r.Some? ==> |s| > 0
    ensures AllDigits(s) && |s| > 0 ==> r.Some? && r.value >= 0
  {
    if |s| > 1 && s[0] == '-' && AllDigits(s[1..]) then Some(0 - DigitsValue(s[1..]) as int)
    else if |s| > 1 && s[0] == '+' && AllDigits(s[1..]) then Some(DigitsValue(s[1..]))
    else if |s| > 0 && AllDigits(s) then Some(DigitsValue(s))
    else None
  }

  lemma {:induction false} DigitsRoundTrip(n: nat)
    ensures DigitsValue(DigitsOf(n)) == n
    decreases n
  {
    if n >= 10 {
      var s := DigitsOf(n);
      var head := DigitsOf(n / 10);
      assert s[..|s| - 1] == head;
      DigitsRoundTrip(n / 10);
    }
  }

  /** The text of a natural number is read as that number. */
  lemma ParseDigits(n: nat)
    ensures ParseDecimal(DigitsOf(n)) == Some(n)
  {
    var s := DigitsOf(n);
    assert IsDigit(s[0]);
    DigitsRoundTrip(n);
  }

  /** A minus sign before the text of a positive number is read as its negation. */
  lemma ParseNegative(n: nat)
    requires n > 0
    ensures ParseDecimal("-" + DigitsOf(n)) == Some(0 - n as int)
  {
    var s := "-" + DigitsOf(n);
    assert s[1..] == DigitsOf(n);
    DigitsRoundTrip(n);
  }

  /** Reading back the decimal text of a number yields that number. */
  lemma ParseDecimalString(n: int)
    ensures ParseDecimal(DecimalString(n)) == Some(n)
  {
    if n < 0 {
      ParseNegative(-n);
    } else {
      ParseDigits(n);
    }
  }

  /** Distinct numbers are written as distinct text. */
  lemma DecimalStringInjective(m: int, n: int)
    requires DecimalString(m) == DecimalString(n)
    ensures m == n
  {
    ParseDecimalString(m);
    ParseDecimalString(n);
  }
}

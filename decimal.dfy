// Decimal text of integers, as Kotlin's `toString`, `"%02d"` and
// `String.toLongOrNull` produce and read it (ASCII digits only).
module Decimal {
  import opened Numeric

  datatype Option<T> = None | Some(value: T)

  predicate IsDigit(c: char) {
    '0' <= c <= '9'
  }

  predicate AllDigits(s: string) {
    forall i :: 0 <= i < |s| ==> IsDigit(s[i])
  }

  function DigitChar(d: nat): (c: char)
    requires d < 10
    ensures IsDigit(c)
  {
    ('0' as int + d) as char
  }

  function DigitValue(c: char): (d: nat)
    requires IsDigit(c)
    ensures d < 10 && DigitChar(d) == c
  {
    c as int - '0' as int
  }

  /** The shortest decimal text of `n`: no sign, no leading zero. */
  function NatToString(n: nat): (s: string)
    ensures AllDigits(s) && 1 <= |s|
    ensures |s| == 1 <==> n < 10
    ensures n < 100 ==> |s| <= 2
    ensures |s| > 1 ==> s[0] != '0'
    decreases n
  {
    if n < 10 then [DigitChar(n)] else NatToString(n / 10) + [DigitChar(n % 10)]
  }

  /** The number a string of decimal digits denotes (leading zeros allowed). */
  function ValueOf(s: string): nat
    requires AllDigits(s)
  {
    if s == [] then 0 else ValueOf(s[..|s| - 1]) * 10 + DigitValue(s[|s| - 1])
  }

  lemma {:induction false} ValueOfNatToString(n: nat)
    ensures ValueOf(NatToString(n)) == n
    decreases n
  {
    var s := NatToString(n);
    if n >= 10 {
      ValueOfNatToString(n / 10);
      assert s[..|s| - 1] == NatToString(n / 10);
    }
  }

  /** A leading zero does not change the value of a digit string. */
  lemma {:induction false} ValueOfLeadingZero(s: string)
    requires AllDigits(s)
    ensures AllDigits("0" + s) && ValueOf("0" + s) == ValueOf(s)
    decreases |s|
  {
    var t := "0" + s;
    assert AllDigits(t) by {
      forall i | 0 <= i < |t| ensures IsDigit(t[i]) {
        if i > 0 { assert t[i] == s[i - 1]; }
      }
    }
    if s != [] {
      assert t[..|t| - 1] == "0" + s[..|s| - 1];
      ValueOfLeadingZero(s[..|s| - 1]);
    }
  }

  /** `"%02d"` of a non-negative value: zero-padded to width two, never truncated. */
  function Pad2(n: nat): (s: string)
    ensures AllDigits(s) && 2 <= |s|
    ensures n < 100 ==> |s| == 2
    ensures |s| > 2 ==> s[0] != '0'
    ensures ValueOf(s) == n
  {
    ValueOfNatToString(n);
    if n < 10 then
      ValueOfLeadingZero(NatToString(n));
      "0" + NatToString(n)
    else
      NatToString(n)
  }

  /** Kotlin `Long.toString()`: a minus sign exactly for negative values, then the shortest digits. */
  function LongToString(x: Int64): (s: string)
    ensures 1 <= |s| && (s[0] == '-' <==> x < 0)
    ensures var digits := if x < 0 then s[1..] else s;
      && 1 <= |digits| && AllDigits(digits)
      && (|digits| > 1 ==> digits[0] != '0')
  {
    if x < 0 then "-" + NatToString(-(x as int)) else NatToString(x)
  }

  /**
   * Kotlin `String.toLongOrNull()` in radix 10: an optional `+` or `-`, then at
   * least one digit, and a value within the range of `Long`; anything else is null.
   */
  function ToLongOrNull(s: string): (r: Option<Int64>)
    ensures r.Some? ==> |s| >= 1 && (AllDigits(s) || (AllDigits(s[1..]) && |s| >= 2))
    ensures r.Some? && !IsDigit(s[0]) ==> s[0] == '-' || s[0] == '+'
  {
    if |s| == 0 then None
    else if s[0] == '-' || s[0] == '+' then
      if |s| == 1 || !AllDigits(s[1..]) then None
      else
        var v: int := if s[0] == '-' then 0 - ValueOf(s[1..]) else ValueOf(s[1..]);
        if INT64_MIN <= v <= INT64_MAX then Some(v) else None
    else if AllDigits(s) && ValueOf(s) <= INT64_MAX then Some(ValueOf(s))
    else None
  }

  /** Reading back what `Long.toString()` wrote gives the same `Long`. */
  lemma LongRoundTrip(x: Int64)
    ensures ToLongOrNull(LongToString(x)) == Some(x)
  {
    if x < 0 {
      var digits := NatToString(-(x as int));
      assert ValueOf(digits) == -(x as int) by { ValueOfNatToString(-(x as int)); }
      assert LongToString(x) == "-" + digits;
      MinusDigits(digits);
    } else {
      var digits := NatToString(x);
      assert ValueOf(digits) == x by { ValueOfNatToString(x); }
      assert LongToString(x) == digits;
      ToLongOrNullOfDigits(digits);
    }
  }

  /**
   * What `toLongOrNull` makes of a non-empty digit string `d`, bare or after one
   * `+` or `-`: its value, signed, when that is within the range of `Long`, and
   * null otherwise. With `SignAloneIsNull` and `NonNumericIsNull` this covers
   * every text.
   */
  lemma ToLongOrNullOfDigits(d: string)
    requires 1 <= |d| && AllDigits(d)
    ensures ToLongOrNull(d) == if ValueOf(d) <= INT64_MAX then Some(ValueOf(d)) else None
    ensures ToLongOrNull("+" + d) == if ValueOf(d) <= INT64_MAX then Some(ValueOf(d)) else None
    ensures ToLongOrNull("-" + d) == if ValueOf(d) <= -INT64_MIN then Some(0 - ValueOf(d)) else None
  {
    assert IsDigit(d[0]);
    PlusDigits(d);
    MinusDigits(d);
  }

  lemma PlusDigits(d: string)
    requires 1 <= |d| && AllDigits(d)
    ensures ToLongOrNull("+" + d) == if ValueOf(d) <= INT64_MAX then Some(ValueOf(d)) else None
  {
    var s := "+" + d;
    assert s[0] == '+' && |s| >= 2 && s[1..] == d;
  }

  lemma MinusDigits(d: string)
    requires 1 <= |d| && AllDigits(d)
    ensures ToLongOrNull("-" + d) == if ValueOf(d) <= -INT64_MIN then Some(0 - ValueOf(d)) else None
  {
    var s := "-" + d;
    assert s[0] == '-' && |s| >= 2 && s[1..] == d;
  }

  /** The empty text and a sign with no digits are null. */
  lemma SignAloneIsNull()
    ensures ToLongOrNull("") == None && ToLongOrNull("+") == None && ToLongOrNull("-") == None
  {
  }

  lemma ValueOfSnoc(s: string, c: char)
    requires AllDigits(s) && IsDigit(c)
    ensures AllDigits(s + [c]) && ValueOf(s + [c]) == ValueOf(s) * 10 + DigitValue(c)
  {
    var t := s + [c];
    assert t[..|t| - 1] == s;
  }

  /** Leading zeros and a plus sign are accepted. */
  lemma ToLongOrNullExamples()
    ensures ToLongOrNull("040") == Some(40) && ToLongOrNull("+40") == Some(40)
  {
    assert ValueOf("040") == 40 && ValueOf("40") == 40 by { SmallValues(); }
    ToLongOrNullOfDigits("040");
    ToLongOrNullOfDigits("40");
    assert "+40" == "+" + "40";
  }

  lemma SmallValues()
    ensures ValueOf("040") == 40 && ValueOf("40") == 40
  {
    ValueOfSnoc("", '0');
    ValueOfSnoc("", '4');
    ValueOfSnoc("0", '4');
    ValueOfSnoc("04", '0');
    ValueOfSnoc("4", '0');
    assert "040" == "04" + ['0'] && "40" == "4" + ['0'] && "04" == "0" + ['4'];
  }

  /** One past `Long.MAX_VALUE` is not a `Long`. */
  lemma OnePastMaxIsNull()
    ensures ToLongOrNull(NatToString(INT64_MAX + 1)) == None
  {
    ValueOfNatToString(INT64_MAX + 1);
    ToLongOrNullOfDigits(NatToString(INT64_MAX + 1));
  }

  /** Text that contains a character other than a digit, apart from one leading sign, is not a `Long`. */
  lemma NonNumericIsNull(s: string, i: nat)
    requires i < |s| && !IsDigit(s[i])
    requires i == 0 ==> s[0] != '-' && s[0] != '+'
    ensures ToLongOrNull(s) == None
  {
    if i > 0 && |s| > 1 {
      assert !IsDigit(s[1..][i - 1]);
    }
  }
}

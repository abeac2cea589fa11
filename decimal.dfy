/**
 * Decimal text of integers, as Python's `str(int)` and f-string `{n}` produce it,
 * together with the parser that reads it back.
 */
module Decimal {
  import opened Wrappers

  predicate IsDigit(c: char) {
    '0' <= c <= '9'
  }

  predicate AllDigits(s: string) {
    forall i | 0 <= i < |s| :: IsDigit(s[i])
  }

  function DigitChar(d: nat): (c: char)
    requires d < 10
    ensures IsDigit(c) && c as int - '0' as int == d
  {
    ('0' as int + d) as char
  }

  /** Digits of `n` without leading zeros; "0" for zero. */
  function NatToString(n: nat): (s: string)
    ensures 1 <= |s| && AllDigits(s)
    ensures |s| > 1 ==> s[0] != '0'
    decreases n
  {
    if n < 10 then [DigitChar(n)] else NatToString(n / 10) + [DigitChar(n % 10)]
  }

  /** Python's `str(i)`: a minus sign in front of the digits of a negative number. */
  function IntToString(i: int): (s: string)
    ensures 1 <= |s| && (s[0] == '-' <==> i < 0)
    ensures i < 0 ==> 2 <= |s| && AllDigits(s[1..])
    ensures i >= 0 ==> AllDigits(s)
    ensures i >= 0 && |s| > 1 ==> s[0] != '0'
    ensures i < 0 ==> s[1] != '0'
  {
    if i < 0 then "-" + NatToString(-i) else NatToString(i)
  }

  /** The number a string of decimal digits denotes. */
  function DigitsValue(s: string): nat
    requires AllDigits(s)
  {
    if s == [] then 0
    else DigitsValue(s[..|s| - 1]) * 10 + (s[|s| - 1] as int - '0' as int)
  }

  /** Reads an optionally negative decimal integer; None for anything else. */
  function ParseInt(s: string): Option<int> {
    if 2 <= |s| && s[0] == '-' && AllDigits(s[1..]) then Some(-(DigitsValue(s[1..]) as int))
    else if 1 <= |s| && AllDigits(s) then Some(DigitsValue(s))
    else None
  }

  lemma {:induction false} DigitsValueOfNatToString(n: nat)
    ensures DigitsValue(NatToString(n)) == n
  {
    var s := NatToString(n);
    if n >= 10 {
      DigitsValueOfNatToString(n / 10);
      assert s[..|s| - 1] == NatToString(n / 10);
    }
  }

  /** Reading back the text of any integer gives that integer. */
  lemma ParseIntRoundTrip(i: int)
    ensures ParseInt(IntToString(i)) == Some(i)
  {
    var s := IntToString(i);
    if i < 0 {
      assert s[0] == '-' && s[1..] == NatToString(-i);
      DigitsValueOfNatToString(-i);
    } else {
      assert s == NatToString(i) && IsDigit(s[0]);
      DigitsValueOfNatToString(i);
    }
  }

  /** Two integers have the same text exactly when they are equal. */
  lemma IntToStringInjective(a: int, b: int)
    ensures IntToString(a) == IntToString(b) <==> a == b
  {
    if IntToString(a) == IntToString(b) {
      ParseIntRoundTrip(a);
      ParseIntRoundTrip(b);
    }
  }
}

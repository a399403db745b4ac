/**
 * Decimal numerals as Python reads and writes them: `int(s)` on a string
 * made of an optional sign and ASCII digits, and `str(i)` on an integer.
 */
module Numerals {
  import opened Wrappers

  function Min(a: int, b: int): int {
    if a < b then a else b
  }

  predicate IsDigit(c: char) {
    '0' <= c <= '9'
  }

  function DigitValue(c: char): (d: nat)
    requires IsDigit(c)
    ensures d < 10
  {
    (c as int) - ('0' as int)
  }

  function DigitChar(d: nat): (c: char)
    requires d < 10
    ensures IsDigit(c) && DigitValue(c) == d
  {
    (('0' as int) + d) as char
  }

  predicate AllDigits(s: string) {
    forall i :: 0 <= i < |s| ==> IsDigit(s[i])
  }

  /** The value of a string of decimal digits, most significant first. */
  function DigitsValue(s: string): nat
    requires AllDigits(s)
  {
    if s == [] then 0 else DigitsValue(s[..|s| - 1]) * 10 + DigitValue(s[|s| - 1])
  }

  /**
   * Python's `int(s)` on an optional `+`/`-` followed by at least one
   * decimal digit; `None` stands for the ValueError on anything else.
   */
  function ParseInt(s: string): (r: Option<int>)
    ensures r.Some? <==>
      || (0 < |s| && AllDigits(s))
      || (1 < |s| && (s[0] == '+' || s[0] == '-') && AllDigits(s[1..]))
    ensures 0 < |s| && AllDigits(s) ==> r == Some(DigitsValue(s))
    ensures 1 < |s| && s[0] == '+' && AllDigits(s[1..]) ==> r == Some(DigitsValue(s[1..]))
    ensures 1 < |s| && s[0] == '-' && AllDigits(s[1..]) ==> r == Some(-(DigitsValue(s[1..]) as int))
  {
    if |s| > 0 && (s[0] == '+' || s[0] == '-') then
      var body := s[1..];
      if |body| > 0 && AllDigits(body) then
        var v: int := DigitsValue(body);
        Some(if s[0] == '-' then -v else v)
      else
        None
    else if |s| > 0 && AllDigits(s) then
      Some(DigitsValue(s))
    else
      None
  }

  /** Python's `str(n)` for a natural number: no sign, no leading zero. */
  function NatToString(n: nat): (s: string)
    ensures 0 < |s| && AllDigits(s)
    ensures n < 10 <==> |s| == 1
    ensures s[0] == '0' ==> n == 0
  {
    if n < 10 then [DigitChar(n)] else NatToString(n / 10) + [DigitChar(n % 10)]
  }

  /** Python's `str(i)`: a minus sign before the digits of a negative number. */
  function IntToString(i: int): (s: string)
    ensures 0 < |s|
    ensures forall j :: 0 <= j < |s| ==> IsDigit(s[j]) || (j == 0 && s[j] == '-')
    ensures s[0] == '-' <==> i < 0
    ensures i < 0 ==> 1 < |s| && s[1] != '0'
    ensures i >= 0 && s[0] == '0' ==> s == "0"
  {
    if i < 0 then "-" + NatToString(-i) else NatToString(i)
  }

  lemma {:induction false} DigitsValueOfNatToString(n: nat)
    ensures DigitsValue(NatToString(n)) == n
  {
    var s := NatToString(n);
    if n >= 10 {
      var front := NatToString(n / 10);
      assert s[..|s| - 1] == front;
      DigitsValueOfNatToString(n / 10);
    }
  }

  /** A minus sign before digits reads as the negated value. */
  lemma ParseNegative(digits: string)
    requires 0 < |digits| && AllDigits(digits)
    ensures ParseInt("-" + digits) == Some(-(DigitsValue(digits) as int))
  {
    assert ("-" + digits)[0] == '-' && ("-" + digits)[1..] == digits;
  }

  /** Reading back what `str` writes gives the number again. */
  lemma ParseIntOfIntToString(i: int)
    ensures ParseInt(IntToString(i)) == Some(i)
  {
    if i < 0 {
      ParseNegative(NatToString(-i));
      DigitsValueOfNatToString(-i);
    } else {
      DigitsValueOfNatToString(i);
    }
  }

  /** `str` is injective on integers. */
  lemma IntToStringInjective(i: int, j: int)
    requires IntToString(i) == IntToString(j)
    ensures i == j
  {
    ParseIntOfIntToString(i);
    ParseIntOfIntToString(j);
  }
}

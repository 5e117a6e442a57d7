/**
 * Decimal integers as text, both ways: `int(text)` for a task id typed at the
 * console and `str(id)` (an f-string field) for a task line on screen.
 * Only an optional sign followed by ASCII digits is modelled.
 */
module Numerals {
  import opened Wrappers

  predicate IsDigit(c: char) {
    '0' <= c <= '9'
  }

  predicate AllDigits(s: string) {
    forall k :: 0 <= k < |s| ==> IsDigit(s[k])
  }

  function DigitValue(c: char): (d: nat)
    requires IsDigit(c)
    ensures d < 10
  {
    (c as int - '0' as int) as nat
  }

  function DigitChar(d: nat): (c: char)
    requires d < 10
    ensures IsDigit(c) && DigitValue(c) == d
  {
    ('0' as int + d) as char
  }

  /** The value of a run of decimal digits, most significant first; leading zeros are allowed. */
  function DigitsValue(s: string): nat
    requires AllDigits(s)
  {
    if s == [] then 0 else DigitsValue(s[..|s| - 1]) * 10 + DigitValue(s[|s| - 1])
  }

  /** The decimal numeral of `n`, without leading zeros. */
  function NatToDigits(n: nat): (r: string)
    ensures r != [] && AllDigits(r)
    ensures DigitsValue(r) == n
    ensures |r| > 1 ==> r[0] != '0'
    decreases n
  {
    if n < 10 then [DigitChar(n)]
    else
      var front := NatToDigits(n / 10);
      var r := front + [DigitChar(n % 10)];
      assert r[..|r| - 1] == front;
      r
  }

  /** `str(n)` for an integer. */
  function IntToString(n: int): (r: string)
    ensures r != [] && (r[0] == '-' || IsDigit(r[0])) && IsDigit(r[|r| - 1])
  {
    if n < 0 then "-" + NatToDigits(-n) else NatToDigits(n)
  }

  /** An optional `+` or `-` followed by one or more digits. */
  predicate IsNumeral(s: string) {
    && s != []
    && var digits := if s[0] == '+' || s[0] == '-' then s[1..] else s;
       digits != [] && AllDigits(digits)
  }

  /**
   * `int(s)` for a text that has already been stripped: an optional `+` or `-`
   * and at least one digit; anything else is not a number (`ValueError`).
   */
  function ParseInt(s: string): (r: Option<int>)
    ensures r.Some? <==> IsNumeral(s)
  {
    if s == [] then None
    else if s[0] == '+' || s[0] == '-' then
      var digits := s[1..];
      if digits != [] && AllDigits(digits) then
        var v: int := DigitsValue(digits);
        Some(if s[0] == '-' then -v else v)
      else None
    else if AllDigits(s) then Some(DigitsValue(s))
    else None
  }

  /** A leading zero does not change the value of a run of digits. */
  lemma {:induction false} LeadingZeroIgnored(d: string)
    requires AllDigits(d)
    ensures DigitsValue("0" + d) == DigitsValue(d)
  {
    if d != [] {
      var z := "0" + d;
      assert z[..|z| - 1] == "0" + d[..|d| - 1];
      LeadingZeroIgnored(d[..|d| - 1]);
    } else {
      assert DigitsValue("0"[..0]) == 0;
    }
  }

  /** `int` reads a run of digits as its value, with or without a `+`, and negated after a `-`. */
  lemma ParseIntOfSignedDigits(d: string)
    requires d != [] && AllDigits(d)
    ensures ParseInt(d) == Some(DigitsValue(d))
    ensures ParseInt("+" + d) == Some(DigitsValue(d))
    ensures ParseInt("-" + d) == Some(-(DigitsValue(d) as int))
  {
    assert ("+" + d)[1..] == d;
    assert ("-" + d)[1..] == d;
  }

  /** `int("+5") == 5` and `int("-0") == 0`: a `+` sign is accepted, and a negative zero is zero. */
  lemma ParseIntSignExamples()
    ensures ParseInt("+5") == Some(5) && ParseInt("-0") == Some(0)
  {
    assert ParseInt("+5") == Some(5) by {
      ParseIntOfSignedDigits("5");
      assert "+5" == "+" + "5";
    }
    assert ParseInt("-0") == Some(0) by {
      ParseIntOfSignedDigits("0");
      assert "-0" == "-" + "0";
    }
  }

  /** `int("007") == 7`: leading zeros are accepted and do not count. */
  lemma ParseIntLeadingZerosExample()
    ensures ParseInt("007") == Some(7)
  {
    LeadingZeroIgnored("7");
    assert "07" == "0" + "7";
    LeadingZeroIgnored("07");
    assert "007" == "0" + "07";
    ParseIntOfSignedDigits("007");
  }

  /** Reading back what `str` wrote gives the same integer. */
  lemma ParseIntOfIntToString(n: int)
    ensures ParseInt(IntToString(n)) == Some(n)
  {
    if n < 0 {
      assert IntToString(n)[1..] == NatToDigits(-n);
    }
  }

  /** The length of the run of digits a text starts with. */
  function DigitRun(s: string): (n: nat)
    ensures n <= |s| && AllDigits(s[..n])
    ensures n < |s| ==> !IsDigit(s[n])
  {
    if s != [] && IsDigit(s[0]) then
      var n := 1 + DigitRun(s[1..]);
      assert s[..n] == [s[0]] + s[1..][..n - 1];
      n
    else 0
  }

  /** A numeral followed by a non-digit is read as exactly that numeral. */
  lemma {:induction false} DigitRunOfNumeral(d: string, rest: string)
    requires AllDigits(d)
    requires rest == [] || !IsDigit(rest[0])
    ensures DigitRun(d + rest) == |d|
  {
    if d != [] {
      assert (d + rest)[1..] == d[1..] + rest;
      DigitRunOfNumeral(d[1..], rest);
    } else {
      assert d + rest == rest;
    }
  }
}

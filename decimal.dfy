/**
 * A stand-in for `big.Int.SetString(s, 10)`: an optional sign followed by
 * one or more decimal digits, the whole string and nothing else. The
 * formatter is the partner used to state the round trip.
 */
module Decimal {
  import opened Options

  predicate IsDigit(c: char) {
    '0' <= c <= '9'
  }

  predicate AllDigits(s: string) {
    forall i | 0 <= i < |s| :: IsDigit(s[i])
  }

  function DigitValue(c: char): (d: nat)
    requires IsDigit(c)
    ensures d < 10
  {
    c as int - '0' as int
  }

  function DigitChar(d: nat): (c: char)
    requires d < 10
    ensures IsDigit(c) && DigitValue(c) == d
  {
    ('0' as int + d) as char
  }

  /** The value of a string of digits, most significant first. */
  function DigitsValue(s: string): nat
    requires AllDigits(s)
  {
    if s == [] then 0 else 10 * DigitsValue(s[..|s| - 1]) + DigitValue(s[|s| - 1])
  }

  /** One or more digits; anything else fails. */
  function ParseUnsigned(s: string): (r: Option<int>)
    ensures r.Some? <==> s != [] && AllDigits(s)
    ensures r.Some? ==> r.value >= 0
  {
    if s != [] && AllDigits(s) then Some(DigitsValue(s)) else None
  }

  /** Base-10 parse with an optional leading '+' or '-'. */
  function Parse(s: string): (r: Option<int>)
    ensures s == [] ==> r.None?
    ensures r.Some? && s[0] == '-' ==> r.value <= 0
    ensures r.Some? && s[0] != '-' ==> r.value >= 0
  {
    if |s| > 0 && s[0] == '-' then
      match ParseUnsigned(s[1..])
      case None => None
      case Some(n) => Some(-n)
    else if |s| > 0 && s[0] == '+' then
      ParseUnsigned(s[1..])
    else
      ParseUnsigned(s)
  }

  /** The shortest digit string of a natural number. */
  function FormatUnsigned(n: nat): (s: string)
    ensures s != [] && AllDigits(s)
    ensures DigitsValue(s) == n
    decreases n
  {
    if n < 10 then [DigitChar(n)] else FormatUnsigned(n / 10) + [DigitChar(n % 10)]
  }

  /** Decimal rendering with a '-' for negative numbers. */
  function Format(n: int): string {
    if n < 0 then "-" + FormatUnsigned(-n) else FormatUnsigned(n)
  }

  /** Parsing a formatted number gives the number back. */
  lemma ParseFormat(n: int)
    ensures Parse(Format(n)) == Some(n)
  {
  }

  /** A string holding any character other than a digit after the sign fails to parse. */
  lemma ParseRejectsNonDigit(s: string, i: nat)
    requires 0 < i < |s| && !IsDigit(s[i])
    ensures Parse(s).None?
  {
  }
}

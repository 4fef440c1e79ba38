/**
 * Decimal text <-> integer conversion, as the store uses Go's strconv.Atoi and
 * strconv.Itoa. Atoi accepts an optional '+' or '-' followed by one or more
 * decimal digits (leading zeros allowed); Itoa prints the canonical form.
 * Integers are unbounded here: the 64-bit range check of Atoi is not modelled.
 */
module Strconv {
  import opened Wrappers

  predicate IsDigit(c: char) {
    '0' <= c <= '9'
  }

  predicate AllDigits(s: string) {
    forall i :: 0 <= i < |s| ==> IsDigit(s[i])
  }

  function DigitValue(c: char): nat
    requires IsDigit(c)
  {
    c as int - '0' as int
  }

  function DigitChar(d: nat): (c: char)
    requires d < 10
    ensures IsDigit(c) && DigitValue(c) == d
  {
    ('0' as int + d) as char
  }

  /** The value of a string of decimal digits, most significant first. */
  function DigitsValue(s: string): nat
    requires AllDigits(s)
  {
    if |s| == 0 then 0
    else DigitsValue(s[..|s| - 1]) * 10 + DigitValue(s[|s| - 1])
  }

  /** Go's strconv.Atoi, without the 64-bit overflow error. */
  function Atoi(s: string): (r: Option<int>)
    ensures r.Some? <==> |s| >= 1 && (AllDigits(s) || ((s[0] == '-' || s[0] == '+') && |s| >= 2 && AllDigits(s[1..])))
    ensures r.Some? && s[0] == '-' ==> r.value <= 0
    ensures r.Some? && s[0] != '-' ==> r.value >= 0
  {
    if |s| == 0 then None
    else if s[0] == '-' || s[0] == '+' then
      var digits := s[1..];
      if |digits| == 0 || !AllDigits(digits) then None
      else if s[0] == '-' then Some(-(DigitsValue(digits) as int))
      else Some(DigitsValue(digits))
    else if AllDigits(s) then Some(DigitsValue(s))
    else None
  }

  /** The decimal digits of n, without leading zeros. */
  function NatDigits(n: nat): (s: string)
    ensures |s| >= 1 && AllDigits(s)
    ensures DigitsValue(s) == n
    ensures s[0] == '0' ==> n == 0 && s == "0"
  {
    if n < 10 then [DigitChar(n)]
    else
      var prefix := NatDigits(n / 10);
      var s := prefix + [DigitChar(n % 10)];
      assert s[..|s| - 1] == prefix;
      s
  }

  /** Go's strconv.Itoa: a '-' sign for negative values, then the digits. */
  function Itoa(n: int): (s: string)
    ensures |s| >= 1
    ensures n < 0 <==> s[0] == '-'
  {
    if n < 0 then "-" + NatDigits(-n) else NatDigits(n)
  }

  /** Parsing what Itoa printed gives back the number. */
  lemma AtoiItoa(n: int)
    ensures Atoi(Itoa(n)) == Some(n)
  {
  }

  /** Atoi rejects the empty string, a lone sign and any non-digit after the sign. */
  lemma AtoiRejects(s: string)
    requires |s| == 0 || s == "-" || s == "+" ||
             (exists i :: 0 < i < |s| && !IsDigit(s[i])) ||
             (|s| > 0 && !IsDigit(s[0]) && s[0] != '-' && s[0] != '+')
    ensures Atoi(s) == None
  {
  }

  /** Atoi accepts a sign and leading zeros, which Itoa never prints back. */
  lemma AtoiIsNotCanonical()
    ensures Atoi("+007") == Some(7) && Itoa(7) == "7"
    ensures Atoi("-0") == Some(0) && Itoa(0) == "0"
  {
    assert "+007"[1..] == "007";
    assert "007"[..2] == "00" && "00"[..1] == "0" && "0"[..0] == "";
    assert DigitsValue("007") == 7;
    assert "-0"[1..] == "0";
    assert DigitChar(7) == '7' && DigitChar(0) == '0';
  }
}

/** Decimal text of integers: the `%d` conversion the shell uses when it lists
    jobs, and the C library's `atoi`, which reads a pid or a `%jobid` argument
    of the bg and fg commands. */
module Decimal {

  predicate IsDigit(c: char) {
    '0' <= c <= '9'
  }

  /** `isspace` in the "C" locale: blank, and tab through carriage return. */
  predicate IsSpace(c: char) {
    c == ' ' || ('\t' <= c <= '\r')
  }

  predicate AllDigits(d: string) {
    forall i :: 0 <= i < |d| ==> IsDigit(d[i])
  }

  function DigitValue(c: char): nat
    requires IsDigit(c)
  {
    c as int - '0' as int
  }

  function DigitChar(d: nat): (c: char)
    requires d < 10
    ensures IsDigit(c) && DigitValue(c) == d
  {
    ('0' as int + d) as char
  }

  /** The digits of `n`, most significant first, without leading zeros. */
  function NatToString(n: nat): (s: string)
    ensures |s| >= 1 && AllDigits(s)
    decreases n
  {
    if n < 10 then [DigitChar(n)] else NatToString(n / 10) + [DigitChar(n % 10)]
  }

  /** `printf("%d", n)`: a minus sign for a negative number, then the digits
      of its magnitude. */
  function IntToString(n: int): (r: string)
    ensures r != [] && (r[0] == '-' <==> n < 0)
    ensures n >= 0 ==> AllDigits(r)
    ensures n < 0 ==> |r| >= 2 && AllDigits(r[1..])
  {
    if n < 0 then "-" + NatToString(-n) else NatToString(n)
  }

  /** The value of a string of digits read as a decimal numeral. */
  function DigitsValue(d: string): (r: nat)
    requires AllDigits(d)
    decreases |d|
  {
    if d == [] then 0 else DigitsValue(d[..|d| - 1]) * 10 + DigitValue(d[|d| - 1])
  }

  /** The longest prefix of `s` made of digits: where `atoi` stops reading. */
  function LeadingDigits(s: string): (d: string)
    ensures |d| <= |s| && d == s[..|d|] && AllDigits(d)
    ensures |d| == |s| || !IsDigit(s[|d|])
  {
    if s == [] || !IsDigit(s[0]) then [] else [s[0]] + LeadingDigits(s[1..])
  }

  function SkipWhite(s: string): (r: string) {
    if s != [] && IsSpace(s[0]) then SkipWhite(s[1..]) else s
  }

  /** `atoi`: leading white space, an optional sign, then as many digits as
      follow. Text that is not a numeral reads as 0. */
  function Atoi(s: string): (r: int)
    ensures SkipWhite(s) == [] ==> r == 0
    ensures (SkipWhite(s) != [] && !IsDigit(SkipWhite(s)[0]) &&
             SkipWhite(s)[0] != '-' && SkipWhite(s)[0] != '+') ==> r == 0
    ensures SkipWhite(s) != [] && SkipWhite(s)[0] != '-' ==> r >= 0
  {
    var t := SkipWhite(s);
    if t != [] && t[0] == '-' then -(DigitsValue(LeadingDigits(t[1..])) as int)
    else if t != [] && t[0] == '+' then DigitsValue(LeadingDigits(t[1..]))
    else DigitsValue(LeadingDigits(t))
  }

  lemma {:induction false} NatToStringValue(n: nat)
    ensures DigitsValue(NatToString(n)) == n
    decreases n
  {
    if n >= 10 {
      var s := NatToString(n);
      NatToStringValue(n / 10);
      assert s[..|s| - 1] == NatToString(n / 10);
    }
  }

  lemma {:induction false} LeadingDigitsOfAppend(d: string, rest: string)
    requires AllDigits(d)
    requires rest == [] || !IsDigit(rest[0])
    ensures LeadingDigits(d + rest) == d
    decreases |d|
  {
    if d != [] {
      assert (d + rest)[1..] == d[1..] + rest;
      LeadingDigitsOfAppend(d[1..], rest);
    }
  }

  /** `atoi` of text that starts with digits reads exactly those digits. */
  lemma AtoiOfDigits(d: string, rest: string)
    requires d != [] && AllDigits(d)
    requires rest == [] || !IsDigit(rest[0])
    ensures Atoi(d + rest) == DigitsValue(d)
  {
    var s := d + rest;
    assert s[0] == d[0];
    assert SkipWhite(s) == s;
    LeadingDigitsOfAppend(d, rest);
  }

  /** `atoi` of a minus sign followed by digits reads their negated value. */
  lemma AtoiOfNegatedDigits(d: string, rest: string)
    requires AllDigits(d)
    requires rest == [] || !IsDigit(rest[0])
    ensures Atoi("-" + (d + rest)) == -(DigitsValue(d) as int)
  {
    var s := "-" + (d + rest);
    assert SkipWhite(s) == s;
    assert s[1..] == d + rest;
    LeadingDigitsOfAppend(d, rest);
  }

  lemma AtoiOfNegativeInt(n: int, rest: string)
    requires n < 0
    requires rest == [] || !IsDigit(rest[0])
    ensures Atoi(IntToString(n) + rest) == n
  {
    var d := NatToString(-n);
    assert IntToString(n) == "-" + d;
    assert IntToString(n) + rest == "-" + (d + rest);
    NatToStringValue(-n);
    AtoiOfNegatedDigits(d, rest);
  }

  /** Reading back what `%d` printed gives the number again, whatever
      non-digit text follows it. */
  lemma AtoiOfIntToString(n: int, rest: string)
    requires rest == [] || !IsDigit(rest[0])
    ensures Atoi(IntToString(n) + rest) == n
  {
    if n < 0 {
      AtoiOfNegativeInt(n, rest);
    } else {
      NatToStringValue(n);
      AtoiOfDigits(NatToString(n), rest);
    }
  }
}

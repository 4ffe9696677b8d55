/**
 * Decimal numerals as the router sees them: the page number in a title
 * template (`${pageNum + 1}`) and `parseInt` of a route parameter.
 * Only the digit-prefix behaviour of `parseInt` is modelled.
 */
module Decimal {
  import opened Optional

  predicate IsDigit(c: char) {
    '0' <= c <= '9'
  }

  predicate AllDigits(s: string) {
    forall i :: 0 <= i < |s| ==> IsDigit(s[i])
  }

  function Digit(d: nat): (c: char)
    requires d < 10
    ensures IsDigit(c)
  {
    ('0' as int + d) as char
  }

  function DigitValue(c: char): (d: nat)
    requires IsDigit(c)
    ensures d < 10 && Digit(d) == c
  {
    c as int - '0' as int
  }

  /** How a JavaScript template literal prints a non-negative integer:
      at least one digit and no leading zero. */
  function Show(n: nat): (s: string)
    ensures |s| >= 1 && AllDigits(s)
    ensures s[0] == '0' ==> n == 0
  {
    if n < 10 then [Digit(n)] else Show(n / 10) + [Digit(n % 10)]
  }

  /** The value of a string of digits, most significant first. */
  function Value(s: string): nat
    requires AllDigits(s)
  {
    if s == [] then 0 else 10 * Value(s[..|s| - 1]) + DigitValue(s[|s| - 1])
  }

  /** The longest prefix of digits, the part of the input `parseInt` reads. */
  function LeadingDigits(s: string): (d: string)
    ensures d <= s && AllDigits(d)
    ensures |d| < |s| ==> !IsDigit(s[|d|])
  {
    if s == [] || !IsDigit(s[0]) then [] else [s[0]] + LeadingDigits(s[1..])
  }

  /** `parseInt(s)`: the value of the leading digits, or None for NaN when
      the string does not start with a digit. */
  function ParseInt(s: string): (r: Option<nat>)
    ensures r.None? <==> (s == [] || !IsDigit(s[0]))
  {
    var d := LeadingDigits(s);
    if d == [] then None else Some(Value(d))
  }

  lemma {:induction false} ValueShow(n: nat)
    ensures Value(Show(n)) == n
  {
    if n >= 10 {
      var s := Show(n / 10) + [Digit(n % 10)];
      assert s[..|s| - 1] == Show(n / 10);
      ValueShow(n / 10);
    }
  }

  lemma {:induction false} LeadingDigitsOfDigits(s: string)
    requires AllDigits(s)
    ensures LeadingDigits(s) == s
  {
    if s != [] {
      LeadingDigitsOfDigits(s[1..]);
    }
  }

  /** Printing a page number and reading it back gives the same number. */
  lemma ParseIntShow(n: nat)
    ensures ParseInt(Show(n)) == Some(n)
  {
    LeadingDigitsOfDigits(Show(n));
    ValueShow(n);
  }

  /** A run of k zeros. */
  function Zeros(k: nat): (z: string)
    ensures |z| == k && AllDigits(z)
  {
    seq(k, _ => '0')
  }

  /** Leading zeros do not change the value of a numeral. */
  lemma {:induction false} ValueLeadingZeros(k: nat, d: string)
    requires AllDigits(d)
    ensures Value(Zeros(k) + d) == Value(d)
  {
    if d == [] {
      ValueZeros(k);
      assert Zeros(k) + d == Zeros(k);
    } else {
      var s := Zeros(k) + d;
      assert s[..|s| - 1] == Zeros(k) + d[..|d| - 1];
      assert s[|s| - 1] == d[|d| - 1];
      ValueLeadingZeros(k, d[..|d| - 1]);
    }
  }

  lemma {:induction false} ValueZeros(k: nat)
    ensures Value(Zeros(k)) == 0
  {
    if k > 0 {
      assert Zeros(k)[..k - 1] == Zeros(k - 1);
      ValueZeros(k - 1);
    }
  }

  /** `parseInt` reads the leading digits only: a number written with any
      number of leading zeros and followed by a non-digit suffix (or
      nothing) parses to that number, so `"03"` and `"3abc"` both give 3. */
  lemma {:induction false} ParseIntLeadingZeros(k: nat, n: nat, rest: string)
    requires rest == [] || !IsDigit(rest[0])
    ensures ParseInt(Zeros(k) + Show(n) + rest) == Some(n)
  {
    var d := Zeros(k) + Show(n);
    LeadingDigitsPrefix(d, rest);
    ValueLeadingZeros(k, Show(n));
    ValueShow(n);
  }

  lemma {:induction false} LeadingDigitsPrefix(d: string, rest: string)
    requires AllDigits(d)
    requires rest == [] || !IsDigit(rest[0])
    ensures LeadingDigits(d + rest) == d
  {
    if d != [] {
      assert (d + rest)[1..] == d[1..] + rest;
      LeadingDigitsPrefix(d[1..], rest);
    } else {
      assert d + rest == rest;
    }
  }
}

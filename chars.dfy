/**
 * Character classes and decimal text as the utilities use them: the ASCII classes behind the
 * regular expressions `[A-Z]`, `[0-9]`, `\d`, `\w` and `.`, ASCII case mapping, and the text that
 * JavaScript's number-to-string conversion gives for an integer.
 */
module Chars {

  predicate IsDigit(c: char) { '0' <= c <= '9' }

  predicate IsUpper(c: char) { 'A' <= c <= 'Z' }

  predicate IsLower(c: char) { 'a' <= c <= 'z' }

  /** The regular-expression class `\w`: `[A-Za-z0-9_]`. */
  predicate IsWordChar(c: char) { IsDigit(c) || IsUpper(c) || IsLower(c) || c == '_' }

  /** The characters that the regular-expression `.` does not match. */
  predicate IsLineTerminator(c: char) { c == '\n' || c == '\r' || c == '\U{2028}' || c == '\U{2029}' }

  /** A character that UTF-16 stores as one code unit: one of the Basic Multilingual Plane. Any other
      character takes two code units (a surrogate pair). */
  predicate IsSingleCodeUnit(c: char) { c < '\U{10000}' }

  /** What the regular-expression `.` consumes when the pattern has no `u` flag: one UTF-16 code unit
      that is not a line terminator. A character outside the Basic Multilingual Plane is two code
      units, so `.` can take only half of it. */
  predicate DotMatchesChar(c: char) { IsSingleCodeUnit(c) && !IsLineTerminator(c) }

  /** `toLowerCase` on one character, ASCII letters only. */
  function ToLower(c: char): (r: char)
    ensures !IsUpper(r)
    ensures IsUpper(c) ==> IsLower(r) && ToUpper(r) == c
    ensures !IsUpper(c) ==> r == c
  {
    if IsUpper(c) then (c as int + 32) as char else c
  }

  /** `toUpperCase` on one character, ASCII letters only. */
  function ToUpper(c: char): (r: char)
    ensures !IsLower(r)
    ensures IsLower(c) ==> IsUpper(r) && r as int + 32 == c as int
    ensures !IsLower(c) ==> r == c
  {
    if IsLower(c) then (c as int - 32) as char else c
  }

  /** The 7-bit characters, on which `toLowerCase` and `toUpperCase` change only the letters. */
  predicate AllAscii(s: string) { forall i :: 0 <= i < |s| ==> s[i] < '\U{80}' }

  predicate AllDigits(s: string) { forall i :: 0 <= i < |s| ==> IsDigit(s[i]) }

  function Digit(d: nat): (c: char)
    requires d < 10
    ensures IsDigit(c) && c as int - '0' as int == d
  {
    ('0' as int + d) as char
  }

  /** The value of a string of decimal digits. */
  function DigitsValue(s: string): nat
    requires AllDigits(s)
  {
    if s == [] then 0 else 10 * DigitsValue(s[..|s| - 1]) + (s[|s| - 1] as int - '0' as int)
  }

  /** The text JavaScript gives a non-negative integer: its decimal digits, no leading zero. */
  function Decimal(n: nat): (s: string)
    ensures |s| >= 1 && AllDigits(s)
    ensures s[|s| - 1] == Digit(n % 10)
    ensures (|s| == 1) == (n < 10)
    ensures |s| > 1 ==> s[0] != '0'
  {
    if n < 10 then [Digit(n)] else Decimal(n / 10) + [Digit(n % 10)]
  }

  /** The text JavaScript gives any integer: a minus sign before the digits of a negative one. */
  function IntText(n: int): (r: string)
    ensures |r| >= 1 && (r[0] == '-' <==> n < 0)
    ensures n < 0 ==> |r| >= 2 && AllDigits(r[1..]) && r[1] != '0'
    ensures n >= 0 ==> AllDigits(r) && (|r| > 1 ==> r[0] != '0')
    ensures r[|r| - 1] == Digit(if n < 0 then -n % 10 else n % 10)
  {
    if n < 0 then "-" + Decimal(-n) else Decimal(n)
  }

  /** Reading back the digits of `Decimal(n)` gives `n`. */
  lemma {:induction false} DecimalValue(n: nat)
    ensures DigitsValue(Decimal(n)) == n
  {
    if n >= 10 {
      DecimalValue(n / 10);
      var s := Decimal(n);
      assert s[..|s| - 1] == Decimal(n / 10);
    }
  }

  /** Every digit string without a leading zero is the text of its value. */
  lemma {:induction false} DecimalOfValue(s: string)
    requires AllDigits(s) && |s| >= 1 && (|s| > 1 ==> s[0] != '0')
    ensures Decimal(DigitsValue(s)) == s
  {
    var p := s[..|s| - 1];
    var d := s[|s| - 1] as int - '0' as int;
    if |s| > 1 {
      assert p[0] == s[0];
      DecimalOfValue(p);
      LeadingDigitPositive(p);
      assert DigitsValue(s) / 10 == DigitsValue(p);
      assert DigitsValue(s) % 10 == d;
      assert s == p + [s[|s| - 1]];
    }
  }

  /** A digit string of two or more digits with a non-zero first digit has a value of at least 1. */
  lemma {:induction false} LeadingDigitPositive(s: string)
    requires AllDigits(s) && |s| >= 1 && s[0] != '0'
    ensures DigitsValue(s) >= 1
  {
    if |s| > 1 {
      assert s[..|s| - 1][0] == s[0];
      LeadingDigitPositive(s[..|s| - 1]);
    }
  }

}

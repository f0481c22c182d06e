/** Character classes and small digit conversions shared by the parsers.
    Strings are `seq<char>`; only ASCII letters and ASCII decimal digits are
    recognised. */
module Chars {

  datatype Option<+T> = None | Some(value: T)

  /** `\d` restricted to ASCII. */
  predicate IsDigit(c: char) {
    '0' <= c <= '9'
  }

  /** `[A-Za-z]`. */
  predicate IsLetter(c: char) {
    'A' <= c <= 'Z' || 'a' <= c <= 'z'
  }

  predicate AllDigits(s: string) {
    forall k :: 0 <= k < |s| ==> IsDigit(s[k])
  }

  predicate AllLetters(s: string) {
    forall k :: 0 <= k < |s| ==> IsLetter(s[k])
  }

  /** Python's `str.upper()` on a single ASCII character. */
  function Upper(c: char): (u: char)
    ensures 'a' <= c <= 'z' ==> 'A' <= u <= 'Z' && u as int == c as int - 32
    ensures !('a' <= c <= 'z') ==> u == c
  {
    if 'a' <= c <= 'z' then (c as int - 32) as char else c
  }

  function DigitValue(c: char): (n: nat)
    requires IsDigit(c)
    ensures n < 10
  {
    c as int - '0' as int
  }

  function DigitChar(n: nat): (c: char)
    requires n < 10
    ensures IsDigit(c) && DigitValue(c) == n
  {
    ('0' as int + n) as char
  }

  lemma DigitCharOfValue(c: char)
    requires IsDigit(c)
    ensures DigitChar(DigitValue(c)) == c
  {
  }

  /** The value of the decimal numeral `s`, as Python's `int()` reads it. */
  function NumeralValue(s: string): (n: nat)
    requires AllDigits(s)
    ensures n < Pow10(|s|)
    decreases |s|
  {
    if s == [] then 0
    else NumeralValue(s[..|s| - 1]) * 10 + DigitValue(s[|s| - 1])
  }

  lemma NumeralOfOne(s: string)
    requires |s| == 1 && AllDigits(s)
    ensures NumeralValue(s) == DigitValue(s[0])
  {
    assert s[..0] == [];
  }

  lemma NumeralOfTwo(s: string)
    requires |s| == 2 && AllDigits(s)
    ensures NumeralValue(s) == 10 * DigitValue(s[0]) + DigitValue(s[1])
  {
    NumeralOfOne(s[..1]);
  }

  function Pow10(k: nat): (p: nat)
    ensures p >= 1
  {
    if k == 0 then 1 else 10 * Pow10(k - 1)
  }

  /** `%02d`: the two-character zero-padded decimal form of `n`. */
  function TwoDigits(n: nat): (s: string)
    requires n < 100
    ensures |s| == 2 && AllDigits(s)
    ensures NumeralValue(s) == n
  {
    [DigitChar(n / 10), DigitChar(n % 10)]
  }

  /** Reading a two-character numeral and printing it back with `%02d` gives it back. */
  lemma TwoDigitsOfValue(s: string)
    requires |s| == 2 && AllDigits(s)
    ensures NumeralValue(s) < 100
    ensures TwoDigits(NumeralValue(s)) == s
  {
    NumeralOfTwo(s);
    DigitCharOfValue(s[0]);
    DigitCharOfValue(s[1]);
  }
}

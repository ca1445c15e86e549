/** Decimal numerals: the `%d` conversion of `printf` and `String#to_i` on a
    string of ASCII digits. */
module Numerals {

  /** Ruby's `\d`: an ASCII digit. */
  predicate IsDigit(c: char) {
    '0' <= c <= '9'
  }

  predicate AllDigits(s: string) {
    forall i :: 0 <= i < |s| ==> IsDigit(s[i])
  }

  function DigitValue(c: char): nat
    requires IsDigit(c)
  {
    c as int - '0' as int
  }

  function DigitChar(d: nat): (c: char)
    requires d < 10
    ensures IsDigit(c) && DigitValue(c) == d
  {
    ('0' as int + d) as char
  }

  /** The value `String#to_i` reads from a string made only of digits
      (leading zeros allowed). */
  function ParseNat(s: string): nat
    requires AllDigits(s)
  {
    if |s| == 0 then 0 else ParseNat(s[..|s| - 1]) * 10 + DigitValue(s[|s| - 1])
  }

  /** `%d` of a non-negative integer: a non-empty run of digits without a
      leading zero that reads back as `n`. */
  function NatToString(n: nat): (s: string)
    ensures |s| > 0 && AllDigits(s)
    ensures s[0] == '0' ==> n == 0
    ensures ParseNat(s) == n
  {
    if n < 10 then [DigitChar(n)]
    else
      var prefix := NatToString(n / 10);
      var s := prefix + [DigitChar(n % 10)];
      assert s[..|s| - 1] == prefix;
      s
  }

  /** A canonical numeral (no leading zero) is exactly what `%d` writes for
      its value. */
  lemma {:induction false} NatToStringOfParse(s: string)
    requires |s| > 0 && AllDigits(s) && (s[0] == '0' ==> |s| == 1)
    ensures NatToString(ParseNat(s)) == s
    decreases |s|
  {
    if |s| == 1 {
      assert ParseNat(s) == DigitValue(s[0]) by { assert s[..0] == []; }
    } else {
      var prefix := s[..|s| - 1];
      NatToStringOfParse(prefix);
      PositiveParse(prefix);
      assert ParseNat(s) / 10 == ParseNat(prefix);
      assert ParseNat(s) % 10 == DigitValue(s[|s| - 1]);
      assert s == prefix + [s[|s| - 1]];
    }
  }

  /** A numeral that starts with a non-zero digit has a non-zero value. */
  lemma {:induction false} PositiveParse(s: string)
    requires |s| > 0 && AllDigits(s) && s[0] != '0'
    ensures ParseNat(s) > 0
    decreases |s|
  {
    if |s| > 1 {
      PositiveParse(s[..|s| - 1]);
    }
  }
}

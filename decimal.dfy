/**
 * Decimal digit strings, as the dashboard reads the integer amounts and timestamps that the
 * indexing service sends as strings: `parseInt(s, 10)` on a string made only of the digits 0-9.
 */
module Decimal {

  predicate IsDigit(c: char) {
    '0' <= c <= '9'
  }

  function DigitValue(c: char): (d: nat)
    requires IsDigit(c)
    ensures d < 10
  {
    (c as int) - ('0' as int)
  }

  function DigitChar(d: nat): (c: char)
    requires d < 10
    ensures IsDigit(c) && DigitValue(c) == d
  {
    (('0' as int) + d) as char
  }

  /** A non-empty string of decimal digits: the inputs on which `parseInt(s, 10)` is modelled. */
  predicate IsDecimal(s: string) {
    |s| > 0 && forall i :: 0 <= i < |s| ==> IsDigit(s[i])
  }

  /** `parseInt(s, 10)`: the value of the digit string, most significant digit first. */
  function ParseInt(s: string): nat
    requires IsDecimal(s)
    decreases |s|
  {
    if |s| == 1 then DigitValue(s[0])
    else ParseInt(s[..|s| - 1]) * 10 + DigitValue(s[|s| - 1])
  }

  /** The shortest decimal rendering of `n` (no leading zeros), the inverse of ParseInt. */
  function Show(n: nat): (s: string)
    ensures IsDecimal(s)
    ensures |s| > 1 ==> s[0] != '0'
    decreases n
  {
    if n < 10 then [DigitChar(n)] else Show(n / 10) + [DigitChar(n % 10)]
  }

  /** Parsing the rendering of a number gives the number back. */
  lemma {:induction false} ParseShow(n: nat)
    ensures ParseInt(Show(n)) == n
    decreases n
  {
    if n >= 10 {
      var s := Show(n);
      assert s[..|s| - 1] == Show(n / 10);
      ParseShow(n / 10);
    }
  }

  /** A digit string parses to zero exactly when every digit is '0' (so "000" is zero). */
  lemma {:induction false} ParseIntZero(s: string)
    requires IsDecimal(s)
    ensures ParseInt(s) == 0 <==> forall i :: 0 <= i < |s| ==> s[i] == '0'
    decreases |s|
  {
    if |s| > 1 {
      var init := s[..|s| - 1];
      ParseIntZero(init);
      if forall i :: 0 <= i < |s| ==> s[i] == '0' {
        forall i | 0 <= i < |init| ensures init[i] == '0' { assert init[i] == s[i]; }
      }
      if ParseInt(s) == 0 {
        forall i | 0 <= i < |s| ensures s[i] == '0' {
          if i < |s| - 1 { assert s[i] == init[i]; }
        }
      }
    }
  }

  /** A leading zero does not change the value: parseInt("007", 10) is 7. */
  lemma {:induction false} ParseLeadingZero(s: string)
    requires IsDecimal(s)
    ensures IsDecimal("0" + s) && ParseInt("0" + s) == ParseInt(s)
    decreases |s|
  {
    var z := "0" + s;
    assert IsDigit(z[0]);
    assert forall i :: 1 <= i < |z| ==> z[i] == s[i - 1];
    if |s| > 1 {
      assert z[..|z| - 1] == "0" + s[..|s| - 1];
      ParseLeadingZero(s[..|s| - 1]);
    }
  }
}

/**
 * Decimal digit strings: reading an ASCII digit run as a number (what an
 * `(int)` cast does to a run matched by `\d+`) and writing an integer back
 * out in decimal (what string concatenation does to an `int`).
 */
module Decimal {

  /** `\d` without the Unicode modifier: the ten ASCII digits. */
  predicate IsDigit(c: char) {
    '0' <= c <= '9'
  }

  predicate IsDigits(d: string) {
    forall i :: 0 <= i < |d| ==> IsDigit(d[i])
  }

  function DigitValue(c: char): (r: nat)
    requires IsDigit(c)
    ensures r < 10
  {
    c as int - '0' as int
  }

  function DigitChar(n: nat): (c: char)
    requires n < 10
    ensures IsDigit(c) && DigitValue(c) == n
  {
    ('0' as int + n) as char
  }

  /** The number a digit string denotes, most significant digit first; zero exactly for a run of zeros. */
  function Value(d: string): (r: nat)
    requires IsDigits(d)
    ensures r == 0 <==> forall i :: 0 <= i < |d| ==> d[i] == '0'
  {
    if d == [] then 0 else Value(d[..|d| - 1]) * 10 + DigitValue(d[|d| - 1])
  }

  /** Leading zeros add nothing to the value. */
  lemma {:induction false} LeadingZeroIgnored(d: string)
    requires IsDigits(d)
    ensures IsDigits("0" + d) && Value("0" + d) == Value(d)
    decreases |d|
  {
    var z := "0" + d;
    assert IsDigits(z) by {
      forall i | 0 <= i < |z| ensures IsDigit(z[i]) {
        if i > 0 { assert z[i] == d[i - 1]; }
      }
    }
    if d != [] {
      var p := d[..|d| - 1];
      assert z[..|z| - 1] == "0" + p;
      assert z[|z| - 1] == d[|d| - 1];
      LeadingZeroIgnored(p);
    }
  }

  /** The shortest decimal spelling of a natural number. */
  function FromNat(n: nat): (r: string)
    ensures |r| > 0 && IsDigits(r)
    ensures Value(r) == n
    ensures |r| > 1 ==> r[0] != '0'
    decreases n
  {
    var last := [DigitChar(n % 10)];
    if n < 10 then last
    else
      var p := FromNat(n / 10);
      assert (p + last)[..|p|] == p;
      p + last
  }

  /** An integer in decimal, with a minus sign when it is negative. */
  function FromInt(i: int): (r: string)
    ensures |r| > 0 && IsDigit(r[|r| - 1])
    ensures i >= 0 ==> IsDigits(r) && Value(r) == i
    ensures i < 0 ==> r[0] == '-' && IsDigits(r[1..]) && Value(r[1..]) == -i
  {
    if i >= 0 then FromNat(i) else "-" + FromNat(-i)
  }
}

/**
 * Names of the output clips: `story_segment_<k>.mp4`, with `k` written in
 * decimal without leading zeros, as a formatted integer is.
 */
module Naming {

  function DigitChar(d: nat): (c: char)
    requires d < 10
  {
    ('0' as int + d) as char
  }

  predicate IsDigit(c: char)
  {
    '0' <= c <= '9'
  }

  function DigitValue(c: char): nat
    requires IsDigit(c)
  {
    c as int - '0' as int
  }

  /** The decimal form of `n`: at least one digit, no leading zero unless `n` is zero. */
  function Decimal(n: nat): (s: string)
    ensures |s| >= 1
    ensures forall i :: 0 <= i < |s| ==> IsDigit(s[i])
    ensures s[0] == '0' ==> n == 0
  {
    if n < 10 then [DigitChar(n)] else Decimal(n / 10) + [DigitChar(n % 10)]
  }

  /** The value of a string of decimal digits; the empty string reads as zero. */
  function ParseDecimal(s: string): nat
    requires forall i :: 0 <= i < |s| ==> IsDigit(s[i])
  {
    if s == [] then 0
    else ParseDecimal(s[..|s| - 1]) * 10 + DigitValue(s[|s| - 1])
  }

  /** Reading back the decimal form of `n` gives `n`. */
  lemma {:induction false} DecimalRoundTrip(n: nat)
    ensures ParseDecimal(Decimal(n)) == n
  {
    if n >= 10 {
      DecimalRoundTrip(n / 10);
      var s := Decimal(n);
      assert s[..|s| - 1] == Decimal(n / 10);
    }
  }

  const ClipPrefix: string := "story_segment_"
  const ClipSuffix: string := ".mp4"

  /**
   * The file name of the `k`-th extracted clip, counting from one: the fixed
   * prefix and suffix around a canonical decimal numeral that reads as `k`.
   */
  function ClipName(k: nat): (name: string)
    ensures |name| > |ClipPrefix| + |ClipSuffix|
    ensures name[..|ClipPrefix|] == ClipPrefix
    ensures name[|name| - |ClipSuffix|..] == ClipSuffix
    ensures var mid := name[|ClipPrefix|..|name| - |ClipSuffix|];
            && (forall i :: 0 <= i < |mid| ==> IsDigit(mid[i]))
            && (mid[0] == '0' ==> k == 0)
            && ParseDecimal(mid) == k
  {
    DecimalRoundTrip(k);
    var name := ClipPrefix + Decimal(k) + ClipSuffix;
    assert name[|ClipPrefix|..|name| - |ClipSuffix|] == Decimal(k);
    name
  }

  /** Distinct indices give distinct clip names, so no clip overwrites another. */
  lemma ClipNameInjective(a: nat, b: nat)
    ensures ClipName(a) == ClipName(b) ==> a == b
  {
  }

  /** The first clip is `story_segment_1.mp4`. */
  lemma FirstClipName()
    ensures ClipName(1) == "story_segment_1.mp4"
  {
  }
}

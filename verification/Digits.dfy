/** Decimal numerals as Go's fmt package prints and scans them. */
module Digits {

  predicate IsDigit(c: char) { '0' <= c <= '9' }

  function DigitChar(d: nat): (c: char)
    requires d < 10
    ensures IsDigit(c) && DigitValue(c) == d
  {
    "0123456789"[d]
  }

  function DigitValue(c: char): (d: nat)
    requires IsDigit(c)
    ensures d < 10
  {
    (c as int) - ('0' as int)
  }

  /** %d of a natural number. */
  function Decimal(n: nat): (s: string)
    ensures s != "" && forall k :: 0 <= k < |s| ==> IsDigit(s[k])
  {
    if n < 10 then [DigitChar(n)] else Decimal(n / 10) + [DigitChar(n % 10)]
  }

  /** %0<w>d: zeros in front up to the width. */
  function Padded(n: nat, width: nat): (s: string)
    ensures |s| >= width && s != "" && forall k :: 0 <= k < |s| ==> IsDigit(s[k])
  {
    var d := Decimal(n);
    if |d| >= width then d else seq(width - |d|, _ => '0') + d
  }

  function ValueOf(s: string): nat
    requires forall k :: 0 <= k < |s| ==> IsDigit(s[k])
  {
    if s == "" then 0 else 10 * ValueOf(s[..|s| - 1]) + DigitValue(s[|s| - 1])
  }

  lemma {:induction false} DecimalValue(n: nat)
    ensures ValueOf(Decimal(n)) == n
  {
    if n < 10 {
      assert [DigitChar(n)][..0] == "";
    } else {
      DecimalValue(n / 10);
      var s := Decimal(n);
      assert s[..|s| - 1] == Decimal(n / 10);
    }
  }

  lemma {:induction false} ZerosDoNotCount(k: nat, s: string)
    requires forall i :: 0 <= i < |s| ==> IsDigit(s[i])
    ensures ValueOf(seq(k, _ => '0') + s) == ValueOf(s)
    decreases |s|, k
  {
    var z := seq(k, _ => '0');
    if s != "" {
      assert (z + s)[..|z + s| - 1] == z + s[..|s| - 1];
      ZerosDoNotCount(k, s[..|s| - 1]);
    } else if k > 0 {
      assert z + s == z;
      assert z[..k - 1] == seq(k - 1, _ => '0') + "";
      ZerosDoNotCount(k - 1, "");
    } else {
      assert z + s == "";
    }
  }

  /** Zero-padded numerals of different numbers differ. */
  lemma PaddedValue(n: nat, width: nat)
    ensures ValueOf(Padded(n, width)) == n
  {
    DecimalValue(n);
    var d := Decimal(n);
    if |d| < width { ZerosDoNotCount(width - |d|, d); }
  }

  function Pow10(k: nat): nat { if k == 0 then 1 else 10 * Pow10(k - 1) }

  /** A numeral has k digits exactly when the number is at least 10^(k-1) and below 10^k. */
  lemma {:induction false} DecimalLength(n: nat)
    ensures n < Pow10(|Decimal(n)|)
    ensures n >= 10 ==> n >= Pow10(|Decimal(n)| - 1)
    ensures n < 10 ==> |Decimal(n)| == 1
  {
    if n >= 10 {
      DecimalLength(n / 10);
      var k := |Decimal(n / 10)|;
      assert |Decimal(n)| == k + 1;
      assert Pow10(k + 1) == 10 * Pow10(k);
      if n / 10 >= 10 {
        assert Pow10(k) == 10 * Pow10(k - 1);
      } else {
        assert k == 1 && Pow10(1) == 10;
      }
    } else {
      assert Pow10(1) == 10;
    }
  }
}

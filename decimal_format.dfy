/**
 * Decimal rendering of a non-negative integer with Python's `0<width>` format
 * specification (`f"{n:05}"`): the decimal digits of `n`, preceded by as many
 * '0' characters as are needed to reach `width`. Wider numbers are never
 * truncated. `ParseDecimal` reads such a string back.
 */
module DecimalFormat {

  predicate IsDigit(c: char) {
    '0' <= c <= '9'
  }

  predicate IsDigits(s: string) {
    forall i :: 0 <= i < |s| ==> IsDigit(s[i])
  }

  function DigitChar(d: nat): (c: char)
    requires d < 10
    ensures IsDigit(c)
  {
    ('0' as int + d) as char
  }

  function DigitValue(c: char): (d: nat)
    requires IsDigit(c)
    ensures d < 10 && DigitChar(d) == c
  {
    c as int - '0' as int
  }

  function Pow10(k: nat): (p: nat)
    ensures p >= 1
  {
    if k == 0 then 1 else 10 * Pow10(k - 1)
  }

  function Max(a: nat, b: nat): nat {
    if a < b then b else a
  }

  /** The shortest decimal representation of `n` (no leading zero unless `n` is 0). */
  function Digits(n: nat): (s: string)
    ensures |s| >= 1 && IsDigits(s)
    ensures s[0] == '0' ==> n == 0
    decreases n
  {
    if n < 10 then [DigitChar(n)] else Digits(n / 10) + [DigitChar(n % 10)]
  }

  /** `k` copies of the fill character '0'. */
  function Zeros(k: nat): (s: string)
    ensures |s| == k
    ensures forall i :: 0 <= i < k ==> s[i] == '0'
  {
    seq(k, _ => '0')
  }

  /** `f"{n:0<width>}"`: zero-filled to at least `width` characters. */
  function ZeroPadded(n: nat, width: nat): (s: string)
    ensures |s| == Max(width, |Digits(n)|)
    ensures IsDigits(s)
  {
    var d := Digits(n);
    if |d| < width then Zeros(width - |d|) + d else d
  }

  /** The value of a string of decimal digits, most significant first. */
  function ParseDecimal(s: string): nat
    requires IsDigits(s)
    decreases |s|
  {
    if s == [] then 0 else 10 * ParseDecimal(s[..|s| - 1]) + DigitValue(s[|s| - 1])
  }

  lemma {:induction false} ParseDigits(n: nat)
    ensures ParseDecimal(Digits(n)) == n
    decreases n
  {
    if n >= 10 {
      ParseDigits(n / 10);
      var d := Digits(n);
      assert d[..|d| - 1] == Digits(n / 10);
    }
  }

  lemma {:induction false} ParseZeros(k: nat)
    ensures ParseDecimal(Zeros(k)) == 0
  {
    if k > 0 {
      ParseZeros(k - 1);
      assert Zeros(k)[..k - 1] == Zeros(k - 1);
    }
  }

  /** Leading zeros do not change the value read back. */
  lemma {:induction false} ParseLeadingZeros(k: nat, s: string)
    requires IsDigits(s)
    ensures IsDigits(Zeros(k) + s)
    ensures ParseDecimal(Zeros(k) + s) == ParseDecimal(s)
    decreases |s|
  {
    var t := Zeros(k) + s;
    assert IsDigits(t) by {
      forall i | 0 <= i < |t| ensures IsDigit(t[i]) {
        if i >= k { assert t[i] == s[i - k]; }
      }
    }
    if s == [] {
      assert t == Zeros(k);
      ParseZeros(k);
    } else {
      var init := s[..|s| - 1];
      assert t[..|t| - 1] == Zeros(k) + init;
      ParseLeadingZeros(k, init);
    }
  }

  /** Round trip: reading the padded rendering back gives the number. */
  lemma {:induction false} ParseZeroPadded(n: nat, width: nat)
    ensures ParseDecimal(ZeroPadded(n, width)) == n
  {
    var d := Digits(n);
    var p := ZeroPadded(n, width);
    ParseDigits(n);
    if |d| < width {
      var z := Zeros(width - |d|);
      ParseLeadingZeros(width - |d|, d);
      assert p == z + d;
      assert ParseDecimal(z + d) == n;
    }
  }

  /** Distinct numbers always render differently at the same width. */
  lemma ZeroPaddedInjective(m: nat, n: nat, width: nat)
    ensures ZeroPadded(m, width) == ZeroPadded(n, width) <==> m == n
  {
    ParseZeroPadded(m, width);
    ParseZeroPadded(n, width);
  }

  /** `n` has at most `k` digits exactly when it is below 10^k. */
  lemma {:induction false} DigitsLength(n: nat, k: nat)
    requires k >= 1
    ensures |Digits(n)| <= k <==> n < Pow10(k)
    decreases n
  {
    if n >= 10 {
      if k == 1 {
        assert |Digits(n)| == |Digits(n / 10)| + 1;
      } else {
        DigitsLength(n / 10, k - 1);
        assert n / 10 < Pow10(k - 1) <==> n < 10 * Pow10(k - 1);
      }
    } else {
      assert Pow10(k) == 10 * Pow10(k - 1);
    }
  }

  /** The rendering is exactly `width` characters wide precisely for numbers below 10^width. */
  lemma ZeroPaddedExactWidth(n: nat, width: nat)
    requires width >= 1
    ensures |ZeroPadded(n, width)| == width <==> n < Pow10(width)
  {
    DigitsLength(n, width);
  }
}

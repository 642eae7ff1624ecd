/** Decimal numerals as Python's `d` and `0Nd` format specifications write them. */
module Decimals {

  predicate IsDigit(c: char) { '0' <= c <= '9' }

  predicate AllDigits(s: string) { forall i :: 0 <= i < |s| ==> IsDigit(s[i]) }

  function DigitChar(d: nat): (c: char)
    requires d < 10
    ensures IsDigit(c) && DigitValue(c) == d
  {
    ('0' as int + d) as char
  }

  function DigitValue(c: char): (d: nat)
    requires IsDigit(c)
    ensures d < 10
  {
    c as int - '0' as int
  }

  /** The numeral of `n`, without leading zeros. */
  function Digits(n: nat): (s: string)
    ensures 1 <= |s| && AllDigits(s)
  {
    if n < 10 then [DigitChar(n)] else Digits(n / 10) + [DigitChar(n % 10)]
  }

  function Zeros(n: nat): (s: string)
    ensures |s| == n && AllDigits(s)
    ensures forall i :: 0 <= i < n ==> s[i] == '0'
  {
    seq(n, i => '0')
  }

  /** `{:0Nd}` with N == width; a width of 0 is a plain `{:d}`. */
  function ZeroPadded(n: nat, width: nat): (s: string)
    ensures AllDigits(s) && |s| >= width && |s| >= |Digits(n)|
  {
    var d := Digits(n);
    if |d| >= width then d else Zeros(width - |d|) + d
  }

  /** The number a digit string denotes. */
  function Value(s: string): nat
    requires AllDigits(s)
  {
    if s == "" then 0 else 10 * Value(s[..|s| - 1]) + DigitValue(s[|s| - 1])
  }

  lemma {:induction false} ValueOfDigits(n: nat)
    ensures Value(Digits(n)) == n
  {
    if n < 10 {
    } else {
      ValueOfDigits(n / 10);
      assert Digits(n)[..|Digits(n)| - 1] == Digits(n / 10);
    }
  }

  lemma {:induction false} ValueIgnoresLeadingZeros(k: nat, s: string)
    requires AllDigits(s)
    ensures Value(Zeros(k) + s) == Value(s)
  {
    if s == "" {
      assert Zeros(k) + s == Zeros(k);
      ValueOfZeros(k);
    } else {
      ValueIgnoresLeadingZeros(k, s[..|s| - 1]);
      assert (Zeros(k) + s)[..k + |s| - 1] == Zeros(k) + s[..|s| - 1];
    }
  }

  lemma {:induction false} ValueOfZeros(k: nat)
    ensures Value(Zeros(k)) == 0
  {
    if k == 0 {
    } else {
      ValueOfZeros(k - 1);
      assert Zeros(k)[..k - 1] == Zeros(k - 1);
    }
  }

  /** Padding loses nothing: the number can be read back, so padding is injective. */
  lemma ValueOfZeroPadded(n: nat, width: nat)
    ensures Value(ZeroPadded(n, width)) == n
  {
    ValueOfDigits(n);
    var d := Digits(n);
    if |d| < width { ValueIgnoresLeadingZeros(width - |d|, d); }
  }

  lemma {:induction false} LengthMonotone(m: nat, n: nat)
    requires m <= n
    ensures |Digits(m)| <= |Digits(n)|
  {
    if m < 10 {
    } else {
      LengthMonotone(m / 10, n / 10);
    }
  }

  /** The numeral of n, padded with zeros to the width and no further. */
  predicate Numeral(s: string, width: nat, n: nat) {
    && |s| >= 1 && |s| >= width && AllDigits(s) && Value(s) == n
    && (|s| > 1 && |s| > width ==> s[0] != '0')
  }

  lemma {:induction false} NoLeadingZero(n: nat)
    ensures |Digits(n)| > 1 ==> Digits(n)[0] != '0'
  {
    if n < 10 {
    } else if n / 10 < 10 {
      assert DigitValue(DigitChar(n / 10)) != 0;
    } else {
      NoLeadingZero(n / 10);
      LongNumeral(n / 10);
    }
  }

  lemma LongNumeral(n: nat)
    requires n >= 10
    ensures |Digits(n)| > 1
  {
  }

  lemma ZeroPaddedIsNumeral(n: nat, width: nat)
    ensures Numeral(ZeroPadded(n, width), width, n)
  {
    ValueOfZeroPadded(n, width);
    NoLeadingZero(n);
  }

  /** There is one such numeral for each number and width. */
  lemma {:induction false} NumeralUnique(a: string, b: string)
    requires AllDigits(a) && AllDigits(b) && |a| == |b| && Value(a) == Value(b)
    ensures a == b
  {
    if a == "" {
    } else {
      var k := |a| - 1;
      NumeralUnique(a[..k], b[..k]);
      assert a == a[..k] + [a[k]] && b == b[..k] + [b[k]];
    }
  }

  function PowerOfTen(k: nat): nat { if k == 0 then 1 else 10 * PowerOfTen(k - 1) }

  /** A number has at most k digits exactly if it is below the k-th power of ten. */
  lemma {:induction false} DigitsBelow(n: nat, k: nat)
    requires k >= 1
    ensures |Digits(n)| <= k <==> n < PowerOfTen(k)
    decreases k
  {
    if n < 10 {
      PowerAtLeastTen(k);
    } else if k == 1 {
    } else {
      DigitsBelow(n / 10, k - 1);
    }
  }

  lemma {:induction false} PowerAtLeastTen(k: nat)
    requires k >= 1
    ensures PowerOfTen(k) >= 10
  {
    if k == 1 {
    } else {
      PowerAtLeastTen(k - 1);
    }
  }
}

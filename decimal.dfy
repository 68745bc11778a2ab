// Decimal text for unsigned integers, as Rust's formatting machinery produces
// it (`format!("{}", n)` and the zero-padded `format!("{:0w$}", n)`), and the
// reading of such text back into a number.

module Decimal {
  import opened Common

  predicate IsDigitChar(c: char) {
    '0' <= c <= '9'
  }

  predicate IsDecimal(s: string) {
    forall i :: 0 <= i < |s| ==> IsDigitChar(s[i])
  }

  function DigitValue(c: char): (d: nat)
    requires IsDigitChar(c)
    ensures d < 10
  {
    (c as int) - ('0' as int)
  }

  function DigitChar(d: nat): (c: char)
    requires d < 10
    ensures IsDigitChar(c) && DigitValue(c) == d
  {
    ('0' as int + d) as char
  }

  /** `format!("{}", n)`: the shortest decimal spelling, "0" for zero. */
  function NatToString(n: nat): (s: string)
    ensures |s| >= 1 && IsDecimal(s)
    ensures |s| > 1 ==> s[0] != '0'
  {
    if n < 10 then [DigitChar(n)] else NatToString(n / 10) + [DigitChar(n % 10)]
  }

  /** The number a string of decimal digits denotes (leading zeros allowed). */
  function ParseDecimal(s: string): nat
    requires IsDecimal(s)
  {
    if s == [] then 0 else ParseDecimal(s[..|s| - 1]) * 10 + DigitValue(s[|s| - 1])
  }

  /** Reading back what `NatToString` wrote gives the number again. */
  lemma {:induction false} ParseNatToString(n: nat)
    ensures ParseDecimal(NatToString(n)) == n
  {
    var s := NatToString(n);
    if n >= 10 {
      ParseNatToString(n / 10);
      assert s[..|s| - 1] == NatToString(n / 10);
    }
  }

  /** `NatToString(n)` fits in `k >= 1` characters exactly when `n < 10^k`. */
  lemma {:induction false} NatToStringLength(n: nat, k: nat)
    requires k >= 1
    ensures |NatToString(n)| <= k <==> n < Pow(10, k)
  {
    if n < 10 {
      PowMonotone(10, 1, k);
    } else if k == 1 {
    } else {
      NatToStringLength(n / 10, k - 1);
      assert Pow(10, k) == 10 * Pow(10, k - 1);
    }
  }

  /** The arithmetic of appending one digit to `a * p + q`. */
  lemma ShiftDigit(a: nat, p: nat, q: nat, d: nat)
    ensures (a * p + q) * 10 + d == a * (10 * p) + (q * 10 + d)
  {
  }

  /** The value of a concatenation of digit strings. */
  lemma {:induction false} ParseConcat(a: string, b: string)
    requires IsDecimal(a) && IsDecimal(b)
    ensures IsDecimal(a + b)
    ensures ParseDecimal(a + b) == ParseDecimal(a) * Pow(10, |b|) + ParseDecimal(b)
  {
    if b != [] {
      var ab := a + b;
      var b' := b[..|b| - 1];
      assert ab[..|ab| - 1] == a + b';
      ParseConcat(a, b');
      ShiftDigit(ParseDecimal(a), Pow(10, |b'|), ParseDecimal(b'), DigitValue(b[|b| - 1]));
    } else {
      assert a + b == a;
    }
  }

  lemma {:induction false} ParseZeros(n: nat)
    ensures IsDecimal(seq(n, _ => '0'))
    ensures ParseDecimal(seq(n, _ => '0')) == 0
  {
    var z := seq(n, _ => '0');
    if n > 0 {
      assert z[..n - 1] == seq(n - 1, _ => '0');
      ParseZeros(n - 1);
    }
  }

  /** The padding step of `format!("{:0width$}", n)` for unsigned `n`: left-fill
      with '0' up to `width`; a longer string is left alone. */
  function PadZeros(s: string, width: nat): (r: string)
    ensures |r| == if |s| < width then width else |s|
  {
    if |s| < width then seq(width - |s|, _ => '0') + s else s
  }

  /** The padded text ends with the original and is '0' before it. */
  lemma PadZerosShape(s: string, width: nat)
    ensures var r := PadZeros(s, width);
            r[|r| - |s|..] == s && forall i :: 0 <= i < |r| - |s| ==> r[i] == '0'
  {
    var r := PadZeros(s, width);
    if |s| < width {
      assert r == seq(width - |s|, _ => '0') + s;
    }
  }

  /** Zero padding changes neither the digit-only shape nor the value. */
  lemma PadZerosValue(s: string, width: nat)
    requires IsDecimal(s)
    ensures IsDecimal(PadZeros(s, width))
    ensures ParseDecimal(PadZeros(s, width)) == ParseDecimal(s)
  {
    if |s| < width {
      ParseZeros(width - |s|);
      ParseConcat(seq(width - |s|, _ => '0'), s);
    }
  }

  /** `format!("{:0width$}", n)` for an unsigned `n`. */
  function FormatPadded(n: nat, width: nat): (r: string)
    ensures IsDecimal(r) && ParseDecimal(r) == n
    ensures |r| >= width && |r| >= 1
  {
    ParseNatToString(n);
    PadZerosValue(NatToString(n), width);
    PadZeros(NatToString(n), width)
  }

  /** Below `10^width` the padded text has exactly `width` characters. */
  lemma PaddedLength(n: nat, width: nat)
    requires width >= 1 && n < Pow(10, width)
    ensures |FormatPadded(n, width)| == width
  {
    NatToStringLength(n, width);
  }
}

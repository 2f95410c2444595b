/** Decimal rendering of integers, as the C++ stream operator `<<`, the
    `std::setw`/`std::setfill('0')` manipulators, `sprintf("%05d")` and Go's
    `fmt` verbs `%d` / `%02d` produce it, with the parser that reads it back. */
module Text {

  predicate IsDigit(c: char) {
    '0' <= c <= '9'
  }

  predicate AllDigits(s: string) {
    forall i | 0 <= i < |s| :: IsDigit(s[i])
  }

  function DigitChar(d: nat): (c: char)
    requires d < 10
    ensures IsDigit(c)
  {
    ('0' as int + d) as char
  }

  function DigitValue(c: char): (d: nat)
    requires IsDigit(c)
    ensures d < 10
  {
    c as int - '0' as int
  }

  function Pow10(k: nat): (p: nat)
    ensures p >= 1
  {
    if k == 0 then 1 else 10 * Pow10(k - 1)
  }

  /** Unpadded decimal text of a non-negative integer (no sign, no leading zero). */
  function Decimal(n: nat): (s: string)
    decreases n
  {
    if n < 10 then [DigitChar(n)] else Decimal(n / 10) + [DigitChar(n % 10)]
  }

  /** The number a string of decimal digits stands for. */
  function DecimalValue(s: string): (v: nat)
    requires AllDigits(s)
  {
    if s == [] then 0 else DecimalValue(s[..|s| - 1]) * 10 + DigitValue(s[|s| - 1])
  }

  /** `s` is a string of decimal digits standing for `n`. */
  predicate IsNumeral(s: string, n: nat) {
    AllDigits(s) && DecimalValue(s) == n
  }

  /** `s` is `n` as `%d` prints it: its digits with no leading zero, except
      for "0" itself. */
  predicate IsPlainNumeral(s: string, n: nat) {
    IsNumeral(s, n) && |s| >= 1 && (|s| == 1 || s[0] != '0')
  }

  /** Go `%d` of a signed integer: a minus sign, then the digits of the magnitude. */
  function SignedDecimal(i: int): (s: string)
  {
    if i < 0 then "-" + Decimal(-i) else Decimal(i)
  }

  function Repeat(c: char, k: nat): (s: string)
    ensures |s| == k && forall i | 0 <= i < k :: s[i] == c
  {
    if k == 0 then [] else Repeat(c, k - 1) + [c]
  }

  /** `std::setw(width) << std::setfill(fill) << s`: pad on the left up to a
      MINIMUM width; a longer text is kept whole. */
  function PadLeft(s: string, width: nat, fill: char): (r: string)
    ensures |r| == if |s| >= width then |s| else width
    ensures r[|r| - |s|..] == s
    ensures forall i | 0 <= i < |r| - |s| :: r[i] == fill
  {
    if |s| >= width then s else Repeat(fill, width - |s|) + s
  }

  /** `setw(width) << setfill('0') << n`, `%0<width>d` for a non-negative n. */
  function ZeroPad(n: nat, width: nat): string
  {
    PadLeft(Decimal(n), width, '0')
  }

  lemma {:induction false} DecimalShape(n: nat)
    ensures AllDigits(Decimal(n))
    ensures 1 <= |Decimal(n)|
    ensures n < Pow10(|Decimal(n)|)
    ensures n > 0 ==> Decimal(n)[0] != '0'
    decreases n
  {
    if n >= 10 {
      DecimalShape(n / 10);
    }
  }

  /** Reading the decimal text back gives the number. */
  lemma {:induction false} DecimalRoundTrip(n: nat)
    ensures AllDigits(Decimal(n)) && DecimalValue(Decimal(n)) == n
    decreases n
  {
    DecimalShape(n);
    if n >= 10 {
      DecimalRoundTrip(n / 10);
      var s := Decimal(n);
      assert s[..|s| - 1] == Decimal(n / 10);
    }
  }

  /** Unpadded decimal printing gives the plain numeral of the number. */
  lemma DecimalIsPlain(n: nat)
    ensures IsPlainNumeral(Decimal(n), n)
  {
    DecimalShape(n);
    DecimalRoundTrip(n);
  }

  /** The plain numeral of n is unique: it is `Decimal(n)`. */
  lemma {:induction false} PlainNumeralIsDecimal(s: string, n: nat)
    requires IsPlainNumeral(s, n)
    ensures s == Decimal(n)
    decreases |s|
  {
    if |s| > 1 {
      var p := s[..|s| - 1];
      assert p[0] == s[0];
      LeadingDigitValue(p);
      assert DecimalValue(p) == n / 10 && DigitValue(s[|s| - 1]) == n % 10;
      PlainNumeralIsDecimal(p, n / 10);
      assert s == p + [s[|s| - 1]];
    }
  }

  /** Digits led by a non-zero digit stand for at least 10^(length - 1). */
  lemma {:induction false} LeadingDigitValue(s: string)
    requires AllDigits(s) && |s| >= 1 && s[0] != '0'
    ensures DecimalValue(s) >= Pow10(|s| - 1)
    decreases |s|
  {
    if |s| > 1 {
      var p := s[..|s| - 1];
      assert p[0] == s[0];
      LeadingDigitValue(p);
    }
  }

  /** A number below 10^w has at most w digits. */
  lemma {:induction false} DecimalLength(n: nat, w: nat)
    requires n < Pow10(w)
    ensures |Decimal(n)| <= w || (w == 0 && |Decimal(n)| == 1)
    decreases n
  {
    if n >= 10 {
      assert w >= 2;
      DecimalLength(n / 10, w - 1);
    }
  }

  lemma {:induction false} ZerosValue(k: nat)
    ensures AllDigits(Repeat('0', k)) && DecimalValue(Repeat('0', k)) == 0
  {
    if k > 0 {
      ZerosValue(k - 1);
      var z, z' := Repeat('0', k), Repeat('0', k - 1);
      assert z == z' + ['0'];
      assert z[..k - 1] == z';
      assert DecimalValue(z) == DecimalValue(z') * 10 + DigitValue('0');
    }
  }

  /** Leading zeros do not change the value of a digit string. */
  lemma {:induction false} LeadingZerosValue(k: nat, s: string)
    requires AllDigits(s)
    ensures AllDigits(Repeat('0', k) + s)
    ensures DecimalValue(Repeat('0', k) + s) == DecimalValue(s)
    decreases |s|
  {
    var z := Repeat('0', k);
    if s == [] {
      assert z + s == z;
      ZerosValue(k);
    } else {
      LeadingZerosValue(k, s[..|s| - 1]);
      assert (z + s)[..|z + s| - 1] == z + s[..|s| - 1];
    }
  }

  /** The number of characters `n` takes when printed with a minimum width:
      its own digits, or `width` when they are fewer. */
  function NumeralWidth(n: nat, width: nat): nat
  {
    if |Decimal(n)| >= width then |Decimal(n)| else width
  }

  lemma {:induction false} Pow10Monotone(i: nat, j: nat)
    requires i <= j
    ensures Pow10(i) <= Pow10(j)
    decreases j
  {
    if i < j {
      Pow10Monotone(i, j - 1);
    }
  }

  /** Zero padding keeps the value and yields exactly `width` characters when
      the number fits in `width` digits; a larger number keeps all its digits. */
  lemma ZeroPadFacts(n: nat, width: nat)
    ensures AllDigits(ZeroPad(n, width)) && DecimalValue(ZeroPad(n, width)) == n
    ensures |ZeroPad(n, width)| == NumeralWidth(n, width) >= width
    ensures |ZeroPad(n, width)| >= 1
    ensures 1 <= width && n < Pow10(width) ==> |ZeroPad(n, width)| == width
    ensures n >= Pow10(width) ==> |ZeroPad(n, width)| == |Decimal(n)| > width
  {
    DecimalRoundTrip(n);
    DecimalShape(n);
    var s := Decimal(n);
    if |s| < width {
      LeadingZerosValue(width - |s|, s);
    }
    if n < Pow10(width) {
      DecimalLength(n, width);
    } else if |s| <= width {
      Pow10Monotone(|s|, width);
    }
  }
}

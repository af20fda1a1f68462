/**
 * Decimal spellings of numbers, as JavaScript's `Number.prototype.toString`
 * writes a non-negative integer and `parseInt` reads a string of digits back,
 * and the zero-padded fixed-width fields of `Date.prototype.toISOString`.
 */
module Decimal {

  predicate IsDigit(c: char) {
    '0' <= c <= '9'
  }

  predicate IsDigits(s: string) {
    forall i :: 0 <= i < |s| ==> IsDigit(s[i])
  }

  function DigitChar(d: nat): (c: char)
    requires d < 10
    ensures IsDigit(c)
  {
    ('0' as int + d) as char
  }

  function DigitValue(c: char): (d: nat)
    requires IsDigit(c)
    ensures d < 10 && DigitChar(d) == c
  {
    c as int - '0' as int
  }

  function Pow10(n: nat): (p: nat)
    ensures p >= 1
  {
    if n == 0 then 1 else 10 * Pow10(n - 1)
  }

  /** The value of a string of decimal digits, most significant digit first. */
  function DigitsValue(s: string): nat
    requires IsDigits(s)
  {
    if s == [] then 0 else DigitsValue(s[..|s| - 1]) * 10 + DigitValue(s[|s| - 1])
  }

  /** The shortest decimal spelling of `n`: `String(n)` for a non-negative integer. */
  function NatToString(n: nat): (s: string)
    ensures |s| > 0 && IsDigits(s)
    ensures |s| > 1 ==> s[0] != '0'
    ensures n < 10 <==> |s| == 1
  {
    if n < 10 then [DigitChar(n)] else NatToString(n / 10) + [DigitChar(n % 10)]
  }

  /** `String(n)` for any integer: a minus sign before the digits of a negative number. */
  function IntToString(n: int): (s: string)
    ensures |s| > 0
    ensures n >= 0 <==> IsDigits(s)
    ensures n >= 0 ==> DigitsValue(s) == n
    ensures n < 0 ==> s[0] == '-' && IsDigits(s[1..]) && DigitsValue(s[1..]) == -n
  {
    if n >= 0 then
      NatToStringRoundTrip(n);
      NatToString(n)
    else
      var s := "-" + NatToString(-n);
      assert !IsDigit(s[0]);
      assert s[1..] == NatToString(-n);
      NatToStringRoundTrip(-n);
      s
  }

  /** `n` written with exactly `width` digits, padded with leading zeros. */
  function Padded(n: nat, width: nat): (s: string)
    requires n < Pow10(width)
    ensures |s| == width && IsDigits(s)
    ensures DigitsValue(s) == n
  {
    if width == 0 then []
    else
      var s := Padded(n / 10, width - 1) + [DigitChar(n % 10)];
      assert s[..|s| - 1] == Padded(n / 10, width - 1);
      s
  }

  /** Reading back the spelling of a number gives the number: `parseInt(String(n)) == n`. */
  lemma {:induction false} NatToStringRoundTrip(n: nat)
    ensures DigitsValue(NatToString(n)) == n
  {
    if n >= 10 {
      var s := NatToString(n);
      assert s[..|s| - 1] == NatToString(n / 10);
      NatToStringRoundTrip(n / 10);
    }
  }

  /** The years 1000 through 9999 are spelled with four digits. */
  lemma {:induction false} FourDigitSpelling(n: nat)
    requires 1000 <= n <= 9999
    ensures |NatToString(n)| == 4
  {
    var a, b, c := n / 10, n / 10 / 10, n / 10 / 10 / 10;
    assert 100 <= a <= 999 && 10 <= b <= 99 && 1 <= c <= 9;
    assert |NatToString(c)| == 1;
    assert NatToString(b) == NatToString(c) + [DigitChar(b % 10)];
    assert NatToString(a) == NatToString(b) + [DigitChar(a % 10)];
    assert NatToString(n) == NatToString(a) + [DigitChar(n % 10)];
  }

  /** Different numbers have different spellings. */
  lemma NatToStringInjective(a: nat, b: nat)
    ensures NatToString(a) == NatToString(b) <==> a == b
  {
    if NatToString(a) == NatToString(b) {
      NatToStringRoundTrip(a);
      NatToStringRoundTrip(b);
    }
  }

  /** A string of digits is the padded spelling of its own value at its own width. */
  lemma {:induction false} PaddedOfDigitsValue(s: string)
    requires IsDigits(s)
    ensures DigitsValue(s) < Pow10(|s|)
    ensures Padded(DigitsValue(s), |s|) == s
  {
    if s != [] {
      var init := s[..|s| - 1];
      PaddedOfDigitsValue(init);
      var v := DigitsValue(s);
      assert v / 10 == DigitsValue(init) && v % 10 == DigitValue(s[|s| - 1]);
      assert s == init + [s[|s| - 1]];
    }
  }

  /** Shifting a weighted digit one place left. */
  lemma ShiftWeight(d: nat, p: nat)
    ensures (d * p) * 10 == d * (10 * p)
  {
  }

  /** Value of a digit string read from the front: the leading digit weighs 10^(|s|-1). */
  lemma {:induction false} DigitsValueFront(s: string)
    requires IsDigits(s) && |s| > 0
    ensures DigitsValue(s) == DigitValue(s[0]) * Pow10(|s| - 1) + DigitsValue(s[1..])
  {
    if |s| > 1 {
      var n := |s|;
      var init, rest := s[..n - 1], s[1..];
      var d0, last := DigitValue(s[0]), DigitValue(s[n - 1]);
      DigitsValueFront(init);
      assert init[0] == s[0];
      assert rest[..n - 2] == init[1..];
      assert rest[n - 2] == s[n - 1];
      var p, q, a := Pow10(n - 2), d0 * Pow10(n - 2), DigitsValue(init[1..]);
      assert DigitsValue(rest) == a * 10 + last;
      assert DigitsValue(init) == q + a;
      assert DigitsValue(s) == (q + a) * 10 + last;
      ShiftWeight(d0, p);
      assert Pow10(n - 1) == 10 * p;
    } else {
      assert s[1..] == [];
    }
  }

  lemma {:induction false} DigitsValueBound(s: string)
    requires IsDigits(s)
    ensures DigitsValue(s) < Pow10(|s|)
  {
    PaddedOfDigitsValue(s);
  }

  /**
   * JavaScript's default string order (`Array.prototype.sort` without a
   * comparator): element-wise on characters, a proper prefix coming first.
   */
  predicate StringLess(a: string, b: string) {
    if a == [] then b != []
    else if b == [] then false
    else if a[0] != b[0] then a[0] < b[0]
    else StringLess(a[1..], b[1..])
  }

  lemma {:induction false} MulMonotone(x: nat, y: nat, p: nat)
    requires x <= y
    ensures x * p <= y * p
  {
  }

  lemma {:induction false} WeightedDigitLess(da: nat, db: nat, ra: nat, rb: nat, p: nat)
    requires da < db && ra < p
    ensures da * p + ra < db * p + rb
  {
    assert (da + 1) * p <= db * p by { MulMonotone(da + 1, db, p); }
    assert (da + 1) * p == da * p + p;
  }

  /** Between equal-width digit strings, a smaller leading digit means a smaller value. */
  lemma {:induction false} LeadingDigitDecides(a: string, b: string)
    requires IsDigits(a) && IsDigits(b) && |a| == |b| > 0
    requires a[0] < b[0]
    ensures DigitsValue(a) < DigitsValue(b)
  {
    DigitsValueFront(a);
    DigitsValueFront(b);
    DigitsValueBound(a[1..]);
    WeightedDigitLess(DigitValue(a[0]), DigitValue(b[0]), DigitsValue(a[1..]), DigitsValue(b[1..]), Pow10(|a| - 1));
  }

  /** On digit strings of equal length the string order is the numeric order. */
  lemma {:induction false} StringLessSameWidth(a: string, b: string)
    requires IsDigits(a) && IsDigits(b) && |a| == |b|
    ensures StringLess(a, b) <==> DigitsValue(a) < DigitsValue(b)
  {
    if a != [] {
      if a[0] == b[0] {
        DigitsValueFront(a);
        DigitsValueFront(b);
        StringLessSameWidth(a[1..], b[1..]);
      } else if a[0] < b[0] {
        LeadingDigitDecides(a, b);
      } else {
        LeadingDigitDecides(b, a);
      }
    }
  }
}

/**
 * Decimal text: how JavaScript writes a non-negative integer (`String(n)`,
 * template-literal interpolation) and the plain decimal literals that count
 * as numeric-like when a condition threshold is coerced with `parseFloat`.
 */
module Decimal {

  predicate IsDigit(c: char) {
    '0' <= c <= '9'
  }

  predicate AllDigits(s: string) {
    forall i | 0 <= i < |s| :: IsDigit(s[i])
  }

  function DigitChar(d: nat): char
    requires d < 10
  {
    ['0', '1', '2', '3', '4', '5', '6', '7', '8', '9'][d]
  }

  function DigitValue(c: char): nat
    requires IsDigit(c)
  {
    (c as int - '0' as int) as nat
  }

  /** The value of a run of decimal digits, most significant first. */
  function DigitsValue(s: string): nat
    requires AllDigits(s)
  {
    if s == [] then 0 else DigitsValue(s[..|s| - 1]) * 10 + DigitValue(s[|s| - 1])
  }

  /** `String(n)` for a non-negative integer: no leading zeros, at least one digit. */
  function NatToString(n: nat): (s: string)
    ensures |s| >= 1 && AllDigits(s)
    ensures |s| > 1 ==> s[0] != '0'
  {
    if n < 10 then [DigitChar(n)] else NatToString(n / 10) + [DigitChar(n % 10)]
  }

  /** Reading back what `NatToString` wrote gives the number. */
  lemma {:induction false} NatToStringValue(n: nat)
    ensures DigitsValue(NatToString(n)) == n
  {
    var s := NatToString(n);
    if n < 10 {
      assert s[..|s| - 1] == [];
    } else {
      assert s[..|s| - 1] == NatToString(n / 10);
      NatToStringValue(n / 10);
    }
  }

  /** Distinct numbers are written differently. */
  lemma NatToStringInjective(a: nat, b: nat)
    requires NatToString(a) == NatToString(b)
    ensures a == b
  {
    NatToStringValue(a);
    NatToStringValue(b);
  }

  /** A plain decimal literal: an optional sign, then digits with at most one
      point, and at least one digit. */
  predicate IsNumeric(s: string) {
    var body := Unsigned(s);
    && (forall i | 0 <= i < |body| :: IsDigit(body[i]) || body[i] == '.')
    && PointCount(body) <= 1
    && exists i | 0 <= i < |body| :: IsDigit(body[i])
  }

  function Unsigned(s: string): string {
    if |s| > 0 && (s[0] == '-' || s[0] == '+') then s[1..] else s
  }

  function PointCount(s: string): nat {
    if s == [] then 0 else (if s[0] == '.' then 1 else 0) + PointCount(s[1..])
  }

  /** Index of the first '.', or |s| when there is none. */
  function PointIndex(s: string): (k: nat)
    ensures k <= |s|
    ensures forall i | 0 <= i < k :: s[i] != '.'
    ensures k < |s| ==> s[k] == '.'
  {
    if s == [] then 0 else if s[0] == '.' then 0 else 1 + PointIndex(s[1..])
  }

  function Pow10(k: nat): (p: nat)
    ensures p >= 1
  {
    if k == 0 then 1 else 10 * Pow10(k - 1)
  }

  lemma {:induction false} NoPointAfter(s: string, k: nat)
    requires k < |s| && s[k] == '.'
    requires PointCount(s) <= 1
    ensures forall i | k < i < |s| :: s[i] != '.'
  {
    if k > 0 {
      NoPointAfter(s[1..], k - 1);
    } else {
      PointCountZero(s[1..]);
    }
  }

  lemma {:induction false} PointCountZero(s: string)
    requires PointCount(s) == 0
    ensures forall i | 0 <= i < |s| :: s[i] != '.'
  {
    if s != [] {
      PointCountZero(s[1..]);
    }
  }

  /** The number a numeric-like string denotes. */
  function DecimalValue(s: string): real
    requires IsNumeric(s)
  {
    var body := Unsigned(s);
    var k := PointIndex(body);
    var whole := body[..k];
    var frac := if k < |body| then body[k + 1..] else "";
    assert AllDigits(whole);
    assert AllDigits(frac) by {
      if k < |body| {
        NoPointAfter(body, k);
      }
    }
    var magnitude := DigitsValue(whole) as real + DigitsValue(frac) as real / Pow10(|frac|) as real;
    if |s| > 0 && s[0] == '-' then -magnitude else magnitude
  }

  lemma {:induction false} PointCountOfDigits(s: string)
    requires AllDigits(s)
    ensures PointCount(s) == 0
  {
    if s != [] {
      PointCountOfDigits(s[1..]);
    }
  }

  /** What `NatToString` writes is numeric-like and denotes the number. */
  lemma NatToStringNumeric(n: nat)
    ensures IsNumeric(NatToString(n))
    ensures DecimalValue(NatToString(n)) == n as real
  {
    var s := NatToString(n);
    assert Unsigned(s) == s;
    PointCountOfDigits(s);
    assert IsDigit(s[0]);
    var k := PointIndex(s);
    assert k == |s|;
    assert s[..k] == s;
    NatToStringValue(n);
  }
}

/** Decimal numerals: what `std::to_string` and `str` print for natural numbers, and their value. */
module Decimal {

  predicate IsDigit(c: char) {
    '0' <= c <= '9'
  }

  predicate AllDigits(s: string) {
    forall i | 0 <= i < |s| :: IsDigit(s[i])
  }

  function DigitValue(c: char): (d: nat)
    requires IsDigit(c)
    ensures d < 10
  {
    c as int - '0' as int
  }

  function DigitChar(d: nat): (c: char)
    requires d < 10
    ensures IsDigit(c) && DigitValue(c) == d
  {
    ('0' as int + d) as char
  }

  /** The number a digit string denotes, most significant digit first. */
  function Value(s: string): nat
    requires AllDigits(s)
  {
    if s == [] then 0 else 10 * Value(s[..|s| - 1]) + DigitValue(s[|s| - 1])
  }

  /** A numeral without a superfluous leading zero. */
  predicate Canonical(s: string) {
    s != [] && AllDigits(s) && (s[0] == '0' ==> |s| == 1)
  }

  /** The printed form of a natural number is the canonical numeral that denotes it. */
  function Text(n: nat): (s: string)
    ensures Canonical(s) && Value(s) == n && (s[0] == '0' <==> n == 0)
  {
    if n < 10 then
      var s := [DigitChar(n)];
      assert s[..0] == [];
      s
    else
      var front := Text(n / 10);
      var s := front + [DigitChar(n % 10)];
      assert s[..|s| - 1] == front;
      s
  }

  function Pow10(k: nat): (p: nat)
    ensures p >= 1
  {
    if k == 0 then 1 else 10 * Pow10(k - 1)
  }

  lemma {:induction false} Pow10Sum(a: nat, b: nat)
    ensures Pow10(a + b) == Pow10(a) * Pow10(b)
  {
    if b != 0 {
      Pow10Sum(a, b - 1);
      TenTimes(Pow10(a), Pow10(b - 1));
    }
  }

  lemma TenTimes(v: nat, p: nat)
    ensures 10 * (v * p) == v * (10 * p)
  {
  }

  lemma {:induction false} ValueAppend(a: string, b: string)
    requires AllDigits(a) && AllDigits(b)
    ensures AllDigits(a + b) && Value(a + b) == Value(a) * Pow10(|b|) + Value(b)
  {
    if b == [] {
      assert a + b == a;
    } else {
      var front := b[..|b| - 1];
      ValueAppend(a, front);
      var all, d, p := a + b, DigitValue(b[|b| - 1]), Pow10(|front|);
      assert all[..|all| - 1] == a + front && all[|all| - 1] == b[|b| - 1];
      assert Value(all) == 10 * Value(a + front) + d && Value(b) == 10 * Value(front) + d && Pow10(|b|) == 10 * p;
      hide Value, Pow10;
      TenTimes(Value(a), p);
    }
  }

  /** A k-digit string denotes a number below ten to the k; with a nonzero first digit it also
      reaches ten to the k-1. */
  lemma {:induction false} ValueBounds(s: string)
    requires AllDigits(s)
    ensures Value(s) < Pow10(|s|)
    ensures s != [] && s[0] != '0' ==> Value(s) >= Pow10(|s| - 1)
  {
    if s != [] {
      var front := s[..|s| - 1];
      ValueBounds(front);
      if front == [] {
        assert Value(front) == 0;
      }
    }
  }

  lemma LastDigits(x: nat, d: nat, y: nat, e: nat)
    requires d < 10 && e < 10 && 10 * x + d == 10 * y + e
    ensures x == y && d == e
  {
  }

  /** Two digit strings of the same length denote the same number only if they are equal. */
  lemma {:induction false} ValueInjective(a: string, b: string)
    requires AllDigits(a) && AllDigits(b) && |a| == |b| && Value(a) == Value(b)
    ensures a == b
  {
    if a != [] {
      var fa, fb := a[..|a| - 1], b[..|b| - 1];
      LastDigits(Value(fa), DigitValue(a[|a| - 1]), Value(fb), DigitValue(b[|b| - 1]));
      hide Value;
      ValueInjective(fa, fb);
      assert a == fa + [a[|a| - 1]] && b == fb + [b[|b| - 1]];
    }
  }

  lemma {:induction false} Pow10Monotone(a: nat, b: nat)
    requires a <= b
    ensures Pow10(a) <= Pow10(b)
  {
    if a < b {
      Pow10Monotone(a, b - 1);
    }
  }

  /** Canonical numerals are determined by their value. */
  lemma CanonicalUnique(a: string, b: string)
    requires Canonical(a) && Canonical(b) && Value(a) == Value(b)
    ensures a == b
  {
    ValueBounds(a);
    ValueBounds(b);
    CanonicalZero(a);
    CanonicalZero(b);
    if |a| < |b| {
      Pow10Monotone(|a|, |b| - 1);
    } else if |b| < |a| {
      Pow10Monotone(|b|, |a| - 1);
    }
    ValueInjective(a, b);
  }

  lemma CanonicalZero(s: string)
    requires Canonical(s)
    ensures s[0] == '0' <==> Value(s) == 0
  {
    ValueBounds(s);
    if s[0] == '0' {
      assert s[..0] == [];
    } else {
      Pow10Monotone(0, |s| - 1);
    }
  }

  // ----- numerals inside a text -----

  /** The end of the digits that start at index `i`. */
  function DigitsEnd(t: string, i: nat): (j: nat)
    requires i <= |t|
    ensures i <= j <= |t| && AllDigits(t[i..j]) && (j < |t| ==> !IsDigit(t[j]))
    decreases |t| - i
  {
    if i < |t| && IsDigit(t[i]) then
      var j := DigitsEnd(t, i + 1);
      assert t[i..j] == [t[i]] + t[i + 1..j];
      j
    else i
  }

  lemma {:induction false} DigitsEndAt(t: string, i: nat, d: string)
    requires i + |d| <= |t| && t[i..i + |d|] == d && AllDigits(d)
    requires i + |d| < |t| ==> !IsDigit(t[i + |d|])
    ensures DigitsEnd(t, i) == i + |d|
    decreases |d|
  {
    if d != "" {
      assert t[i] == t[i..i + |d|][0];
      assert t[i + 1..i + |d|] == d[1..];
      DigitsEndAt(t, i + 1, d[1..]);
    }
  }
}

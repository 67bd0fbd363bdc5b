/** Numerals in positional notation and their values. */
module Numerals {
  import opened Wrappers

  predicate IsBase(base: nat) { 2 <= base <= 16 }

  /** The kernel's table "0123456789abcdef". */
  function Digit(d: nat): char
    requires d < 16
  {
    if d < 10 then (48 + d) as char else (87 + d) as char
  }

  function DigitValue(c: char): Option<nat> {
    if '0' <= c <= '9' then Some(c as int - 48)
    else if 'a' <= c <= 'f' then Some(c as int - 87)
    else None
  }

  predicate IsNumeral(s: string, base: nat) {
    forall i :: 0 <= i < |s| ==> DigitValue(s[i]).Some? && DigitValue(s[i]).value < base
  }

  function Value(s: string, base: nat): nat
    requires IsNumeral(s, base)
  {
    if s == "" then 0 else Value(s[..|s| - 1], base) * base + DigitValue(s[|s| - 1]).value
  }

  function Pow(base: nat, n: nat): (p: nat)
    ensures base > 0 ==> p > 0
  {
    if n == 0 then 1 else base * Pow(base, n - 1)
  }

  /** The n low digits of v. */
  function Fixed(v: nat, n: nat, base: nat): (s: string)
    requires IsBase(base)
    ensures |s| == n
    decreases n
  {
    if n == 0 then "" else Fixed(v / base, n - 1, base) + [Digit(v % base)]
  }

  /** The numeral of v without leading zeros. */
  function Shortest(v: nat, base: nat): string
    requires IsBase(base)
    decreases v
  {
    if v < base then [Digit(v)] else Shortest(v / base, base) + [Digit(v % base)]
  }

  lemma DigitBack(d: nat)
    requires d < 16
    ensures DigitValue(Digit(d)) == Some(d)
  {
  }

  lemma ValueSnoc(s: string, d: nat, base: nat)
    requires IsBase(base) && d < base && IsNumeral(s, base)
    ensures IsNumeral(s + [Digit(d)], base) && Value(s + [Digit(d)], base) == Value(s, base) * base + d
  {
    DigitBack(d);
    var t := s + [Digit(d)];
    assert t[..|t| - 1] == s;
  }

  predicate NoLeadingZero(s: string) {
    s != "" && (|s| > 1 ==> s[0] != '0')
  }

  lemma Product(b: nat, q: nat)
    ensures b > 1 && q > 0 ==> b * q >= 2 * q
    ensures q == 0 ==> b * q == 0
  {
  }

  lemma Split(v: nat, b: nat)
    requires b > 1
    ensures v == v / b * b + v % b && v % b < b
    ensures v >= b ==> 0 < v / b < v
  {
    var q, r := v / b, v % b;
    assert v == b * q + r && r < b;
    Product(b, q);
  }

  lemma ShortestStep(s: string, d: nat, base: nat)
    requires IsBase(base) && d < base && IsNumeral(s, base) && s != "" && s[0] != '0'
    ensures var t := s + [Digit(d)];
      IsNumeral(t, base) && Value(t, base) == Value(s, base) * base + d && t != "" && t[0] != '0'
  {
    ValueSnoc(s, d, base);
  }

  lemma {:induction false} ShortestValue(v: nat, base: nat)
    requires IsBase(base)
    ensures var s := Shortest(v, base);
      IsNumeral(s, base) && Value(s, base) == v && NoLeadingZero(s) && (v > 0 ==> s[0] != '0')
    decreases v
  {
    if v < base {
      ValueSnoc("", v, base);
      assert [Digit(v)] == "" + [Digit(v)];
    } else {
      Split(v, base);
      var q, d := v / base, v % base;
      ShortestValue(q, base);
      ShortestStep(Shortest(q, base), d, base);
    }
  }

  lemma MultipleIsZero(n: int, k: int)
    requires 0 < n && -n < n * k < n
    ensures k == 0
  {
  }

  lemma Divides(x: int, n: int, q: int, r: int)
    requires 0 < n && x == n * q + r && 0 <= r < n
    ensures x / n == q && x % n == r
  {
    assert x == n * (x / n) + x % n;
    assert n * (x / n - q) == r - x % n;
    MultipleIsZero(n, x / n - q);
  }

  lemma Regroup(b: nat, p: nat, q: nat, r: nat)
    ensures b * (p * q + r) == b * p * q + b * r
  {
  }

  lemma LowDigitFits(b: nat, p: nat, r1: nat, r: nat)
    requires r < b && r1 < p
    ensures b * r1 + r < b * p
  {
    TimesMonotone(b, r1 + 1, p);
    assert b * (r1 + 1) == b * r1 + b;
  }

  lemma MixedRadix(v: nat, b: nat, p: nat, bp: nat, q: nat, r: nat, q1: nat, r1: nat)
    requires b > 0 && p > 0 && bp == b * p
    requires v == b * q + r && r < b && q == p * q1 + r1 && r1 < p
    ensures bp > 0 && v % bp == b * r1 + r
  {
    Regroup(b, p, q1, r1);
    LowDigitFits(b, p, r1, r);
    Divides(v, bp, q1, b * r1 + r);
  }

  lemma Quotient(v: nat, b: nat)
    requires b > 0
    ensures v == b * (v / b) + v % b && v % b < b
  {
  }

  /** Dropping the low digit and reducing commute. */
  lemma ModStep(v: nat, b: nat, p: nat, bp: nat)
    requires b > 0 && p > 0 && bp == b * p
    ensures bp > 0 && v % bp == b * (v / b % p) + v % b
  {
    Quotient(v, b);
    Quotient(v / b, p);
    MixedRadix(v, b, p, bp, v / b, v % b, v / b / p, v / b % p);
  }

  lemma FixedStep(s: string, d: nat, base: nat, x: nat, y: nat)
    requires IsBase(base) && d < base && IsNumeral(s, base) && Value(s, base) == x && y == base * x + d
    ensures IsNumeral(s + [Digit(d)], base) && Value(s + [Digit(d)], base) == y
  {
    ValueSnoc(s, d, base);
  }

  /** Fixed-width numerals denote the value modulo a power of the base. */
  lemma {:induction false} FixedValue(v: nat, n: nat, base: nat)
    requires IsBase(base)
    ensures IsNumeral(Fixed(v, n, base), base) && Value(Fixed(v, n, base), base) == v % Pow(base, n)
    decreases n
  {
    if n > 0 {
      var q, d, p := v / base, v % base, Pow(base, n - 1);
      FixedValue(q, n - 1, base);
      ModStep(v, base, p, Pow(base, n));
      FixedStep(Fixed(q, n - 1, base), d, base, q % p, v % Pow(base, n));
    }
  }

  lemma TimesMonotone(b: nat, p: nat, q: nat)
    ensures p <= q ==> b * p <= b * q
  {
  }

  lemma QuotientBound(v: nat, base: nat, n: nat)
    requires IsBase(base) && n > 0 && v < Pow(base, n)
    ensures v / base < Pow(base, n - 1)
  {
    TimesMonotone(base, Pow(base, n - 1), v / base);
  }

  /** v has at most n digits when it is below base^n. */
  lemma {:induction false} ShortestLength(v: nat, base: nat, n: nat)
    requires IsBase(base) && n > 0 && v < Pow(base, n)
    ensures |Shortest(v, base)| <= n
    decreases n
  {
    assert Pow(base, 1) == base * Pow(base, 0) == base;
    if v >= base {
      QuotientBound(v, base, n);
      ShortestLength(v / base, base, n - 1);
    }
  }
}

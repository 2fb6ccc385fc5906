/**
 * Decimal digit strings and what Swift's `Int(_: String)` makes of them,
 * shared by the recognition pipeline and the text field.
 */
module Numerals {
  import opened Wrappers

  /** `Int.max` on the 64-bit targets the app runs on. */
  const IntMax: nat := 0x7FFF_FFFF_FFFF_FFFF

  /**
   * `numberToKorean` (Utilities.swift): Foundation's spell-out formatter in
   * the `ko_KR` locale. Its output is not modelled; every member that needs
   * it takes it as a parameter, so nothing here depends on its spelling.
   */
  type Speller = int -> string

  predicate IsDigit(c: char) { '0' <= c <= '9' }

  /** Every character is an ASCII digit (the empty string included). */
  predicate DigitString(s: string) {
    forall i :: 0 <= i < |s| ==> IsDigit(s[i])
  }

  /** The regular expression `^[0-9]+$`: one or more ASCII digits and nothing else. */
  predicate IsAllDigits(s: string) {
    |s| > 0 && DigitString(s)
  }

  function DigitValue(c: char): (d: nat)
    requires IsDigit(c)
    ensures d < 10
  {
    c as int - '0' as int
  }

  function DigitChar(d: nat): (c: char)
    requires d < 10
    ensures IsDigit(c) && DigitValue(c) == d
  {
    ('0' as int + d) as char
  }

  function Pow10(n: nat): (p: nat)
    ensures p > 0
  {
    if n == 0 then 1 else 10 * Pow10(n - 1)
  }

  /** The number a digit string denotes, most significant digit first; leading zeros allowed. */
  function Value(s: string): (v: nat)
    requires DigitString(s)
    ensures v < Pow10(|s|)
  {
    if s == [] then 0 else 10 * Value(s[..|s| - 1]) + DigitValue(s[|s| - 1])
  }

  /** A digit string without a leading zero is at least the smallest number of its length. */
  lemma {:induction false} ValueLowerBound(s: string)
    requires IsAllDigits(s) && s[0] != '0'
    ensures Value(s) >= Pow10(|s| - 1)
    decreases |s|
  {
    if |s| > 1 {
      var init := s[..|s| - 1];
      assert init[0] == s[0];
      ValueLowerBound(init);
    }
  }

  /** The canonical decimal spelling of `n`: no leading zero except for `0` itself. */
  function Decimal(n: nat): (s: string)
    ensures IsAllDigits(s)
    ensures |s| > 1 ==> s[0] != '0'
    decreases n
  {
    if n < 10 then [DigitChar(n)] else Decimal(n / 10) + [DigitChar(n % 10)]
  }

  /** Reading back the decimal spelling of `n` gives `n`. */
  lemma {:induction false} ValueOfDecimal(n: nat)
    ensures Value(Decimal(n)) == n
    decreases n
  {
    if n >= 10 {
      var s := Decimal(n);
      ValueOfDecimal(n / 10);
      assert s[..|s| - 1] == Decimal(n / 10);
    }
  }

  /**
   * Swift's `Int(_: String)` on the strings it is given in this app, which
   * hold digits only: a value exactly when the string is a non-empty run of
   * digits whose value fits in `Int`.
   */
  function ParseInt(s: string): Option<nat>
  {
    if IsAllDigits(s) && Value(s) <= IntMax then Some(Value(s)) else None
  }

  /** Every `Int` that is not negative survives a print-and-parse round trip. */
  lemma ParseDecimal(n: nat)
    requires n <= IntMax
    ensures ParseInt(Decimal(n)) == Some(n)
  {
    ValueOfDecimal(n);
  }

  /** Twenty or more digits without a leading zero always overflow `Int`, so the parse fails. */
  lemma ParseOverflows(s: string)
    requires IsAllDigits(s) && s[0] != '0' && |s| >= 20
    ensures ParseInt(s) == None
  {
    ValueLowerBound(s);
    Pow10Monotone(19, |s| - 1);
    assert Pow10(19) == 10_000_000_000_000_000_000 by {
      assert Pow10(5) == 100_000;
      assert Pow10(10) == 10_000_000_000;
      assert Pow10(15) == 1_000_000_000_000_000;
    }
  }

  lemma {:induction false} Pow10Monotone(m: nat, n: nat)
    requires m <= n
    ensures Pow10(m) <= Pow10(n)
    decreases n - m
  {
    if m < n {
      Pow10Monotone(m, n - 1);
    }
  }
}

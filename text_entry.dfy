/**
 * The text field of `ContentView`: its `onChange(of: inputNumber)` handler
 * keeps only the digits of what was typed, at most sixteen of them, and
 * shows the Korean spelling of the number they make.
 */
module TextEntry {
  import opened Wrappers
  import opened Sequences
  import opened Numerals

  /** The longest digit string the field keeps. */
  const MaxDigits: nat := 16

  /** `newValue.filter { "0123456789".contains($0) }`. */
  function DigitsOnly(s: string): (r: string)
    ensures DigitString(r)
    ensures IsSubsequence(r, s)
    ensures forall i :: 0 <= i < |s| && IsDigit(s[i]) ==> s[i] in r
    ensures forall c :: multiset(r)[c] == if IsDigit(c) then multiset(s)[c] else 0
  {
    FilterSubsequence(s, IsDigit);
    FilterKeepsEvery(s, IsDigit);
    FilterCount(s, IsDigit);
    Filter(s, IsDigit)
  }

  /** `prefix(16)`: the first sixteen characters, or all of them when there are fewer. */
  function Take16(s: string): (r: string)
    ensures r <= s
    ensures |r| == if |s| <= MaxDigits then |s| else MaxDigits
  {
    if |s| <= MaxDigits then s else s[..MaxDigits]
  }

  /** What the handler leaves in `inputNumber` for a typed `newValue`, on either branch. */
  function Sanitised(newValue: string): (r: string)
    ensures DigitString(r) && |r| <= MaxDigits
    ensures r <= DigitsOnly(newValue)
    ensures |DigitsOnly(newValue)| <= MaxDigits ==> r == DigitsOnly(newValue)
  {
    Take16(DigitsOnly(newValue))
  }

  /** Keeping only digits is the identity on a digit string. */
  lemma DigitsOnlyOfDigits(s: string)
    requires DigitString(s)
    ensures DigitsOnly(s) == s
  {
    FilterKeepsAll(s, IsDigit);
  }

  /** Keeping only digits of two joined strings keeps those of each: digits are neither reordered nor merged. */
  lemma DigitsOnlyAppend(a: string, b: string)
    ensures DigitsOnly(a + b) == DigitsOnly(a) + DigitsOnly(b)
  {
    FilterAppend(a, b, IsDigit);
  }

  /**
   * Sanitising is idempotent: the handler run again on the `inputNumber`
   * it stored, as happens when that assignment fires `onChange` once more,
   * stores the same string.
   */
  lemma SanitiseIdempotent(newValue: string)
    ensures Sanitised(Sanitised(newValue)) == Sanitised(newValue)
  {
    DigitsOnlyOfDigits(Sanitised(newValue));
  }

  /** Sixteen digits make at most 9,999,999,999,999,999, below `Int.max`: such a string always parses. */
  lemma ShortDigitsParse(s: string)
    requires IsAllDigits(s) && |s| <= MaxDigits
    ensures ParseInt(s) == Some(Value(s))
  {
    Pow10Monotone(|s|, MaxDigits);
    assert Pow10(MaxDigits) == 10_000_000_000_000_000 by {
      assert Pow10(8) == 100_000_000;
    }
  }

  /**
   * On the first branch of the handler (`filtered.count <= 16`), `Int(filtered)`
   * fails only on the empty string, and otherwise yields the number the digits make.
   */
  lemma FilteredParse(newValue: string)
    requires |DigitsOnly(newValue)| <= MaxDigits
    ensures ParseInt(DigitsOnly(newValue)).Some? <==> DigitsOnly(newValue) != ""
    ensures DigitsOnly(newValue) != "" ==> ParseInt(DigitsOnly(newValue)) == Some(Value(DigitsOnly(newValue)))
  {
    if DigitsOnly(newValue) != "" {
      ShortDigitsParse(DigitsOnly(newValue));
    }
  }

  /** The two `@State` strings of `ContentView` that the handler reads and writes. */
  class ContentView {
    var inputNumber: string
    var koreanNumber: string

    /** What the field holds after any edit: digits only, at most sixteen. */
    ghost predicate Valid()
      reads this
    {
      DigitString(inputNumber) && |inputNumber| <= MaxDigits
    }

    constructor ()
      ensures Valid()
      ensures inputNumber == "" && koreanNumber == ""
    {
      inputNumber := "";
      koreanNumber := "";
    }

    /** The `onChange(of: inputNumber)` handler, run with the field's new text. */
    method OnChange(newValue: string, toKorean: Speller)
      modifies this
      ensures Valid()
      ensures inputNumber == Sanitised(newValue)
      ensures |DigitsOnly(newValue)| > MaxDigits ==> inputNumber == DigitsOnly(newValue)[..MaxDigits]
      ensures koreanNumber ==
        var digits := DigitsOnly(newValue);
        if 0 < |digits| <= MaxDigits then toKorean(Value(digits)) else old(koreanNumber)
    {
      var filtered := DigitsOnly(newValue);
      if |filtered| <= MaxDigits {
        inputNumber := filtered;
        FilteredParse(newValue);
        match ParseInt(filtered)
        case Some(number) =>
          koreanNumber := toKorean(number);
        case None =>
      } else {
        inputNumber := Take16(filtered);
      }
    }

    /**
     * The user edits the field to read `newValue`. The binding stores it;
     * SwiftUI runs the handler when that changed `inputNumber`, and once
     * more when the handler's own assignment changed it again. The second
     * run stores what it was given, so no third run follows. After a
     * truncation the second run shows the spelling of the sixteen digits kept.
     */
    method Edit(newValue: string, toKorean: Speller)
      requires Valid()
      modifies this
      ensures Valid()
      ensures newValue == old(inputNumber) ==>
        inputNumber == old(inputNumber) && koreanNumber == old(koreanNumber)
      ensures newValue != old(inputNumber) ==>
        && inputNumber == Sanitised(newValue)
        && koreanNumber == if Sanitised(newValue) == "" then old(koreanNumber) else toKorean(Value(Sanitised(newValue)))
    {
      if newValue != inputNumber {
        inputNumber := newValue;
        OnChange(newValue, toKorean);
        if inputNumber != newValue {
          var stored := inputNumber;
          SanitiseIdempotent(newValue);
          DigitsOnlyOfDigits(stored);
          OnChange(stored, toKorean);
          assert inputNumber == stored;
        } else {
          DigitsOnlyOfDigits(newValue);
        }
      }
    }
  }
}

/**
 Decimal numbers in job text: what is written for a number, and exactly which texts are read as one
 (`{n}` in a format string and `parse::<uN>()`), by place value.
 */
module Numerals {
  import opened Machine
  import opened Text

  function Pow10(n: nat): (p: nat)
    ensures p > 0
  {
    if n == 0 then 1 else 10 * Pow10(n - 1)
  }

  predicate Digits(s: Bytes) { forall i :: 0 <= i < |s| ==> 48 <= s[i] <= 57 }

  /** The number that digits stand for, the first being the highest. */
  function Value(s: Bytes): nat
    requires Digits(s)
  {
    if s == [] then 0 else Times(s[0] - 48, Pow10(|s| - 1)) + Value(s[1..])
  }

  function Times(a: nat, b: nat): nat {
    ProductNonNegative(a, b);
    a * b
  }

  lemma ProductNonNegative(a: nat, b: nat)
    ensures a * b >= 0
  {
  }

  lemma {:induction false} ValueOfAppend(s: Bytes, last: byte)
    requires Digits(s) && 48 <= last <= 57
    ensures Digits(s + [last]) && Value(s + [last]) == 10 * Value(s) + (last - 48)
  {
    hide Times, Pow10;
    if s == [] {
      assert [last][1..] == [] && s + [last] == [last];
      OneDigit(last - 48);
    } else {
      ValueOfAppend(s[1..], last);
      assert (s + [last])[1..] == s[1..] + [last];
      TenTimes(s[0] - 48, |s|);
    }
  }

  lemma OneDigit(a: nat)
    ensures Times(a, Pow10(0)) == a
  {
  }

  lemma TenTimes(a: nat, n: nat)
    requires n > 0
    ensures Times(a, Pow10(n)) == 10 * Times(a, Pow10(n - 1))
  {
    var p := Pow10(n - 1);
    assert a * (10 * p) == 10 * (a * p);
  }

  /** The reader of digits computes their value, and refuses anything that is not a digit. */
  lemma {:induction false} DigitsValueIs(s: Bytes)
    ensures DigitsValue(s) == if Digits(s) then Some(Value(s)) else None
  {
    if s != [] {
      var front, last := s[..|s| - 1], s[|s| - 1];
      DigitsValueIs(front);
      assert s == front + [last];
      assert Digits(s) <==> Digits(front) && 48 <= last <= 57;
      if Digits(s) {
        ValueOfAppend(front, last);
      }
    }
  }

  /**
   A text is read as the number v just when it is one digit or more, perhaps after a plus sign, that stand
   for v, and v is within the field.
   */
  lemma ParsesIff(s: Bytes, max: nat, v: nat)
    ensures ParseUnsigned(s, max) == Some(v) <==>
      (exists d :: IsNumeral(s, d, v)) && v <= max
  {
    hide DigitsValue;
    var digits := if s != [] && s[0] == 43 then s[1..] else s;
    DigitsValueIs(digits);
    if digits != [] && Digits(digits) && Value(digits) == v {
      assert s == digits || s == [43] + digits;
      assert IsNumeral(s, digits, v);
    }
    forall d | IsNumeral(s, d, v) ensures d == digits {
      if s == [43] + d {
        assert s[1..] == d;
      }
    }
  }

  /** s is the digits d, with or without a plus sign, and they stand for v. */
  ghost predicate IsNumeral(s: Bytes, d: Bytes, v: nat) {
    (s == d || s == [43] + d) && d != [] && Digits(d) && Value(d) == v
  }

  /** What is written for a number are its digits, without leading zeros. */
  lemma {:induction false} DecimalMeaning(n: nat)
    ensures Digits(Decimal(n)) && Value(Decimal(n)) == n
    ensures n == 0 ==> Decimal(n) == [48]
    ensures n > 0 ==> Decimal(n)[0] != 48
  {
    if n < 10 {
      assert Decimal(n)[1..] == [];
    } else {
      DecimalMeaning(n / 10);
      ValueOfAppend(Decimal(n / 10), 48 + n % 10);
    }
  }
}

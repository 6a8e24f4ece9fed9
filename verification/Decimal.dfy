/** Decimal numerals. */
module Decimal {
  predicate IsDigit(c: char) {
    '0' <= c <= '9'
  }

  predicate AllDigits(s: string) {
    forall i :: 0 <= i < |s| ==> IsDigit(s[i])
  }

  function DigitOf(d: nat): char
    requires d < 10
  {
    '0' + d as char
  }

  /** The number a digit string denotes; leading zeros are allowed. */
  function Value(s: string): nat
    requires AllDigits(s)
  {
    if s == [] then 0 else Value(s[..|s| - 1]) * 10 + (s[|s| - 1] as int - '0' as int)
  }

  function Show(n: nat): (s: string)
    ensures s != [] && AllDigits(s)
  {
    if n < 10 then [DigitOf(n)] else Show(n / 10) + [DigitOf(n % 10)]
  }

  lemma {:induction false} ShowRoundTrip(n: nat)
    ensures Value(Show(n)) == n
  {
    if n >= 10 {
      ShowRoundTrip(n / 10);
      assert Show(n)[..|Show(n)| - 1] == Show(n / 10);
    } else {
      assert Show(n)[..0] == [];
    }
  }

  /** No leading zeros: with the round trip this makes the numeral unique. */
  lemma {:induction false} ShowCanonical(n: nat)
    ensures Show(n)[0] == '0' ==> n == 0 && Show(n) == "0"
  {
    if n >= 10 {
      ShowCanonical(n / 10);
      assert Show(n)[0] == Show(n / 10)[0];
    }
  }

  lemma DigitAdded(s: string, c: char)
    requires AllDigits(s) && IsDigit(c)
    ensures AllDigits(s + [c]) && Value(s + [c]) == 10 * Value(s) + (c as int - 48)
  {
    assert (s + [c])[..|s|] == s;
  }

  lemma NoDigits()
    ensures Value("") == 0
  {
  }

  /** Every digit counts for itself, the most significant first. */
  lemma DigitsInOrder()
    ensures Value("01234") == 1_234 && Value("56789") == 56_789
  {
    hide Value;
    assert Value("") == 0 by { NoDigits(); }
    DigitsOf("", '0', '1', '2');
    assert "" + ['0', '1'] == "01";
    DigitsOf("01", '2', '3', '4');
    assert "01" + ['2', '3', '4'] == "01234";
    DigitsOf("", '5', '6', '7');
    assert "" + ['5', '6'] == "56";
    DigitsOf("56", '7', '8', '9');
    assert "56" + ['7', '8', '9'] == "56789";
  }

  lemma DigitsOf(s: string, a: char, b: char, c: char)
    requires AllDigits(s) && IsDigit(a) && IsDigit(b) && IsDigit(c)
    ensures AllDigits(s + [a, b, c]) && AllDigits(s + [a, b])
    ensures Value(s + [a, b]) == 100 * Value(s) + 10 * (a as int - 48) + (b as int - 48)
    ensures Value(s + [a, b, c]) == 10 * Value(s + [a, b]) + (c as int - 48)
  {
    DigitAdded(s, a);
    DigitAdded(s + [a], b);
    DigitAdded(s + [a, b], c);
    assert s + [a] + [b] == s + [a, b] && s + [a, b] + [c] == s + [a, b, c];
  }
}

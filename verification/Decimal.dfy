/** Decimal numerals: Python's str() of a natural number and int() of a string of ASCII digits. */
module Decimal {

  predicate IsDigit(c: char) {
    '0' <= c <= '9'
  }

  predicate AllDigits(s: string) {
    forall i :: 0 <= i < |s| ==> IsDigit(s[i])
  }

  function DigitOf(d: nat): (c: char)
    requires d < 10
    ensures IsDigit(c)
  {
    (d + '0' as int) as char
  }

  function Numeral(n: nat): (s: string)
    ensures s != "" && AllDigits(s)
  {
    if n < 10 then [DigitOf(n)] else Numeral(n / 10) + [DigitOf(n % 10)]
  }

  function Value(s: string): nat
    requires AllDigits(s)
  {
    if s == "" then 0 else 10 * Value(s[..|s| - 1]) + (s[|s| - 1] as int - '0' as int)
  }

  lemma {:induction false} ValueOfNumeral(n: nat)
    ensures Value(Numeral(n)) == n
  {
    var s := Numeral(n);
    if n >= 10 {
      ValueOfNumeral(n / 10);
      assert s[..|s| - 1] == Numeral(n / 10);
    } else {
      assert s[..0] == "";
    }
  }

  /** The decimal digits, the last one behind the others. */
  lemma NumeralDigits(n: nat, d: nat)
    requires d < 10
    ensures Numeral(d) == ['0' + d as char]
    ensures n > 0 ==> Numeral(10 * n + d) == Numeral(n) + ['0' + d as char]
  {
    assert (10 * n + d) / 10 == n && (10 * n + d) % 10 == d;
  }

  lemma NumeralsDiffer(a: nat, b: nat)
    ensures Numeral(a) == Numeral(b) <==> a == b
  {
    ValueOfNumeral(a);
    ValueOfNumeral(b);
  }

  // Digits in front only add to the value.
  lemma {:induction false} ValueOfSuffix(a: string, b: string)
    requires AllDigits(a) && AllDigits(b)
    ensures Value(a + b) >= Value(b)
  {
    if b != "" {
      var last := |b| - 1;
      assert (a + b)[..|a + b| - 1] == a + b[..last];
      ValueOfSuffix(a, b[..last]);
    }
  }

  /** A numeral is the canonical text of its value: no leading zero unless it is "0". */
  lemma {:induction false} NumeralOfValue(s: string)
    requires s != "" && AllDigits(s) && (s[0] == '0' ==> |s| == 1)
    ensures Numeral(Value(s)) == s
  {
    var last := |s| - 1;
    var d := s[last] as int - '0' as int;
    assert s == s[..last] + [s[last]];
    if last == 0 {
      assert s[..0] == "";
    } else {
      PositiveValue(s[..last]);
      NumeralOfValue(s[..last]);
    }
  }

  lemma {:induction false} PositiveValue(s: string)
    requires s != "" && AllDigits(s) && s[0] != '0'
    ensures Value(s) > 0
  {
    if |s| > 1 {
      PositiveValue(s[..|s| - 1]);
    }
  }
}

/** Decimal digits as text. */
module Decimals {
  predicate IsDigit(c: char) {
    '0' <= c <= '9'
  }

  predicate AllDigits(s: string) {
    forall i | 0 <= i < |s| :: IsDigit(s[i])
  }

  function DigitsValue(s: string): nat
    requires AllDigits(s)
  {
    if s == "" then 0 else DigitsValue(s[..|s| - 1]) * 10 + (s[|s| - 1] as nat - '0' as nat)
  }

  /** Digits without a leading zero. */
  predicate Unpadded(s: string) {
    s != "" && !(|s| > 1 && s[0] == '0') && AllDigits(s)
  }

  function Digits(n: nat): string {
    if n < 10 then ['0' + n as char] else Digits(n / 10) + ['0' + (n % 10) as char]
  }

  lemma {:induction false} DigitsRoundTrip(n: nat)
    ensures Unpadded(Digits(n)) && DigitsValue(Digits(n)) == n
  {
    var d := Digits(n);
    if n < 10 {
      assert d[..0] == "";
    } else {
      DigitsRoundTrip(n / 10);
      assert d[..|d| - 1] == Digits(n / 10);
      assert d[0] == Digits(n / 10)[0];
      LeadingDigit(n / 10);
    }
  }

  lemma {:induction false} LeadingDigit(n: nat)
    ensures Digits(n)[0] == '0' <==> n == 0
    ensures |Digits(n)| == 1 <==> n < 10
  {
    if n >= 10 {
      LeadingDigit(n / 10);
    }
  }

  lemma {:induction false} DigitsOfValue(s: string)
    requires Unpadded(s)
    ensures Digits(DigitsValue(s)) == s
  {
    var last := s[|s| - 1] as nat - '0' as nat;
    assert IsDigit(s[|s| - 1]);
    if |s| == 1 {
      assert s[..0] == "";
      assert s == ['0' + last as char];
    } else {
      var front := s[..|s| - 1];
      assert front[0] == s[0];
      DigitsOfValue(front);
      LeadingDigit(DigitsValue(front));
      var n := DigitsValue(s);
      assert n / 10 == DigitsValue(front) && n % 10 == last;
      assert s == front + [s[|s| - 1]];
    }
  }
}

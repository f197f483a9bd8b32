/**
 Powers of ten and the digits in front of them, for utils/jsonvalue/value.go, canonicalNumber.

 A decimal text means its digits, read as a natural number, times a power of ten. Dropping a zero
 on the left changes nothing, and dropping one on the right moves the power by one. Two numbers
 whose last digit is not zero are equal only if both digits and powers are equal, and the size of a
 number is known from how many digits it has and where they stand.

 Nothing here knows how a number is written in JSON.
 */
module DecimalArithmetic {
  import opened Decimals

  ghost function Power(e: int): real
    decreases if e < 0 then -e else e
  {
    if e == 0 then 1.0 else if e > 0 then 10.0 * Power(e - 1) else Power(e + 1) / 10.0
  }

  ghost function Amount(negative: bool, digits: string, exponent: int): real
    requires AllDigits(digits)
  {
    if negative then -Magnitude(DigitsValue(digits), exponent) else Magnitude(DigitsValue(digits), exponent)
  }

  ghost function Magnitude(n: nat, exponent: int): real {
    n as real * Power(exponent)
  }

  lemma Split(a: string, b: string)
    ensures (a + b)[..|a|] == a && (a + b)[|a|..] == b
    ensures a != "" ==> a + b != "" && (a + b)[0] == a[0]
    ensures a == "" ==> a + b == b
  {
  }

  lemma Join(s: string, n: nat)
    requires n <= |s|
    ensures s[..n] + s[n..] == s
    ensures n == 1 ==> [s[0]] + s[1..] == s
  {
  }

  function TrimLeft(s: string): string {
    if s != "" && s[0] == '0' then TrimLeft(s[1..]) else s
  }

  function TrimRight(s: string): string {
    if s != "" && s[|s| - 1] == '0' then TrimRight(s[..|s| - 1]) else s
  }

  function Zeros(n: nat): string {
    if n == 0 then "" else Zeros(n - 1) + "0"
  }

  lemma Associate(a: string, b: string, c: string)
    ensures a + (b + c) == (a + b) + c
  {
  }

  lemma Tail(a: string, b: string)
    requires b != ""
    ensures (a + b)[|a| + 1..] == b[1..]
  {
  }

  lemma NoMore(s: string)
    ensures s + "" == s
  {
  }

  lemma {:induction false} TrimLeftHead(s: string)
    ensures TrimLeft(s) != "" ==> TrimLeft(s)[0] != '0'
    ensures |TrimLeft(s)| <= |s|
  {
    if s != "" && s[0] == '0' {
      TrimLeftHead(s[1..]);
    }
  }

  lemma {:induction false} TrimRightKeepsHead(s: string)
    requires s != "" && s[0] != '0'
    ensures TrimRight(s) != "" && TrimRight(s)[0] == s[0] && TrimRight(s)[|TrimRight(s)| - 1] != '0'
    ensures |TrimRight(s)| <= |s|
  {
    if s[|s| - 1] == '0' {
      TrimRightKeepsHead(s[..|s| - 1]);
    }
  }

  lemma {:induction false} PowerPositive(e: int)
    ensures Power(e) > 0.0
    decreases if e < 0 then -e else e
  {
    if e > 0 {
      PowerPositive(e - 1);
    } else if e < 0 {
      PowerPositive(e + 1);
    }
  }

  lemma {:induction false} PowerStep(e: int)
    ensures Power(e + 1) == 10.0 * Power(e)
  {
  }

  lemma Commute(x: real, y: real, z: real)
    ensures x * (y * z) == y * (x * z) == (x * y) * z
  {
  }

  lemma Cancel(x: real, y: real, p: real)
    requires p > 0.0 && x * p == y * p
    ensures x == y
  {
    assert (x - y) * p == 0.0;
  }

  ghost function Times(x: real, y: real): real {
    x * y
  }

  lemma TimesTen(x: real, y: real)
    ensures Times(x, 10.0 * y) == 10.0 * Times(x, y) && Times(x, 1.0) == x
  {
  }

  lemma {:induction false} PowerTimes(a: int, b: int)
    ensures Power(a + b) == Times(Power(a), Power(b))
    decreases if b < 0 then -b else b
  {
    assert Power(0) == 1.0;
    hide Power;
    hide Times;
    if b > 0 {
      PowerTimes(a, b - 1);
      PowerStep(a + b - 1);
      PowerStep(b - 1);
      TimesTen(Power(a), Power(b - 1));
    } else if b < 0 {
      PowerTimes(a, b + 1);
      PowerStep(a + b);
      PowerStep(b);
      TimesTen(Power(a), Power(b));
    } else {
      TimesTen(Power(a), 1.0);
    }
  }

  lemma PowerAdd(a: int, b: int)
    ensures Power(a + b) == Power(a) * Power(b)
  {
    hide Power;
    PowerTimes(a, b);
  }

  lemma {:induction false} ZerosLength(n: nat)
    ensures |Zeros(n)| == n && AllDigits(Zeros(n))
  {
    if n > 0 {
      ZerosLength(n - 1);
    }
  }

  lemma AppendZero(s: string)
    requires AllDigits(s)
    ensures AllDigits(s + "0") && DigitsValue(s + "0") == DigitsValue(s) * 10
  {
    var t := s + "0";
    assert t[..|t| - 1] == s;
    assert t[|t| - 1] == '0';
  }

  lemma {:induction false} ZerosBehind(s: string, n: nat)
    requires AllDigits(s)
    ensures AllDigits(s + Zeros(n))
    ensures DigitsValue(s + Zeros(n)) as real == Magnitude(DigitsValue(s), n)
  {
    if n == 0 {
      NoMore(s);
    } else {
      ZerosBehind(s, n - 1);
      AppendZero(s + Zeros(n - 1));
      Associate(s, Zeros(n - 1), "0");
      Tenfold(DigitsValue(s + Zeros(n - 1)), DigitsValue(s), n - 1);
    }
  }

  lemma Tenfold(m: nat, n: nat, e: int)
    requires m as real == Magnitude(n, e)
    ensures (m * 10) as real == Magnitude(n, e + 1)
  {
    PowerStep(e);
    Commute(10.0, n as real, Power(e));
    assert (m * 10) as real == 10.0 * m as real;
  }

  lemma Shift(n: nat, e: int)
    ensures Magnitude(n * 10, e) == Magnitude(n, e + 1)
  {
    PowerStep(e);
    Commute(10.0, n as real, Power(e));
    assert (n * 10) as real == 10.0 * n as real;
  }

  lemma {:induction false} ZeroAhead(s: string)
    requires AllDigits(s)
    ensures AllDigits("0" + s) && DigitsValue("0" + s) == DigitsValue(s)
  {
    var t := "0" + s;
    if s == "" {
      assert t[..0] == "";
    } else {
      ZeroAhead(s[..|s| - 1]);
      assert t[..|t| - 1] == "0" + s[..|s| - 1];
      assert t[|t| - 1] == s[|s| - 1];
    }
  }

  lemma {:induction false} ZerosAhead(n: nat, s: string)
    requires AllDigits(s)
    ensures AllDigits(Zeros(n) + s) && DigitsValue(Zeros(n) + s) == DigitsValue(s)
  {
    if n == 0 {
      Split("", s);
    } else {
      ZeroAhead(s);
      ZerosAhead(n - 1, "0" + s);
      Associate(Zeros(n - 1), "0", s);
    }
  }

  lemma {:induction false} TrimLeftValue(s: string)
    requires AllDigits(s)
    ensures AllDigits(TrimLeft(s)) && DigitsValue(TrimLeft(s)) == DigitsValue(s)
  {
    if s != "" && s[0] == '0' {
      Join(s, 1);
      ZeroAhead(s[1..]);
      TrimLeftValue(s[1..]);
    }
  }

  lemma {:induction false} TrimRightValue(s: string, exponent: int)
    requires AllDigits(s)
    ensures |TrimRight(s)| <= |s| && AllDigits(TrimRight(s))
    ensures Amount(false, TrimRight(s), exponent + |s| - |TrimRight(s)|) == Amount(false, s, exponent)
  {
    if s != "" && s[|s| - 1] == '0' {
      var front := s[..|s| - 1];
      TrimRightValue(front, exponent + 1);
      assert DigitsValue(s) == DigitsValue(front) * 10;
      Shift(DigitsValue(front), exponent);
    }
  }

  /** The last digit decides divisibility by ten. */
  lemma LastDigit(s: string)
    requires AllDigits(s) && s != ""
    ensures DigitsValue(s) % 10 == s[|s| - 1] as nat - '0' as nat
  {
    assert IsDigit(s[|s| - 1]);
  }

  lemma {:induction false} LeadingDigitPositive(s: string)
    requires AllDigits(s) && s != "" && s[0] != '0'
    ensures DigitsValue(s) > 0
  {
    assert IsDigit(s[0]);
    if |s| > 1 {
      LeadingDigitPositive(s[..|s| - 1]);
    }
  }

  ghost function Tens(n: nat): nat {
    if n == 0 then 1 else 10 * Tens(n - 1)
  }

  lemma {:induction false} ShiftBy(n: nat, e: int, k: nat)
    ensures Magnitude(n, e + k) == Magnitude(n * Tens(k), e)
    decreases k
  {
    if k > 0 {
      ShiftBy(n * 10, e, k - 1);
      Shift(n, e + (k - 1));
      assert n * 10 * Tens(k - 1) == n * Tens(k);
    }
  }

  lemma SameMantissa(m: nat, n: nat, e: int)
    requires Magnitude(m, e) == Magnitude(n, e)
    ensures m == n
  {
    PowerPositive(e);
    Cancel(m as real, n as real, Power(e));
  }

  lemma EndsInZero(n: nat, k: nat)
    ensures k > 0 ==> (n * Tens(k)) % 10 == 0
    ensures k == 0 ==> n * Tens(k) == n
  {
    if k > 0 {
      assert n * Tens(k) == 10 * (n * Tens(k - 1));
    }
  }

  /** Two numbers without trailing zeros that differ by a power of ten are the same. */
  lemma SameExponent(m: nat, n: nat, d: int, e: int)
    requires m % 10 != 0 && n % 10 != 0 && d <= e
    requires Magnitude(m, d) == Magnitude(n, e)
    ensures d == e && m == n
  {
    var k := e - d;
    ShiftBy(n, d, k);
    SameMantissa(m, n * Tens(k), d);
    EndsInZero(n, k);
  }

  lemma {:induction false} TrimLeftLast(s: string)
    requires s != "" && s[|s| - 1] != '0'
    ensures TrimLeft(s) != "" && TrimLeft(s)[|TrimLeft(s)| - 1] == s[|s| - 1]
  {
    if s[0] == '0' {
      TrimLeftLast(s[1..]);
    }
  }

  lemma {:induction false} ValueBelow(s: string)
    requires AllDigits(s)
    ensures DigitsValue(s) < Tens(|s|)
    ensures s != "" && s[0] != '0' ==> Tens(|s| - 1) <= DigitsValue(s)
  {
    if s != "" {
      ValueBelow(s[..|s| - 1]);
      assert IsDigit(s[|s| - 1]);
      if |s| == 1 {
        assert IsDigit(s[0]);
      }
    }
  }

  lemma {:induction false} DigitsLength(n: nat, k: nat)
    requires k > 0 && n < Tens(k)
    ensures |Digits(n)| <= k
  {
    if n >= 10 {
      DigitsLength(n / 10, k - 1);
    }
  }

  lemma Millions()
    ensures Tens(6) == 1000000
  {
    assert Tens(3) == 1000;
  }

  /** Smaller than the bound, and whole once scaled up. */
  ghost predicate Numeric(x: real, bound: real, scale: real) {
    -bound < x < bound && WholeAt(x, scale)
  }

  ghost predicate WholeAt(x: real, scale: real) {
    IsWhole(x * scale)
  }

  ghost predicate IsWhole(x: real) {
    x.Floor as real == x
  }

  lemma {:induction false} PowerGrows(d: int, e: int)
    requires d <= e
    ensures Power(d) <= Power(e)
    decreases e - d
  {
    if d < e {
      PowerStep(d);
      PowerPositive(d);
      PowerGrows(d + 1, e);
    }
  }

  lemma TensMagnitude(k: nat, e: int)
    ensures Magnitude(Tens(k), e) == Power(e + k)
  {
    ShiftBy(1, e, k);
  }

  lemma MagnitudeOrder(m: nat, n: nat, e: int)
    ensures m < n ==> Magnitude(m, e) < Magnitude(n, e)
    ensures m <= n ==> Magnitude(m, e) <= Magnitude(n, e)
  {
    PowerPositive(e);
    var gap := n as real - m as real;
    assert gap * Power(e) == Magnitude(n, e) - Magnitude(m, e);
    if m < n {
      assert gap * Power(e) > 0.0;
    }
  }

  lemma SizeBound(digits: string, e: int, integer: int)
    requires AllDigits(digits) && digits != "" && digits[0] != '0'
    ensures Magnitude(DigitsValue(digits), e) < Power(integer) <==> |digits| + e <= integer
  {
    var m, k := DigitsValue(digits), |digits|;
    ValueBelow(digits);
    if k + e <= integer {
      MagnitudeOrder(m, Tens(k), e);
      TensMagnitude(k, e);
      PowerGrows(e + k, integer);
    } else {
      MagnitudeOrder(Tens(k - 1), m, e);
      TensMagnitude(k - 1, e);
      PowerGrows(integer, e + (k - 1));
    }
  }

  lemma WholeBound(m: nat, e: int)
    requires m % 10 != 0
    ensures IsWhole(Magnitude(m, e)) <==> e >= 0
  {
    if e >= 0 {
      ShiftBy(m, 0, e);
    } else {
      PowerPositive(e);
      var n := Magnitude(m, e).Floor;
      if n as real == Magnitude(m, e) {
        assert n >= 0;
        ShiftBy(n, e, -e);
        SameMantissa(m, n * Tens(-e), e);
        EndsInZero(n, -e);
      }
    }
  }

  lemma NumericSigned(x: real, bound: real, scale: real)
    ensures Numeric(-x, bound, scale) <==> Numeric(x, bound, scale)
  {
    WholeOpposite(x, scale);
  }

  lemma WholeOpposite(x: real, p: real)
    ensures WholeAt(-x, p) <==> WholeAt(x, p)
  {
    assert (-x) * p == -(x * p);
    FloorOfOpposite(x * p);
  }

  lemma ScaledMagnitude(m: nat, e: int, fraction: nat)
    ensures Magnitude(m, e) * Power(fraction) == Magnitude(m, e + fraction)
  {
    PowerAdd(e, fraction);
    Commute(m as real, Power(e), Power(fraction));
  }

  lemma NumericSize(digits: string, e: int, integer: nat, fraction: nat)
    requires AllDigits(digits) && digits != "" && digits[0] != '0' && digits[|digits| - 1] != '0'
    ensures Numeric(Magnitude(DigitsValue(digits), e), Power(integer), Power(fraction)) <==>
            |digits| + e <= integer && e + fraction >= 0
  {
    var m := DigitsValue(digits);
    NotTenfold(digits);
    SizeBound(digits, e, integer);
    WholeScaled(m, e, fraction);
    PowerPositive(integer);
    MagnitudeNotNegative(m, e);
    NumericAbove(Magnitude(m, e), Power(integer), Power(fraction));
  }

  lemma WholeScaled(m: nat, e: int, fraction: nat)
    requires m % 10 != 0
    ensures WholeAt(Magnitude(m, e), Power(fraction)) <==> e + fraction >= 0
  {
    ScaledMagnitude(m, e, fraction);
    WholeBound(m, e + fraction);
  }

  lemma NumericAbove(x: real, bound: real, scale: real)
    requires x >= 0.0 && bound > 0.0
    ensures Numeric(x, bound, scale) <==> x < bound && WholeAt(x, scale)
  {
  }

  lemma NotTenfold(digits: string)
    requires AllDigits(digits) && digits != "" && digits[|digits| - 1] != '0'
    ensures DigitsValue(digits) % 10 != 0
  {
    LastDigit(digits);
  }

  lemma MagnitudeNotNegative(n: nat, e: int)
    ensures Magnitude(n, e) >= 0.0
  {
    PowerPositive(e);
  }

  lemma FloorOfOpposite(x: real)
    ensures IsWhole(-x) <==> IsWhole(x)
  {
    if IsWhole(x) {
      assert -x == (-x.Floor) as real;
    }
    if IsWhole(-x) {
      assert x == (-(-x).Floor) as real;
    }
  }
}

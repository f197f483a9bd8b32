/**
 One spelling per number: utils/jsonvalue/value.go, canonicalNumber, Number and Normalize.
 A number means a rational, kept here as a real.
 */
module JsonNumbers {
  import opened Wrappers
  import opened JsonTrees
  import opened Decimals
  import opened DecimalArithmetic
  import opened NumberGrammar

  const NUMBER_LIMIT: nat := 4096
  const STORED_LIMIT: nat := 150000
  const EXPONENT_LIMIT: nat := 1000000
  const INTEGER_DIGITS: nat := 131072
  const FRACTION_DIGITS: nat := 16383
  const PLAIN_DIGITS: nat := 32

  // The canonical spelling

  /** Significant digits and the power of ten behind the last one; no digits for zero. */
  datatype Decimal = Decimal(negative: bool, digits: string, exponent: int)

  function Reduce(negative: bool, digits: string, exponent: int): Decimal {
    var left := TrimLeft(digits);
    var both := TrimRight(left);
    if left == "" then Decimal(false, "", 0)
    else Decimal(negative, both, exponent + |left| - |both|)
  }

  function Signed(n: int): string {
    if n < 0 then "-" + Digits(-n) else Digits(n)
  }

  function Spelling(d: Decimal): (l: Literal) {
    var point := |d.digits| + d.exponent;
    if d.digits == "" then Literal(false, "0", None, None, "")
    else if d.exponent >= 0 && point <= PLAIN_DIGITS then
      Literal(d.negative, d.digits + Zeros(d.exponent), None, None, "")
    else if d.exponent < 0 && point > 0 then
      Literal(d.negative, d.digits[..point], Some(d.digits[point..]), None, "")
    else if -6 <= point <= 0 then
      Literal(d.negative, "0", Some(Zeros(-point) + d.digits), None, "")
    else
      var sign := if point - 1 < 0 then "-" else "";
      var size := if point - 1 < 0 then 1 - point else point - 1;
      Literal(d.negative, d.digits[..1], if |d.digits| > 1 then Some(d.digits[1..]) else None,
              Some(Exponent('e', sign, Digits(size))), "")
  }

  predicate WithinDigits(d: Decimal, integer: nat, fraction: nat) {
    d.digits != "" ==> |d.digits| + d.exponent <= integer && d.exponent >= 0 - fraction
  }

  /** PostgreSQL's numeric holds it without loss. */
  predicate Storable(d: Decimal) {
    WithinDigits(d, INTEGER_DIGITS, FRACTION_DIGITS)
  }

  function Spelled(d: Decimal): Option<string> {
    if Storable(d) then Some(Spelling(d).Text()) else None
  }

  predicate ExponentSupported(l: Literal)
    requires l.Well()
  {
    l.exponent.Some? ==> l.space == "" && 0 - EXPONENT_LIMIT <= l.exponent.value.Value() <= EXPONENT_LIMIT
  }

  /** What is left when sign, point and exponent are cut away. */
  function Significand(l: Literal): string {
    l.whole + (l.fraction.GetOr("") + l.space)
  }

  /** The power of ten it is then taken to carry. */
  function SignificandScale(l: Literal): int
    requires l.Well()
  {
    l.Scale() - if l.fraction.Some? then |l.space| else 0
  }

  /** What the digits reduce to. White space behind a number without exponent is taken for digits. */
  function Significant(l: Literal): Decimal
    requires l.Well()
  {
    Reduce(l.negative, Significand(l), SignificandScale(l))
  }

  function Canonical(raw: string, maxLength: nat): Option<string> {
    if |raw| > maxLength || Scan(raw).None? then None
    else
      ScanSound(raw);
      var l := Scan(raw).value;
      if ExponentSupported(l) then Spelled(Significant(l)) else None
  }

  function Number(raw: string): Option<string> {
    Canonical(raw, NUMBER_LIMIT)
  }

  function IndexAny(s: string, chars: set<char>): int {
    if s == "" then -1
    else if s[0] in chars then 0
    else
      var i := IndexAny(s[1..], chars);
      if i < 0 then -1 else i + 1
  }

  /** strconv.ParseInt, over all integers. */
  function ParseInt(s: string): Option<int> {
    var sign := LeadingSign(s);
    var digits := s[|sign|..];
    if digits == "" || !AllDigits(digits) then None
    else Some(if s[0] == '-' then 0 - DigitsValue(digits) else DigitsValue(digits))
  }

  lemma {:induction false} IndexAnyAt(before: string, rest: string, chars: set<char>)
    requires forall c | c in before :: c !in chars
    requires rest != "" ==> rest[0] in chars
    ensures IndexAny(before + rest, chars) == if rest == "" then -1 else |before|
  {
    var s := before + rest;
    if before == "" {
      assert s == rest;
    } else {
      assert s[1..] == before[1..] + rest;
      assert s[0] == before[0] && before[0] in before;
      assert forall c | c in before[1..] :: c in before;
      IndexAnyAt(before[1..], rest, chars);
    }
  }

  /** Where the exponent starts in the text behind the sign. */
  lemma ExponentIndex(l: Literal)
    requires l.Well()
    ensures l.exponent.None? ==> IndexAny(l.Unsigned(), {'e', 'E'}) == -1
    ensures l.exponent.Some? ==>
              var i := IndexAny(l.Unsigned(), {'e', 'E'});
              && 0 <= i < |l.Unsigned()|
              && l.Unsigned()[..i] == l.whole + WithFraction(l.fraction, "")
              && l.Unsigned()[i + 1..] == l.exponent.value.sign + (l.exponent.value.digits + l.space)
  {
    hide IndexAny;
    var front := l.whole + WithFraction(l.fraction, "");
    var rest := WithExponent(l.exponent, l.space);
    FractionFirst(l.fraction, rest);
    Associate(l.whole, WithFraction(l.fraction, ""), rest);
    FrontPlain(l);
    hide WithFraction;
    if l.exponent.Some? {
      var e := l.exponent.value;
      MarkerFound(front, e.marker, e.sign + (e.digits + l.space), {'e', 'E'});
    } else {
      NoMarker(front, rest, {'e', 'E'});
    }
  }

  /** No marker among the digits, the point and the white space. */
  lemma FrontPlain(l: Literal)
    requires l.Well()
    ensures forall c | c in l.whole + WithFraction(l.fraction, "") :: c != 'e' && c != 'E'
  {
  }

  lemma MarkerFound(before: string, marker: char, after: string, chars: set<char>)
    requires (forall c | c in before :: c !in chars) && marker in chars
    ensures var s := before + ([marker] + after);
            && IndexAny(s, chars) == |before| < |s| && s[..|before|] == before && s[|before| + 1..] == after
  {
    IndexAnyAt(before, [marker] + after, chars);
    Split(before, [marker] + after);
    Split([marker], after);
    Tail(before, [marker] + after);
  }

  lemma NoMarker(a: string, b: string, chars: set<char>)
    requires (forall c | c in a :: c !in chars) && (forall c | c in b :: c !in chars)
    ensures IndexAny(a + b, chars) == -1
  {
    IndexAnyAt(a + b, "", chars);
    NoMore(a + b);
  }

  lemma FractionFirst(fraction: Option<string>, rest: string)
    ensures WithFraction(fraction, rest) == WithFraction(fraction, "") + rest
  {
  }

  /** Where the fraction starts, and the digits that stay when the point goes. */
  lemma PointIndex(l: Literal, s: string)
    requires l.Well() && s == l.whole + WithFraction(l.fraction, l.space)
    ensures l.fraction.None? ==> IndexAny(s, {'.'}) == -1 && s == Significand(l)
    ensures l.fraction.Some? ==> IndexAny(s, {'.'}) == |l.whole| < |s|
    ensures l.fraction.Some? ==> |s| - |l.whole| - 1 == |l.fraction.value| + |l.space|
    ensures l.fraction.Some? ==> s[..|l.whole|] + s[|l.whole| + 1..] == Significand(l)
  {
    if l.fraction.Some? {
      var rest := WithFraction(l.fraction, l.space);
      IndexAnyAt(l.whole, rest, {'.'});
      Split(l.whole, rest);
      Split(".", l.fraction.value + l.space);
      Tail(l.whole, rest);
    } else {
      IndexAnyAt(s, "", {'.'});
      NoMore(s);
      Split("", l.space);
    }
  }

  lemma ParseIntOf(e: Exponent, space: string)
    requires e.Well() && Blank(space)
    ensures ParseInt(e.sign + (e.digits + space)) == if space == "" then Some(e.Value()) else None
  {
    SignSplits(e, space);
    if space != "" {
      assert !IsDigit((e.digits + space)[|e.digits|]);
    } else {
      NoMore(e.digits);
    }
  }

  method CanonicalNumber(text: string, maxLength: nat) returns (number: Option<string>)
    ensures number == Canonical(text, maxLength)
  {
    if |text| > maxLength || Scan(text).None? {
      return None;
    }
    ScanSound(text);
    ghost var l := Scan(text).value;
    var negative := text != "" && text[0] == '-';
    var raw := if negative then text[1..] else text;
    var supported, exponent;
    supported, raw, exponent := CutExponent(l, raw);
    if !supported {
      return None;
    }
    raw, exponent := DropPoint(l, raw, exponent);
    number := SpellDigits(negative, raw, exponent);
  }

  method CutExponent(ghost l: Literal, text: string) returns (supported: bool, raw: string, exponent: int)
    requires l.Well() && text == l.Unsigned()
    ensures supported == ExponentSupported(l)
    ensures supported ==> raw == l.whole + WithFraction(l.fraction, l.space)
    ensures supported ==> exponent == if l.exponent.Some? then l.exponent.value.Value() else 0
  {
    hide IndexAny;
    hide ParseInt;
    raw, exponent := text, 0;
    ExponentIndex(l);
    UnsignedText(l);
    hide WithFraction;
    hide WithExponent;
    var i := IndexAny(raw, {'e', 'E'});
    if i >= 0 {
      ParseIntOf(l.exponent.value, l.space);
      var parsed := ParseInt(raw[i + 1..]);
      if parsed.None? || parsed.value < 0 - EXPONENT_LIMIT || parsed.value > EXPONENT_LIMIT {
        return false, raw, 0;
      }
      exponent := parsed.value;
      raw := raw[..i];
    }
    return true, raw, exponent;
  }

  lemma UnsignedText(l: Literal)
    ensures l.exponent.None? ==> l.Unsigned() == l.whole + WithFraction(l.fraction, l.space)
  {
  }

  method DropPoint(ghost l: Literal, text: string, scale: int) returns (raw: string, exponent: int)
    requires l.Well() && ExponentSupported(l)
    requires text == l.whole + WithFraction(l.fraction, l.space)
    requires scale == if l.exponent.Some? then l.exponent.value.Value() else 0
    ensures raw == Significand(l) && exponent == SignificandScale(l)
  {
    raw, exponent := text, scale;
    PointIndex(l, raw);
    var i := IndexAny(raw, {'.'});
    if i >= 0 {
      exponent := exponent - (|raw| - i - 1);
      raw := raw[..i] + raw[i + 1..];
    }
  }

  method SpellDigits(negative: bool, digits: string, scale: int) returns (number: Option<string>)
    ensures number == Spelled(Reduce(negative, digits, scale))
  {
    var raw := TrimLeft(digits);
    if raw == "" {
      NoMore("0");
      Split("", "0");
      return Some("0");
    }
    TrimLeftHead(digits);
    TrimRightKeepsHead(raw);
    var trimmed := TrimRight(raw);
    var exponent := scale + (|raw| - |trimmed|);
    raw := trimmed;
    ghost var d := Reduce(negative, digits, scale);
    assert d == Decimal(negative, raw, exponent);
    var sign := if negative then "-" else "";
    var point := |raw| + exponent;
    if point > INTEGER_DIGITS || exponent < 0 - FRACTION_DIGITS {
      return None;
    }
    if exponent >= 0 && point <= PLAIN_DIGITS {
      number := Some(sign + (raw + Zeros(exponent)));
    } else if exponent < 0 && point > 0 {
      number := Some(sign + (raw[..point] + ("." + raw[point..])));
    } else if point <= 0 && point >= -6 {
      number := Some(sign + ("0" + ("." + (Zeros(-point) + raw))));
    } else {
      var mantissa := raw[..1];
      if |raw| > 1 {
        mantissa := mantissa + ("." + raw[1..]);
      }
      NoMore(raw[..1]);
      number := Some(sign + (mantissa + ("e" + Signed(point - 1))));
    }
    SpellingText(d, point);
  }

  /** The layouts of the four cases. */
  lemma SpellingText(d: Decimal, point: int)
    requires d.digits != "" && point == |d.digits| + d.exponent
    ensures var sign := if d.negative then "-" else "";
            var text := Spelling(d).Text();
            if d.exponent >= 0 && point <= PLAIN_DIGITS then text == sign + (d.digits + Zeros(d.exponent))
            else if d.exponent < 0 && point > 0 then text == sign + (d.digits[..point] + ("." + d.digits[point..]))
            else if -6 <= point <= 0 then text == sign + ("0" + ("." + (Zeros(-point) + d.digits)))
            else
              var mantissa := d.digits[..1] + if |d.digits| > 1 then "." + d.digits[1..] else "";
              text == sign + (mantissa + ("e" + Signed(point - 1)))
  {
    var l := Spelling(d);
    if l.exponent.Some? {
      var e := l.exponent.value;
      NoMore(e.digits);
      FractionFirst(l.fraction, WithExponent(l.exponent, ""));
      Associate(l.whole, WithFraction(l.fraction, ""), WithExponent(l.exponent, ""));
      NoMore(d.digits[1..]);
      assert "" + e.digits == e.digits;
    } else {
      NoMore(l.whole);
      NoMore(l.fraction.GetOr(""));
    }
  }

  // What the spelling means

  /** No zero at either end, and one form for zero. */
  ghost predicate Normal(d: Decimal) {
    && AllDigits(d.digits)
    && (d.digits == "" ==> !d.negative && d.exponent == 0)
    && (d.digits != "" ==> d.digits[0] != '0' && d.digits[|d.digits| - 1] != '0')
  }

  ghost function DecimalValue(d: Decimal): real
    requires Normal(d)
  {
    Amount(d.negative, d.digits, d.exponent)
  }

  lemma ReduceKeepsValue(negative: bool, digits: string, exponent: int)
    requires AllDigits(digits)
    ensures Normal(Reduce(negative, digits, exponent))
    ensures DecimalValue(Reduce(negative, digits, exponent)) == Amount(negative, digits, exponent)
  {
    var left := TrimLeft(digits);
    TrimLeftValue(digits);
    TrimLeftHead(digits);
    if left != "" {
      TrimRightKeepsHead(left);
      TrimRightValue(left, exponent);
    }
  }

  /** The literal's digits, up to leading zeros, with the scale they carry. */
  lemma PlainKeepsValue(d: Decimal)
    requires Normal(d) && d.digits != "" && d.exponent >= 0
    ensures AllDigits(d.digits + Zeros(d.exponent))
    ensures Amount(d.negative, d.digits + Zeros(d.exponent), 0) == DecimalValue(d)
  {
    ZerosBehind(d.digits, d.exponent);
  }

  lemma ScientificWell(d: Decimal)
    requires Normal(d) && d.digits != ""
    ensures var point := |d.digits| + d.exponent;
            var e := Exponent('e', if point < 1 then "-" else "", Digits(if point < 1 then 1 - point else point - 1));
            e.Well() && e.Value() == point - 1
  {
    var point := |d.digits| + d.exponent;
    DigitsRoundTrip(if point < 1 then 1 - point else point - 1);
  }

  lemma SpellingWell(d: Decimal)
    requires Normal(d)
    ensures Spelling(d).Well() && Spelling(d).space == ""
    ensures d.digits == "" || |d.digits| + d.exponent <= 0 || d.exponent < 0
            || |d.digits| + d.exponent > PLAIN_DIGITS ==>
              Spelling(d).Scale() == d.exponent
  {
    var point := |d.digits| + d.exponent;
    if d.digits != "" {
      ScientificWell(d);
      if d.exponent >= 0 {
        ZerosBehind(d.digits, d.exponent);
      }
      if -6 <= point <= 0 {
        ZerosLength(-point);
        ZerosAhead(-point, d.digits);
      }
    }
  }

  lemma SpellingDigits(d: Decimal)
    requires Normal(d) && Spelling(d).Well()
    ensures var l := Spelling(d);
            var all := l.whole + l.fraction.GetOr("");
            if d.digits == "" then all == "0"
            else if d.exponent >= 0 && |d.digits| + d.exponent <= PLAIN_DIGITS then all == d.digits + Zeros(d.exponent)
            else DigitsValue(all) == DigitsValue(d.digits)
  {
    var l := Spelling(d);
    var point := |d.digits| + d.exponent;
    NoMore(l.whole);
    if d.exponent < 0 && point > 0 {
      Join(d.digits, point);
    } else if -6 <= point <= 0 {
      ZerosAhead(-point, d.digits);
      ZeroAhead(Zeros(-point) + d.digits);
    } else if d.digits != "" {
      Join(d.digits, 1);
    }
  }

  lemma SpellingKeepsValue(d: Decimal)
    requires Normal(d)
    ensures Spelling(d).Well() && Spelling(d).space == "" && Spelling(d).Value() == DecimalValue(d)
  {
    SpellingWell(d);
    SpellingDigits(d);
    if d.digits != "" && d.exponent >= 0 {
      PlainKeepsValue(d);
    }
    ZeroAhead("");
  }

  /** A rational has one reduced decimal. */
  lemma ValueDeterminesDecimal(a: Decimal, b: Decimal)
    requires Normal(a) && Normal(b) && DecimalValue(a) == DecimalValue(b)
    ensures a == b
  {
    SizePositive(a);
    SizePositive(b);
    if a.digits != "" && b.digits != "" {
      LastDigit(a.digits);
      LastDigit(b.digits);
      var m, n := DigitsValue(a.digits), DigitsValue(b.digits);
      if a.exponent <= b.exponent {
        SameExponent(m, n, a.exponent, b.exponent);
      } else {
        SameExponent(n, m, b.exponent, a.exponent);
      }
      DigitsOfValue(a.digits);
      DigitsOfValue(b.digits);
    }
  }

  lemma SizePositive(d: Decimal)
    requires Normal(d)
    ensures d.digits == "" ==> DecimalValue(d) == 0.0
    ensures d.digits != "" ==> if d.negative then DecimalValue(d) < 0.0 else DecimalValue(d) > 0.0
  {
    PowerPositive(d.exponent);
    if d.digits != "" {
      LeadingDigitPositive(d.digits);
      assert Magnitude(DigitsValue(d.digits), d.exponent) > 0.0;
    }
  }

  /** A number as section 6 of RFC 8259 writes it, nothing behind it. */
  predicate IsNumber(s: string) {
    Scan(s).Some? && Scan(s).value.space == ""
  }

  ghost function NumberValue(s: string): real
    requires IsNumber(s)
  {
    ScanSound(s);
    Scan(s).value.Value()
  }

  lemma SignificantMeans(l: Literal)
    requires l.Well() && l.space == ""
    ensures Normal(Significant(l)) && DecimalValue(Significant(l)) == l.Value()
  {
    NoMore(l.fraction.GetOr(""));
    ReduceKeepsValue(l.negative, Significand(l), l.Scale());
  }

  /** The answer is a number again, of the same value. */
  lemma CanonicalKeepsValue(raw: string, maxLength: nat)
    requires IsNumber(raw) && Canonical(raw, maxLength).Some?
    ensures IsNumber(Canonical(raw, maxLength).value)
    ensures NumberValue(Canonical(raw, maxLength).value) == NumberValue(raw)
  {
    ScanSound(raw);
    var l := Scan(raw).value;
    SignificantMeans(l);
    SpellingKeepsValue(Significant(l));
    ScanText(Spelling(Significant(l)));
  }

  ghost function DecimalOf(raw: string): Decimal
    requires IsNumber(raw)
  {
    ScanSound(raw);
    Significant(Scan(raw).value)
  }

  lemma AcceptedMeans(raw: string, maxLength: nat)
    requires IsNumber(raw) && Canonical(raw, maxLength).Some?
    ensures Normal(DecimalOf(raw)) && Storable(DecimalOf(raw)) && DecimalValue(DecimalOf(raw)) == NumberValue(raw)
    ensures Canonical(raw, maxLength) == Some(Spelling(DecimalOf(raw)).Text())
  {
    ScanSound(raw);
    SignificantMeans(Scan(raw).value);
  }

  /** Two accepted numbers get one spelling exactly if they are equal. */
  lemma EqualIffSameValue(a: string, b: string, m: nat, n: nat)
    requires IsNumber(a) && IsNumber(b) && Canonical(a, m).Some? && Canonical(b, n).Some?
    ensures Canonical(a, m) == Canonical(b, n) <==> NumberValue(a) == NumberValue(b)
  {
    CanonicalKeepsValue(a, m);
    CanonicalKeepsValue(b, n);
    AcceptedMeans(a, m);
    AcceptedMeans(b, n);
    if NumberValue(a) == NumberValue(b) {
      ValueDeterminesDecimal(DecimalOf(a), DecimalOf(b));
    }
  }

  // Which of the spellings it is

  ghost function Abs(x: real): real {
    if x < 0.0 then -x else x
  }

  lemma SizeOf(d: Decimal)
    requires Normal(d) && d.digits != ""
    ensures Abs(DecimalValue(d)) == Magnitude(DigitsValue(d.digits), d.exponent)
    ensures IsWhole(Abs(DecimalValue(d))) <==> d.exponent >= 0
    ensures Abs(DecimalValue(d)) < Power(32) <==> |d.digits| + d.exponent <= 32
    ensures Abs(DecimalValue(d)) >= Power(-7) <==> |d.digits| + d.exponent >= -6
    ensures Abs(DecimalValue(d)) > 0.0
  {
    var m := DigitsValue(d.digits);
    SizePositive(d);
    MagnitudeNotNegative(m, d.exponent);
    NotTenfold(d.digits);
    WholeBound(m, d.exponent);
    SizeBound(d.digits, d.exponent, 32);
    SizeBound(d.digits, d.exponent, -7);
  }

  /** Scientific, with one digit before the point and none to spare. */
  ghost predicate Scientific(l: Literal) {
    && |l.whole| == 1 && l.whole != "0"
    && (l.fraction.Some? ==> l.fraction.value != "" && l.fraction.value[|l.fraction.value| - 1] != '0')
    && l.exponent.Some? && l.exponent.value.marker == 'e' && l.exponent.value.sign != "+"
    && Unpadded(l.exponent.value.digits)
  }

  lemma LayoutOf(d: Decimal)
    requires Normal(d)
    ensures Spelling(d).exponent.None? <==>
            var x := Abs(DecimalValue(d)); x == 0.0 || (if IsWhole(x) then x < Power(32) else x >= Power(-7))
  {
    hide Zeros;
    hide Digits;
    hide DecimalValue;
    hide Abs;
    hide IsWhole;
    hide Power;
    if d.digits == "" {
      ZeroSize(d);
    } else {
      SizeOf(d);
    }
  }

  lemma ZeroSize(d: Decimal)
    requires Normal(d) && d.digits == ""
    ensures Abs(DecimalValue(d)) == 0.0
  {
    SizePositive(d);
  }

  lemma LayoutShape(d: Decimal)
    requires Normal(d)
    ensures Spelling(d).exponent.None? ==> Spelling(d) == Expansion(d)
    ensures Spelling(d).exponent.Some? ==> Scientific(Spelling(d))
  {
    hide Zeros;
    hide Digits;
    if d.digits != "" {
      var point := |d.digits| + d.exponent;
      DigitsRoundTrip(if point < 1 then 1 - point else point - 1);
    }
  }

  /** All digits are written out for whole numbers below 10^32 and for fractions from 10^-7 on, and no
      other number. */
  lemma LayoutExact(raw: string, maxLength: nat)
    requires IsNumber(raw) && Canonical(raw, maxLength).Some?
    ensures var (text, x) := (Canonical(raw, maxLength).value, Abs(NumberValue(raw)));
            && Scan(text).Some?
            && if x == 0.0 || (if IsWhole(x) then x < Power(32) else x >= Power(-7))
               then text == Expansion(DecimalOf(raw)).Text() && Scan(text).value.exponent.None?
               else Scientific(Scan(text).value)
  {
    AcceptedMeans(raw, maxLength);
    var d := DecimalOf(raw);
    LayoutOf(d);
    LayoutShape(d);
    SpellingKeepsValue(d);
    ScanText(Spelling(d));
    hide Spelling;
    hide Expansion;
    hide Abs;
    hide IsWhole;
    hide Power;
  }

  /** White space behind a number is accepted and stays in the answer, which then is no number. */
  lemma TrailingSpaceStays(raw: string, maxLength: nat)
    requires Canonical(raw, maxLength).Some?
    ensures IsNumber(Canonical(raw, maxLength).value) <==> IsNumber(raw)
  {
    ScanSound(raw);
    var l := Scan(raw).value;
    if l.space == "" {
      CanonicalKeepsValue(raw, maxLength);
    } else {
      SpaceStays(l);
    }
  }

  /** Such an input: the answer is the text itself, with its blank. */
  lemma TrailingSpaceAccepted()
    ensures Canonical("1.5 ", NUMBER_LIMIT) == Some("1.5 ") && !IsNumber("1.5 ")
  {
    var l := Literal(false, "1", Some("5"), None, " ");
    ScanText(l);
    assert l.Text() == "1.5 ";
    assert Significand(l) == "15 ";
    var d := Decimal(false, "15 ", -2);
    assert Significant(l) == d;
    assert d.digits[..1] == "1" && d.digits[1..] == "5 ";
    assert Spelling(d).Text() == "1.5 ";
  }

  lemma SpaceStays(l: Literal)
    requires l.Well() && l.space != ""
    ensures !IsNumber(Spelling(Significant(l)).Text())
  {
    var c := l.space[|l.space| - 1];
    LastStays(l, c);
    SpellingHolds(Significant(l), c);
    if IsNumber(Spelling(Significant(l)).Text()) {
      TextHoldsNoBlank(Spelling(Significant(l)).Text(), c);
    }
  }

  lemma TextHoldsNoBlank(text: string, c: char)
    requires IsNumber(text) && IsBlank(c)
    ensures c !in text
  {
    ScanSound(text);
    NumberHoldsNoBlank(Scan(text).value, c);
  }

  lemma LastStays(l: Literal, c: char)
    requires l.Well() && l.space != "" && c == l.space[|l.space| - 1]
    ensures c in Significant(l).digits
  {
    assert IsBlank(c);
    var s := Significand(l);
    assert s[|s| - 1] == c;
    TrimLeftLast(s);
  }

  /** Every digit appears in the text. */
  lemma SpellingHolds(d: Decimal, c: char)
    requires c in d.digits
    ensures c in Spelling(d).Text()
  {
    var point := |d.digits| + d.exponent;
    var l := Spelling(d);
    if d.exponent < 0 && point > 0 {
      Join(d.digits, point);
    } else if !(d.exponent >= 0 && point <= PLAIN_DIGITS) && !(-6 <= point <= 0) {
      Join(d.digits, 1);
    }
    assert c in l.whole || (l.fraction.Some? && c in l.fraction.value);
    PartsInText(l, c);
  }

  // Which numbers are stored, and their expansion

  /** Whatever the limit, the answer is short enough to be read back. */
  lemma SpellingFits(d: Decimal)
    requires Normal(d) && Storable(d)
    ensures Spelling(d).Well() && ExponentSupported(Spelling(d)) && |Spelling(d).Text()| <= STORED_LIMIT
  {
    hide Digits;
    hide Zeros;
    hide DigitsValue;
    SpellingWell(d);
    var point := |d.digits| + d.exponent;
    if d.digits != "" {
      if d.exponent >= 0 {
        ZerosLength(d.exponent);
      }
      if -6 <= point <= 0 {
        ZerosLength(-point);
      }
      var size := if point < 1 then 1 - point else point - 1;
      if 0 - FRACTION_DIGITS <= point {
        Millions();
        DigitsLength(size, 6);
        DigitsRoundTrip(size);
      }
    }
  }

  /** Any spelling of a stored number is read back as its canonical one. */
  lemma ReadBack(l: Literal, d: Decimal)
    requires l.Well() && l.space == "" && ExponentSupported(l) && |l.Text()| <= STORED_LIMIT
    requires Normal(d) && Storable(d) && l.Value() == DecimalValue(d)
    ensures Canonical(l.Text(), STORED_LIMIT) == Some(Spelling(d).Text())
  {
    ScanText(l);
    SignificantMeans(l);
    ValueDeterminesDecimal(Significant(l), d);
  }

  /** A canonical number is its own canonical form. */
  lemma CanonicalIdempotent(raw: string, maxLength: nat)
    requires IsNumber(raw) && Canonical(raw, maxLength).Some?
    ensures Canonical(Canonical(raw, maxLength).value, STORED_LIMIT) == Canonical(raw, maxLength)
  {
    AcceptedMeans(raw, maxLength);
    var d := DecimalOf(raw);
    SpellingFits(d);
    SpellingKeepsValue(d);
    ReadBack(Spelling(d), d);
  }

  /** All digits written out, as the database may return them. */
  function Expansion(d: Decimal): Literal {
    var point := |d.digits| + d.exponent;
    if d.digits == "" then Literal(false, "0", None, None, "")
    else if d.exponent >= 0 then Literal(d.negative, d.digits + Zeros(d.exponent), None, None, "")
    else if point > 0 then Literal(d.negative, d.digits[..point], Some(d.digits[point..]), None, "")
    else Literal(d.negative, "0", Some(Zeros(-point) + d.digits), None, "")
  }

  lemma PointedDigits(d: Decimal, point: int)
    requires Normal(d) && 0 < point < |d.digits|
    ensures Unpadded(d.digits[..point]) && AllDigits(d.digits[point..]) && d.digits[point..] != ""
    ensures d.digits[..point] + d.digits[point..] == d.digits
  {
    Join(d.digits, point);
    assert d.digits[..point][0] == d.digits[0];
  }

  lemma FractionDigits(d: Decimal, n: nat)
    requires Normal(d) && d.digits != ""
    ensures AllDigits(Zeros(n) + d.digits) && |Zeros(n) + d.digits| == n + |d.digits|
    ensures AllDigits("0" + (Zeros(n) + d.digits))
    ensures DigitsValue("0" + (Zeros(n) + d.digits)) == DigitsValue(d.digits)
  {
    ZerosLength(n);
    ZerosAhead(n, d.digits);
    ZeroAhead(Zeros(n) + d.digits);
  }

  lemma ExpansionDigits(d: Decimal)
    requires Normal(d) && d.digits != "" && d.exponent < 0
    ensures Expansion(d).Well() && Expansion(d).Scale() == d.exponent
    ensures var all := Expansion(d).whole + Expansion(d).fraction.GetOr("");
            AllDigits(all) && DigitsValue(all) == DigitsValue(d.digits)
  {
    var point := |d.digits| + d.exponent;
    if point > 0 {
      PointedDigits(d, point);
    } else {
      FractionDigits(d, -point);
    }
  }

  lemma ExpansionMeans(d: Decimal)
    requires Normal(d)
    ensures Expansion(d).Well() && Expansion(d).space == "" && Expansion(d).exponent.None?
    ensures Expansion(d).Value() == DecimalValue(d)
  {
    if d.digits != "" && d.exponent < 0 {
      ExpansionDigits(d);
    } else {
      NoMore(Expansion(d).whole);
      if d.digits == "" {
        ZeroAhead("");
      } else {
        PlainKeepsValue(d);
      }
    }
  }

  lemma ExpansionFits(d: Decimal)
    requires Storable(d)
    ensures |Expansion(d).Text()| <= STORED_LIMIT
  {
    var point := |d.digits| + d.exponent;
    if d.digits != "" {
      if d.exponent >= 0 {
        ZerosLength(d.exponent);
      } else if point <= 0 {
        ZerosLength(-point);
      }
    }
  }

  /** The expansion of any accepted number fits the limit and comes back as the same text. */
  lemma ExpansionRecovered(raw: string, maxLength: nat)
    requires IsNumber(raw) && Canonical(raw, maxLength).Some?
    ensures Canonical(Expansion(DecimalOf(raw)).Text(), STORED_LIMIT) == Canonical(raw, maxLength)
  {
    AcceptedMeans(raw, maxLength);
    var d := DecimalOf(raw);
    ExpansionMeans(d);
    ExpansionFits(d);
    ReadBack(Expansion(d), d);
  }

  /** Storage accepts exactly the decimals within both digit limits. */
  lemma DigitLimitsExact(d: Decimal, integer: nat, fraction: nat)
    requires Normal(d)
    ensures WithinDigits(d, integer, fraction) <==> Numeric(DecimalValue(d), Power(integer), Power(fraction))
  {
    if d.digits == "" {
      PowerPositive(integer);
      assert DecimalValue(d) * Power(fraction) == 0.0;
    } else {
      NumericSize(d.digits, d.exponent, integer, fraction);
      NumericSigned(Magnitude(DigitsValue(d.digits), d.exponent), Power(integer), Power(fraction));
    }
  }

  // Whole documents

  function Normalize(v: Json): Json {
    match v
    case Number(text) => Json.Number(Canonical(text, STORED_LIMIT).GetOr(text))
    case Obj(fields) => Obj(map k | k in fields :: Normalize(fields[k]))
    case Arr(elements) => Arr(seq(|elements|, i requires 0 <= i < |elements| => Normalize(elements[i])))
    case _ => v
  }

  /** Every number in the document is one, and within the limits. */
  ghost predicate Readable(v: Json) {
    match v
    case Number(text) => IsNumber(text) && Canonical(text, STORED_LIMIT).Some?
    case Obj(fields) => forall k | k in fields :: Readable(fields[k])
    case Arr(elements) => forall i | 0 <= i < |elements| :: Readable(elements[i])
    case _ => true
  }

  /** The same document, numbers compared as rationals. */
  ghost predicate SameDocument(v: Json, w: Json)
    requires Readable(v) && Readable(w)
  {
    match v
    case Number(text) => w.Number? && NumberValue(text) == NumberValue(w.text)
    case Obj(fields) =>
      w.Obj? && fields.Keys == w.fields.Keys && forall k | k in fields :: SameDocument(fields[k], w.fields[k])
    case Arr(elements) =>
      && w.Arr? && |elements| == |w.elements|
      && forall i | 0 <= i < |elements| :: SameDocument(elements[i], w.elements[i])
    case _ => v == w
  }

  /** Normalised documents are equal exactly if the documents are the same up to the spelling of numbers. */
  lemma {:induction false} NormalizeDecides(v: Json, w: Json)
    requires Readable(v) && Readable(w)
    ensures Normalize(v) == Normalize(w) <==> SameDocument(v, w)
  {
    var p, q := Normalize(v), Normalize(w);
    if v.Number? && w.Number? {
      EqualIffSameValue(v.text, w.text, STORED_LIMIT, STORED_LIMIT);
    } else if v.Obj? && w.Obj? && v.fields.Keys == w.fields.Keys {
      assert p.fields.Keys == v.fields.Keys && q.fields.Keys == w.fields.Keys;
      forall k | k in v.fields
        ensures p.fields[k] == q.fields[k] <==> SameDocument(v.fields[k], w.fields[k])
      {
        NormalizeDecides(v.fields[k], w.fields[k]);
      }
      assert p.fields == q.fields <==> forall k | k in v.fields :: p.fields[k] == q.fields[k];
    } else if v.Obj? && w.Obj? {
      assert p.fields.Keys == v.fields.Keys && q.fields.Keys == w.fields.Keys;
    } else if v.Arr? && w.Arr? && |v.elements| == |w.elements| {
      forall i | 0 <= i < |v.elements|
        ensures p.elements[i] == q.elements[i] <==> SameDocument(v.elements[i], w.elements[i])
      {
        NormalizeDecides(v.elements[i], w.elements[i]);
      }
      assert p.elements == q.elements <==> forall i | 0 <= i < |v.elements| :: p.elements[i] == q.elements[i];
    }
  }
}

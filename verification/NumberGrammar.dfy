/**
 The grammar of a JSON number, section 6 of RFC 8259, with the white space that the source's
 validity check (json.Valid) allows behind it: utils/jsonvalue/value.go, canonicalNumber.

 A literal is kept in its parts; `Scan` recognises a text and is shown to invert `Text`, so the
 parts and the text determine each other.
 */
module NumberGrammar {
  import opened Wrappers
  import opened Decimals
  import opened DecimalArithmetic

  predicate IsMarker(c: char) {
    c == 'e' || c == 'E'
  }

  predicate IsSign(c: char) {
    c == '+' || c == '-'
  }

  datatype Exponent = Exponent(marker: char, sign: string, digits: string) {
    predicate Well() {
      IsMarker(marker) && |sign| <= 1 && (sign != "" ==> IsSign(sign[0])) && digits != "" && AllDigits(digits)
    }

    function Value(): int
      requires Well()
    {
      if sign != "" && sign[0] == '-' then 0 - DigitsValue(digits) else DigitsValue(digits)
    }
  }

  /** A number literal, and the white space json.Valid allows behind it. */
  datatype Literal = Literal(negative: bool, whole: string, fraction: Option<string>,
                             exponent: Option<Exponent>, space: string) {
    predicate Well() {
      && Unpadded(whole)
      && (fraction.Some? ==> fraction.value != "" && AllDigits(fraction.value))
      && (exponent.Some? ==> exponent.value.Well())
      && Blank(space)
    }

    /** The text behind the sign. */
    function Unsigned(): string {
      whole + WithFraction(fraction, WithExponent(exponent, space))
    }

    function Text(): string {
      (if negative then "-" else "") + Unsigned()
    }

    /** The power of ten after the decimal point is dropped. */
    function Scale(): int
      requires Well()
    {
      (if exponent.Some? then exponent.value.Value() else 0) - |fraction.GetOr("")|
    }

    ghost function Value(): real
      requires Well()
    {
      Amount(negative, whole + fraction.GetOr(""), Scale())
    }
  }

  function WithFraction(fraction: Option<string>, rest: string): string {
    if fraction.Some? then "." + (fraction.value + rest) else rest
  }

  function WithExponent(exponent: Option<Exponent>, rest: string): string {
    if exponent.Some? then [exponent.value.marker] + (exponent.value.sign + (exponent.value.digits + rest)) else rest
  }

  predicate IsBlank(c: char) {
    c == ' ' || c == '\t' || c == '\n' || c == '\r'
  }

  predicate Blank(s: string) {
    forall i | 0 <= i < |s| :: IsBlank(s[i])
  }

  // Recognition, in place of the library's json.Valid

  /** How many digits come first. */
  function DigitCount(s: string): (n: nat)
    ensures n <= |s| && AllDigits(s[..n]) && (n < |s| ==> !IsDigit(s[n]))
  {
    if s == "" || !IsDigit(s[0]) then 0
    else
      var n := DigitCount(s[1..]);
      assert s[..n + 1] == [s[0]] + s[1..][..n];
      n + 1
  }

  function ScanFraction(s: string): Option<(Option<string>, string)> {
    if s == "" || s[0] != '.' then Some((None, s))
    else
      var n := DigitCount(s[1..]);
      if n == 0 then None else Some((Some(s[1..][..n]), s[1..][n..]))
  }

  function LeadingSign(s: string): (sign: string)
    ensures |sign| <= |s|
  {
    if s != "" && IsSign(s[0]) then s[..1] else ""
  }

  function ScanExponent(s: string): Option<(Option<Exponent>, string)> {
    if s == "" || !IsMarker(s[0]) then Some((None, s))
    else
      var signed := s[1..];
      var sign := LeadingSign(signed);
      var rest := signed[|sign|..];
      var n := DigitCount(rest);
      if n == 0 then None else Some((Some(Exponent(s[0], sign, rest[..n])), rest[n..]))
  }

  function ScanUnsigned(negative: bool, s: string): Option<Literal> {
    var n := DigitCount(s);
    if !Unpadded(s[..n]) then None
    else
      var f := ScanFraction(s[n..]);
      if f.None? then None
      else
        var e := ScanExponent(f.value.1);
        if e.None? || !Blank(e.value.1) then None
        else Some(Literal(negative, s[..n], f.value.0, e.value.0, e.value.1))
  }

  function Scan(s: string): Option<Literal> {
    if s != "" && s[0] == '-' then ScanUnsigned(true, s[1..]) else ScanUnsigned(false, s)
  }

  lemma {:induction false} DigitCountOf(digits: string, rest: string)
    requires AllDigits(digits) && (rest != "" ==> !IsDigit(rest[0]))
    ensures DigitCount(digits + rest) == |digits|
  {
    var s := digits + rest;
    var n := DigitCount(s);
    assert forall i | 0 <= i < n :: IsDigit(s[i]) by {
      assert forall i | 0 <= i < n :: s[..n][i] == s[i];
    }
    assert forall i | 0 <= i < |digits| :: s[i] == digits[i];
    assert |digits| < |s| ==> s[|digits|] == rest[0];
  }

  lemma ScanFractionText(fraction: Option<string>, rest: string)
    requires fraction.Some? ==> fraction.value != "" && AllDigits(fraction.value)
    requires rest != "" ==> !IsDigit(rest[0]) && rest[0] != '.'
    ensures ScanFraction(WithFraction(fraction, rest)) == Some((fraction, rest))
  {
    if fraction.Some? {
      Split(".", fraction.value + rest);
      Split(fraction.value, rest);
      DigitCountOf(fraction.value, rest);
    }
  }

  lemma SignSplits(e: Exponent, rest: string)
    requires e.Well()
    ensures LeadingSign(e.sign + (e.digits + rest)) == e.sign
    ensures (e.sign + (e.digits + rest))[|e.sign|..] == e.digits + rest
  {
    assert IsDigit(e.digits[0]);
    Split(e.digits, rest);
    Split(e.sign, e.digits + rest);
  }

  lemma ScanExponentText(exponent: Option<Exponent>, space: string)
    requires (exponent.Some? ==> exponent.value.Well()) && Blank(space)
    ensures ScanExponent(WithExponent(exponent, space)) == Some((exponent, space))
  {
    if exponent.Some? {
      var e := exponent.value;
      Split([e.marker], e.sign + (e.digits + space));
      SignSplits(e, space);
      Split(e.digits, space);
      DigitCountOf(e.digits, space);
    }
  }

  lemma ScanParts(l: Literal, afterWhole: string, afterFraction: string)
    requires l.Well() && (afterWhole != "" ==> !IsDigit(afterWhole[0]))
    requires ScanFraction(afterWhole) == Some((l.fraction, afterFraction))
    requires ScanExponent(afterFraction) == Some((l.exponent, l.space))
    ensures ScanUnsigned(l.negative, l.whole + afterWhole) == Some(l)
  {
    DigitCountOf(l.whole, afterWhole);
    Split(l.whole, afterWhole);
  }

  /** Every literal of the grammar is recognised as itself. */
  lemma ScanText(l: Literal)
    requires l.Well()
    ensures Scan(l.Text()) == Some(l)
  {
    hide ScanFraction;
    hide ScanExponent;
    hide ScanUnsigned;
    var afterFraction := WithExponent(l.exponent, l.space);
    ScanFractionText(l.fraction, afterFraction);
    ScanExponentText(l.exponent, l.space);
    ScanParts(l, WithFraction(l.fraction, afterFraction), afterFraction);
    Split(l.whole, WithFraction(l.fraction, afterFraction));
    assert IsDigit(l.whole[0]);
    Split("-", l.Unsigned());
    Split("", l.Unsigned());
  }

  lemma ScanFractionSound(s: string)
    requires ScanFraction(s).Some?
    ensures var (f, rest) := ScanFraction(s).value;
            (f.Some? ==> f.value != "" && AllDigits(f.value)) && s == WithFraction(f, rest)
  {
    if s != "" && s[0] == '.' {
      Join(s, 1);
      Join(s[1..], DigitCount(s[1..]));
    }
  }

  lemma ScanExponentSound(s: string)
    requires ScanExponent(s).Some?
    ensures var (e, rest) := ScanExponent(s).value;
            (e.Some? ==> e.value.Well()) && s == WithExponent(e, rest)
  {
    var e := ScanExponent(s).value.0;
    if e.Some? {
      var signed := s[1..];
      Join(s, 1);
      Join(signed, |e.value.sign|);
      var rest := signed[|e.value.sign|..];
      Join(rest, DigitCount(rest));
    }
  }

  lemma ScanUnsignedSound(negative: bool, s: string)
    requires ScanUnsigned(negative, s).Some?
    ensures var l := ScanUnsigned(negative, s).value;
            l.Well() && l.negative == negative && l.Unsigned() == s
  {
    var n := DigitCount(s);
    Join(s, n);
    ScanFractionSound(s[n..]);
    ScanExponentSound(ScanFraction(s[n..]).value.1);
  }

  /** And whatever is recognised is a literal with that text. */
  lemma ScanSound(s: string)
    requires Scan(s).Some?
    ensures Scan(s).value.Well() && Scan(s).value.Text() == s
    ensures Scan(s).value.negative == (s != "" && s[0] == '-')
    ensures Scan(s).value.Unsigned() == if Scan(s).value.negative then s[1..] else s
  {
    if s != "" && s[0] == '-' {
      ScanUnsignedSound(true, s[1..]);
      Join(s, 1);
    } else {
      ScanUnsignedSound(false, s);
      Split("", s);
    }
  }

  lemma PartsInText(l: Literal, c: char)
    requires c in l.whole || (l.fraction.Some? && c in l.fraction.value)
    ensures c in l.Text()
  {
    var rest := WithExponent(l.exponent, l.space);
    if l.fraction.Some? && c in l.fraction.value {
      assert c in l.fraction.value + rest;
      assert c in WithFraction(l.fraction, rest);
    }
    assert c in l.Unsigned();
  }

  lemma NumberHoldsNoBlank(l: Literal, c: char)
    requires l.Well() && l.space == "" && IsBlank(c)
    ensures c !in l.Text()
  {
    if l.exponent.Some? {
      var e := l.exponent.value;
      assert c !in e.digits + l.space;
      assert c !in e.sign + (e.digits + l.space);
    }
    assert c !in WithExponent(l.exponent, l.space);
    assert c !in WithFraction(l.fraction, WithExponent(l.exponent, l.space));
  }
}

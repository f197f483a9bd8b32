/**
 JSON Pointer lookup: services/vdoc/openapi.go, lookupJSONPointer; RFC 6901 sections 3, 4 and 6.
 Strings stand for byte strings, so a percent escape decodes to one character.
 */
module JsonPointer {
  import opened Wrappers
  import opened JsonTrees
  import opened Decimals

  function HexValue(c: char): Option<nat> {
    if '0' <= c <= '9' then Some(c as nat - '0' as nat)
    else if 'a' <= c <= 'f' then Some(c as nat - 'a' as nat + 10)
    else if 'A' <= c <= 'F' then Some(c as nat - 'A' as nat + 10)
    else None
  }

  /** url.PathUnescape. */
  function PathUnescape(s: string): Option<string> {
    if s == "" then Some("")
    else if s[0] != '%' then
      var rest := PathUnescape(s[1..]);
      if rest.None? then None else Some([s[0]] + rest.value)
    else if |s| < 3 || HexValue(s[1]).None? || HexValue(s[2]).None? then None
    else
      var rest := PathUnescape(s[3..]);
      var code := HexValue(s[1]).value * 16 + HexValue(s[2]).value;
      if rest.None? || code >= 256 then None else Some([code as char] + rest.value)
  }

  /** strings.Split at every slash. */
  function SplitSlash(s: string): (r: seq<string>)
    ensures |r| > 0
  {
    if s == "" then [""]
    else
      var rest := SplitSlash(s[1..]);
      if s[0] == '/' then [""] + rest else [[s[0]] + rest[0]] + rest[1..]
  }

  /** Every tilde is followed by 0 or 1. */
  predicate TildesOk(part: string) {
    if part == "" then true
    else if part[0] != '~' then TildesOk(part[1..])
    else |part| >= 2 && (part[1] == '0' || part[1] == '1') && TildesOk(part[2..])
  }

  /** strings.ReplaceAll of the pair `~c` by one character. */
  function ReplaceTilde(s: string, c: char, sub: char): string {
    if s == "" then ""
    else if |s| >= 2 && s[0] == '~' && s[1] == c then [sub] + ReplaceTilde(s[2..], c, sub)
    else [s[0]] + ReplaceTilde(s[1..], c, sub)
  }

  function Unescape(part: string): string {
    ReplaceTilde(ReplaceTilde(part, '1', '/'), '0', '~')
  }

  /** One reference token, already unescaped. */
  function Enter(current: Json, part: string): Option<Json> {
    match current
    case Obj(fields) => if part in fields then Some(fields[part]) else None
    case Arr(elements) =>
      if Unpadded(part) && DigitsValue(part) < |elements| then Some(elements[DigitsValue(part)]) else None
    case _ => None
  }

  function Walk(current: Json, parts: seq<string>): Option<Json> {
    if parts == [] then Some(current)
    else if !TildesOk(parts[0]) then None
    else
      var next := Enter(current, Unescape(parts[0]));
      if next.None? then None else Walk(next.value, parts[1..])
  }

  function Lookup(root: map<string, Json>, ref: string): Option<Json> {
    if ref == "" || ref[0] != '#' then None
    else
      var pointer := PathUnescape(ref[1..]);
      if pointer.None? then None
      else if pointer.value == "" then Some(Obj(root))
      else if pointer.value[0] != '/' then None
      else Walk(Obj(root), SplitSlash(pointer.value[1..]))
  }

  method LookupJsonPointer(root: map<string, Json>, ref: string) returns (result: Option<Json>)
    ensures result == Lookup(root, ref)
  {
    if ref == "" || ref[0] != '#' {
      return None;
    }
    var pointer := PathUnescape(ref[1..]);
    if pointer.None? {
      return None;
    }
    var current := Obj(root);
    if pointer.value == "" {
      return Some(current);
    }
    if pointer.value[0] != '/' {
      return None;
    }
    var parts := SplitSlash(pointer.value[1..]);
    for n := 0 to |parts|
      invariant Walk(Obj(root), parts) == Walk(current, parts[n..])
    {
      var part := parts[n];
      assert parts[n..][1..] == parts[n + 1..];
      var ok := CheckTildes(part);
      if !ok {
        return None;
      }
      part := Unescape(part);
      match current {
        case Obj(fields) =>
          if part !in fields {
            return None;
          }
          current := fields[part];
        case Arr(elements) =>
          if part == "" || (|part| > 1 && part[0] == '0') {
            return None;
          }
          for i := 0 to |part|
            invariant AllDigits(part[..i])
          {
            if part[i] < '0' || part[i] > '9' {
              return None;
            }
          }
          assert part[..|part|] == part;
          var index := DigitsValue(part);
          if index >= |elements| {
            return None;
          }
          current := elements[index];
        case _ =>
          return None;
      }
    }
    return Some(current);
  }

  method CheckTildes(part: string) returns (ok: bool)
    ensures ok == TildesOk(part)
  {
    var i := 0;
    while i < |part|
      invariant 0 <= i <= |part|
      invariant TildesOk(part) == TildesOk(part[i..])
    {
      if part[i] == '~' {
        if i + 1 >= |part| || (part[i + 1] != '0' && part[i + 1] != '1') {
          return false;
        }
        assert part[i..][2..] == part[i + 2..];
        i := i + 1;
      } else {
        assert part[i..][1..] == part[i + 1..];
      }
      i := i + 1;
    }
    return true;
  }

  // The pointer of a node, as RFC 6901 prescribes

  datatype Token = Key(name: string) | Index(n: nat)

  function Navigate(v: Json, path: seq<Token>): Option<Json> {
    if path == [] then Some(v)
    else
      match path[0]
      case Key(name) => if v.Obj? && name in v.fields then Navigate(v.fields[name], path[1..]) else None
      case Index(n) => if v.Arr? && n < |v.elements| then Navigate(v.elements[n], path[1..]) else None
  }

  function EscapeKey(key: string): string {
    if key == "" then ""
    else (if key[0] == '~' then "~0" else if key[0] == '/' then "~1" else [key[0]]) + EscapeKey(key[1..])
  }

  function TokenText(t: Token): string {
    match t
    case Key(name) => EscapeKey(name)
    case Index(n) => Digits(n)
  }

  function PointerText(path: seq<Token>): string {
    if path == [] then "" else "/" + TokenText(path[0]) + PointerText(path[1..])
  }

  /** The URI fragment form: section 6 asks for percent encoding; only the percent sign itself needs
      it here. */
  function PercentEncode(s: string): string {
    if s == "" then "" else (if s[0] == '%' then "%25" else [s[0]]) + PercentEncode(s[1..])
  }

  lemma {:induction false} PercentRoundTrip(s: string)
    ensures PathUnescape(PercentEncode(s)) == Some(s)
  {
    if s != "" {
      PercentRoundTrip(s[1..]);
      var e := PercentEncode(s);
      if s[0] == '%' {
        assert e[3..] == PercentEncode(s[1..]);
        assert e[1] == '2' && e[2] == '5';
        assert HexValue('2') == Some(2) && HexValue('5') == Some(5);
        assert 37 as char == '%';
        assert s == [s[0]] + s[1..];
      } else {
        assert e == [s[0]] + PercentEncode(s[1..]);
        assert e[0] == s[0] && e[1..] == PercentEncode(s[1..]);
        assert s == [s[0]] + s[1..];
      }
    }
  }

  /** Only tildes escaped. */
  function EscapeTildes(key: string): string {
    if key == "" then "" else (if key[0] == '~' then "~0" else [key[0]]) + EscapeTildes(key[1..])
  }

  lemma {:induction false} UnescapeSlashes(key: string)
    ensures ReplaceTilde(EscapeKey(key), '1', '/') == EscapeTildes(key)
    ensures TildesOk(EscapeKey(key)) && '/' !in EscapeKey(key)
  {
    if key != "" {
      UnescapeSlashes(key[1..]);
      var e, rest := EscapeKey(key), EscapeKey(key[1..]);
      if key[0] == '~' {
        assert e[0] == '~' && e[1] == '0' && e[2..] == rest;
        assert e[1..] == "0" + rest && e[1..][1..] == rest;
        assert ReplaceTilde(e[1..], '1', '/') == "0" + ReplaceTilde(rest, '1', '/');
      } else if key[0] == '/' {
        assert e[0] == '~' && e[1] == '1' && e[2..] == rest;
      } else {
        assert e[0] == key[0] && e[1..] == rest;
      }
    }
  }

  lemma {:induction false} UnescapeTildes(key: string)
    ensures ReplaceTilde(EscapeTildes(key), '0', '~') == key
  {
    if key != "" {
      UnescapeTildes(key[1..]);
      var e, rest := EscapeTildes(key), EscapeTildes(key[1..]);
      if key[0] == '~' {
        assert e[0] == '~' && e[1] == '0' && e[2..] == rest;
      } else {
        assert e[0] == key[0] && e[1..] == rest;
      }
      assert key == [key[0]] + key[1..];
    }
  }

  lemma EscapeRoundTrip(key: string)
    ensures TildesOk(EscapeKey(key)) && Unescape(EscapeKey(key)) == key
  {
    UnescapeSlashes(key);
    UnescapeTildes(key);
  }

  /** Digits hold no tilde and no slash, so they pass unescaping unchanged. */
  lemma {:induction false} PlainUnescape(s: string)
    requires AllDigits(s)
    ensures TildesOk(s) && ReplaceTilde(s, '1', '/') == s && ReplaceTilde(s, '0', '~') == s && '/' !in s
  {
    if s != "" {
      assert s == [s[0]] + s[1..];
      PlainUnescape(s[1..]);
    }
  }

  lemma TokenRoundTrip(t: Token)
    ensures TildesOk(TokenText(t)) && '/' !in TokenText(t)
    ensures t.Key? ==> Unescape(TokenText(t)) == t.name
    ensures t.Index? ==> Unpadded(Unescape(TokenText(t))) && DigitsValue(Unescape(TokenText(t))) == t.n
  {
    match t
    case Key(name) =>
      EscapeRoundTrip(name);
      UnescapeSlashes(name);
    case Index(n) =>
      DigitsRoundTrip(n);
      PlainUnescape(Digits(n));
  }

  lemma {:induction false} SplitToken(token: string, rest: string)
    requires '/' !in token
    ensures SplitSlash(token) == [token]
    ensures SplitSlash(token + "/" + rest) == [token] + SplitSlash(rest)
  {
    var whole := token + "/" + rest;
    if token == "" {
      assert whole[0] == '/' && whole[1..] == rest;
    } else {
      assert forall c | c in token[1..] :: c in token;
      SplitToken(token[1..], rest);
      assert whole[0] == token[0] && whole[1..] == token[1..] + "/" + rest;
      assert token == [token[0]] + token[1..];
      assert token[0] in token;
    }
  }

  ghost function Joined(path: seq<Token>): string
    requires path != []
  {
    if |path| == 1 then TokenText(path[0]) else TokenText(path[0]) + "/" + Joined(path[1..])
  }

  lemma {:induction false} PointerJoins(path: seq<Token>)
    requires path != []
    ensures PointerText(path) == "/" + Joined(path)
  {
    if |path| == 1 {
      assert PointerText(path[1..]) == "";
    } else {
      PointerJoins(path[1..]);
    }
  }

  lemma {:induction false} SplitJoined(path: seq<Token>)
    requires path != []
    ensures SplitSlash(Joined(path)) == TokenTexts(path)
  {
    TokenRoundTrip(path[0]);
    if |path| == 1 {
      SplitToken(TokenText(path[0]), "");
      assert TokenTexts(path[1..]) == [];
    } else {
      SplitJoined(path[1..]);
      SplitToken(TokenText(path[0]), Joined(path[1..]));
    }
  }

  function TokenTexts(path: seq<Token>): seq<string> {
    if path == [] then [] else [TokenText(path[0])] + TokenTexts(path[1..])
  }

  lemma {:induction false} WalkPath(v: Json, path: seq<Token>)
    requires Navigate(v, path).Some?
    ensures Walk(v, TokenTexts(path)) == Navigate(v, path)
    decreases |path|
  {
    if path != [] {
      TokenRoundTrip(path[0]);
      var next := if path[0].Key? then v.fields[path[0].name] else v.elements[path[0].n];
      WalkPath(next, path[1..]);
      assert TokenTexts(path)[1..] == TokenTexts(path[1..]);
    }
  }

  /** Every node of a document is found again by its own pointer. */
  lemma PointerRoundTrip(root: map<string, Json>, path: seq<Token>)
    requires Navigate(Obj(root), path).Some?
    ensures Lookup(root, "#" + PercentEncode(PointerText(path))) == Navigate(Obj(root), path)
  {
    var ref := "#" + PercentEncode(PointerText(path));
    assert ref[1..] == PercentEncode(PointerText(path));
    PercentRoundTrip(PointerText(path));
    if path != [] {
      PointerJoins(path);
      SplitJoined(path);
      WalkPath(Obj(root), path);
      assert PointerText(path)[1..] == Joined(path);
    }
  }

  // Any percent encoding

  const LOWER_HEX := "0123456789abcdef"
  const UPPER_HEX := "0123456789ABCDEF"

  predicate HexDigit(c: char, n: nat) {
    n < 16 && (c == LOWER_HEX[n] || c == UPPER_HEX[n])
  }

  /** The two digits are the number of the character. */
  ghost predicate StandFor(first: char, second: char, c: char) {
    exists high: nat, low: nat :: HexDigit(first, high) && HexDigit(second, low) && c as int == 16 * high + low
  }

  /** `e` writes `s` with some of its characters, and every percent sign, as two hexadecimal digits. */
  ghost predicate Encodes(e: string, s: string) {
    if e == "" || s == "" then e == s
    else if e[0] != '%' then e[0] == s[0] && Encodes(e[1..], s[1..])
    else |e| >= 3 && StandFor(e[1], e[2], s[0]) && Encodes(e[3..], s[1..])
  }

  lemma HexDigitValue(c: char, n: nat)
    ensures HexDigit(c, n) <==> HexValue(c) == Some(n)
    ensures HexValue(c).Some? ==> HexValue(c).value < 16
  {
  }

  lemma StandExact(first: char, second: char, c: char)
    ensures StandFor(first, second, c) <==>
            HexValue(first).Some? && HexValue(second).Some?
            && c == (HexValue(first).value * 16 + HexValue(second).value) as char
  {
    forall n: nat ensures HexDigit(first, n) <==> HexValue(first) == Some(n) {
      HexDigitValue(first, n);
    }
    forall n: nat ensures HexDigit(second, n) <==> HexValue(second) == Some(n) {
      HexDigitValue(second, n);
    }
    hide HexDigit;
    if HexValue(first).Some? && HexValue(second).Some? {
      assert HexDigit(first, HexValue(first).value) && HexDigit(second, HexValue(second).value);
    }
  }

  /** A fragment is understood exactly as what it encodes, and refused if it encodes nothing. */
  lemma {:induction false} PathUnescapeExact(e: string, s: string)
    ensures PathUnescape(e) == Some(s) <==> Encodes(e, s)
  {
    hide HexValue;
    hide StandFor;
    if e != "" && s != "" {
      assert s == [s[0]] + s[1..];
      if e[0] != '%' {
        PathUnescapeExact(e[1..], s[1..]);
      } else if |e| >= 3 {
        PathUnescapeExact(e[3..], s[1..]);
        StandExact(e[1], e[2], s[0]);
        EscapeBelow(e[1], e[2]);
      }
    }
  }

  lemma EscapeBelow(first: char, second: char)
    ensures HexValue(first).Some? && HexValue(second).Some? ==>
              HexValue(first).value * 16 + HexValue(second).value < 256
  {
  }

  /** The pointer of a node finds it, however it is percent-encoded. */
  lemma EncodedRoundTrip(root: map<string, Json>, path: seq<Token>, e: string)
    requires Navigate(Obj(root), path).Some? && Encodes(e, PointerText(path))
    ensures Lookup(root, "#" + e) == Navigate(Obj(root), path)
  {
    PointerRoundTrip(root, path);
    PercentRoundTrip(PointerText(path));
    PathUnescapeExact(e, PointerText(path));
    assert ("#" + e)[1..] == e;
    assert ("#" + PercentEncode(PointerText(path)))[1..] == PercentEncode(PointerText(path));
  }

  /** And whatever a lookup returns is a node of the document. */
  lemma {:induction false} WalkReaches(v: Json, parts: seq<string>) returns (path: seq<Token>)
    requires Walk(v, parts).Some?
    ensures Navigate(v, path) == Walk(v, parts) && |path| == |parts|
  {
    if parts == [] {
      path := [];
    } else {
      var part := Unescape(parts[0]);
      var next := Enter(v, part).value;
      var tail := WalkReaches(next, parts[1..]);
      path := [if v.Obj? then Key(part) else Index(DigitsValue(part))] + tail;
      assert path[1..] == tail;
    }
  }

  lemma LookupReaches(root: map<string, Json>, ref: string) returns (path: seq<Token>)
    requires Lookup(root, ref).Some?
    ensures Navigate(Obj(root), path) == Lookup(root, ref)
  {
    var pointer := PathUnescape(ref[1..]).value;
    if pointer == "" {
      path := [];
    } else {
      path := WalkReaches(Obj(root), SplitSlash(pointer[1..]));
    }
  }

  /** A malformed escape anywhere in the pointer refuses the whole reference. */
  lemma {:induction false} MalformedRejected(v: Json, parts: seq<string>, i: nat)
    requires i < |parts| && !TildesOk(parts[i])
    ensures Walk(v, parts).None?
  {
    if i > 0 && TildesOk(parts[0]) {
      var next := Enter(v, Unescape(parts[0]));
      if next.Some? {
        MalformedRejected(next.value, parts[1..], i - 1);
      }
    }
  }

  /** An array takes exactly the canonical decimal indexes below its length. */
  lemma ArrayTokens(elements: seq<Json>, part: string)
    ensures Enter(Arr(elements), part).Some? <==> exists n :: 0 <= n < |elements| && part == Digits(n)
  {
    if Enter(Arr(elements), part).Some? {
      DigitsOfValue(part);
    }
    forall n | 0 <= n < |elements| && part == Digits(n) ensures Enter(Arr(elements), part).Some? {
      DigitsRoundTrip(n);
    }
  }
}

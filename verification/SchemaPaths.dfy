/**
 Path strings: services/vdoc/semantic_diff.go, schemaPath, schemaPropertyName and
 newFieldAffectsExistingInput. Property names are escaped so that a dotted path string stands for one
 sequence of steps, whatever dots and backslashes the names hold.
 */
module SchemaPaths {
  import opened SchemaFields
  import opened SchemaDiff

  /** strings.ReplaceAll of one character. */
  function ReplaceChar(s: string, c: char, sub: string): string {
    if s == "" then "" else (if s[0] == c then sub else [s[0]]) + ReplaceChar(s[1..], c, sub)
  }

  /** schemaPropertyName: backslashes first, then dots. */
  function EscapeName(name: string): string {
    ReplaceChar(ReplaceChar(name, '\\', "\\\\"), '.', "\\.")
  }

  /** schemaPath. */
  function Append(prefix: string, suffix: string): string {
    if prefix == "" then suffix else prefix + "." + suffix
  }

  const PropertyPrefix := "properties."

  const ItemsText := "items"

  function StepText(step: Step): string {
    match step
    case Prop(name) => PropertyPrefix + EscapeName(name)
    case Items => ItemsText
  }

  /** The key the collectors build, one step at a time from the root. */
  function PathText(p: Path): string {
    if p == [] then "" else Append(PathText(p[..|p| - 1]), StepText(p[|p| - 1]))
  }

  function EscapeChar(c: char): string {
    if c == '\\' then "\\\\" else if c == '.' then "\\." else [c]
  }

  lemma ConcatAssociative(a: string, b: string, c: string)
    ensures (a + b) + c == a + (b + c)
  {
  }

  lemma CancelFront(a: string, s: string, t: string)
    requires a + s == a + t
    ensures s == t
  {
    assert (a + s)[|a|..] == s && (a + t)[|a|..] == t;
  }

  lemma ReplaceConcat(a: string, b: string, c: char, sub: string)
    ensures ReplaceChar(a + b, c, sub) == ReplaceChar(a, c, sub) + ReplaceChar(b, c, sub)
  {
    if a == "" {
      assert a + b == b;
    } else {
      assert (a + b)[0] == a[0] && (a + b)[1..] == a[1..] + b;
      ReplaceConcat(a[1..], b, c, sub);
    }
  }

  lemma EscapeStep(name: string)
    requires name != ""
    ensures EscapeName(name) == EscapeChar(name[0]) + EscapeName(name[1..])
  {
    var head := if name[0] == '\\' then "\\\\" else [name[0]];
    var tail := ReplaceChar(name[1..], '\\', "\\\\");
    assert ReplaceChar(name, '\\', "\\\\") == head + tail;
    ReplaceConcat(head, tail, '.', "\\.");
    assert ReplaceChar(head, '.', "\\.") == EscapeChar(name[0]) by {
      if name[0] == '\\' {
        assert head[1..] == "\\" && head[1..][1..] == "";
      } else {
        assert head[1..] == "";
      }
    }
  }

  lemma StepTextNonempty(p: Path)
    ensures PathText(p) == "" <==> p == []
  {
  }

  /** Built from the root or from the front, the text is the same. */
  lemma {:induction false} PathTextFront(p: Path)
    requires p != []
    ensures PathText(p) == if |p| == 1 then StepText(p[0]) else StepText(p[0]) + "." + PathText(p[1..])
  {
    if |p| > 1 {
      var q := p[..|p| - 1];
      PathTextFront(q);
      assert q[1..] == p[1..][..|p| - 2];
      if |p| > 2 {
        var a, b, c := StepText(p[0]), PathText(q[1..]), StepText(p[|p| - 1]);
        assert PathText(p[1..]) == b + "." + c;
        assert a + "." + b + "." + c == a + "." + (b + "." + c);
      } else {
        assert p[1..] == [p[1]] && p[1..][..0] == [];
      }
    } else {
      assert p[..0] == [];
    }
  }

  /** What may follow an escaped name: nothing, or a separator dot. */
  predicate Stops(r: string) {
    r == "" || r[0] == '.'
  }

  /** An escaped name ends at the first unescaped dot, so it can be read back. */
  lemma {:induction false} EscapeInjective(n: string, r: string, m: string, r': string)
    requires Stops(r) && Stops(r')
    requires EscapeName(n) + r == EscapeName(m) + r'
    ensures n == m && r == r'
    decreases |n| + |m|
  {
    EscapedStart(n, r);
    EscapedStart(m, r');
    if n == "" && m == "" {
      CancelFront("", r, r');
    } else if n != "" && m != "" {
      EscapeStep(n);
      EscapeStep(m);
      ConcatAssociative(EscapeChar(n[0]), EscapeName(n[1..]), r);
      ConcatAssociative(EscapeChar(m[0]), EscapeName(m[1..]), r');
      SameHead(n[0], EscapeName(n[1..]) + r, m[0], EscapeName(m[1..]) + r');
      EscapeInjective(n[1..], r, m[1..], r');
      assert n == [n[0]] + n[1..] && m == [m[0]] + m[1..];
    }
  }

  /** Only the empty name leaves a text that is empty or starts with a dot. */
  lemma EscapedStart(n: string, r: string)
    requires Stops(r)
    ensures Stops(EscapeName(n) + r) <==> n == ""
  {
    if n == "" {
      assert EscapeName(n) + r == r;
    } else {
      EscapeStep(n);
      assert (EscapeName(n) + r)[0] == EscapeChar(n[0])[0];
    }
  }

  lemma SameHead(a: char, s: string, b: char, t: string)
    requires EscapeChar(a) + s == EscapeChar(b) + t
    ensures a == b && s == t
  {
    var l, r := EscapeChar(a) + s, EscapeChar(b) + t;
    assert l[0] == EscapeChar(a)[0] && r[0] == EscapeChar(b)[0];
    if |EscapeChar(a)| == 2 {
      assert l[1] == EscapeChar(a)[1];
      assert r[1] == EscapeChar(b)[1];
    }
    assert l[|EscapeChar(a)|..] == s && r[|EscapeChar(b)|..] == t;
  }

  /** The first step of a text, and what follows it, are determined. */
  lemma StepInjective(a: Step, r: string, b: Step, r': string)
    requires Stops(r) && Stops(r')
    requires StepText(a) + r == StepText(b) + r'
    ensures a == b && r == r'
  {
    FirstChar(a, r);
    FirstChar(b, r');
    if a.Prop? {
      ConcatAssociative(PropertyPrefix, EscapeName(a.name), r);
      ConcatAssociative(PropertyPrefix, EscapeName(b.name), r');
      CancelFront(PropertyPrefix, EscapeName(a.name) + r, EscapeName(b.name) + r');
      EscapeInjective(a.name, r, b.name, r');
    } else {
      CancelFront(ItemsText, r, r');
    }
  }

  lemma FirstChar(a: Step, r: string)
    ensures |StepText(a) + r| > 0
    ensures (StepText(a) + r)[0] == if a.Prop? then 'p' else 'i'
  {
    assert PropertyPrefix[0] == 'p' && ItemsText[0] == 'i';
    if a.Prop? {
      assert (StepText(a) + r)[0] == StepText(a)[0] == PropertyPrefix[0];
    } else {
      assert (StepText(a) + r)[0] == ItemsText[0];
    }
  }

  function Rest(p: Path): string
    requires p != []
  {
    if |p| == 1 then "" else "." + PathText(p[1..])
  }

  lemma PathTextSplit(p: Path)
    requires p != []
    ensures PathText(p) == StepText(p[0]) + Rest(p) && Stops(Rest(p))
  {
    PathTextFront(p);
    if |p| == 1 {
      assert StepText(p[0]) + "" == StepText(p[0]);
    } else {
      ConcatAssociative(StepText(p[0]), ".", PathText(p[1..]));
    }
  }

  /** Different sequences of steps never share a key. */
  lemma {:induction false} PathTextInjective(p: Path, q: Path)
    requires PathText(p) == PathText(q)
    ensures p == q
  {
    hide PathText;
    StepTextNonempty(p);
    StepTextNonempty(q);
    if p != [] {
      PathTextSplit(p);
      PathTextSplit(q);
      StepInjective(p[0], Rest(p), q[0], Rest(q));
      if |p| > 1 {
        assert Rest(p)[1..] == PathText(p[1..]) && Rest(q)[1..] == PathText(q[1..]);
        PathTextInjective(p[1..], q[1..]);
      }
      assert p == [p[0]] + p[1..] && q == [q[0]] + q[1..];
    }
  }

  /** A key cut at a dot, when it is itself a key, belongs to a true ancestor. */
  lemma {:induction false} DotPrefixIsAncestor(q: Path, rest: string, p: Path)
    requires q != [] && PathText(q) + "." + rest == PathText(p)
    ensures q < p
    decreases |q|
  {
    hide PathText;
    StepTextNonempty(p);
    StepTextNonempty(q);
    PathTextSplit(q);
    PathTextSplit(p);
    var follow := Rest(q) + ("." + rest);
    ConcatAssociative(PathText(q), ".", rest);
    ConcatAssociative(StepText(q[0]), Rest(q), "." + rest);
    FollowStops(Rest(q), rest);
    StepInjective(q[0], follow, p[0], Rest(p));
    if |q| > 1 {
      ConcatAssociative(".", PathText(q[1..]), "." + rest);
      CancelFront(".", PathText(q[1..]) + ("." + rest), PathText(p[1..]));
      ConcatAssociative(PathText(q[1..]), ".", rest);
      DotPrefixIsAncestor(q[1..], rest, p[1..]);
      assert q == [q[0]] + q[1..] && p == [p[0]] + p[1..];
    }
  }

  lemma FollowStops(r: string, rest: string)
    requires Stops(r)
    ensures Stops(r + ("." + rest)) && r + ("." + rest) != ""
  {
    if r == "" {
      assert (r + ("." + rest))[0] == '.';
    } else {
      assert (r + ("." + rest))[0] == r[0];
    }
  }

  /** Every ancestor is found by cutting at some dot. */
  lemma {:induction false} AncestorIsDotPrefix(p: Path, k: nat)
    requires 1 <= k < |p|
    ensures |PathText(p[..k])| < |PathText(p)|
    ensures PathText(p)[|PathText(p[..k])|] == '.' && PathText(p)[..|PathText(p[..k])|] == PathText(p[..k])
    decreases |p|
  {
    var q := p[..|p| - 1];
    StepTextNonempty(q);
    assert PathText(p) == PathText(q) + "." + StepText(p[|p| - 1]);
    if k == |p| - 1 {
      assert p[..k] == q;
    } else {
      assert q[..k] == p[..k];
      AncestorIsDotPrefix(q, k);
      assert PathText(p)[..|PathText(q)|] == PathText(q);
    }
  }

  /** The string-keyed table holds what the step-keyed table holds, and nothing else. */
  ghost predicate Keyed(text: map<string, Field>, table: FieldTable) {
    && (forall p | p in table :: p != [] && PathText(p) in text && text[PathText(p)] == table[p])
    && (forall key | key in text :: exists p :: p in table && PathText(p) == key)
  }

  /** strings.LastIndexByte for a dot. */
  function LastDot(s: string): (i: int)
    ensures -1 <= i < |s|
    ensures i >= 0 ==> s[i] == '.'
    ensures forall j | i < j < |s| :: s[j] != '.'
  {
    if s == "" then -1 else if s[|s| - 1] == '.' then |s| - 1 else LastDot(s[..|s| - 1])
  }

  ghost predicate AllCutsHarmless(path: string, oldFields: map<string, Field>, newFields: map<string, Field>) {
    forall i | 0 <= i < |path| :: CutHarmless(path, i, oldFields, newFields)
  }

  method NewFieldAffectsExistingInput(path: string, oldFields: map<string, Field>, newFields: map<string, Field>)
    returns (affects: bool)
    ensures affects <==> AllCutsHarmless(path, oldFields, newFields)
  {
    var index := LastDot(path);
    while index >= 0
      invariant -1 <= index < |path|
      invariant index >= 0 ==> path[index] == '.'
      invariant forall i | index < i < |path| :: CutHarmless(path, i, oldFields, newFields)
    {
      var parent := path[..index];
      if parent in newFields {
        var field := newFields[parent];
        if parent !in oldFields && !field.required && !field.arrayItem {
          assert !CutHarmless(path, index, oldFields, newFields);
          return false;
        }
      }
      NextDot(path, index);
      index := LastDot(path[..index]);
    }
    return true;
  }

  /** The walk over the dots of the key decides what the comparison on steps says. */
  lemma TextWalkAgrees(p: Path, oldFields: map<string, Field>, newFields: map<string, Field>,
                       oldTable: FieldTable, newTable: FieldTable)
    requires Keyed(oldFields, oldTable) && Keyed(newFields, newTable)
    ensures AllCutsHarmless(PathText(p), oldFields, newFields) <==> AffectsExistingInput(p, oldTable, newTable)
  {
    var path := PathText(p);
    if AllCutsHarmless(path, oldFields, newFields) {
      AllCutsSeen(path, oldFields, newFields, p, oldTable, newTable);
    } else {
      var i :| 0 <= i < |path| && !CutHarmless(path, i, oldFields, newFields);
      CutIsAncestor(path, i, newFields, p, oldFields, oldTable, newTable);
    }
  }

  lemma NextDot(path: string, before: nat)
    requires before < |path|
    ensures var i := LastDot(path[..before]);
            (i >= 0 ==> path[i] == '.') && forall j | i < j < before :: path[j] != '.'
  {
    var i := LastDot(path[..before]);
    forall j | i < j < before ensures path[j] != '.' {
      assert path[j] == path[..before][j];
    }
  }

  /** Cutting the key at `i` gives no enclosing field that is new, optional and not an array item. */
  predicate CutHarmless(path: string, i: nat, oldFields: map<string, Field>, newFields: map<string, Field>)
    requires i < |path|
  {
    path[i] == '.' && path[..i] in newFields ==>
      path[..i] in oldFields || newFields[path[..i]].required || newFields[path[..i]].arrayItem
  }

  lemma CutIsAncestor(path: string, index: nat, newFields: map<string, Field>, p: Path,
                      oldFields: map<string, Field>, oldTable: FieldTable, newTable: FieldTable)
    requires path == PathText(p) && Keyed(newFields, newTable) && Keyed(oldFields, oldTable)
    requires index < |path| && path[index] == '.' && !CutHarmless(path, index, oldFields, newFields)
    ensures !AffectsExistingInput(p, oldTable, newTable)
  {
    var q :| q in newTable && PathText(q) == path[..index];
    CutBelow(p, q, index);
    assert p[..|q|] == q;
  }

  lemma SplitAt(text: string, i: nat)
    requires i < |text| && text[i] == '.'
    ensures text[..i] + "." + text[i + 1..] == text
  {
  }

  lemma CutBelow(p: Path, q: Path, index: nat)
    requires q != [] && index < |PathText(p)| && PathText(p)[index] == '.' && PathText(q) == PathText(p)[..index]
    ensures q < p
  {
    var text := PathText(p);
    SplitAt(text, index);
    DotPrefixIsAncestor(q, text[index + 1..], p);
  }

  lemma AllCutsSeen(path: string, oldFields: map<string, Field>, newFields: map<string, Field>,
                    p: Path, oldTable: FieldTable, newTable: FieldTable)
    requires path == PathText(p) && Keyed(oldFields, oldTable) && Keyed(newFields, newTable)
    requires forall i | 0 <= i < |path| :: CutHarmless(path, i, oldFields, newFields)
    ensures AffectsExistingInput(p, oldTable, newTable)
  {
    forall k | 1 <= k < |p| && p[..k] in newTable
      ensures p[..k] in oldTable || newTable[p[..k]].required || newTable[p[..k]].arrayItem
    {
      AncestorIsDotPrefix(p, k);
      var key := PathText(p[..k]);
      assert CutHarmless(path, |key|, oldFields, newFields);
      if key in oldFields {
        var q :| q in oldTable && PathText(q) == key;
        PathTextInjective(q, p[..k]);
      }
    }
  }
}

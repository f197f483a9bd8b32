/**
 Enumerations: services/vdoc/semantic_diff.go, enumIdentities and compareEnumValueLists. A value's
 identity is its canonical JSON text, so identities are compared here as the values themselves.
 */
module EnumSets {
  import opened Wrappers
  import opened Schemas

  type EnumSet = Option<set<Value>>

  function IntersectEnums(a: EnumSet, b: EnumSet): EnumSet {
    if a.None? then b else if b.None? then a else Some(a.value * b.value)
  }

  function SetOf(values: seq<Value>): set<Value> {
    set v | v in values
  }

  /** The values `enum` and `const` of one node allow together. */
  function KeywordEnum(s: Schema): EnumSet
    requires s.Node?
  {
    if s.enumeration.Some? && s.constant.Some? then Some(SetOf(s.enumeration.value) * {s.constant.value})
    else if s.enumeration.Some? then Some(SetOf(s.enumeration.value))
    else if s.constant.Some? then Some({s.constant.value})
    else None
  }

  function FoldEnums(fragments: seq<Schema>): EnumSet
    requires forall i | 0 <= i < |fragments| :: fragments[i].Node?
  {
    if fragments == [] then None
    else IntersectEnums(FoldEnums(fragments[..|fragments| - 1]), KeywordEnum(fragments[|fragments| - 1]))
  }

  function EffectiveEnum(s: Schema): EnumSet {
    FoldEnums(Fragments(s))
  }

  method EnumIdentities(s: Schema) returns (allowed: EnumSet)
    ensures allowed == EffectiveEnum(s)
  {
    allowed := None;
    var fragments := Fragments(s);
    for i := 0 to |fragments|
      invariant allowed == FoldEnums(fragments[..i])
    {
      assert fragments[..i + 1][..i] == fragments[..i];
      var fragment := fragments[i];
      var values, constrained := fragment.enumeration.GetOr([]), fragment.enumeration.Some?;
      if fragment.constant.Some? {
        if !constrained {
          values, constrained := [fragment.constant.value], true;
          assert SetOf(values) == {fragment.constant.value};
        } else {
          values := OnlyEqual(values, fragment.constant.value);
        }
      }
      if !constrained {
        continue;
      }
      var next := {};
      for j := 0 to |values|
        invariant next == SetOf(values[..j])
      {
        assert values[..j + 1] == values[..j] + [values[j]];
        next := next + {values[j]};
      }
      assert values[..|values|] == values;
      assert Some(next) == KeywordEnum(fragment);
      if allowed.None? {
        allowed := Some(next);
      } else {
        allowed := Some(allowed.value * next);
      }
    }
    assert fragments[..|fragments|] == fragments;
  }

  method OnlyEqual(values: seq<Value>, constant: Value) returns (kept: seq<Value>)
    ensures SetOf(kept) == SetOf(values) * {constant}
  {
    kept := [];
    for i := 0 to |values|
      invariant SetOf(kept) == SetOf(values[..i]) * {constant}
    {
      assert values[..i + 1] == values[..i] + [values[i]];
      if values[i] == constant {
        assert SetOf(kept + [values[i]]) == SetOf(kept) + {values[i]};
        kept := kept + [values[i]];
      }
    }
    assert values[..|values|] == values;
  }

  lemma IntersectEnumsDenotes(a: EnumSet, b: EnumSet, v: Value)
    ensures InEnum(v, IntersectEnums(a, b)) <==> InEnum(v, a) && InEnum(v, b)
  {
  }

  /** The folded set accepts exactly what every fragment's `enum` and `const` accept. */
  lemma {:induction false} FoldEnumsDenotes(fragments: seq<Schema>, v: Value)
    requires forall i | 0 <= i < |fragments| :: fragments[i].Node?
    ensures InEnum(v, FoldEnums(fragments)) <==>
            forall i | 0 <= i < |fragments| :: InEnum(v, KeywordEnum(fragments[i]))
  {
    if fragments != [] {
      var n := |fragments| - 1;
      FoldEnumsDenotes(fragments[..n], v);
      IntersectEnumsDenotes(FoldEnums(fragments[..n]), KeywordEnum(fragments[n]), v);
      assert forall i | 0 <= i < n :: fragments[..n][i] == fragments[i];
    }
  }

  lemma {:induction false} EffectiveEnumSound(s: Schema, v: Value, w: World)
    requires Accepts(s, v, w)
    ensures InEnum(v, EffectiveEnum(s))
  {
    FragmentsAccept(s, v, w);
    FoldEnumsDenotes(Fragments(s), v);
    var fs := Fragments(s);
    forall i | 0 <= i < |fs| ensures InEnum(v, KeywordEnum(fs[i])) {
      assert Accepts(fs[i], v, w);
    }
  }
}

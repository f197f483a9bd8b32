/**
 When a break reported for one property is real: services/vdoc/semantic_property_rules.go,
 changedPropertyCompatibility.
 */
module PropertyBreaks {
  import opened Wrappers
  import opened Schemas
  import opened TypeLattice
  import opened EnumSets
  import opened CanonicalForms
  import opened PropertyRules

  /** A break that refuses nothing: an enumeration that lists every null and boolean the types admit, or
      "no type" spelled out as all six kinds. */
  predicate Spurious(a: PropertyValueRule, b: PropertyValueRule) {
    && a.enums.None?
    && if b.enums.Some? then
         && a.types.Some? && a.types.value <= {TNull, TBoolean}
         && (TNull in a.types.value ==> Null in b.enums.value)
         && (TBoolean in a.types.value ==> {Bool(false), Bool(true)} <= b.enums.value)
       else a.types.None? && b.types.Some? && SixKinds <= b.types.value
  }

  /** A reported break is real, some value accepted before is refused now, exactly if it is not one of those. */
  lemma BreakingMeansExcluded(oldNodes: seq<Schema>, newNodes: seq<Schema>, name: string, response: bool, w: World)
    requires Compatibility(Some(oldNodes), Some(newNodes), name, response, w.exact).breaking
    ensures
      var oldRule, newRule := Conjunction(RulesOfAll(oldNodes, name)), Conjunction(RulesOfAll(newNodes, name));
      var from, to := if response then newRule else oldRule, if response then oldRule else newRule;
      Included(from, to, w) <==> Spurious(SimpleRule(from, w.exact), SimpleRule(to, w.exact))
  {
    var oldRule, newRule := Conjunction(RulesOfAll(oldNodes, name)), Conjunction(RulesOfAll(newNodes, name));
    if response {
      BreakingRulesExclude(newRule, oldRule, w);
    } else {
      BreakingRulesExclude(oldRule, newRule, w);
    }
  }

  lemma BreakingRulesExclude(from: Schema, to: Schema, w: World)
    requires RuleVerdict(SimpleRule(from, w.exact), SimpleRule(to, w.exact), w.exact).breaking
    ensures Included(from, to, w) <==> Spurious(SimpleRule(from, w.exact), SimpleRule(to, w.exact))
  {
    var a, b := SimpleRule(from, w.exact), SimpleRule(to, w.exact);
    if a.enums.Some? {
      var x :| x in a.enums.value && !b.AcceptsValue(x, w.exact);
      ListedValuesTyped(from, x, w);
      LiteralTypeDenotes(x, b.types, w.exact);
      SeparatedBy(from, to, x, w);
    } else if Spurious(a, b) {
      forall x | Accepts(from, x, w) ensures Accepts(to, x, w) {
        SpuriousIncludes(from, to, x, w);
      }
    } else if b.enums.Some? {
      var x := LeftOut(a.types, b.enums.value);
      SeparatedBy(from, to, x, w);
    } else {
      TypeChangeBreakingExact(a.types, b.types, false);
      var x :| InTypes(x, a.types) && !InTypes(x, b.types);
      SeparatedBy(from, to, x, w);
    }
  }

  lemma SpuriousIncludes(from: Schema, to: Schema, x: Value, w: World)
    requires var a, b := SimpleRule(from, w.exact), SimpleRule(to, w.exact); !b.unknown && Spurious(a, b)
    requires Accepts(from, x, w)
    ensures Accepts(to, x, w)
  {
    var a, b := SimpleRule(from, w.exact), SimpleRule(to, w.exact);
    SimpleRuleDenotes(from, x, w);
    SimpleRuleDenotes(to, x, w);
    if b.enums.Some? {
      assert x.Null? || x == Bool(false) || x == Bool(true);
      ListedValuesTyped(to, x, w);
    } else {
      TypeChangeBreakingExact(a.types, b.types, false);
    }
  }

  /** A value of the types that the list leaves out. */
  lemma LeftOut(types: TypeSet, listed: set<Value>) returns (x: Value)
    requires types.Some? && types.value <= {TNull, TBoolean} ==>
               || (TNull in types.value && Null !in listed)
               || (TBoolean in types.value && !({Bool(false), Bool(true)} <= listed))
    ensures InTypes(x, types) && x !in listed
  {
    if types.None? || !(types.value <= {TNull, TBoolean}) {
      x := Outside(types, listed);
    } else if TNull in types.value && Null !in listed {
      x := Null;
    } else {
      x := Bool(Bool(false) in listed);
      assert HasType(x, TBoolean);
    }
  }

  // A break that refuses nothing

  const Flags: Schema := Unconstrained.(types := {TBoolean}, nullable := Some(true))

  const ListedFlags: Schema := Unconstrained.(enumeration := Some([Null, Bool(true), Bool(false)]))

  /** Objects whose properties are flags; then one of them is described by listing the flags. */
  lemma SpuriousBreak(name: string, w: World)
    ensures var oldParent := Unconstrained.(additional := Some(Flags));
            var newParent := oldParent.(properties := map[name := ListedFlags]);
            && Compatibility(Some([oldParent]), Some([newParent]), name, false, w.exact) == Verdict(true, false)
            && Included(oldParent, newParent, w)
  {
    var oldParent := Unconstrained.(additional := Some(Flags));
    var newParent := oldParent.(properties := map[name := ListedFlags]);
    hide Accepts;
    hide Decide;
    hide RulesOfAll;
    hide UnknownInAll;
    OneRule(oldParent, name, Flags);
    OneRule(newParent, name, ListedFlags);
    FlagVerdict(w.exact);
    forall v | Accepts(oldParent, v, w) ensures Accepts(newParent, v, w) {
      FlagsStayAccepted(oldParent, newParent, name, v, w);
    }
  }

  lemma FlagVerdict(exact: real -> bool)
    ensures Decide(Conjunction([Flags]), false, Conjunction([ListedFlags]), false, false, exact) == Verdict(true, false)
  {
    hide SimpleRule;
    hide CanonicalSchema;
    FlagRules(exact);
  }

  lemma FlagsStayAccepted(oldParent: Schema, newParent: Schema, name: string, v: Value, w: World)
    requires oldParent == Unconstrained.(additional := Some(Flags))
    requires newParent == oldParent.(properties := map[name := ListedFlags])
    requires Accepts(oldParent, v, w)
    ensures Accepts(newParent, v, w)
  {
    assert LocalOk(newParent, v, w);
    if v.Obj? && name in v.fields {
      assert Accepts(Flags, v.fields[name], w);
      FlagListed(v.fields[name], w);
    }
  }

  lemma OneRule(parent: Schema, name: string, rule: Schema)
    requires parent.Node? && parent == Unconstrained.(additional := parent.additional, properties := parent.properties)
    requires OwnRules(parent, name) == [rule]
    ensures Conjunction(RulesOfAll([parent], name)) == Conjunction([rule]) && !UnknownInAll([parent])
  {
    assert [parent][..0] == [];
    assert RulesOfAll([], name) == [];
    assert RulesOf(parent, name) == [rule] + RulesOfAll([], name);
  }

  /** The rule collected from a single schema without `allOf`. */
  lemma OneMember(s: Schema)
    requires s.Node? && s.allOf == []
    ensures TypesAfter(Conjunction([s]), None) == KeywordTypes(s.types, s.nullable)
    ensures EnumAfter(Conjunction([s]), None) == KeywordEnum(s)
    ensures ComplexIn(Conjunction([s])) == HasComplexKeys(s)
  {
    var all := Conjunction([s]);
    assert FragmentsOfAll([s]) == [s];
    assert Fragments(s) == [s] && Fragments(all) == [all, s];
    assert [s][..0] == [] && [all][..0] == [] && [all, s][..1] == [all];
    assert FoldTypes([s]) == Intersect(FoldTypes([s][..0]), KeywordTypes(s.types, s.nullable));
    assert FoldTypes([all]) == Intersect(FoldTypes([all][..0]), None);
    assert FoldEnums([s]) == IntersectEnums(FoldEnums([s][..0]), KeywordEnum(s));
    assert FoldEnums([all]) == IntersectEnums(FoldEnums([all][..0]), None);
    assert TypesAfterAll([s], EffectiveTypes(s)) == TypesAfter(s, TypesAfterAll([s][..0], EffectiveTypes(s)));
    assert EnumAfterAll([s], EffectiveEnum(s)) == EnumAfter(s, EnumAfterAll([s][..0], EffectiveEnum(s)));
    SelfIntersect(EffectiveTypes(s));
    assert EnumAfter(s, EffectiveEnum(s)) == EffectiveEnum(s) by {
      assert EffectiveEnum(s).Some? ==> EffectiveEnum(s).value * EffectiveEnum(s).value == EffectiveEnum(s).value;
    }
    assert AnyComplex([s]) == (AnyComplex([s][..0]) || ComplexIn(s));
    assert !AnyComplex([]) && ComplexIn(s) == HasComplexKeys(s);
  }

  lemma SelfIntersect(types: TypeSet)
    ensures Intersect(types, types) == types
  {
    assert types.Some? ==> Meets(types.value, types.value) == types.value;
  }

  lemma FlagRules(exact: real -> bool)
    ensures SimpleRule(Conjunction([Flags]), exact) == PropertyValueRule(Some({TNull, TBoolean}), None, false)
    ensures SimpleRule(Conjunction([ListedFlags]), exact) ==
            PropertyValueRule(None, Some({Null, Bool(true), Bool(false)}), false)
    ensures CanonicalSchema(Conjunction([Flags]), exact) != CanonicalSchema(Conjunction([ListedFlags]), exact)
  {
    OneMember(Flags);
    OneMember(ListedFlags);
    assert KeywordTypes(Flags.types, Flags.nullable) == Some({TNull, TBoolean}) by {
      assert {TBoolean} + {TNull} == {TNull, TBoolean};
    }
    var listed := [Null, Bool(true), Bool(false)];
    assert SetOf(listed) == {Null, Bool(true), Bool(false)} by {
      assert listed[0] in listed && listed[1] in listed && listed[2] in listed;
    }
    var rule := PropertyValueRule(None, Some(SetOf(listed)), false);
    assert Filtered(rule, exact).enums.value == SetOf(listed);
    assert !exists x :: x in SetOf(listed) && LiteralType(x, exact).None?;
    var c, d := CanonicalSchema(Flags, exact), CanonicalSchema(ListedFlags, exact);
    assert c.types != d.types;
    assert CanonicalAll([Flags], exact) == [c] && CanonicalAll([ListedFlags], exact) == [d];
    assert c in multiset([c]) && c !in multiset([d]);
  }

  lemma FlagListed(x: Value, w: World)
    requires Accepts(Flags, x, w)
    ensures Accepts(ListedFlags, x, w)
  {
    assert x.Null? || x == Bool(true) || x == Bool(false);
  }

  lemma SeparatedBy(from: Schema, to: Schema, x: Value, w: World)
    requires var a := SimpleRule(from, w.exact); !a.unknown && InTypes(x, a.types) && InEnum(x, a.enums)
    requires var b := SimpleRule(to, w.exact); !(InTypes(x, b.types) && InEnum(x, b.enums))
    ensures !Included(from, to, w)
  {
    SimpleRuleDenotes(from, x, w);
    SimpleRuleDenotes(to, x, w);
  }

  lemma ListedValuesTyped(s: Schema, x: Value, w: World)
    requires var r := SimpleRule(s, w.exact); !r.unknown && r.enums.Some? && x in r.enums.value
    ensures LiteralType(x, w.exact).Some? && InTypes(x, SimpleRule(s, w.exact).types)
  {
    var r := SimpleRule(s, w.exact);
    assert LiteralType(x, w.exact).Some?;
    LiteralTypeDenotes(x, r.types, w.exact);
  }

  /** A type with infinitely many values has one outside any finite set. */
  lemma Outside(types: TypeSet, listed: set<Value>) returns (x: Value)
    requires types.Some? ==> !(types.value <= {TNull, TBoolean})
    ensures InTypes(x, types) && x !in listed
  {
    var t := TString;
    if types.Some? {
      t :| t in types.value && t !in {TNull, TBoolean};
    }
    var i;
    x, i := OutsideKind(t, listed);
  }

  function Nth(t: TypeName, k: nat): (v: Value)
    requires t !in {TNull, TBoolean}
    ensures HasType(v, t)
  {
    match t
    case TString => Str(Repeat('a', k))
    case TArray => Arr(Repeat(Null, k))
    case TObject => Obj(map[Repeat('a', k) := Null])
    case _ => Num(k as real)
  }

  lemma NthInjective(t: TypeName, i: nat, j: nat)
    requires t !in {TNull, TBoolean} && i != j
    ensures Nth(t, i) != Nth(t, j)
  {
    assert |Repeat('a', i)| != |Repeat('a', j)| && |Repeat(Null, i)| != |Repeat(Null, j)|;
    if t == TObject {
      assert Repeat('a', i) in Nth(t, i).fields && Repeat('a', i) !in Nth(t, j).fields;
    }
  }

  lemma OutsideKind(t: TypeName, listed: set<Value>, k: nat := 0) returns (x: Value, i: nat)
    requires t !in {TNull, TBoolean}
    ensures k <= i && x == Nth(t, i) && x !in listed
    decreases listed
  {
    if Nth(t, k) !in listed {
      x, i := Nth(t, k), k;
    } else {
      x, i := OutsideKind(t, listed - {Nth(t, k)}, k + 1);
      NthInjective(t, k, i);
    }
  }
}

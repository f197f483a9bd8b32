/**
 Property rules: services/vdoc/semantic_property_rules.go. `additionalProperties` speaks only about
 the names its own object leaves undeclared, so the constraint on one property is collected object
 by object over the `allOf` tree.
 */
module PropertyRules {
  import opened Wrappers
  import opened Schemas
  import opened TypeLattice
  import opened EnumSets
  import opened CanonicalForms

  // objectPropertyRule

  /** Keywords other than those objectPropertyRule understands. */
  predicate HasUnknownKeys(s: Schema)
    requires s.Node?
  {
    s.enumeration.Some? || s.constant.Some? || s.bounds != map[] || s.sizes != map[] || s.items.Some?
      || s.anyOf != [] || s.oneOf != [] || s.others != map[]
  }

  predicate UnknownIn(s: Schema)
    decreases s, 1
  {
    s.Node? && (HasUnknownKeys(s) || UnknownInAll(s.allOf))
  }

  predicate UnknownInAll(nodes: seq<Schema>)
    decreases nodes, 0
  {
    nodes != [] && (UnknownInAll(nodes[..|nodes| - 1]) || UnknownIn(nodes[|nodes| - 1]))
  }

  predicate AllowsObjects(s: Schema) {
    var types := EffectiveTypes(s);
    types.Some? ==> TObject in types.value
  }

  function OwnRules(s: Schema, name: string): seq<Schema>
    requires s.Node?
  {
    (if AllowsObjects(s) then [] else [Flag(false)]) +
    (if name in s.properties then [s.properties[name]]
     else if s.additional.Some? then [s.additional.value]
     else [])
  }

  function RulesOf(s: Schema, name: string): seq<Schema>
    decreases s, 1
  {
    match s
    case Flag(allow) => if allow then [] else [Flag(false)]
    case Node(_, _, _, _, _, _, _, _, _, _, allOf, _, _, _) => OwnRules(s, name) + RulesOfAll(allOf, name)
  }

  function RulesOfAll(nodes: seq<Schema>, name: string): seq<Schema>
    decreases nodes, 0
  {
    if nodes == [] then [] else RulesOfAll(nodes[..|nodes| - 1], name) + RulesOf(nodes[|nodes| - 1], name)
  }

  class RuleCollector {
    var rules: seq<Schema>
    var unknown: bool

    constructor ()
      ensures rules == [] && !unknown
    {
      rules, unknown := [], false;
    }

    method Collect(value: Schema, name: string)
      modifies this
      ensures rules == old(rules) + RulesOf(value, name)
      ensures unknown == (old(unknown) || UnknownIn(value))
      decreases value
    {
      hide OwnRules;
      hide HasUnknownKeys;
      if value.Flag? {
        if !value.allow {
          rules := rules + [Flag(false)];
        }
        return;
      }
      CollectOwn(value, name);
      ghost var before := rules;
      for i := 0 to |value.allOf|
        invariant rules == before + RulesOfAll(value.allOf[..i], name)
        invariant unknown == (old(unknown) || HasUnknownKeys(value) || UnknownInAll(value.allOf[..i]))
      {
        Collect(value.allOf[i], name);
        assert value.allOf[..i + 1][..i] == value.allOf[..i];
      }
      assert value.allOf[..|value.allOf|] == value.allOf;
    }

    /** What the object itself says, before its `allOf`. */
    method CollectOwn(value: Schema, name: string)
      requires value.Node?
      modifies this
      ensures rules == old(rules) + OwnRules(value, name)
      ensures unknown == (old(unknown) || HasUnknownKeys(value))
    {
      var types := SchemaType(value);
      if types.Some? && TObject !in types.value {
        rules := rules + [Flag(false)];
      }
      if HasUnknownKeys(value) {
        unknown := true;
      }
      if name in value.properties {
        rules := rules + [value.properties[name]];
      } else if value.additional.Some? {
        rules := rules + [value.additional.value];
      }
    }
  }

  /** The rules for `name`, wrapped as one schema, and whether some keyword was not understood. */
  method ObjectPropertyRule(nodes: seq<Schema>, name: string) returns (rule: Schema, unknown: bool)
    ensures rule == Conjunction(RulesOfAll(nodes, name))
    ensures unknown == UnknownInAll(nodes)
  {
    var collector := new RuleCollector();
    for i := 0 to |nodes|
      invariant fresh(collector)
      invariant collector.rules == RulesOfAll(nodes[..i], name)
      invariant collector.unknown == UnknownInAll(nodes[..i])
    {
      collector.Collect(nodes[i], name);
      assert nodes[..i + 1][..i] == nodes[..i];
    }
    assert nodes[..|nodes|] == nodes;
    return Conjunction(collector.rules), collector.unknown;
  }

  lemma {:induction false} UnknownMember(nodes: seq<Schema>)
    ensures UnknownInAll(nodes) <==> exists i :: 0 <= i < |nodes| && UnknownIn(nodes[i])
  {
    if nodes != [] {
      var n := |nodes| - 1;
      UnknownMember(nodes[..n]);
      assert forall i | 0 <= i < n :: nodes[..n][i] == nodes[i];
    }
  }

  function Conjunction(rules: seq<Schema>): Schema {
    Unconstrained.(allOf := rules)
  }

  lemma ConjunctionAccepts(rules: seq<Schema>, x: Value, w: World)
    ensures Accepts(Conjunction(rules), x, w) <==> AcceptsAll(rules, x, w)
  {
  }

  lemma AcceptsConcat(a: seq<Schema>, b: seq<Schema>, x: Value, w: World)
    ensures AcceptsAll(a + b, x, w) <==> AcceptsAll(a, x, w) && AcceptsAll(b, x, w)
  {
    if AcceptsAll(a + b, x, w) {
      assert forall i | 0 <= i < |a| :: a[i] == (a + b)[i];
      assert forall i | 0 <= i < |b| :: b[i] == (a + b)[|a| + i];
    }
  }

  lemma {:induction false} RulesOfAllMember(nodes: seq<Schema>, name: string, x: Value, w: World)
    ensures AcceptsAll(RulesOfAll(nodes, name), x, w) <==>
            forall i | 0 <= i < |nodes| :: AcceptsAll(RulesOf(nodes[i], name), x, w)
  {
    hide Accepts;
    hide RulesOf;
    if nodes != [] {
      var n := |nodes| - 1;
      RulesOfAllMember(nodes[..n], name, x, w);
      AcceptsConcat(RulesOfAll(nodes[..n], name), RulesOf(nodes[n], name), x, w);
      assert forall i | 0 <= i < n :: nodes[..n][i] == nodes[i];
    }
  }

  ghost predicate RequiresIn(s: Schema, v: Value)
    requires v.Obj?
    decreases s
  {
    s.Node? ==> s.required <= v.fields.Keys && forall i | 0 <= i < |s.allOf| :: RequiresIn(s.allOf[i], v)
  }

  /** Nothing in the tree refuses an object as such. */
  ghost predicate ObjectShell(s: Schema)
    decreases s
  {
    match s
    case Flag(allow) => allow
    case Node(_, _, _, _, _, _, _, _, _, _, allOf, _, _, _) =>
      AllowsObjects(s) && forall i | 0 <= i < |allOf| :: ObjectShell(allOf[i])
  }

  /** An understood node accepts an object exactly when the required names are there, no part refuses
      objects, and every property satisfies the rules collected for its name. */
  lemma {:induction false} RulesDecompose(s: Schema, v: Value, w: World)
    requires v.Obj? && !UnknownIn(s)
    ensures Accepts(s, v, w) <==>
            && ObjectShell(s)
            && RequiresIn(s, v)
            && forall name | name in v.fields :: AcceptsAll(RulesOf(s, name), v.fields[name], w)
    decreases s
  {
    if s.Node? {
      UnknownMember(s.allOf);
      forall i | 0 <= i < |s.allOf|
        ensures Accepts(s.allOf[i], v, w) <==>
                && ObjectShell(s.allOf[i]) && RequiresIn(s.allOf[i], v)
                && forall name | name in v.fields :: AcceptsAll(RulesOf(s.allOf[i], name), v.fields[name], w)
      {
        RulesDecompose(s.allOf[i], v, w);
      }
      forall name | name in v.fields
        ensures AcceptsAll(RulesOf(s, name), v.fields[name], w) <==>
                && AllowsObjects(s)
                && (name in s.properties ==> Accepts(s.properties[name], v.fields[name], w))
                && (name !in s.properties && s.additional.Some? ==> Accepts(s.additional.value, v.fields[name], w))
                && forall i | 0 <= i < |s.allOf| :: AcceptsAll(RulesOf(s.allOf[i], name), v.fields[name], w)
      {
        var x := v.fields[name];
        AcceptsConcat(OwnRules(s, name), RulesOfAll(s.allOf, name), x, w);
        RulesOfAllMember(s.allOf, name, x, w);
        OwnRulesMean(s, name, x, w);
      }
      if Accepts(s, v, w) {
        EffectiveTypesSound(s, v, w);
      }
      if ObjectShell(s) {
        OwnTypeAllowsObjects(s, v);
      }
    }
  }

  lemma OwnRulesMean(s: Schema, name: string, x: Value, w: World)
    requires s.Node?
    ensures AcceptsAll(OwnRules(s, name), x, w) <==>
            && AllowsObjects(s)
            && (name in s.properties ==> Accepts(s.properties[name], x, w))
            && (name !in s.properties && s.additional.Some? ==> Accepts(s.additional.value, x, w))
  {
    var shell: seq<Schema> := if AllowsObjects(s) then [] else [Flag(false)];
    var own: seq<Schema> := if name in s.properties then [s.properties[name]]
                            else if s.additional.Some? then [s.additional.value] else [];
    AcceptsConcat(shell, own, x, w);
    if !AllowsObjects(s) {
      assert shell[0] == Flag(false);
    }
    if own != [] {
      assert AcceptsAll(own, x, w) <==> Accepts(own[0], x, w);
    }
  }

  lemma OwnTypeAllowsObjects(s: Schema, v: Value)
    requires s.Node? && v.Obj? && AllowsObjects(s)
    ensures InTypes(v, KeywordTypes(s.types, s.nullable))
  {
    var fs := Fragments(s);
    assert InTypes(v, EffectiveTypes(s));
    FoldTypesDenotes(fs, v);
    assert fs[0] == s;
  }

  /** The rules of objectPropertyRule are exactly what the node tree asks of the properties: when
      every keyword is understood, an object that has some property and the required names is
      accepted if and only if each property is accepted by the rules for its name. */
  lemma ObjectPropertyRuleExact(nodes: seq<Schema>, v: Value, w: World)
    requires v.Obj? && v.fields != map[] && !UnknownInAll(nodes)
    ensures AcceptsAll(nodes, v, w) <==>
            && (forall i | 0 <= i < |nodes| :: RequiresIn(nodes[i], v))
            && forall name | name in v.fields :: Accepts(Conjunction(RulesOfAll(nodes, name)), v.fields[name], w)
  {
    UnknownMember(nodes);
    forall i | 0 <= i < |nodes|
      ensures Accepts(nodes[i], v, w) <==>
              && ObjectShell(nodes[i]) && RequiresIn(nodes[i], v)
              && forall name | name in v.fields :: AcceptsAll(RulesOf(nodes[i], name), v.fields[name], w)
    {
      RulesDecompose(nodes[i], v, w);
    }
    forall name | name in v.fields
      ensures Accepts(Conjunction(RulesOfAll(nodes, name)), v.fields[name], w) <==>
              forall i | 0 <= i < |nodes| :: AcceptsAll(RulesOf(nodes[i], name), v.fields[name], w)
    {
      ConjunctionAccepts(RulesOfAll(nodes, name), v.fields[name], w);
      RulesOfAllMember(nodes, name, v.fields[name], w);
    }
    var name :| name in v.fields;
    forall i | 0 <= i < |nodes| && AcceptsAll(RulesOf(nodes[i], name), v.fields[name], w)
      ensures ObjectShell(nodes[i])
    {
      RulesImplyShell(nodes[i], name, v.fields[name], w);
    }
  }

  lemma FalseRefuses(x: Value, w: World)
    ensures !AcceptsAll([Flag(false)], x, w)
  {
    assert !Accepts([Flag(false)][0], x, w);
  }

  lemma {:induction false} RulesImplyShell(s: Schema, name: string, x: Value, w: World)
    requires AcceptsAll(RulesOf(s, name), x, w)
    ensures ObjectShell(s)
    decreases s
  {
    if s.Flag? {
      FalseRefuses(x, w);
    } else {
      AcceptsConcat(OwnRules(s, name), RulesOfAll(s.allOf, name), x, w);
      OwnRulesMean(s, name, x, w);
      RulesOfAllMember(s.allOf, name, x, w);
      forall i | 0 <= i < |s.allOf| ensures ObjectShell(s.allOf[i]) {
        RulesImplyShell(s.allOf[i], name, x, w);
      }
    }
  }

  // simplePropertyRule

  datatype PropertyValueRule = PropertyValueRule(types: TypeSet, enums: EnumSet, unknown: bool) {
    predicate Empty() {
      types == Some({}) || enums == Some({})
    }

    predicate Universal() {
      types.None? && enums.None? && !unknown
    }

    predicate AcceptsType(value: Value, exact: real -> bool) {
      types.None? || (LiteralType(value, exact).Some?
                      && !TypeChangeBreaking(Some({LiteralType(value, exact).value}), types, false))
    }

    predicate AcceptsValue(value: Value, exact: real -> bool) {
      AcceptsType(value, exact) && (enums.Some? ==> value in enums.value)
    }
  }

  function LiteralType(value: Value, exact: real -> bool): Option<TypeName> {
    match value
    case Null => Some(TNull)
    case Bool(_) => Some(TBoolean)
    case Str(_) => Some(TString)
    case Arr(_) => Some(TArray)
    case Obj(_) => Some(TObject)
    case Num(n) => if !exact(n) then None else if IsIntegral(n) then Some(TInteger) else Some(TNumber)
  }

  predicate HasComplexKeys(s: Schema)
    requires s.Node?
  {
    || s.bounds != map[] || s.sizes != map[] || s.properties != map[] || s.required != {}
    || s.items.Some? || s.additional.Some? || s.anyOf != [] || s.oneOf != [] || s.others != map[]
  }

  predicate ComplexIn(s: Schema)
    decreases s, 1
  {
    s.Node? && (HasComplexKeys(s) || AnyComplex(s.allOf))
  }

  predicate AnyComplex(nodes: seq<Schema>)
    decreases nodes, 0
  {
    nodes != [] && (AnyComplex(nodes[..|nodes| - 1]) || ComplexIn(nodes[|nodes| - 1]))
  }

  function TypesAfter(s: Schema, acc: TypeSet): TypeSet
    decreases s, 1
  {
    match s
    case Flag(allow) => if allow then acc else Some({})
    case Node(_, _, _, _, _, _, _, _, _, _, allOf, _, _, _) => TypesAfterAll(allOf, Intersect(acc, EffectiveTypes(s)))
  }

  function TypesAfterAll(nodes: seq<Schema>, acc: TypeSet): TypeSet
    decreases nodes, 0
  {
    if nodes == [] then acc
    else TypesAfter(nodes[|nodes| - 1], TypesAfterAll(nodes[..|nodes| - 1], acc))
  }

  function EnumAfter(s: Schema, acc: EnumSet): EnumSet
    decreases s, 1
  {
    match s
    case Flag(_) => acc
    case Node(_, _, _, _, _, _, _, _, _, _, allOf, _, _, _) =>
      EnumAfterAll(allOf, IntersectEnums(acc, EffectiveEnum(s)))
  }

  function EnumAfterAll(nodes: seq<Schema>, acc: EnumSet): EnumSet
    decreases nodes, 0
  {
    if nodes == [] then acc
    else EnumAfter(nodes[|nodes| - 1], EnumAfterAll(nodes[..|nodes| - 1], acc))
  }

  class ValueRuleCollector {
    var rule: PropertyValueRule

    constructor ()
      ensures rule == PropertyValueRule(None, None, false)
    {
      rule := PropertyValueRule(None, None, false);
    }

    method Collect(value: Schema)
      modifies this
      ensures rule.types == TypesAfter(value, old(rule.types))
      ensures rule.enums == EnumAfter(value, old(rule.enums))
      ensures rule.unknown == (old(rule.unknown) || ComplexIn(value))
      decreases value
    {
      if value.Flag? {
        if !value.allow {
          rule := rule.(types := Some({}));
        }
        return;
      }
      var own := SchemaType(value);
      var types := IntersectSchemaTypes(rule.types, own);
      rule := rule.(types := types);
      var values := EnumIdentities(value);
      if values.Some? {
        if rule.enums.None? {
          rule := rule.(enums := values);
        } else {
          rule := rule.(enums := Some(rule.enums.value * values.value));
        }
      }
      if HasComplexKeys(value) {
        rule := rule.(unknown := true);
      }
      ghost var start := rule;
      for i := 0 to |value.allOf|
        invariant rule.types == TypesAfterAll(value.allOf[..i], start.types)
        invariant rule.enums == EnumAfterAll(value.allOf[..i], start.enums)
        invariant rule.unknown == (start.unknown || AnyComplex(value.allOf[..i]))
      {
        Collect(value.allOf[i]);
        assert value.allOf[..i + 1][..i] == value.allOf[..i];
      }
      assert value.allOf[..|value.allOf|] == value.allOf;
    }
  }

  /** Listed values whose type the rule refuses are dropped; values whose type cannot be told stay. */
  function Filtered(rule: PropertyValueRule, exact: real -> bool): PropertyValueRule {
    if rule.enums.None? then rule
    else
      PropertyValueRule(
        rule.types,
        Some(set x | x in rule.enums.value && (LiteralType(x, exact).None? || rule.AcceptsType(x, exact))),
        rule.unknown || exists x :: x in rule.enums.value && LiteralType(x, exact).None?)
  }

  function SimpleRule(s: Schema, exact: real -> bool): PropertyValueRule {
    Filtered(PropertyValueRule(TypesAfter(s, None), EnumAfter(s, None), ComplexIn(s)), exact)
  }

  method SimplePropertyRule(s: Schema, exact: real -> bool) returns (rule: PropertyValueRule)
    ensures rule == SimpleRule(s, exact)
  {
    var collector := new ValueRuleCollector();
    collector.Collect(s);
    rule := collector.rule;
    if rule.enums.Some? {
      var filtered, unknown, rest := {}, rule.unknown, rule.enums.value;
      while rest != {}
        invariant rest <= rule.enums.value
        invariant filtered == set x | x in rule.enums.value - rest
                  && (LiteralType(x, exact).None? || rule.AcceptsType(x, exact))
        invariant unknown == (rule.unknown || exists x :: x in rule.enums.value - rest && LiteralType(x, exact).None?)
        decreases rest
      {
        var x :| x in rest;
        if LiteralType(x, exact).None? {
          unknown := true;
          filtered := filtered + {x};
        } else if rule.AcceptsType(x, exact) {
          filtered := filtered + {x};
        }
        rest := rest - {x};
      }
      assert rule.enums.value - rest == rule.enums.value;
      rule := PropertyValueRule(rule.types, Some(filtered), unknown);
    }
  }

  /** What a schema accepts lies inside its collected types and values, understood or not. */
  lemma {:induction false} CollectedSound(s: Schema, x: Value, types: TypeSet, enums: EnumSet, w: World)
    requires Accepts(s, x, w) && InTypes(x, types) && InEnum(x, enums)
    ensures InTypes(x, TypesAfter(s, types)) && InEnum(x, EnumAfter(s, enums))
    decreases s, 1
  {
    if s.Node? {
      EffectiveTypesSound(s, x, w);
      IntersectDenotes(types, EffectiveTypes(s), x);
      EffectiveEnumSound(s, x, w);
      CollectedAllSound(s.allOf, x, Intersect(types, EffectiveTypes(s)), IntersectEnums(enums, EffectiveEnum(s)), w);
    }
  }

  lemma {:induction false} CollectedAllSound(nodes: seq<Schema>, x: Value, types: TypeSet, enums: EnumSet, w: World)
    requires AcceptsAll(nodes, x, w) && InTypes(x, types) && InEnum(x, enums)
    ensures InTypes(x, TypesAfterAll(nodes, types)) && InEnum(x, EnumAfterAll(nodes, enums))
    decreases nodes, 0
  {
    if nodes != [] {
      var n := |nodes| - 1;
      CollectedAllSound(nodes[..n], x, types, enums, w);
      assert Accepts(nodes[n], x, w);
      CollectedSound(nodes[n], x, TypesAfterAll(nodes[..n], types), EnumAfterAll(nodes[..n], enums), w);
    }
  }

  /** Conversely, with every keyword understood, the collected types and values are all there is. */
  lemma {:induction false} CollectedComplete(s: Schema, x: Value, types: TypeSet, enums: EnumSet, w: World)
    requires !ComplexIn(s) && InTypes(x, TypesAfter(s, types)) && InEnum(x, EnumAfter(s, enums))
    ensures Accepts(s, x, w) && InTypes(x, types) && InEnum(x, enums)
    decreases s, 1
  {
    if s.Node? {
      var types', enums' := Intersect(types, EffectiveTypes(s)), IntersectEnums(enums, EffectiveEnum(s));
      CollectedAllComplete(s.allOf, x, types', enums', w);
      IntersectDenotes(types, EffectiveTypes(s), x);
      OwnKeywordsOk(s, x, w);
    } else if !s.allow {
      assert false;
    }
  }

  lemma {:induction false} CollectedAllComplete(nodes: seq<Schema>, x: Value, types: TypeSet, enums: EnumSet, w: World)
    requires !AnyComplex(nodes) && InTypes(x, TypesAfterAll(nodes, types)) && InEnum(x, EnumAfterAll(nodes, enums))
    ensures AcceptsAll(nodes, x, w) && InTypes(x, types) && InEnum(x, enums)
    decreases nodes, 0
  {
    if nodes != [] {
      var n := |nodes| - 1;
      CollectedComplete(nodes[n], x, TypesAfterAll(nodes[..n], types), EnumAfterAll(nodes[..n], enums), w);
      assert forall i | 0 <= i < n :: nodes[..n][i] == nodes[i];
      CollectedAllComplete(nodes[..n], x, types, enums, w);
    }
  }

  lemma OwnKeywordsOk(s: Schema, x: Value, w: World)
    requires s.Node? && !HasComplexKeys(s) && InTypes(x, EffectiveTypes(s)) && InEnum(x, EffectiveEnum(s))
    ensures LocalOk(s, x, w)
  {
    var fs := Fragments(s);
    FoldTypesDenotes(fs, x);
    FoldEnumsDenotes(fs, x);
    assert fs[0] == s;
  }

  lemma LiteralTypeDenotes(value: Value, types: TypeSet, exact: real -> bool)
    requires LiteralType(value, exact).Some?
    ensures InTypes(value, types) <==>
            types.None? || !TypeChangeBreaking(Some({LiteralType(value, exact).value}), types, false)
  {
  }

  /** The meaning of a collected rule: an upper bound always, the exact set when not unknown. */
  lemma SimpleRuleDenotes(s: Schema, x: Value, w: World)
    ensures var r := SimpleRule(s, w.exact);
            Accepts(s, x, w) ==> InTypes(x, r.types) && InEnum(x, r.enums)
    ensures var r := SimpleRule(s, w.exact);
            !r.unknown ==> (Accepts(s, x, w) <==> InTypes(x, r.types) && InEnum(x, r.enums))
  {
    var types, enums := TypesAfter(s, None), EnumAfter(s, None);
    var raw := PropertyValueRule(types, enums, ComplexIn(s));
    var r := SimpleRule(s, w.exact);
    if Accepts(s, x, w) {
      CollectedSound(s, x, None, None, w);
      if LiteralType(x, w.exact).Some? {
        LiteralTypeDenotes(x, types, w.exact);
      }
    }
    if !r.unknown && InTypes(x, r.types) && InEnum(x, r.enums) {
      CollectedComplete(s, x, None, None, w);
    }
  }

  // changedPropertyCompatibility

  datatype Verdict = Verdict(breaking: bool, manual: bool)

  const Silent := Verdict(false, false)

  /** The decision once the rules of both sides are collected. */
  function Decide(oldRule: Schema, oldUnknown: bool, newRule: Schema, newUnknown: bool, response: bool,
                  exact: real -> bool): Verdict {
    if CanonicalSchema(oldRule, exact) == CanonicalSchema(newRule, exact) && !oldUnknown && !newUnknown then Silent
    else if oldUnknown || newUnknown then Verdict(false, true)
    else
      var a := SimpleRule(if response then newRule else oldRule, exact);
      var b := SimpleRule(if response then oldRule else newRule, exact);
      RuleVerdict(a, b, exact)
  }

  function RuleVerdict(a: PropertyValueRule, b: PropertyValueRule, exact: real -> bool): Verdict {
    if a.Empty() || b.Universal() then Silent
    else if a.unknown || b.unknown then Verdict(false, true)
    else if a.enums.Some? then Verdict(exists x :: x in a.enums.value && !b.AcceptsValue(x, exact), false)
    else Verdict(b.enums.Some? || TypeChangeBreaking(a.types, b.types, false), false)
  }

  /** `None` nodes: the parent does not exist on that side. */
  function Compatibility(oldNodes: Option<seq<Schema>>, newNodes: Option<seq<Schema>>, name: string, response: bool,
                         exact: real -> bool): Verdict {
    if oldNodes.None? || newNodes.None? then Silent
    else Decide(Conjunction(RulesOfAll(oldNodes.value, name)), UnknownInAll(oldNodes.value),
                Conjunction(RulesOfAll(newNodes.value, name)), UnknownInAll(newNodes.value), response, exact)
  }

  method ChangedPropertyCompatibility(defined: bool, arrayItem: bool, name: string,
                                      oldNodes: Option<seq<Schema>>, newNodes: Option<seq<Schema>>,
                                      response: bool, exact: real -> bool) returns (verdict: Verdict)
    ensures verdict == if !defined || arrayItem then Silent
            else Compatibility(oldNodes, newNodes, name, response, exact)
  {
    if !defined || arrayItem || oldNodes.None? || newNodes.None? {
      return Silent;
    }
    var oldRule, oldUnknown := ObjectPropertyRule(oldNodes.value, name);
    var newRule, newUnknown := ObjectPropertyRule(newNodes.value, name);
    if CanonicalSchema(oldRule, exact) == CanonicalSchema(newRule, exact) && !oldUnknown && !newUnknown {
      return Silent;
    }
    if response {
      oldRule, newRule := newRule, oldRule;
    }
    if oldUnknown || newUnknown {
      return Verdict(false, true);
    }
    var oldSimple := SimplePropertyRule(oldRule, exact);
    var newSimple := SimplePropertyRule(newRule, exact);
    verdict := CompareRules(oldSimple, newSimple, exact);
  }

  /** The last part of changedPropertyCompatibility, on the two simple rules. */
  method CompareRules(oldSimple: PropertyValueRule, newSimple: PropertyValueRule, exact: real -> bool)
    returns (verdict: Verdict)
    ensures verdict == RuleVerdict(oldSimple, newSimple, exact)
  {
    if oldSimple.Empty() || newSimple.Universal() {
      return Silent;
    }
    if oldSimple.unknown || newSimple.unknown {
      return Verdict(false, true);
    }
    if oldSimple.enums.Some? {
      var rest := oldSimple.enums.value;
      while rest != {}
        invariant rest <= oldSimple.enums.value
        invariant forall x | x in oldSimple.enums.value - rest :: newSimple.AcceptsValue(x, exact)
        decreases rest
      {
        var x :| x in rest;
        if !newSimple.AcceptsValue(x, exact) {
          return Verdict(true, false);
        }
        rest := rest - {x};
      }
      return Silent;
    }
    return Verdict(newSimple.enums.Some? || TypeChangeBreaking(oldSimple.types, newSimple.types, false), false);
  }

  /** No finding between two existing parents: in the direction that matters, every value the rules of
      one side accept for this property is accepted by the rules of the other. */
  lemma SilentMeansIncluded(oldNodes: seq<Schema>, newNodes: seq<Schema>, name: string, response: bool, w: World)
    requires Compatibility(Some(oldNodes), Some(newNodes), name, response, w.exact) == Silent
    ensures !UnknownInAll(oldNodes) && !UnknownInAll(newNodes)
    ensures
      var oldRule, newRule := Conjunction(RulesOfAll(oldNodes, name)), Conjunction(RulesOfAll(newNodes, name));
      if response then Included(newRule, oldRule, w) else Included(oldRule, newRule, w)
  {
    var oldRule, newRule := Conjunction(RulesOfAll(oldNodes, name)), Conjunction(RulesOfAll(newNodes, name));
    var from, to := if response then newRule else oldRule, if response then oldRule else newRule;
    forall x | Accepts(from, x, w) ensures Accepts(to, x, w) {
      if CanonicalSchema(oldRule, w.exact) == CanonicalSchema(newRule, w.exact) {
        CanonicalKeepsMeaning(from, to, x, w);
      } else {
        SilentRulesInclude(from, to, x, w);
      }
    }
  }

  lemma SilentRulesInclude(from: Schema, to: Schema, x: Value, w: World)
    requires RuleVerdict(SimpleRule(from, w.exact), SimpleRule(to, w.exact), w.exact) == Silent
    requires Accepts(from, x, w)
    ensures Accepts(to, x, w)
  {
    var a, b := SimpleRule(from, w.exact), SimpleRule(to, w.exact);
    SimpleRuleDenotes(from, x, w);
    SimpleRuleDenotes(to, x, w);
    if !a.Empty() && !b.Universal() {
      if a.enums.Some? {
        if b.types.Some? {
          LiteralTypeDenotes(x, b.types, w.exact);
        }
      } else {
        TypeChangeBreakingExact(a.types, b.types, false);
      }
    }
  }

  function Repeat<T>(x: T, k: nat): (r: seq<T>)
    ensures |r| == k
  {
    if k == 0 then [] else [x] + Repeat(x, k - 1)
  }
}

/**
 When the comparison decides alone: services/vdoc/semantic_diff.go, compareSchemaFields. A condition
 on the two schemas, read keyword by keyword, under which nothing is left to a person; a value that
 is lost then always has a breaking finding.
 */

module DecisiveFindings {
  import opened Wrappers
  import opened Schemas
  import opened TypeLattice
  import opened NumericBounds
  import opened EnumSets
  import opened CanonicalForms
  import opened Alternatives
  import opened PropertyRules
  import opened SchemaFields
  import opened SchemaDiff
  import opened SchemaPositions
  import opened SchemaGaps
  import opened QuietFindings
  import opened SchemaSoundness
  import opened ReportedBreaks

  // What a person is not needed for

  /** The schema that speaks about one property of an object. */
  function Declared(s: Schema, name: string): Option<Schema>
    requires s.Node?
  {
    if name in s.properties then Some(s.properties[name]) else s.additional
  }

  predicate SameMeaning(a: Option<Schema>, b: Option<Schema>, exact: real -> bool) {
    || (a.None? && b.None?)
    || (a.Some? && b.Some? && CanonicalSchema(a.value, exact) == CanonicalSchema(b.value, exact))
  }

  /** Nothing but types and listed values whose type can be told. */
  predicate Plain(s: Schema, exact: real -> bool) {
    s.Node? ==>
      && s.allOf == [] && !HasComplexKeys(s)
      && (s.enumeration.Some? ==> forall v | v in s.enumeration.value :: LiteralType(v, exact).Some?)
      && (s.constant.Some? ==> LiteralType(s.constant.value, exact).Some?)
  }

  /** What a property's object says beside its properties, limits and branches. */
  function Scope(s: Schema, exact: real -> bool): Canon
    requires s.Node?
  {
    CanonicalSchema(s.(properties := map[], allOf := [], bounds := map[], sizes := map[]), exact)
  }

  /** A property in objects that say the same, or only use the keywords that property rules know; then
      it is the same property, or a plain one on both sides. */
  predicate NameJudged(a: Schema, b: Schema, name: string, exact: real -> bool)
    requires a.Node? && b.Node?
  {
    || (name in a.properties && name in b.properties && Scope(a, exact) == Scope(b, exact))
    || (&& !HasUnknownKeys(a) && !HasUnknownKeys(b)
        && (|| (AllowsObjects(a) == AllowsObjects(b) && SameMeaning(Declared(a, name), Declared(b, name), exact))
            || ((Declared(a, name).Some? ==> Plain(Declared(a, name).value, exact))
                && (Declared(b, name).Some? ==> Plain(Declared(b, name).value, exact)))))
  }

  /** Every property of every position that both sides have. */
  ghost predicate PropertiesJudged(a: Schema, b: Schema, exact: real -> bool)
    decreases a
  {
    if a.Flag? || b.Flag? then a == b
    else
      && (forall name | name in a.properties.Keys + b.properties.Keys :: NameJudged(a, b, name, exact))
      && (forall name | name in a.properties && name in b.properties ::
            PropertiesJudged(a.properties[name], b.properties[name], exact))
      && (a.items.Some? && b.items.Some? ==> PropertiesJudged(a.items.value, b.items.value, exact))
  }

  ghost predicate MembersJudged(key: Keyword, a: seq<Schema>, b: seq<Schema>, exact: real -> bool) {
    CanonicalMembers(a, exact) == CanonicalMembers(b, exact) || Comparable(key, a, b, exact)
  }

  /** Numbers that can be compared, alternatives that can, and nothing changed in other keywords. */
  ghost predicate OwnLimitsJudged(a: Schema, b: Schema, exact: real -> bool)
    requires a.Node? && b.Node?
  {
    && (forall lower :: BoundKeywords(a.bounds, lower) == BoundKeywords(b.bounds, lower)
                        || (SideExact(a.bounds, lower, exact) && SideExact(b.bounds, lower, exact)))
    && (forall key | key in a.sizes && key in b.sizes ::
          a.sizes[key] == b.sizes[key] || (exact(a.sizes[key]) && exact(b.sizes[key])))
    && MembersJudged(AnyOf, a.anyOf, b.anyOf, exact) && MembersJudged(OneOf, a.oneOf, b.oneOf, exact)
    && a.others == b.others && SameMeaning(a.additional, b.additional, exact)
  }

  /** Items that only one side has are compared with the empty schema. */
  ghost predicate LimitsJudged(a: Schema, b: Schema, exact: real -> bool)
    decreases Height(a) + Height(b)
  {
    if a.Flag? || b.Flag? then a == b
    else
      && OwnLimitsJudged(a, b, exact)
      && (forall name | name in a.properties && name in b.properties ::
            LimitsJudged(a.properties[name], b.properties[name], exact))
      && (a.items.Some? || b.items.Some? ==>
            LimitsJudged(a.items.GetOr(Unconstrained), b.items.GetOr(Unconstrained), exact))
  }

  /** Nothing in the two schemas needs a person. */
  ghost predicate Reviewless(prev: Schema, next: Schema, exact: real -> bool) {
    && NoAllOf(prev) && NoAllOf(next)
    && PropertiesJudged(prev, next, exact) && LimitsJudged(prev, next, exact)
  }

  ghost predicate Decisive(items: set<Item>) {
    forall it | it in items && it.mustHandle :: it.breaking
  }

  // Limits

  lemma OwnDecisive(at: Path, a: Schema, b: Schema, response: bool, exact: real -> bool)
    requires a.Node? && b.Node? && a.allOf == [] && b.allOf == [] && OwnLimitsJudged(a, b, exact)
    ensures Decisive(OwnKeywordItems(at, a, b, response, exact))
  {
    BoundsDecisive(at, a, b, true, response, exact);
    BoundsDecisive(at, a, b, false, response, exact);
    SizesDecisive(at, a, b, response, exact);
    MembersDecisive(at, AnyOf, a.anyOf, b.anyOf, response, exact);
    MembersDecisive(at, OneOf, a.oneOf, b.oneOf, response, exact);
    assert UnsupportedItems(at, a, b, exact) == {} by {
      hide CanonicalSchema;
    }
    hide OwnLimitsJudged;
    hide BoundItems;
    hide AlternativeItems;
    hide AllSizeItems;
    hide UnsupportedItems;
  }

  lemma SizesDecisive(at: Path, a: Schema, b: Schema, response: bool, exact: real -> bool)
    requires a.Node? && b.Node? && OwnLimitsJudged(a, b, exact)
    ensures Decisive(AllSizeItems(at, a, b, response, exact))
  {
    forall key ensures Decisive(SizeItems(at, a.sizes, b.sizes, key, response, exact)) {
      hide CanonicalSchema;
      hide MembersJudged;
    }
    hide SizeItems;
    hide OwnLimitsJudged;
  }

  lemma BoundsDecisive(at: Path, a: Schema, b: Schema, lower: bool, response: bool, exact: real -> bool)
    requires a.Node? && b.Node? && OwnLimitsJudged(a, b, exact)
    ensures Decisive(BoundItems(at, a.bounds, b.bounds, lower, response, exact))
  {
    var x, z := BoundKeywords(a.bounds, lower), BoundKeywords(b.bounds, lower);
    assert x == z || (Convertible(x, lower, exact) && Convertible(z, lower, exact));
  }

  lemma MembersDecisive(at: Path, key: Keyword, a: seq<Schema>, b: seq<Schema>, response: bool, exact: real -> bool)
    requires MembersJudged(key, a, b, exact)
    ensures Decisive(AlternativeItems(at, key, a, b, response, exact))
  {
    ComparedMeans(key, a, b, response, exact);
    hide Comparable;
    hide Disjoint;
  }

  lemma {:induction false} ConstraintsDecisive(at: Path, a: Schema, b: Schema, response: bool, exact: real -> bool)
    requires NoAllOf(a) && NoAllOf(b) && LimitsJudged(a, b, exact)
    ensures Decisive(ConstraintItems(at, a, b, response, exact))
    decreases Height(a) + Height(b)
  {
    hide OwnKeywordItems;
    hide OwnLimitsJudged;
    if a.Node? && b.Node? {
      OwnDecisive(at, a, b, response, exact);
      forall name | name in a.properties && name in b.properties
        ensures Decisive(ConstraintItems(at + [Prop(name)], a.properties[name], b.properties[name], response, exact))
      {
        ConstraintsDecisive(at + [Prop(name)], a.properties[name], b.properties[name], response, exact);
      }
      assert Decisive(SharedItems(b.properties.Keys, at, a, b, response, exact));
      if a.items.Some? || b.items.Some? {
        ConstraintsDecisive(at + [Items], a.items.GetOr(Unconstrained), b.items.GetOr(Unconstrained), response, exact);
      }
      assert Decisive(ItemsItems(at, a, b, response, exact));
    }
  }

  // Properties

  ghost predicate Told(enums: EnumSet, exact: real -> bool) {
    enums.Some? ==> forall v | v in enums.value :: LiteralType(v, exact).Some?
  }

  lemma PlainTold(s: Schema, acc: EnumSet, exact: real -> bool)
    requires Plain(s, exact) && Told(acc, exact)
    ensures !ComplexIn(s) && Told(EnumAfter(s, acc), exact)
  {
    if s.Node? {
      SingleFragment(s);
    }
  }

  lemma {:induction false} PlainRules(rules: seq<Schema>, acc: EnumSet, exact: real -> bool)
    requires Told(acc, exact) && forall i | 0 <= i < |rules| :: Plain(rules[i], exact)
    ensures !AnyComplex(rules) && Told(EnumAfterAll(rules, acc), exact)
  {
    if rules != [] {
      var n := |rules| - 1;
      PlainRules(rules[..n], acc, exact);
      PlainTold(rules[n], EnumAfterAll(rules[..n], acc), exact);
    }
  }

  lemma {:induction false} PlainFragments(rules: seq<Schema>, exact: real -> bool)
    requires forall i | 0 <= i < |rules| :: Plain(rules[i], exact)
    ensures forall i | 0 <= i < |FragmentsOfAll(rules)| :: Plain(FragmentsOfAll(rules)[i], exact)
  {
    if rules != [] {
      PlainFragments(rules[1..], exact);
      if rules[0].Node? {
        SingleFragment(rules[0]);
      }
    }
  }

  lemma {:induction false} PlainFold(fs: seq<Schema>, exact: real -> bool)
    requires forall i | 0 <= i < |fs| :: fs[i].Node? && Plain(fs[i], exact)
    ensures Told(FoldEnums(fs), exact)
  {
    if fs != [] {
      PlainFold(fs[..|fs| - 1], exact);
    }
  }

  /** Plain rules are understood as a whole. */
  lemma PlainUnderstood(rules: seq<Schema>, exact: real -> bool)
    requires forall i | 0 <= i < |rules| :: Plain(rules[i], exact)
    ensures !SimpleRule(Conjunction(rules), exact).unknown
  {
    var whole := Conjunction(rules);
    PlainFragments(rules, exact);
    assert Fragments(whole) == [whole] + FragmentsOfAll(rules);
    assert Plain(whole.(allOf := []), exact);
    PlainConjunction(rules, exact);
    PlainRules(rules, IntersectEnums(None, EffectiveEnum(whole)), exact);
    assert !ComplexIn(whole);
  }

  lemma PlainConjunction(rules: seq<Schema>, exact: real -> bool)
    requires forall i | 0 <= i < |rules| :: Plain(rules[i], exact)
    ensures Told(EffectiveEnum(Conjunction(rules)), exact)
  {
    var whole := Conjunction(rules);
    PlainFragments(rules, exact);
    var fs := Fragments(whole);
    assert fs == [whole] + FragmentsOfAll(rules);
    SameFold(whole, FragmentsOfAll(rules));
    PlainFold(FragmentsOfAll(rules), exact);
  }

  /** A node without `enum` and `const` in front adds nothing. */
  lemma {:induction false} SameFold(first: Schema, fs: seq<Schema>)
    requires first.Node? && first.enumeration.None? && first.constant.None?
    requires forall i | 0 <= i < |fs| :: fs[i].Node?
    ensures FoldEnums([first] + fs) == FoldEnums(fs)
  {
    var all := [first] + fs;
    if fs == [] {
      assert all[..0] == [];
    } else {
      SameFold(first, fs[..|fs| - 1]);
      assert all[..|all| - 1] == [first] + fs[..|fs| - 1];
    }
  }

  lemma RulesAre(s: Schema, name: string)
    requires s.Node? && s.allOf == []
    ensures RulesOfAll([s], name) == OwnRules(s, name)
    ensures OwnRules(s, name) == (if AllowsObjects(s) then [] else [Flag(false)])
                                 + (if Declared(s, name).Some? then [Declared(s, name).value] else [])
    ensures UnknownInAll([s]) == HasUnknownKeys(s)
  {
    assert [s][..0] == [];
    assert RulesOfAll([], name) == [];
    assert RulesOf(s, name) == OwnRules(s, name) + RulesOfAll([], name);
    assert !UnknownInAll([]);
  }

  lemma JudgedRules(a: Schema, b: Schema, name: string, exact: real -> bool)
    requires a.Node? && b.Node? && a.allOf == [] && b.allOf == [] && NameJudged(a, b, name, exact)
    ensures var (x, z) := (OwnRules(a, name), OwnRules(b, name));
            || (name in a.properties && name in b.properties && Scope(a, exact) == Scope(b, exact))
            || (&& !HasUnknownKeys(a) && !HasUnknownKeys(b)
                && (|| CanonicalSchema(Conjunction(x), exact) == CanonicalSchema(Conjunction(z), exact)
                    || (!SimpleRule(Conjunction(x), exact).unknown && !SimpleRule(Conjunction(z), exact).unknown)))
  {
    hide CanonicalSchema;
    hide SimpleRule;
    hide Conjunction;
    hide OwnRules;
    hide Declared;
    hide Scope;
    hide HasUnknownKeys;
    if AllowsObjects(a) == AllowsObjects(b) && SameMeaning(Declared(a, name), Declared(b, name), exact) {
      SameRules(a, b, name, exact);
    } else if (Declared(a, name).Some? ==> Plain(Declared(a, name).value, exact))
              && (Declared(b, name).Some? ==> Plain(Declared(b, name).value, exact)) {
      PlainOwnRules(a, name, exact);
      PlainOwnRules(b, name, exact);
    }
  }

  lemma SameRules(a: Schema, b: Schema, name: string, exact: real -> bool)
    requires a.Node? && b.Node? && a.allOf == [] && b.allOf == [] && AllowsObjects(a) == AllowsObjects(b)
    requires SameMeaning(Declared(a, name), Declared(b, name), exact)
    ensures CanonicalSchema(Conjunction(OwnRules(a, name)), exact) ==
            CanonicalSchema(Conjunction(OwnRules(b, name)), exact)
  {
    hide CanonicalSchema;
    hide AllowsObjects;
    hide Conjunction;
    hide Declared;
    RulesAre(a, name);
    RulesAre(b, name);
    hide OwnRules;
    SameConjunction(OwnRules(a, name), OwnRules(b, name), exact);
  }

  lemma PlainOwnRules(s: Schema, name: string, exact: real -> bool)
    requires s.Node? && s.allOf == [] && (Declared(s, name).Some? ==> Plain(Declared(s, name).value, exact))
    ensures !SimpleRule(Conjunction(OwnRules(s, name)), exact).unknown
  {
    hide SimpleRule;
    hide AllowsObjects;
    hide Declared;
    RulesAre(s, name);
    PlainFlag(exact);
    hide Plain;
    hide OwnRules;
    PlainUnderstood(OwnRules(s, name), exact);
  }

  /** A property judged by its rules is not left to a person. */
  lemma RulesDecide(a: Schema, b: Schema, name: string, response: bool, exact: real -> bool)
    requires a.Node? && b.Node? && a.allOf == [] && b.allOf == [] && NameJudged(a, b, name, exact)
    ensures Compatibility(Some([a]), Some([b]), name, response, exact).manual ==>
              name in a.properties && name in b.properties && Scope(a, exact) == Scope(b, exact)
  {
    JudgedRules(a, b, name, exact);
    RulesAre(a, name);
    RulesAre(b, name);
    hide NameJudged;
    hide OwnRules;
    hide HasUnknownKeys;
    hide Scope;
    hide SimpleRule;
    hide Conjunction;
    hide CanonicalSchema;
    hide AllowsObjects;
  }

  lemma PlainFlag(exact: real -> bool)
    ensures Plain(Flag(false), exact)
  {
  }

  lemma SameConjunction(a: seq<Schema>, b: seq<Schema>, exact: real -> bool)
    requires |a| == |b| && forall i | 0 <= i < |a| :: CanonicalSchema(a[i], exact) == CanonicalSchema(b[i], exact)
    ensures CanonicalSchema(Conjunction(a), exact) == CanonicalSchema(Conjunction(b), exact)
  {
    assert CanonicalAll(a, exact) == CanonicalAll(b, exact);
  }

  lemma {:induction false} PropertiesJudgedAt(a: Schema, b: Schema, q: Path, exact: real -> bool)
    requires NoAllOf(a) && NoAllOf(b) && PropertiesJudged(a, b, exact) && At(a, q).Some? && At(b, q).Some?
    ensures PropertiesJudged(At(a, q).value, At(b, q).value, exact)
    ensures NoAllOf(At(a, q).value) && NoAllOf(At(b, q).value)
    decreases |q|
  {
    hide NameJudged;
    if q != [] {
      PropertiesJudgedAt(ChildAt(a, q[0]).value, ChildAt(b, q[0]).value, q[1..], exact);
    }
  }

  ghost predicate Kept(prev: Schema, next: Schema, p: Path) {
    At(prev, p).Some? && At(next, p).Some?
  }

  /** A property some side describes is left to a person only if both do and their objects agree. */
  lemma VerdictDecided(prev: Schema, next: Schema, sides: Sides, p: Path, f: Field, response: bool,
                       exact: real -> bool)
    requires Reviewless(prev, next, exact) && TablesOf(sides, prev, next)
    requires p != [] && Last(p).Prop? && (At(prev, p).Some? || At(next, p).Some?)
    ensures FieldVerdict(f, p, sides, response, exact).manual ==> Kept(prev, next, p) && !ScopesChanged(p, sides, exact)
  {
    hide Decide;
    hide PropertiesJudged;
    hide LimitsJudged;
    hide NameJudged;
    hide NodesIn;
    hide FieldIn;
    hide ShapesOf;
    var q, name := Parent(p), LastName(p);
    assert p == q + [Prop(name)];
    NodesOnSpine(prev, q);
    NodesOnSpine(next, q);
    assert NodesAt(sides.oldNodes, q) == NodesIn(prev, q) && NodesAt(sides.newNodes, q) == NodesIn(next, q);
    if Lookup(sides.oldNodes, q).Some? && Lookup(sides.newNodes, q).Some? {
      var a, b := At(prev, q).value, At(next, q).value;
      PropertiesJudgedAt(prev, next, q, exact);
      JudgedName(prev, next, q, name, exact);
      RulesDecide(a, b, name, response, exact);
      assert Lookup(sides.oldNodes, q) == Some([a]) && Lookup(sides.newNodes, q) == Some([b]);
      assert FieldVerdict(f, p, sides, response, exact) in
          {Silent, Compatibility(Some([a]), Some([b]), name, response, exact)};
      if name in a.properties && name in b.properties && Scope(a, exact) == Scope(b, exact) {
        SameScopes(a, b, name, exact);
        assert NodesAt(sides.oldNodes, q) == [a] && NodesAt(sides.newNodes, q) == [b];
      }
    }
  }

  lemma JudgedName(prev: Schema, next: Schema, q: Path, name: string, exact: real -> bool)
    requires Kept(prev, next, q) && PropertiesJudged(At(prev, q).value, At(next, q).value, exact)
    requires At(prev, q + [Prop(name)]).Some? || At(next, q + [Prop(name)]).Some?
    ensures At(prev, q).value.Node? && At(next, q).value.Node?
    ensures NameJudged(At(prev, q).value, At(next, q).value, name, exact)
    ensures name in At(prev, q).value.properties <==> At(prev, q + [Prop(name)]).Some?
    ensures name in At(next, q).value.properties <==> At(next, q + [Prop(name)]).Some?
  {
    hide NameJudged;
    AtStep(prev, q, Prop(name));
    AtStep(next, q, Prop(name));
  }

  lemma {:induction false} AtStep(s: Schema, q: Path, step: Step)
    requires At(s, q).Some?
    ensures At(s, q + [step]) == if At(s, q).value.Flag? then None else ChildAt(At(s, q).value, step)
    decreases |q|
  {
    var p := q + [step];
    if q == [] {
      assert p[1..] == [];
    } else {
      assert p[0] == q[0] && p[1..] == q[1..] + [step];
      AtStep(ChildAt(s, q[0]).value, q[1..], step);
    }
  }

  lemma SameScopes(a: Schema, b: Schema, name: string, exact: real -> bool)
    requires a.Node? && b.Node? && a.allOf == [] && b.allOf == []
    requires name in a.properties && name in b.properties && Scope(a, exact) == Scope(b, exact)
    ensures ShapesOf([a], name, exact) == ShapesOf([b], name, exact)
  {
    assert ShapesOf([a], name, exact) == [ShapeOf(a, name, exact)];
    assert ShapesOf([b], name, exact) == [ShapeOf(b, name, exact)];
  }

  // The findings of one path

  lemma EntryAt(prev: Schema, next: Schema, sides: Sides, p: Path, exact: real -> bool)
    requires Reviewless(prev, next, exact) && TablesOf(sides, prev, next)
             && (p in sides.oldFields || p in sides.newFields)
    ensures p != []
    ensures p in sides.newFields ==> (sides.newFields[p].defined <==> At(next, p).Some? && Last(p).Prop?)
    ensures p in sides.oldFields ==> (sides.oldFields[p].defined <==> At(prev, p).Some? && Last(p).Prop?)
    ensures At(prev, p).Some? ==> p in sides.oldFields
    ensures At(next, p).Some? ==> p in sides.newFields
  {
    hide FieldIn;
    hide PropertiesJudged;
    hide LimitsJudged;
    assert Entry(sides.oldFields, []).None? && Entry(sides.newFields, []).None?;
    EntrySummarizes(prev, p);
    EntrySummarizes(next, p);
    NodesOnSpine(prev, p);
    NodesOnSpine(next, p);
    assert Entry(sides.oldFields, p) == FieldIn(prev, p) && Entry(sides.newFields, p) == FieldIn(next, p);
  }

  lemma KeptDecisive(p: Path, sides: Sides, f: Field, g: Field, handled: bool, response: bool, exact: real -> bool)
    requires g.defined && FieldVerdict(g, p, sides, response, exact).manual ==> !ScopesChanged(p, sides, exact)
    ensures Decisive(KeptItems(p, f, g, response) + ScopeItems(p, g, handled, sides, response, exact))
  {
    hide FieldVerdict;
    hide ScopesChanged;
    assert Decisive(TypeItems(p, FieldType, f.types, g.types, response));
    assert Decisive(RequiredItems(p, f.required, g.required, response));
    assert Decisive(EnumItems(p, f.enums, g.enums, response));
    assert Decisive(ScopeItems(p, g, handled, sides, response, exact));
    hide TypeItems;
    hide RequiredItems;
    hide EnumItems;
    hide ScopeItems;
  }

  lemma NewSideDecisive(prev: Schema, next: Schema, sides: Sides, p: Path, response: bool, exact: real -> bool)
    requires Reviewless(prev, next, exact) && TablesOf(sides, prev, next) && p in sides.newFields
    ensures Decisive(NewSideItems(p, sides, response, exact))
  {
    EntryAt(prev, next, sides, p, exact);
    var g := sides.newFields[p];
    if g.defined {
      VerdictDecided(prev, next, sides, p, g, response, exact);
    }
    hide Reviewless;
    hide TablesOf;
    hide ScopesChanged;
    hide Compatibility;
    hide KeptItems;
    hide ScopeItems;
    if !IsRemoved(p, sides) && !IsAdded(p, sides) {
      var kept := KeptItems(p, sides.oldFields[p], g, response);
      KeptDecisive(p, sides, sides.oldFields[p], g, Handled(kept), response, exact);
    }
  }

  lemma OldSideDecisive(prev: Schema, next: Schema, sides: Sides, p: Path, response: bool, exact: real -> bool)
    requires Reviewless(prev, next, exact) && TablesOf(sides, prev, next) && p in sides.oldFields
    ensures Decisive(OldSideItems(p, sides, response, exact))
  {
    EntryAt(prev, next, sides, p, exact);
    if sides.oldFields[p].defined {
      VerdictDecided(prev, next, sides, p, sides.oldFields[p], response, exact);
    }
    hide Reviewless;
    hide TablesOf;
    hide ScopesChanged;
    hide Compatibility;
  }

  // The theorems

  /** Between such schemas whatever has to be handled is breaking. */
  lemma NothingToReview(prev: Schema, next: Schema, sides: Sides, response: bool, exact: real -> bool)
    requires Reviewless(prev, next, exact) && TablesOf(sides, prev, next)
    ensures Decisive(AllItems(prev, next, sides, response, exact))
  {
    ConstraintsDecisive([], prev, next, response, exact);
    RootsDecisive(prev, next, response);
    ChildrenDecisive(prev, next, sides, response, exact);
    hide Reviewless;
    hide TablesOf;
    hide ChildItems;
    hide ConstraintItems;
    hide RootItems;
  }

  lemma RootsDecisive(prev: Schema, next: Schema, response: bool)
    ensures Decisive(RootItems(prev, next, response))
  {
    hide TypeChangeBreaking;
  }

  lemma ChildrenDecisive(prev: Schema, next: Schema, sides: Sides, response: bool, exact: real -> bool)
    requires Reviewless(prev, next, exact) && TablesOf(sides, prev, next)
    ensures Decisive(ChildItems(sides, response, exact))
  {
    hide Reviewless;
    hide TablesOf;
    hide NewSideItems;
    hide OldSideItems;
    forall p | p in sides.newFields ensures Decisive(NewSideItems(p, sides, response, exact)) {
      NewSideDecisive(prev, next, sides, p, response, exact);
    }
    forall p | p in sides.oldFields ensures Decisive(OldSideItems(p, sides, response, exact)) {
      OldSideDecisive(prev, next, sides, p, response, exact);
    }
  }

  /** Schemas of plain values need no person when their numbers can be compared. */
  lemma LeavesReviewless(a: Schema, b: Schema, exact: real -> bool)
    requires a.Node? && a.properties == map[] && a.items.None? && a.additional.None? && a.allOf == []
             && a.others == map[]
    requires b.Node? && b.properties == map[] && b.items.None? && b.additional.None? && b.allOf == []
             && b.others == map[]
    requires a.anyOf == b.anyOf && a.oneOf == b.oneOf
    requires forall key | key in a.bounds :: exact(a.bounds[key])
    requires forall key | key in b.bounds :: exact(b.bounds[key])
    requires forall key | key in a.sizes && key in b.sizes :: exact(a.sizes[key]) && exact(b.sizes[key])
    ensures Reviewless(a, b, exact)
  {
  }

  /** Between such schemas a value that is lost has a breaking finding among those the comparison
      appended. */
  lemma LostValueBreaks(prev: Schema, next: Schema, sides: Sides, response: bool, before: seq<Item>,
                        after: seq<Item>, v: Value, w: World)
    requires Reviewless(prev, next, w.exact) && TablesOf(sides, prev, next)
    requires Appends(before, after, AllItems(prev, next, sides, response, w.exact))
    requires response || NewItemsCompared(prev, next)
    requires Accepts(From(prev, next, response), v, w) && !Accepts(To(prev, next, response), v, w)
    ensures exists it :: it in after[|before|..] && it.breaking
  {
    hide Accepts;
    hide AllItems;
    hide TablesOf;
    hide NewItemsCompared;
    AlignedWithoutAllOf(prev, next);
    NothingToReview(prev, next, sides, response, w.exact);
    var all := AllItems(prev, next, sides, response, w.exact);
    if Quiet(all) {
      if response {
        ResponseSound(prev, next, sides, v, w);
      } else {
        RequestSound(prev, next, sides, v, w);
      }
    }
    var it :| it in all && (it.breaking || it.mustHandle);
    assert it in after[|before|..];
  }
}

/**
 When the conditions of the soundness theorem hold, and what goes wrong without them:
 services/vdoc/semantic_diff.go, compareSchemaChildren, and services/vdoc/semantic_constraints.go,
 compareSchemaConstraints.
 */
module SchemaGaps {
  import opened Wrappers
  import opened Schemas
  import opened TypeLattice
  import opened EnumSets
  import opened PropertyRules
  import opened SchemaFields
  import opened SchemaDiff
  import opened SchemaPositions
  import opened QuietFindings

  /** The table entry a node gives its child at `step`. */
  function LocalField(s: Schema, step: Step): Option<Field> {
    if s.Flag? then None
    else
      match step
      case Prop(name) =>
        if name in s.properties
        then Some(Field(false, true, EffectiveTypes(s.properties[name]), name in s.required,
                        EffectiveEnum(s.properties[name])))
        else if name in s.required then Some(RequiredOnly)
        else None
      case Items =>
        if s.items.Some? then Some(Field(true, false, EffectiveTypes(s.items.value), false,
                                         EffectiveEnum(s.items.value))) else None
  }

  lemma SingleFragment(s: Schema)
    requires s.Node? && s.allOf == []
    ensures Fragments(s) == [s]
    ensures RequiredNames(Fragments(s)) == s.required
    ensures EffectiveTypes(s) == KeywordTypes(s.types, s.nullable)
    ensures EffectiveEnum(s) == KeywordEnum(s)
  {
    assert Fragments(s) == [s];
    assert Fragments(s)[..0] == [];
    assert RequiredNames([]) == {};
    assert RequiredNames([s]) == RequiredNames([s][..0]) + s.required;
    assert FoldTypes([s]) == Intersect(FoldTypes([s][..0]), KeywordTypes(s.types, s.nullable));
    assert FoldEnums([s]) == IntersectEnums(FoldEnums([s][..0]), KeywordEnum(s));
  }

  lemma FieldInStep(s: Schema, p: Path)
    requires p != [] && (s.Node? ==> s.allOf == [])
    ensures |p| == 1 ==> FieldIn(s, p) == LocalField(s, p[0])
    ensures |p| > 1 ==> FieldIn(s, p) == if s.Flag? || ChildAt(s, p[0]).None? then None
            else FieldIn(ChildAt(s, p[0]).value, p[1..])
  {
    if s.Node? {
      SingleFragment(s);
      assert FieldIn(s, p) == Combine(RequiredMark(s.required, p), FragmentsField([s], p, s.required));
      OneFragmentField(s, p, s.required);
      if |p| == 1 {
        assert p[1..] == [];
      }
    }
  }

  lemma OneFragmentField(s: Schema, p: Path, required: set<string>)
    requires s.Node? && p != []
    ensures FragmentsField([s], p, required) == FragmentField(s, p, required)
  {
    assert [s][..0] == [];
    assert FragmentsField([], p, required) == None;
  }

  // Without allOf

  /** No `allOf` at any position reached through properties and items. */
  ghost predicate NoAllOf(s: Schema)
    decreases s
  {
    s.Node? ==>
      && s.allOf == []
      && (forall name | name in s.properties :: NoAllOf(s.properties[name]))
      && (s.items.Some? ==> NoAllOf(s.items.value))
  }

  /** Without `allOf`, each path has at most one node. */
  lemma {:induction false} NodesOnSpine(s: Schema, p: Path)
    requires NoAllOf(s)
    ensures NodesIn(s, p) == if At(s, p).Some? then [At(s, p).value] else []
    decreases |p|
  {
    if p != [] && s.Node? {
      SingleFragment(s);
      assert NodesInFragments([s][..0], p) == [];
      if ChildAt(s, p[0]).Some? {
        NodesOnSpine(ChildAt(s, p[0]).value, p[1..]);
      }
    }
  }

  /** Schemas without `allOf` are always aligned. */
  lemma AlignedWithoutAllOf(prev: Schema, next: Schema)
    requires NoAllOf(prev) && NoAllOf(next)
    ensures Aligned(prev, next)
  {
    forall q | Describes(prev, q) && Describes(next, q) ensures At(prev, q).Some? <==> At(next, q).Some? {
      NodesOnSpine(prev, q);
      NodesOnSpine(next, q);
    }
  }

  // Why requests need the condition on items

  function ItemsWith(name: string, property: Schema): Schema {
    Unconstrained.(items := Some(Unconstrained.(properties := map[name := property])))
  }

  ghost predicate AcceptsEverything(s: Schema, w: World) {
    forall x :: Accepts(s, x, w)
  }

  /** New untyped items that describe an optional property go unreported whatever the property says;
      the old values all stay accepted exactly when the property accepts everything. */
  lemma MissedItems(name: string, property: Schema, sides: Sides, w: World)
    requires TablesOf(sides, Unconstrained, ItemsWith(name, property))
    ensures Quiet(AllItems(Unconstrained, ItemsWith(name, property), sides, false, w.exact))
    ensures Included(Unconstrained, ItemsWith(name, property), w) <==> AcceptsEverything(property, w)
  {
    hide ConstraintItems;
    hide Accepts;
    var next := ItemsWith(name, property);
    var inner := next.items.value;
    SingleFragment(Unconstrained);
    SingleFragment(next);
    SingleFragment(inner);
    MissedConstraints(name, property, w.exact);
    forall p | p in sides.newFields ensures Quiet(NewSideItems(p, sides, false, w.exact)) {
      MissedField(name, property, sides, p, w.exact);
    }
    forall p ensures p !in sides.oldFields {
      NothingIn(p);
      assert p != [] ==> Entry(sides.oldFields, p) == FieldIn(Unconstrained, p);
      assert Entry(sides.oldFields, []).None?;
    }
    MissedValues(name, property, w);
  }

  lemma NothingIn(p: Path)
    ensures p != [] ==> FieldIn(Unconstrained, p).None? && NodesIn(Unconstrained, p) == []
  {
    if p != [] {
      FieldInStep(Unconstrained, p);
      SingleFragment(Unconstrained);
      assert NodesInFragments([Unconstrained][..0], p) == [];
      assert NodesInFragments([Unconstrained], p) == [];
    }
  }

  lemma MissedConstraints(name: string, property: Schema, exact: real -> bool)
    ensures ConstraintItems([], Unconstrained, ItemsWith(name, property), false, exact) == {}
  {
    var next := ItemsWith(name, property);
    var inner := next.items.value;
    assert forall at :: OwnKeywordItems(at, Unconstrained, inner, false, exact) == {};
    assert SharedItems(inner.properties.Keys, [Items], Unconstrained, inner, false, exact) == {};
    assert [] + [Items] == [Items];
    assert ConstraintItems([Items], Unconstrained, inner, false, exact) == {};
    assert OwnKeywordItems([], Unconstrained, next, false, exact) == {};
    assert SharedItems(next.properties.Keys, [], Unconstrained, next, false, exact) == {};
  }

  lemma MissedField(name: string, property: Schema, sides: Sides, p: Path, exact: real -> bool)
    requires TablesOf(sides, Unconstrained, ItemsWith(name, property)) && p in sides.newFields
    ensures Quiet(NewSideItems(p, sides, false, exact))
  {
    hide FieldIn;
    hide NodesIn;
    var next := ItemsWith(name, property);
    var inner := next.items.value;
    NothingIn(p);
    NothingIn(Parent(p));
    assert p != [] by { assert Entry(sides.newFields, []).None?; }
    assert Entry(sides.newFields, p) == FieldIn(next, p) && Entry(sides.oldFields, p).None?;
    FieldInStep(next, p);
    assert p[0] == Items;
    if |p| == 1 {
      SingleFragment(inner);
      assert sides.newFields[p] == Field(true, false, None, false, None);
    } else {
      FieldInStep(inner, p[1..]);
      assert p[1] == Prop(name);
      assert NodesAt(sides.oldNodes, Parent(p)) == [];
      if |p| > 2 {
        var middle := p[..2];
        assert middle[1..] == [Prop(name)];
        FieldInStep(next, middle);
        FieldInStep(inner, middle[1..]);
        NothingIn(middle);
        assert Entry(sides.newFields, middle) == FieldIn(next, middle) && Entry(sides.oldFields, middle).None?;
        assert !AffectsExistingInput(p, sides.oldFields, sides.newFields);
      }
    }
  }

  lemma MissedValues(name: string, property: Schema, w: World)
    ensures Included(Unconstrained, ItemsWith(name, property), w) <==> AcceptsEverything(property, w)
  {
    if Included(Unconstrained, ItemsWith(name, property), w) {
      forall x ensures Accepts(property, x, w) {
        MissedValue(name, property, x, w);
      }
      assert AcceptsEverything(property, w);
    }
    if AcceptsEverything(property, w) {
      forall v ensures Accepts(ItemsWith(name, property), v, w) {
        UniversalProperty(name, property, v, w);
      }
    }
  }

  lemma MissedValue(name: string, property: Schema, x: Value, w: World)
    requires Included(Unconstrained, ItemsWith(name, property), w)
    ensures Accepts(property, x, w)
  {
    var inner := ItemsWith(name, property).items.value;
    var o := Obj(map[name := x]);
    var v := Arr([o]);
    assert Accepts(Unconstrained, v, w);
    assert Accepts(inner, v.elements[0], w);
    assert name in o.fields;
    assert Accepts(inner.properties[name], o.fields[name], w);
  }

  lemma UniversalProperty(name: string, property: Schema, v: Value, w: World)
    requires AcceptsEverything(property, w)
    ensures Accepts(ItemsWith(name, property), v, w)
  {
    var inner := ItemsWith(name, property).items.value;
    forall u ensures Accepts(inner, u, w) {
      assert LocalOk(inner, u, w);
    }
    assert LocalOk(ItemsWith(name, property), v, w);
  }

  // Why branches have to be aligned

  function Text(limits: map<SizeKey, real>): Schema {
    Unconstrained.(types := {TString}, sizes := limits)
  }

  /** Objects with one text property, put into `items`. */
  function ListOf(name: string, limits: map<SizeKey, real>): Schema {
    Unconstrained.(items := Some(Unconstrained.(types := {TObject}, properties := map[name := Text(limits)])))
  }

  function InOneBranch(s: Schema): Schema {
    Unconstrained.(allOf := [s])
  }

  /** A list described in a branch on one side and directly on the other: a shortest length inside
      goes unreported in either direction, and excludes values exactly if it is above zero. */
  lemma MissedBranch(name: string, limit: real, request: Sides, response: Sides, w: World)
    requires TablesOf(request, InOneBranch(ListOf(name, map[])), ListOf(name, map[MinLength := limit]))
    requires TablesOf(response, ListOf(name, map[MinLength := limit]), InOneBranch(ListOf(name, map[])))
    ensures var loose, strict := InOneBranch(ListOf(name, map[])), ListOf(name, map[MinLength := limit]);
            && Quiet(AllItems(loose, strict, request, false, w.exact))
            && Quiet(AllItems(strict, loose, response, true, w.exact))
            && (Included(loose, strict, w) <==> limit <= 0.0)
  {
    var loose, strict := InOneBranch(ListOf(name, map[])), ListOf(name, map[MinLength := limit]);
    BranchTable(ListOf(name, map[]));
    NoConstraints(name, limit, w.exact);
    forall p: Path | p != [] ensures FieldIn(loose, p) == FieldIn(strict, p) {
      ListTable(name, map[], p);
      ListTable(name, map[MinLength := limit], p);
    }
    BranchQuiet(name, limit, request, false, w.exact);
    BranchQuiet(name, limit, response, true, w.exact);
    BranchValues(name, limit, w);
  }

  /** An otherwise empty schema with one branch has the tables of the branch. */
  lemma BranchTable(s: Schema)
    requires s.Node? && s.allOf == []
    ensures forall p: Path | p != [] ::
      FieldIn(InOneBranch(s), p) == FieldIn(s, p) && NodesIn(InOneBranch(s), p) == NodesIn(s, p)
    ensures EffectiveTypes(InOneBranch(s)) == EffectiveTypes(s) && EffectiveEnum(InOneBranch(s)) == EffectiveEnum(s)
  {
    var outer := InOneBranch(s);
    SingleFragment(s);
    assert FragmentsOfAll([s]) == [s];
    assert Fragments(outer) == [outer, s];
    assert [outer, s][..1] == [outer] && [outer][..0] == [];
    assert FoldTypes([outer]) == Intersect(FoldTypes([outer][..0]), None);
    assert FoldEnums([outer]) == IntersectEnums(FoldEnums([outer][..0]), None);
    assert RequiredNames([outer]) == RequiredNames([outer][..0]) + {};
    forall p: Path | p != [] ensures FieldIn(outer, p) == FieldIn(s, p) && NodesIn(outer, p) == NodesIn(s, p) {
      OneFragmentField(s, p, s.required);
      OneFragmentField(outer, p, s.required);
      assert FragmentsField([outer, s], p, s.required) == FragmentField(s, p, s.required);
      assert RequiredNames([outer, s]) == s.required;
      assert NodesInFragments([s][..0], p) == [] == NodesInFragments([outer], p);
    }
  }

  const ListEntry := Field(true, false, Some({TObject}), false, None)

  const TextEntry := Field(false, true, Some({TString}), false, None)

  lemma ListTable(name: string, limits: map<SizeKey, real>, p: Path)
    requires p != []
    ensures FieldIn(ListOf(name, limits), p) ==
            if p == [Items] then Some(ListEntry) else if p == [Items, Prop(name)] then Some(TextEntry) else None
  {
    var list := ListOf(name, limits);
    var element := list.items.value;
    SingleFragment(element);
    SingleFragment(Text(limits));
    FieldInStep(list, p);
    if |p| > 1 && p[0] == Items {
      FieldInStep(element, p[1..]);
      if |p| > 2 && p[1] == Prop(name) {
        FieldInStep(Text(limits), p[1..][1..]);
      }
    }
  }

  lemma NoConstraints(name: string, limit: real, exact: real -> bool)
    ensures ConstraintItems([], InOneBranch(ListOf(name, map[])), ListOf(name, map[MinLength := limit]), false,
                            exact) == {}
    ensures ConstraintItems([], ListOf(name, map[MinLength := limit]), InOneBranch(ListOf(name, map[])), true,
                            exact) == {}
  {
    var loose, strict := InOneBranch(ListOf(name, map[])), ListOf(name, map[MinLength := limit]);
    var element := strict.items.value;
    NothingRemains(name, exact);
    assert [] + [Items] == [Items];
    NoOwnLimits([Items], Unconstrained, element, false, exact);
    NoOwnLimits([Items], element, Unconstrained, true, exact);
    NoOwnLimits([], loose, strict, false, exact);
    NoOwnLimits([], strict, loose, true, exact);
    OnlyItems([], loose, strict, false, exact);
    OnlyItems([], strict, loose, true, exact);
    OnlyItems([Items], Unconstrained, element, false, exact);
    OnlyItems([Items], element, Unconstrained, true, exact);
  }

  lemma NoOwnLimits(at: Path, a: Schema, b: Schema, response: bool, exact: real -> bool)
    requires a.Node? && b.Node? && a.bounds == b.bounds == map[] && a.sizes == b.sizes == map[]
    requires Unsupported(a, exact) == Unsupported(b, exact) && a.anyOf == b.anyOf && a.oneOf == b.oneOf
    ensures OwnKeywordItems(at, a, b, response, exact) == {}
  {
  }

  lemma OnlyItems(at: Path, a: Schema, b: Schema, response: bool, exact: real -> bool)
    requires a.Node? && b.Node? && OwnKeywordItems(at, a, b, response, exact) == {}
    requires a.properties == map[] || b.properties == map[]
    ensures ConstraintItems(at, a, b, response, exact) == ItemsItems(at, a, b, response, exact)
  {
    assert SharedItems(b.properties.Keys, at, a, b, response, exact) == {};
  }

  lemma NothingRemains(name: string, exact: real -> bool)
    ensures Remainders([ListOf(name, map[])], exact) == []
  {
    var list := ListOf(name, map[]);
    var element := list.items.value;
    assert Remainder(Text(map[]), exact) == None;
    assert Remainder(element, exact) == None;
    assert Remainder(list, exact) == None;
    assert Remainders([list][1..], exact) == [];
  }

  lemma SameScopes(name: string, limit: real, exact: real -> bool)
    ensures multiset(ShapesOf(NodesIn(InOneBranch(ListOf(name, map[])), [Items]), name, exact)) ==
            multiset(ShapesOf(NodesIn(ListOf(name, map[MinLength := limit]), [Items]), name, exact))
  {
    var loose, strict := ListOf(name, map[]), ListOf(name, map[MinLength := limit]);
    BranchTable(loose);
    OneList(loose);
    OneList(strict);
    assert ShapesOf([loose.items.value], name, exact) == [ShapeOf(loose.items.value, name, exact)];
    assert ShapesOf([strict.items.value], name, exact) == [ShapeOf(strict.items.value, name, exact)];
  }

  lemma OneList(s: Schema)
    requires s.Node? && s.allOf == [] && s.items.Some?
    ensures NodesIn(s, [Items]) == [s.items.value]
  {
    SingleFragment(s);
    assert NodesInFragments([s][..0], [Items]) == [];
    assert [Items][1..] == [];
  }

  /** Both directions: the tables agree, and so do the scopes of the one declared property. */
  lemma BranchQuiet(name: string, limit: real, sides: Sides, response: bool, exact: real -> bool)
    requires var loose, strict := InOneBranch(ListOf(name, map[])), ListOf(name, map[MinLength := limit]);
             TablesOf(sides, if response then strict else loose, if response then loose else strict)
    ensures var loose, strict := InOneBranch(ListOf(name, map[])), ListOf(name, map[MinLength := limit]);
            Quiet(AllItems(if response then strict else loose, if response then loose
                           else strict, sides, response, exact))
  {
    hide ConstraintItems;
    hide FieldIn;
    hide NodesIn;
    var loose, strict := InOneBranch(ListOf(name, map[])), ListOf(name, map[MinLength := limit]);
    BranchTable(ListOf(name, map[]));
    SingleFragment(ListOf(name, map[]));
    SingleFragment(strict);
    NoConstraints(name, limit, exact);
    forall p: Path ensures Entry(sides.oldFields, p) == Entry(sides.newFields, p)
    {
      if p != [] {
        ListTable(name, map[], p);
        ListTable(name, map[MinLength := limit], p);
      }
    }
    forall p: Path ensures p in sides.oldFields <==> p in sides.newFields
    {
      assert Entry(sides.oldFields, p) == Entry(sides.newFields, p);
    }
    assert sides.oldFields.Keys == sides.newFields.Keys;
    forall p | p in sides.newFields
      ensures NewSideItems(p, sides, response, exact) == {} && OldSideItems(p, sides, response, exact) == {}
    {
      assert Entry(sides.oldFields, p) == Entry(sides.newFields, p);
      BranchEntry(name, limit, sides, response, p, exact);
    }
  }

  lemma BranchEntry(name: string, limit: real, sides: Sides, response: bool, p: Path, exact: real -> bool)
    requires var loose, strict := InOneBranch(ListOf(name, map[])), ListOf(name, map[MinLength := limit]);
             TablesOf(sides, if response then strict else loose, if response then loose else strict)
    requires p in sides.newFields && p in sides.oldFields && sides.newFields[p] == sides.oldFields[p]
    ensures NewSideItems(p, sides, response, exact) == {} && OldSideItems(p, sides, response, exact) == {}
  {
    hide FieldIn;
    hide NodesIn;
    hide ConstraintItems;
    hide ShapesOf;
    hide Compatibility;
    var f := sides.newFields[p];
    assert KeptItems(p, f, f, response) == {};
    assert Entry(sides.newFields, p) == Some(f);
    BranchTable(ListOf(name, map[]));
    ListTable(name, map[], p);
    ListTable(name, map[MinLength := limit], p);
    if p == [Items, Prop(name)] {
      assert Parent(p) == [Items];
      SameScopes(name, limit, exact);
      assert !ScopesChanged(p, sides, exact);
    } else {
      assert p == [Items];
    }
  }

  lemma BranchValues(name: string, limit: real, w: World)
    ensures Included(InOneBranch(ListOf(name, map[])), ListOf(name, map[MinLength := limit]), w) <==> limit <= 0.0
  {
    var loose, strict := InOneBranch(ListOf(name, map[])), ListOf(name, map[MinLength := limit]);
    if limit <= 0.0 {
      forall v | Accepts(loose, v, w) ensures Accepts(strict, v, w) {
        assert Accepts(loose.allOf[0], v, w);
        ShorterAccepted(name, limit, v, w);
      }
    } else {
      LongerRefused(name, limit, w);
    }
  }

  lemma LongerRefused(name: string, limit: real, w: World)
    requires limit > 0.0
    ensures !Included(InOneBranch(ListOf(name, map[])), ListOf(name, map[MinLength := limit]), w)
  {
    var loose, strict := InOneBranch(ListOf(name, map[])), ListOf(name, map[MinLength := limit]);
    var o := Obj(map[name := Str("")]);
    var v := Arr([o]);
    var text, strictText := Text(map[]), Text(map[MinLength := limit]);
    assert HasType(Str(""), TString) && HasType(o, TObject);
    assert Accepts(text, Str(""), w);
    assert Accepts(loose.allOf[0].items.value, o, w);
    assert Accepts(loose.allOf[0], v, w);
    assert Accepts(loose, v, w);
    assert !SizeOk(MinLength, strictText.sizes[MinLength], o.fields[name]);
    assert !Accepts(strict.items.value, v.elements[0], w);
  }

  lemma ShorterAccepted(name: string, limit: real, v: Value, w: World)
    requires limit <= 0.0 && Accepts(ListOf(name, map[]), v, w)
    ensures Accepts(ListOf(name, map[MinLength := limit]), v, w)
  {
    var loose, strict := ListOf(name, map[]).items.value, ListOf(name, map[MinLength := limit]).items.value;
    if v.Arr? {
      forall i | 0 <= i < |v.elements| ensures Accepts(strict, v.elements[i], w) {
        assert Accepts(loose, v.elements[i], w);
        if v.elements[i].Obj? && name in v.elements[i].fields {
          assert Accepts(Text(map[]), v.elements[i].fields[name], w);
          assert Accepts(Text(map[MinLength := limit]), v.elements[i].fields[name], w);
        }
      }
    }
  }
}

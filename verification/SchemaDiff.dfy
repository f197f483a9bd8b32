/**
 The schema comparator: services/vdoc/semantic_diff.go, compareSchemaFields and its parts, and
 services/vdoc/semantic_constraints.go, compareSchemaConstraints. Each `...Items` function says which
 findings one comparison must produce; the builder's methods append exactly those, in the order of
 their own loops. The source sorts all findings afterwards, so the order is not specified.
 */
module SchemaDiff {
  import opened Wrappers
  import opened Schemas
  import opened TypeLattice
  import opened NumericBounds
  import opened EnumSets
  import opened CanonicalForms
  import opened Alternatives
  import opened PropertyRules
  import opened SchemaFields

  datatype Change =
    | RootType
    | EnumConstraint
    | EnumRemoved(value: Value)
    | EnumAdded(value: Value)
    | FieldAdded
    | FieldRemoved
    | FieldType
    | FieldRequired
    | ScopeChanged
    | BoundChanged(lower: bool)
    | SizeChanged(key: SizeKey)
    | AlternativesChanged(keyword: Keyword)
    | ManualReview

  datatype Item = Item(at: Path, change: Change, breaking: bool, mustHandle: bool)

  /** add: a finding that must be handled exactly when it is breaking. */
  function Finding(at: Path, change: Change, breaking: bool): Item {
    Item(at, change, breaking, breaking)
  }

  /** manualSchemaChange: not breaking, but a person must look. */
  function Manual(at: Path, change: Change): Item {
    Item(at, change, false, true)
  }

  // Types and enumerations

  function TypeItems(at: Path, change: Change, oldTypes: TypeSet, newTypes: TypeSet, response: bool): set<Item> {
    if oldTypes == newTypes then {} else {Finding(at, change, TypeChangeBreaking(oldTypes, newTypes, response))}
  }

  function EnumItems(at: Path, a: EnumSet, b: EnumSet, response: bool): set<Item> {
    if a.None? && b.None? then {}
    else if a.None? || b.None? then {Finding(at, EnumConstraint, b.Some? != response)}
    else
      (set v | v in a.value - b.value :: Finding(at, EnumRemoved(v), true)) +
      (set v | v in b.value - a.value :: Finding(at, EnumAdded(v), response))
  }

  // Bounds, sizes and the keywords compared as a whole

  function BoundItems(at: Path, prev: BoundMap, next: BoundMap, lower: bool, response: bool,
                      exact: real -> bool): set<Item> {
    var a, z := BoundKeywords(prev, lower), BoundKeywords(next, lower);
    if a == z then {}
    else if !Convertible(a, lower, exact) || !Convertible(z, lower, exact) then {Manual(at, BoundChanged(lower))}
    else
      var comparison := CompareBound(Stricter(a, lower), Stricter(z, lower), lower);
      if comparison == 0 then {} else {Finding(at, BoundChanged(lower), (comparison > 0) != response)}
  }

  predicate Convertible(values: BoundMap, lower: bool, exact: real -> bool) {
    forall key | key in SideKeys(lower) && key in values :: exact(values[key])
  }

  predicate IsMaximum(key: SizeKey) {
    key.MaxLength? || key.MaxItems? || key.MaxProperties?
  }

  function SizeItems(at: Path, prev: map<SizeKey, real>, next: map<SizeKey, real>, key: SizeKey, response: bool,
                     exact: real -> bool): set<Item> {
    if key !in prev && key !in next then {}
    else if key in prev && key in next && prev[key] == next[key] then {}
    else if key in prev && key in next && (!exact(prev[key]) || !exact(next[key])) then {Manual(at, SizeChanged(key))}
    else
      var narrower := if key in prev && key in next then (prev[key] < next[key]) != IsMaximum(key) else key in next;
      {Finding(at, SizeChanged(key), narrower != response)}
  }

  const SizeKeys: seq<SizeKey> := [MinLength, MaxLength, MinItems, MaxItems, MinProperties, MaxProperties]

  function AllSizeItems(at: Path, prev: Schema, next: Schema, response: bool, exact: real -> bool): set<Item>
    requires prev.Node? && next.Node?
  {
    SizeItemsOf(SizeKeys, at, prev, next, response, exact)
  }

  function SizeItemsOf(keys: seq<SizeKey>, at: Path, prev: Schema, next: Schema, response: bool,
                       exact: real -> bool): set<Item>
    requires prev.Node? && next.Node?
  {
    set key, it | key in keys && it in SizeItems(at, prev.sizes, next.sizes, key, response, exact) :: it
  }

  function AlternativeItems(at: Path, key: Keyword, prev: seq<Schema>, next: seq<Schema>, response: bool,
                            exact: real -> bool): set<Item> {
    match Compared(key, prev, next, response, exact)
    case Unchanged => {}
    case Review => {Manual(at, AlternativesChanged(key))}
    case Changed(breaking) => {Finding(at, AlternativesChanged(key), breaking)}
  }

  /** allOfConstraintRemainder: what is left of an `allOf` branch once the keywords compared through
      the merged field table are taken out; nothing left is None. */
  function Remainder(s: Schema, exact: real -> bool): Option<Canon>
    decreases s, 1
  {
    match s
    case Flag(allow) => Some(CanonFlag(allow))
    case Node(_, _, _, _, bounds, sizes, properties, _, items, additional, allOf, anyOf, oneOf, others) =>
      var rest := CanonNode(
        {}, None, None, None, CanonicalBounds(bounds, exact), sizes,
        map name | name in properties && Remainder(properties[name], exact).Some? ::
          Remainder(properties[name], exact).value,
        {},
        if items.Some? then Remainder(items.value, exact) else None,
        if additional.Some? then Some(CanonicalSchema(additional.value, exact)) else None,
        multiset(Remainders(allOf, exact)), multiset(CanonicalAll(anyOf, exact)), multiset(CanonicalAll(oneOf, exact)),
        others);
      if rest == NothingLeft then None else Some(rest)
  }

  const NothingLeft: Canon :=
    CanonNode({}, None, None, None, map[], map[], map[], {}, None, None, multiset{}, multiset{}, multiset{}, map[])

  function Remainders(nodes: seq<Schema>, exact: real -> bool): seq<Canon>
    decreases nodes, 0
  {
    if nodes == [] then []
    else
      var first := Remainder(nodes[0], exact);
      (if first.Some? then [first.value] else []) + Remainders(nodes[1..], exact)
  }

  /** unsupportedSchemaKeywords. */
  function Unsupported(s: Schema, exact: real -> bool): (map<string, Value>, Option<Canon>, multiset<Canon>)
    requires s.Node?
  {
    (s.others, if s.additional.Some? then Some(CanonicalSchema(s.additional.value, exact)) else None,
     multiset(Remainders(s.allOf, exact)))
  }

  /** Nesting depth, through properties and items. */
  ghost function Height(s: Schema): (h: nat)
    ensures h > 0
    ensures s.Node? ==> forall name | name in s.properties :: Height(s.properties[name]) < h
    ensures s.Node? && s.items.Some? ==> Height(s.items.value) < h
    decreases s, 1
  {
    if s.Flag? then 1
    else
      1 + HeightOfProperties(s, s.properties.Keys) + (if s.items.Some? then Height(s.items.value) else 0)
  }

  ghost function HeightOfProperties(s: Schema, names: set<string>): (h: nat)
    requires s.Node? && names <= s.properties.Keys
    ensures forall name | name in names :: Height(s.properties[name]) <= h
    decreases s, 0, names
  {
    if names == {} then 0
    else
      var name :| name in names;
      Height(s.properties[name]) + HeightOfProperties(s, names - {name})
  }

  function UnsupportedItems(at: Path, prev: Schema, next: Schema, exact: real -> bool): set<Item>
    requires prev.Node? && next.Node?
  {
    if Unsupported(prev, exact) == Unsupported(next, exact) then {} else {Manual(at, ManualReview)}
  }

  function OwnKeywordItems(at: Path, prev: Schema, next: Schema, response: bool, exact: real -> bool): set<Item>
    requires prev.Node? && next.Node?
  {
    BoundItems(at, prev.bounds, next.bounds, true, response, exact) +
    BoundItems(at, prev.bounds, next.bounds, false, response, exact) +
    AllSizeItems(at, prev, next, response, exact) +
    AlternativeItems(at, AnyOf, prev.anyOf, next.anyOf, response, exact) +
    AlternativeItems(at, OneOf, prev.oneOf, next.oneOf, response, exact) +
    UnsupportedItems(at, prev, next, exact)
  }

  function SharedItems(names: set<string>, at: Path, prev: Schema, next: Schema, response: bool,
                       exact: real -> bool): set<Item>
    requires prev.Node? && next.Node? && names <= next.properties.Keys
    decreases Height(prev) + Height(next), 0
  {
    set name, it | name in names && name in prev.properties &&
                   it in ConstraintItems(at + [Prop(name)], prev.properties[name], next.properties[name], response,
                                         exact) :: it
  }

  function ItemsItems(at: Path, prev: Schema, next: Schema, response: bool, exact: real -> bool): set<Item>
    requires prev.Node? && next.Node?
    decreases Height(prev) + Height(next), 0
  {
    if prev.items.None? && next.items.None? then {}
    else ConstraintItems(at + [Items], prev.items.GetOr(Unconstrained), next.items.GetOr(Unconstrained), response,
                         exact)
  }

  /** compareSchemaConstraints: the node's own keywords, then the declared children both sides have. */
  function ConstraintItems(at: Path, prev: Schema, next: Schema, response: bool, exact: real -> bool): set<Item>
    decreases Height(prev) + Height(next), 1
  {
    if prev.Flag? || next.Flag? then (if prev == next then {} else {Manual(at, ManualReview)})
    else
      OwnKeywordItems(at, prev, next, response, exact) +
      SharedItems(next.properties.Keys, at, prev, next, response, exact) +
      ItemsItems(at, prev, next, response, exact)
  }

  // The flattened tables

  datatype Sides = Sides(oldFields: FieldTable, newFields: FieldTable, oldNodes: NodeTable, newNodes: NodeTable)

  function Lookup(nodes: NodeTable, p: Path): Option<seq<Schema>> {
    if p in nodes then Some(nodes[p]) else None
  }

  function Parent(p: Path): Path {
    if p == [] then [] else p[..|p| - 1]
  }

  function LastName(p: Path): string {
    if p != [] && p[|p| - 1].Prop? then p[|p| - 1].name else ""
  }

  function FieldVerdict(field: Field, p: Path, sides: Sides, response: bool, exact: real -> bool): Verdict {
    if !field.defined || field.arrayItem then Silent
    else Compatibility(Lookup(sides.oldNodes, Parent(p)), Lookup(sides.newNodes, Parent(p)), LastName(p), response,
                       exact)
  }

  /** newFieldAffectsExistingInput: no enclosing field is itself new, optional and not an array item. */
  predicate AffectsExistingInput(path: Path, oldFields: FieldTable, newFields: FieldTable) {
    forall k | 1 <= k < |path| && path[..k] in newFields ::
      path[..k] in oldFields || newFields[path[..k]].required || newFields[path[..k]].arrayItem
  }

  predicate IsAdded(p: Path, sides: Sides) {
    p in sides.newFields && (p !in sides.oldFields || (!sides.oldFields[p].defined && sides.newFields[p].defined))
  }

  predicate IsRemoved(p: Path, sides: Sides) {
    p in sides.oldFields && (p !in sides.newFields || (sides.oldFields[p].defined && !sides.newFields[p].defined))
  }

  predicate WasRequired(p: Path, fields: FieldTable) {
    p in fields && fields[p].required
  }

  function AddedItem(p: Path, sides: Sides, response: bool, exact: real -> bool): Item
    requires IsAdded(p, sides)
  {
    var field := sides.newFields[p];
    var itemConstrained := field.arrayItem && (field.types.Some? || field.enums.Some?);
    var requiredAdded := field.required && !WasRequired(p, sides.oldFields);
    var verdict := FieldVerdict(field, p, sides, response, exact);
    var breaking :=
      || (!response && (requiredAdded || itemConstrained) && AffectsExistingInput(p, sides.oldFields, sides.newFields))
      || (response && WasRequired(p, sides.oldFields) && !field.required)
      || verdict.breaking;
    Item(p, FieldAdded, breaking, breaking || verdict.manual)
  }

  function RemovedItem(p: Path, sides: Sides, response: bool, exact: real -> bool): Item
    requires IsRemoved(p, sides)
  {
    var field := sides.oldFields[p];
    var verdict := FieldVerdict(field, p, sides, response, exact);
    var breaking := response || (p in sides.newFields && !field.required && sides.newFields[p].required)
      || verdict.breaking;
    Item(p, FieldRemoved, breaking, breaking || verdict.manual)
  }

  // propertyDeclarationScopesChanged

  datatype Shape = NotObject | Shape(declared: bool, scope: Canon, branches: multiset<Shape>)

  function ShapeOf(s: Schema, name: string, exact: real -> bool): Shape
    decreases s, 1
  {
    if s.Flag? then NotObject
    else
      Shape(name in s.properties,
            CanonicalSchema(s.(properties := map[], allOf := [], bounds := map[], sizes := map[]), exact),
            multiset(ShapesOf(s.allOf, name, exact)))
  }

  function ShapesOf(nodes: seq<Schema>, name: string, exact: real -> bool): seq<Shape>
    decreases nodes, 0
  {
    if nodes == [] then [] else [ShapeOf(nodes[0], name, exact)] + ShapesOf(nodes[1..], name, exact)
  }

  predicate ScopesChanged(p: Path, sides: Sides, exact: real -> bool) {
    multiset(ShapesOf(NodesAt(sides.oldNodes, Parent(p)), LastName(p), exact)) !=
    multiset(ShapesOf(NodesAt(sides.newNodes, Parent(p)), LastName(p), exact))
  }

  function RequiredItems(p: Path, a: bool, b: bool, response: bool): set<Item> {
    if a == b then {} else {Finding(p, FieldRequired, (!response && b) || (response && a))}
  }

  function KeptItems(p: Path, oldField: Field, newField: Field, response: bool): set<Item> {
    TypeItems(p, FieldType, oldField.types, newField.types, response) +
    RequiredItems(p, oldField.required, newField.required, response) +
    EnumItems(p, oldField.enums, newField.enums, response)
  }

  function ScopeItems(p: Path, newField: Field, handled: bool, sides: Sides, response: bool,
                      exact: real -> bool): set<Item> {
    if !newField.defined || !ScopesChanged(p, sides, exact) then {}
    else
      var verdict := FieldVerdict(newField, p, sides, response, exact);
      if (verdict.breaking || verdict.manual) && !handled then {Item(p, ScopeChanged, verdict.breaking, true)} else {}
  }

  predicate Handled(items: set<Item>) {
    exists it :: it in items && it.mustHandle
  }

  function NewSideItems(p: Path, sides: Sides, response: bool, exact: real -> bool): set<Item>
    requires p in sides.newFields
  {
    if IsRemoved(p, sides) then {}
    else if IsAdded(p, sides) then {AddedItem(p, sides, response, exact)}
    else
      var kept := KeptItems(p, sides.oldFields[p], sides.newFields[p], response);
      kept + ScopeItems(p, sides.newFields[p], Handled(kept), sides, response, exact)
  }

  function OldSideItems(p: Path, sides: Sides, response: bool, exact: real -> bool): set<Item>
    requires p in sides.oldFields
  {
    if IsRemoved(p, sides) then {RemovedItem(p, sides, response, exact)} else {}
  }

  function NewItemsOf(paths: set<Path>, sides: Sides, response: bool, exact: real -> bool): set<Item>
    requires paths <= sides.newFields.Keys
  {
    set p, it | p in paths && it in NewSideItems(p, sides, response, exact) :: it
  }

  function OldItemsOf(paths: set<Path>, sides: Sides, response: bool, exact: real -> bool): set<Item>
    requires paths <= sides.oldFields.Keys
  {
    set p, it | p in paths && it in OldSideItems(p, sides, response, exact) :: it
  }

  function ChildItems(sides: Sides, response: bool, exact: real -> bool): set<Item> {
    NewItemsOf(sides.newFields.Keys, sides, response, exact) + OldItemsOf(sides.oldFields.Keys, sides, response, exact)
  }

  function RootItems(prev: Schema, next: Schema, response: bool): set<Item> {
    TypeItems([], RootType, EffectiveTypes(prev), EffectiveTypes(next), response) +
    EnumItems([], EffectiveEnum(prev), EffectiveEnum(next), response)
  }

  /** Everything compareSchemaFields reports, given the tables of both schemas. */
  function AllItems(prev: Schema, next: Schema, sides: Sides, response: bool, exact: real -> bool): set<Item> {
    RootItems(prev, next, response) + ChildItems(sides, response, exact) +
      ConstraintItems([], prev, next, response, exact)
  }

  ghost predicate TablesOf(sides: Sides, prev: Schema, next: Schema) {
    && (forall p: Path :: Entry(sides.oldFields, p) == if p == [] then None else FieldIn(prev, p))
    && (forall p: Path :: Entry(sides.newFields, p) == if p == [] then None else FieldIn(next, p))
    && (forall p: Path :: NodesAt(sides.oldNodes, p) == NodesIn(prev, p))
    && (forall p: Path :: NodesAt(sides.newNodes, p) == NodesIn(next, p))
    && (forall p | p in sides.oldNodes :: sides.oldNodes[p] != [])
    && (forall p | p in sides.newNodes :: sides.newNodes[p] != [])
  }

  /** `after` is `before` followed by findings that are, as a set, `added`. */
  ghost predicate Appends(before: seq<Item>, after: seq<Item>, added: set<Item>) {
    before <= after && forall it :: it in after[|before|..] <==> it in added
  }

  lemma AppendsBoth(a: seq<Item>, b: seq<Item>, c: seq<Item>, x: set<Item>, y: set<Item>)
    requires Appends(a, b, x) && Appends(b, c, y)
    ensures Appends(a, c, x + y)
  {
    assert c[|a|..] == b[|a|..] + c[|b|..];
  }

  class SemanticDiffBuilder {
    var items: seq<Item>
    const exact: real -> bool

    constructor (exact: real -> bool)
      ensures items == [] && this.exact == exact
    {
      items := [];
      this.exact := exact;
    }

    method Add(item: Item)
      modifies this
      ensures items == old(items) + [item]
      ensures Appends(old(items), items, {item})
    {
      items := items + [item];
    }

    method CompareTypes(at: Path, change: Change, oldTypes: TypeSet, newTypes: TypeSet, response: bool)
      modifies this
      ensures Appends(old(items), items, TypeItems(at, change, oldTypes, newTypes, response))
    {
      if oldTypes != newTypes {
        Add(Finding(at, change, TypeChangeBreaking(oldTypes, newTypes, response)));
      }
    }

    method CompareEnumValueLists(at: Path, oldValues: EnumSet, newValues: EnumSet, response: bool)
      modifies this
      ensures Appends(old(items), items, EnumItems(at, oldValues, newValues, response))
    {
      if oldValues.None? && newValues.None? {
        return;
      }
      if oldValues.None? || newValues.None? {
        var breaking := newValues.Some?;
        if response {
          breaking := !breaking;
        }
        Add(Finding(at, EnumConstraint, breaking));
        return;
      }
      var removed, added := oldValues.value - newValues.value, newValues.value - oldValues.value;
      AddForEach(removed, v => Finding(at, EnumRemoved(v), true));
      ghost var middle := items;
      AddForEach(added, v => Finding(at, EnumAdded(v), response));
      AppendsBoth(old(items), middle, items, set v | v in removed :: Finding(at, EnumRemoved(v), true),
                  set v | v in added :: Finding(at, EnumAdded(v), response));
    }

    /** A loop that adds one finding per listed value. */
    method AddForEach(values: set<Value>, finding: Value -> Item)
      modifies this
      ensures Appends(old(items), items, set v | v in values :: finding(v))
    {
      var rest := values;
      while rest != {}
        invariant rest <= values
        invariant Appends(old(items), items, set v | v in values - rest :: finding(v))
        decreases rest
      {
        var v :| v in rest;
        ghost var before := items;
        Add(finding(v));
        AppendsBoth(old(items), before, items, set u | u in values - rest :: finding(u), {finding(v)});
        rest := rest - {v};
      }
      assert values - rest == values;
    }

    method CompareNumericBounds(at: Path, prev: BoundMap, next: BoundMap, response: bool)
      modifies this
      ensures Appends(old(items), items, BoundItems(at, prev, next, true, response, exact) +
                      BoundItems(at, prev, next, false, response, exact))
    {
      CompareSide(at, prev, next, true, response);
      ghost var middle := items;
      CompareSide(at, prev, next, false, response);
      AppendsBoth(old(items), middle, items, BoundItems(at, prev, next, true, response, exact),
                  BoundItems(at, prev, next, false, response, exact));
    }

    method CompareSide(at: Path, prev: BoundMap, next: BoundMap, lower: bool, response: bool)
      modifies this
      ensures Appends(old(items), items, BoundItems(at, prev, next, lower, response, exact))
    {
      var a, z := BoundKeywords(prev, lower), BoundKeywords(next, lower);
      if a == z {
        return;
      }
      var before, oldOk := EffectiveNumericBound(a, lower, exact);
      var after, newOk := EffectiveNumericBound(z, lower, exact);
      if !oldOk || !newOk {
        Add(Manual(at, BoundChanged(lower)));
        return;
      }
      var comparison := CompareBound(before, after, lower);
      if comparison != 0 {
        Add(Finding(at, BoundChanged(lower), (comparison > 0) != response));
      }
    }

    method CompareSizes(at: Path, prev: Schema, next: Schema, response: bool)
      requires prev.Node? && next.Node?
      modifies this
      ensures Appends(old(items), items, AllSizeItems(at, prev, next, response, exact))
    {
      for i := 0 to |SizeKeys|
        invariant Appends(old(items), items, SizeItemsOf(SizeKeys[..i], at, prev, next, response, exact))
      {
        ghost var before := items;
        CompareSize(at, prev.sizes, next.sizes, SizeKeys[i], response);
        AppendsBoth(old(items), before, items, SizeItemsOf(SizeKeys[..i], at, prev, next, response, exact),
                    SizeItems(at, prev.sizes, next.sizes, SizeKeys[i], response, exact));
        assert SizeKeys[..i + 1] == SizeKeys[..i] + [SizeKeys[i]];
      }
      assert SizeKeys[..|SizeKeys|] == SizeKeys;
    }

    method CompareSize(at: Path, prev: map<SizeKey, real>, next: map<SizeKey, real>, key: SizeKey, response: bool)
      modifies this
      ensures Appends(old(items), items, SizeItems(at, prev, next, key, response, exact))
    {
      var hasOld, hasNew := key in prev, key in next;
      if (!hasOld && !hasNew) || (hasOld && hasNew && prev[key] == next[key]) {
        return;
      }
      var narrower := hasNew;
      if hasOld && hasNew {
        if !exact(prev[key]) || !exact(next[key]) {
          Add(Manual(at, SizeChanged(key)));
          return;
        }
        narrower := prev[key] < next[key];
        if IsMaximum(key) {
          narrower := !narrower;
        }
      }
      Add(Finding(at, SizeChanged(key), narrower != response));
    }

    method CompareSchemaConstraints(at: Path, prev: Schema, next: Schema, response: bool)
      modifies this
      ensures Appends(old(items), items, ConstraintItems(at, prev, next, response, exact))
      decreases Height(prev) + Height(next), 1
    {
      hide OwnKeywordItems;
      hide SharedItems;
      if prev.Flag? || next.Flag? {
        if prev != next {
          Add(Manual(at, ManualReview));
        }
        return;
      }
      CompareOwnKeywords(at, prev, next, response);
      ghost var own := items;
      CompareSharedProperties(at, prev, next, response);
      AppendsBoth(old(items), own, items, OwnKeywordItems(at, prev, next, response, exact),
                  SharedItems(next.properties.Keys, at, prev, next, response, exact));
      ghost var shared := items;
      if prev.items.Some? || next.items.Some? {
        CompareSchemaConstraints(at + [Items], prev.items.GetOr(Unconstrained), next.items.GetOr(Unconstrained),
                                 response);
      }
      AppendsBoth(old(items), shared, items,
                  OwnKeywordItems(at, prev, next, response, exact) +
                    SharedItems(next.properties.Keys, at, prev, next, response, exact),
                  ItemsItems(at, prev, next, response, exact));
    }

    /** The keywords of the node itself; the source compares the uninterpreted ones last. */
    method CompareOwnKeywords(at: Path, prev: Schema, next: Schema, response: bool)
      requires prev.Node? && next.Node?
      modifies this
      ensures Appends(old(items), items, OwnKeywordItems(at, prev, next, response, exact))
    {
      ghost var x := BoundItems(at, prev.bounds, next.bounds, true, response, exact)
                     + BoundItems(at, prev.bounds, next.bounds, false, response, exact);
      ghost var y := AllSizeItems(at, prev, next, response, exact);
      ghost var z := AlternativeItems(at, AnyOf, prev.anyOf, next.anyOf, response, exact);
      ghost var o := AlternativeItems(at, OneOf, prev.oneOf, next.oneOf, response, exact);
      hide BoundItems;
      hide AllSizeItems;
      hide AlternativeItems;
      CompareNumericBounds(at, prev.bounds, next.bounds, response);
      ghost var bounds := items;
      CompareSizes(at, prev, next, response);
      ghost var sizes := items;
      AppendsBoth(old(items), bounds, sizes, x, y);
      CompareMembers(at, AnyOf, prev.anyOf, next.anyOf, response);
      ghost var any := items;
      AppendsBoth(old(items), sizes, any, x + y, z);
      CompareMembers(at, OneOf, prev.oneOf, next.oneOf, response);
      ghost var one := items;
      AppendsBoth(old(items), any, one, x + y + z, o);
      if Unsupported(prev, exact) != Unsupported(next, exact) {
        Add(Manual(at, ManualReview));
      }
      AppendsBoth(old(items), one, items, x + y + z + o, UnsupportedItems(at, prev, next, exact));
    }

    method CompareMembers(at: Path, key: Keyword, prev: seq<Schema>, next: seq<Schema>, response: bool)
      modifies this
      ensures Appends(old(items), items, AlternativeItems(at, key, prev, next, response, exact))
    {
      var outcome := CompareAlternatives(key, prev, next, response, exact);
      match outcome
      case Unchanged =>
      case Review => Add(Manual(at, AlternativesChanged(key)));
      case Changed(breaking) => Add(Finding(at, AlternativesChanged(key), breaking));
    }

    method CompareSharedProperties(at: Path, prev: Schema, next: Schema, response: bool)
      requires prev.Node? && next.Node?
      modifies this
      ensures Appends(old(items), items, SharedItems(next.properties.Keys, at, prev, next, response, exact))
      decreases Height(prev) + Height(next), 0
    {
      var rest := next.properties.Keys;
      while rest != {}
        invariant rest <= next.properties.Keys
        invariant Appends(old(items), items, SharedItems(next.properties.Keys - rest, at, prev, next, response, exact))
        decreases rest
      {
        var name :| name in rest;
        ghost var before := items;
        if name in prev.properties {
          CompareSchemaConstraints(at + [Prop(name)], prev.properties[name], next.properties[name], response);
        }
        AppendsBoth(old(items), before, items, SharedItems(next.properties.Keys - rest, at, prev, next, response,
                                                           exact),
                    SharedItems({name}, at, prev, next, response, exact));
        assert next.properties.Keys - (rest - {name}) == next.properties.Keys - rest + {name};
        rest := rest - {name};
      }
      assert next.properties.Keys - rest == next.properties.Keys;
    }

    method CompareSchemaChildren(sides: Sides, response: bool)
      modifies this
      ensures Appends(old(items), items, ChildItems(sides, response, exact))
    {
      var rest := sides.newFields.Keys;
      while rest != {}
        invariant rest <= sides.newFields.Keys
        invariant Appends(old(items), items, NewItemsOf(sides.newFields.Keys - rest, sides, response, exact))
        decreases rest
      {
        var p :| p in rest;
        ghost var before := items;
        CompareNewField(p, sides, response);
        AppendsBoth(old(items), before, items, NewItemsOf(sides.newFields.Keys - rest, sides, response, exact),
                    NewSideItems(p, sides, response, exact));
        assert sides.newFields.Keys - (rest - {p}) == sides.newFields.Keys - rest + {p};
        rest := rest - {p};
      }
      assert sides.newFields.Keys - rest == sides.newFields.Keys;
      ghost var middle := items;
      CompareRemovedFields(sides, response);
      AppendsBoth(old(items), middle, items, NewItemsOf(sides.newFields.Keys, sides, response, exact),
                  OldItemsOf(sides.oldFields.Keys, sides, response, exact));
    }

    method CompareRemovedFields(sides: Sides, response: bool)
      modifies this
      ensures Appends(old(items), items, OldItemsOf(sides.oldFields.Keys, sides, response, exact))
    {
      var rest := sides.oldFields.Keys;
      while rest != {}
        invariant rest <= sides.oldFields.Keys
        invariant Appends(old(items), items, OldItemsOf(sides.oldFields.Keys - rest, sides, response, exact))
        decreases rest
      {
        var p :| p in rest;
        ghost var before := items;
        CompareOldField(p, sides, response);
        AppendsBoth(old(items), before, items, OldItemsOf(sides.oldFields.Keys - rest, sides, response, exact),
                    OldSideItems(p, sides, response, exact));
        assert sides.oldFields.Keys - (rest - {p}) == sides.oldFields.Keys - rest + {p};
        rest := rest - {p};
      }
      assert sides.oldFields.Keys - rest == sides.oldFields.Keys;
    }

    method CompareOldField(p: Path, sides: Sides, response: bool)
      requires p in sides.oldFields
      modifies this
      ensures Appends(old(items), items, OldSideItems(p, sides, response, exact))
    {
      var field := sides.oldFields[p];
      if p !in sides.newFields || (field.defined && !sides.newFields[p].defined) {
        var breaking := response || (p in sides.newFields && !field.required && sides.newFields[p].required);
        var verdict := ChangedPropertyCompatibility(field.defined, field.arrayItem, LastName(p),
          Lookup(sides.oldNodes, Parent(p)), Lookup(sides.newNodes, Parent(p)), response, exact);
        breaking := breaking || verdict.breaking;
        Add(Item(p, FieldRemoved, breaking, breaking || verdict.manual));
      }
    }

    method CompareNewField(p: Path, sides: Sides, response: bool)
      requires p in sides.newFields
      modifies this
      ensures Appends(old(items), items, NewSideItems(p, sides, response, exact))
    {
      var newField := sides.newFields[p];
      var existed := p in sides.oldFields;
      if existed && sides.oldFields[p].defined && !newField.defined {
        return;
      }
      if !existed || (!sides.oldFields[p].defined && newField.defined) {
        CompareAddedField(p, sides, response);
        return;
      }
      var oldField := sides.oldFields[p];
      var handled := CompareKeptField(p, oldField, newField, response);
      ghost var middle := items;
      CompareScopes(p, newField, handled, sides, response);
      AppendsBoth(old(items), middle, items, KeptItems(p, oldField, newField, response),
                  ScopeItems(p, newField, handled, sides, response, exact));
    }

    /** Type, required flag and enumeration of a field both sides have, and whether any of the
        findings just added must be handled. */
    method CompareKeptField(p: Path, oldField: Field, newField: Field, response: bool) returns (handled: bool)
      modifies this
      ensures Appends(old(items), items, KeptItems(p, oldField, newField, response))
      ensures handled == Handled(KeptItems(p, oldField, newField, response))
    {
      var previousItems := |items|;
      CompareTypes(p, FieldType, oldField.types, newField.types, response);
      ghost var types := items;
      if oldField.required != newField.required {
        Add(Finding(p, FieldRequired, (!response && newField.required) || (response && oldField.required)));
      }
      ghost var flags := items;
      CompareEnumValueLists(p, oldField.enums, newField.enums, response);
      ghost var x := TypeItems(p, FieldType, oldField.types, newField.types, response);
      ghost var y := RequiredItems(p, oldField.required, newField.required, response);
      AppendsBoth(old(items), types, flags, x, y);
      AppendsBoth(old(items), flags, items, x + y, EnumItems(p, oldField.enums, newField.enums, response));
      handled := false;
      ghost var now := items;
      for i := previousItems to |items|
        invariant items == now
        invariant handled <==> exists j :: previousItems <= j < i && items[j].mustHandle
      {
        handled := handled || items[i].mustHandle;
      }
      HandledTail(items, previousItems, KeptItems(p, oldField, newField, response));
    }

    method CompareAddedField(p: Path, sides: Sides, response: bool)
      requires IsAdded(p, sides)
      modifies this
      ensures Appends(old(items), items, {AddedItem(p, sides, response, exact)})
    {
      var field := sides.newFields[p];
      var itemConstrained := field.arrayItem && (field.types.Some? || field.enums.Some?);
      var wasRequired := p in sides.oldFields && sides.oldFields[p].required;
      var requiredAdded := field.required && !wasRequired;
      var affects := NewFieldAffectsExistingInput(p, sides.oldFields, sides.newFields);
      var breaking := (!response && (requiredAdded || itemConstrained) && affects)
        || (response && wasRequired && !field.required);
      var verdict := ChangedPropertyCompatibility(field.defined, field.arrayItem, LastName(p),
        Lookup(sides.oldNodes, Parent(p)), Lookup(sides.newNodes, Parent(p)), response, exact);
      breaking := breaking || verdict.breaking;
      Add(Item(p, FieldAdded, breaking, breaking || verdict.manual));
    }

    method NewFieldAffectsExistingInput(path: Path, oldFields: FieldTable, newFields: FieldTable)
      returns (affects: bool)
      ensures affects == AffectsExistingInput(path, oldFields, newFields)
    {
      var index := |path| - 1;
      while index >= 1
        invariant forall k | index < k < |path| && 1 <= k && path[..k] in newFields ::
            path[..k] in oldFields || newFields[path[..k]].required || newFields[path[..k]].arrayItem
      {
        var parent := path[..index];
        if parent in newFields {
          var field := newFields[parent];
          if parent !in oldFields && !field.required && !field.arrayItem {
            return false;
          }
        }
        index := index - 1;
      }
      return true;
    }

    /** The last check on a field both sides have; silent when something about it was already flagged. */
    method CompareScopes(p: Path, newField: Field, handled: bool, sides: Sides, response: bool)
      modifies this
      ensures Appends(old(items), items, ScopeItems(p, newField, handled, sides, response, exact))
    {
      if !newField.defined || !ScopesChanged(p, sides, exact) {
        return;
      }
      var verdict := ChangedPropertyCompatibility(newField.defined, newField.arrayItem, LastName(p),
        Lookup(sides.oldNodes, Parent(p)), Lookup(sides.newNodes, Parent(p)), response, exact);
      if (verdict.breaking || verdict.manual) && !handled {
        Add(Item(p, ScopeChanged, verdict.breaking, true));
      }
    }

    method CompareSchemaFields(prev: Schema, next: Schema, response: bool) returns (ghost sides: Sides)
      modifies this
      ensures TablesOf(sides, prev, next)
      ensures Appends(old(items), items, AllItems(prev, next, sides, response, exact))
    {
      CompareRoots(prev, next, response);
      ghost var roots := items;
      var oldFields := CollectSchemaFields(prev);
      var newFields := CollectSchemaFields(next);
      var oldNodes := SchemaObjectNodes(prev);
      var newNodes := SchemaObjectNodes(next);
      var tables := Sides(oldFields, newFields, oldNodes, newNodes);
      CompareSchemaChildren(tables, response);
      ghost var children := items;
      CompareSchemaConstraints([], prev, next, response);
      AppendsBoth(old(items), roots, children, RootItems(prev, next, response), ChildItems(tables, response, exact));
      AppendsBoth(old(items), children, items, RootItems(prev, next, response) + ChildItems(tables, response, exact),
                  ConstraintItems([], prev, next, response, exact));
      sides := tables;
    }

    method CompareRoots(prev: Schema, next: Schema, response: bool)
      modifies this
      ensures Appends(old(items), items, RootItems(prev, next, response))
    {
      var oldTypes := SchemaType(prev);
      var newTypes := SchemaType(next);
      CompareTypes([], RootType, oldTypes, newTypes, response);
      ghost var types := items;
      var oldEnum := EnumIdentities(prev);
      var newEnum := EnumIdentities(next);
      CompareEnumValueLists([], oldEnum, newEnum, response);
      AppendsBoth(old(items), types, items, TypeItems([], RootType, oldTypes, newTypes, response),
                  EnumItems([], oldEnum, newEnum, response));
    }
  }

  lemma HandledTail(items: seq<Item>, start: nat, kept: set<Item>)
    requires start <= |items| && Appends(items[..start], items, kept)
    ensures (exists j :: start <= j < |items| && items[j].mustHandle) <==> Handled(kept)
  {
    if Handled(kept) {
      var it :| it in kept && it.mustHandle;
      assert it in items[start..];
      var j :| 0 <= j < |items[start..]| && items[start..][j] == it;
      assert items[start + j] == it;
    }
    forall j | start <= j < |items| ensures items[j] in kept {
      assert items[start..][j - start] == items[j];
    }
  }
}

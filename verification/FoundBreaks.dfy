/**
 What a whole comparison calls breaking, position by position: services/vdoc/semantic_diff.go,
 compareSchemaFields, and services/vdoc/semantic_constraints.go, compareSchemaConstraints. Each
 finding about a bound, a size, alternatives, a type, an enumeration or a required name has one
 source, so the list that the builder leaves behind says of each position which values are lost there.
 */

module FoundBreaks {
  import opened Wrappers
  import opened Schemas
  import opened TypeLattice
  import opened NumericBounds
  import opened EnumSets
  import opened Alternatives
  import opened PropertyRules
  import opened SchemaFields
  import opened SchemaDiff
  import opened SchemaPositions
  import QuietFindings
  import opened ReportedBreaks

  /** What the comparison added to the builder's list. */
  ghost function Appended(before: seq<Item>, after: seq<Item>): set<Item>
    requires |before| <= |after|
  {
    set it | it in after[|before|..]
  }

  ghost predicate Ran(before: seq<Item>, after: seq<Item>, prev: Schema, next: Schema, sides: Sides, response: bool,
                      exact: real -> bool)
  {
    TablesOf(sides, prev, next) && Appends(before, after, AllItems(prev, next, sides, response, exact))
  }

  // Limits have one source

  /** The two schemas whose limits are compared at a position: items that one side lacks are compared
      with the empty schema. */
  function PairAt(a: Schema, b: Schema, q: Path): Option<(Schema, Schema)>
    decreases |q|
  {
    if q == [] then Some((a, b))
    else if a.Flag? || b.Flag? then None
    else
      match q[0]
      case Prop(name) =>
        if name in a.properties && name in b.properties then PairAt(a.properties[name], b.properties[name], q[1..])
        else None
      case Items =>
        if a.items.None? && b.items.None? then None
        else PairAt(a.items.GetOr(Unconstrained), b.items.GetOr(Unconstrained), q[1..])
  }

  function LocalItems(at: Path, a: Schema, b: Schema, response: bool, exact: real -> bool): set<Item> {
    if a.Flag? || b.Flag? then (if a == b then {} else {Manual(at, ManualReview)})
    else OwnKeywordItems(at, a, b, response, exact)
  }

  lemma OwnAreHere(at: Path, a: Schema, b: Schema, response: bool, exact: real -> bool)
    requires a.Node? && b.Node?
    ensures forall it | it in OwnKeywordItems(at, a, b, response, exact) ::
              it.at == at && (AboutLimits(it.change) || it.change.ManualReview?)
  {
    BoundsAre(at, a.bounds, b.bounds, true, response, exact);
    BoundsAre(at, a.bounds, b.bounds, false, response, exact);
    SizesAre(at, a, b, response, exact);
    MembersAre(at, AnyOf, a.anyOf, b.anyOf, response, exact);
    MembersAre(at, OneOf, a.oneOf, b.oneOf, response, exact);
    hide BoundItems;
    hide AllSizeItems;
    hide AlternativeItems;
  }

  lemma BoundsAre(at: Path, a: BoundMap, b: BoundMap, lower: bool, response: bool, exact: real -> bool)
    ensures forall it | it in BoundItems(at, a, b, lower, response, exact) ::
              it.at == at && it.change == BoundChanged(lower)
  {
  }

  lemma SizesAre(at: Path, a: Schema, b: Schema, response: bool, exact: real -> bool)
    requires a.Node? && b.Node?
    ensures forall it | it in AllSizeItems(at, a, b, response, exact) :: it.at == at && it.change.SizeChanged?
    ensures forall it: Item, key | it.change == SizeChanged(key) ::
              it in AllSizeItems(at, a, b, response, exact) <==>
              it in SizeItems(at, a.sizes, b.sizes, key, response, exact)
  {
    forall key ensures key in SizeKeys {
      QuietFindings.SizeKeysComplete(key);
    }
  }

  lemma MembersAre(at: Path, key: Keyword, a: seq<Schema>, b: seq<Schema>, response: bool, exact: real -> bool)
    ensures forall it | it in AlternativeItems(at, key, a, b, response, exact) ::
              it.at == at && it.change == AlternativesChanged(key)
  {
    hide Compared;
  }

  lemma {:induction false} AllBelow(at: Path, a: Schema, b: Schema, response: bool, exact: real -> bool)
    ensures forall it | it in ConstraintItems(at, a, b, response, exact) :: at <= it.at
    decreases Height(a) + Height(b)
  {
    hide OwnKeywordItems;
    if a.Node? && b.Node? {
      OwnAreHere(at, a, b, response, exact);
      forall name | name in a.properties && name in b.properties
        ensures forall it ::
          it in ConstraintItems(at + [Prop(name)], a.properties[name], b.properties[name], response, exact) ==>
            at + [Prop(name)] <= it.at
      {
        AllBelow(at + [Prop(name)], a.properties[name], b.properties[name], response, exact);
      }
      if a.items.Some? || b.items.Some? {
        AllBelow(at + [Items], a.items.GetOr(Unconstrained), b.items.GetOr(Unconstrained), response, exact);
      }
    }
  }

  lemma StepApart(at: Path, step: Step, other: Step, q: Path)
    requires at + [step] <= at + q
    ensures q != [] && q[0] == step
  {
    assert (at + [step])[|at|] == step;
    assert (at + q)[|at|] == q[0];
  }

  /** A finding about a position belongs to the comparison of its pair. */
  lemma {:induction false} OneSource(at: Path, a: Schema, b: Schema, q: Path, response: bool, exact: real -> bool,
                                     it: Item)
    requires it.at == at + q
    ensures it in ConstraintItems(at, a, b, response, exact) <==>
            var pair := PairAt(a, b, q);
            pair.Some? && it in LocalItems(at + q, pair.value.0, pair.value.1, response, exact)
    decreases |q|
  {
    hide OwnKeywordItems;
    if a.Node? && b.Node? {
      OwnAreHere(at, a, b, response, exact);
      forall name | name in a.properties && name in b.properties
                    && it in ConstraintItems(at + [Prop(name)], a.properties[name], b.properties[name], response, exact)
        ensures q != [] && q[0] == Prop(name)
      {
        AllBelow(at + [Prop(name)], a.properties[name], b.properties[name], response, exact);
        StepApart(at, Prop(name), Items, q);
      }
      if (a.items.Some? || b.items.Some?) && it in ItemsItems(at, a, b, response, exact) {
        AllBelow(at + [Items], a.items.GetOr(Unconstrained), b.items.GetOr(Unconstrained), response, exact);
        StepApart(at, Items, Items, q);
      }
      if q == [] {
        assert at + q == at;
      } else {
        assert at + q == (at + [q[0]]) + q[1..];
        assert at + q != at;
        match q[0]
        case Prop(name) =>
          if name in a.properties && name in b.properties {
            OneSource(at + [q[0]], a.properties[name], b.properties[name], q[1..], response, exact, it);
          }
        case Items =>
          OneSource(at + [q[0]], a.items.GetOr(Unconstrained), b.items.GetOr(Unconstrained), q[1..], response, exact,
                    it);
      }
    } else if q == [] {
      assert at + q == at;
    } else {
      assert at + q != at;
    }
  }

  predicate AboutLimits(change: Change) {
    change.BoundChanged? || change.SizeChanged? || change.AlternativesChanged?
  }

  lemma TablesSaveLimits(sides: Sides, prev: Schema, next: Schema, response: bool, exact: real -> bool)
    ensures forall it | it in ChildItems(sides, response, exact) + RootItems(prev, next, response) ::
              !AboutLimits(it.change)
  {
    forall p | p in sides.newFields
      ensures forall it | it in NewSideItems(p, sides, response, exact) :: !AboutLimits(it.change)
    {
      SideSavesLimits(sides, response, exact, p);
    }
    RootsAre(prev, next, response);
    hide NewSideItems;
    hide RootItems;
  }

  lemma SideSavesLimits(sides: Sides, response: bool, exact: real -> bool, p: Path)
    requires p in sides.newFields
    ensures forall it | it in NewSideItems(p, sides, response, exact) :: !AboutLimits(it.change)
  {
    hide FieldVerdict;
    hide ScopesChanged;
    hide AffectsExistingInput;
    if p in sides.oldFields {
      KeptAre(p, sides.oldFields[p], sides.newFields[p], response);
    }
    hide KeptItems;
  }

  /** Of the findings about limits, those at a position are those of its pair. */
  lemma LimitFindings(before: seq<Item>, after: seq<Item>, prev: Schema, next: Schema, sides: Sides, response: bool,
                      exact: real -> bool, q: Path, a: Schema, b: Schema, it: Item)
    requires Ran(before, after, prev, next, sides, response, exact)
    requires PairAt(prev, next, q) == Some((a, b)) && a.Node? && b.Node? && it.at == q && AboutLimits(it.change)
    ensures it in Appended(before, after) <==> it in OwnKeywordItems(q, a, b, response, exact)
  {
    hide OwnKeywordItems;
    hide TablesOf;
    hide ConstraintItems;
    hide ChildItems;
    hide RootItems;
    hide PairAt;
    TablesSaveLimits(sides, prev, next, response, exact);
    assert [] + q == q;
    OneSource([], prev, next, q, response, exact, it);
    assert it in LocalItems(q, a, b, response, exact) <==> it in OwnKeywordItems(q, a, b, response, exact);
    hide LocalItems;
  }

  /** At every position bounds that can be converted are called breaking exactly if a number is lost. */
  lemma BoundsFound(before: seq<Item>, after: seq<Item>, prev: Schema, next: Schema, sides: Sides, response: bool,
                    exact: real -> bool, q: Path, a: Schema, b: Schema, lower: bool)
    requires Ran(before, after, prev, next, sides, response, exact)
    requires PairAt(prev, next, q) == Some((a, b)) && a.Node? && b.Node?
    requires SideExact(a.bounds, lower, exact) && SideExact(b.bounds, lower, exact)
    ensures Reports(Appended(before, after), q, BoundChanged(lower), true) <==>
            LosesNumber(From(a, b, response).bounds, To(a, b, response).bounds, lower)
  {
    var own := BoundItems(q, a.bounds, b.bounds, lower, response, exact);
    BoundsReported(own, q, a.bounds, b.bounds, lower, response, exact);
    forall it: Item | it.at == q && it.change == BoundChanged(lower) ensures it in Appended(before, after) <==>
      it in own {
      LimitFindings(before, after, prev, next, sides, response, exact, q, a, b, it);
      OwnBounds(q, a, b, lower, response, exact, it);
    }
    hide BoundItems;
    hide Ran;
    hide Appended;
    hide LosesNumber;
  }

  lemma OwnBounds(q: Path, a: Schema, b: Schema, lower: bool, response: bool, exact: real -> bool, it: Item)
    requires a.Node? && b.Node? && it.change == BoundChanged(lower)
    ensures it in OwnKeywordItems(q, a, b, response, exact) <==>
            it in BoundItems(q, a.bounds, b.bounds, lower, response, exact)
  {
    BoundsAre(q, a.bounds, b.bounds, !lower, response, exact);
    SizesAre(q, a, b, response, exact);
    MembersAre(q, AnyOf, a.anyOf, b.anyOf, response, exact);
    MembersAre(q, OneOf, a.oneOf, b.oneOf, response, exact);
    hide BoundItems;
    hide AllSizeItems;
    hide AlternativeItems;
  }

  /** At every position size limits that can be compared are called breaking exactly if they are tighter,
      and that is a loss exactly if some size lies between. */
  lemma SizesFound(before: seq<Item>, after: seq<Item>, prev: Schema, next: Schema, sides: Sides, response: bool,
                   exact: real -> bool, q: Path, a: Schema, b: Schema, key: SizeKey)
    requires Ran(before, after, prev, next, sides, response, exact)
    requires PairAt(prev, next, q) == Some((a, b)) && a.Node? && b.Node?
    requires key in a.sizes && key in b.sizes && a.sizes[key] != b.sizes[key] ==>
               exact(a.sizes[key]) && exact(b.sizes[key])
    ensures var from, to := From(a, b, response).sizes, To(a, b, response).sizes;
            && (Reports(Appended(before, after), q, SizeChanged(key), true) <==> Tighter(from, to, key))
            && (LosesSize(from, to, key) <==> Tighter(from, to, key) && SizeBetween(from, to, key))
  {
    var own := SizeItems(q, a.sizes, b.sizes, key, response, exact);
    var from, to := From(a, b, response).sizes, To(a, b, response).sizes;
    SizesReported(own, q, a.sizes, b.sizes, key, response, exact);
    LosesSizeExactly(from, to, key);
    forall it: Item | it.at == q && it.change == SizeChanged(key) ensures it in Appended(before, after) <==> it in own {
      LimitFindings(before, after, prev, next, sides, response, exact, q, a, b, it);
      OwnSizes(q, a, b, key, response, exact, it);
    }
    hide SizeItems;
    hide Ran;
    hide Appended;
    hide LosesSize;
  }

  lemma OwnSizes(q: Path, a: Schema, b: Schema, key: SizeKey, response: bool, exact: real -> bool, it: Item)
    requires a.Node? && b.Node? && it.change == SizeChanged(key)
    ensures it in OwnKeywordItems(q, a, b, response, exact) <==>
            it in SizeItems(q, a.sizes, b.sizes, key, response, exact)
  {
    BoundsAre(q, a.bounds, b.bounds, true, response, exact);
    BoundsAre(q, a.bounds, b.bounds, false, response, exact);
    SizesAre(q, a, b, response, exact);
    MembersAre(q, AnyOf, a.anyOf, b.anyOf, response, exact);
    MembersAre(q, OneOf, a.oneOf, b.oneOf, response, exact);
    hide BoundItems;
    hide AllSizeItems;
    hide AlternativeItems;
    hide SizeItems;
  }

  /** At every position alternatives are called breaking exactly if they can be compared and one is lost. */
  lemma MembersFound(before: seq<Item>, after: seq<Item>, prev: Schema, next: Schema, sides: Sides, response: bool,
                     exact: real -> bool, q: Path, a: Schema, b: Schema, key: Keyword)
    requires Ran(before, after, prev, next, sides, response, exact)
    requires PairAt(prev, next, q) == Some((a, b)) && a.Node? && b.Node?
    ensures Reports(Appended(before, after), q, AlternativesChanged(key), true) <==>
            var (x, z) := if key == AnyOf then (a.anyOf, b.anyOf) else (a.oneOf, b.oneOf);
            Comparable(key, x, z, exact) && LosesMember(From(x, z, response), To(x, z, response), exact)
  {
    var (x, z) := if key == AnyOf then (a.anyOf, b.anyOf) else (a.oneOf, b.oneOf);
    var own := AlternativeItems(q, key, x, z, response, exact);
    MembersReported(own, q, key, x, z, response, exact);
    forall it: Item | it.at == q && it.change == AlternativesChanged(key)
      ensures it in Appended(before, after) <==> it in own
    {
      LimitFindings(before, after, prev, next, sides, response, exact, q, a, b, it);
      OwnMembers(q, a, b, key, response, exact, it);
    }
    hide AlternativeItems;
    hide Ran;
    hide Appended;
    hide Comparable;
    hide LosesMember;
  }

  lemma OwnMembers(q: Path, a: Schema, b: Schema, key: Keyword, response: bool, exact: real -> bool, it: Item)
    requires a.Node? && b.Node? && it.change == AlternativesChanged(key)
    ensures it in OwnKeywordItems(q, a, b, response, exact) <==>
            it in AlternativeItems(q, key, if key == AnyOf then a.anyOf else a.oneOf,
                                   if key == AnyOf then b.anyOf else b.oneOf, response, exact)
  {
    BoundsAre(q, a.bounds, b.bounds, true, response, exact);
    BoundsAre(q, a.bounds, b.bounds, false, response, exact);
    SizesAre(q, a, b, response, exact);
    MembersAre(q, AnyOf, a.anyOf, b.anyOf, response, exact);
    MembersAre(q, OneOf, a.oneOf, b.oneOf, response, exact);
    hide BoundItems;
    hide AllSizeItems;
    hide AlternativeItems;
  }

  // Types, enumerations and required names have one source

  predicate AboutField(change: Change) {
    change.FieldType? || change.FieldRequired? || AboutEnum(change)
  }

  predicate AboutEnum(change: Change) {
    change.EnumConstraint? || change.EnumRemoved? || change.EnumAdded?
  }

  lemma LimitsSaveFields(q: Path, prev: Schema, next: Schema, response: bool, exact: real -> bool, it: Item)
    requires it.at == q && !AboutLimits(it.change) && !it.change.ManualReview?
    ensures it !in ConstraintItems([], prev, next, response, exact)
  {
    hide ConstraintItems;
    hide OwnKeywordItems;
    assert [] + q == q;
    OneSource([], prev, next, q, response, exact, it);
    var pair := PairAt(prev, next, q);
    if pair.Some? && pair.value.0.Node? && pair.value.1.Node? {
      OwnAreHere(q, pair.value.0, pair.value.1, response, exact);
    }
  }

  lemma KeptAre(p: Path, f: Field, g: Field, response: bool)
    ensures forall it | it in KeptItems(p, f, g, response) :: it.at == p && AboutField(it.change)
    ensures forall it | it in TypeItems(p, FieldType, f.types, g.types, response) :: it.change.FieldType?
    ensures forall it | it in RequiredItems(p, f.required, g.required, response) :: it.change.FieldRequired?
    ensures forall it | it in EnumItems(p, f.enums, g.enums, response) :: AboutEnum(it.change)
  {
    hide TypeChangeBreaking;
  }

  lemma KeptPart(p: Path, f: Field, g: Field, response: bool, it: Item)
    requires it in KeptItems(p, f, g, response)
    ensures it.change.FieldType? ==> it in TypeItems(p, FieldType, f.types, g.types, response)
    ensures it.change.FieldRequired? ==> it in RequiredItems(p, f.required, g.required, response)
    ensures AboutEnum(it.change) ==> it in EnumItems(p, f.enums, g.enums, response)
  {
    KeptAre(p, f, g, response);
    hide TypeItems;
    hide RequiredItems;
    hide EnumItems;
  }

  lemma PartKept(p: Path, f: Field, g: Field, response: bool)
    ensures TypeItems(p, FieldType, f.types, g.types, response) <= KeptItems(p, f, g, response)
    ensures RequiredItems(p, f.required, g.required, response) <= KeptItems(p, f, g, response)
    ensures EnumItems(p, f.enums, g.enums, response) <= KeptItems(p, f, g, response)
  {
    hide TypeItems;
    hide RequiredItems;
    hide EnumItems;
  }

  /** Of the findings about fields, those at a path of both tables are those of the kept field. */
  lemma {:induction false} FieldFindings(sides: Sides, response: bool, exact: real -> bool, p: Path, it: Item)
    requires p in sides.oldFields && p in sides.newFields && !IsAdded(p, sides) && !IsRemoved(p, sides)
    requires it.at == p && AboutField(it.change)
    ensures it in ChildItems(sides, response, exact) <==>
            it in KeptItems(p, sides.oldFields[p], sides.newFields[p], response)
  {
    hide FieldVerdict;
    hide ScopesChanged;
    hide AffectsExistingInput;
    hide KeptItems;
    forall x | x in sides.newFields && it in NewSideItems(x, sides, response, exact)
      ensures x == p && it in KeptItems(p, sides.oldFields[p], sides.newFields[p], response)
    {
      OwnPath(sides, response, exact, x, it);
    }
    forall x | x in sides.oldFields ensures it !in OldSideItems(x, sides, response, exact) {
    }
    if it in KeptItems(p, sides.oldFields[p], sides.newFields[p], response) {
      assert it in NewSideItems(p, sides, response, exact);
    }
  }

  lemma OwnPath(sides: Sides, response: bool, exact: real -> bool, x: Path, it: Item)
    requires x in sides.newFields && it in NewSideItems(x, sides, response, exact) && AboutField(it.change)
    ensures it.at == x && x in sides.oldFields
    ensures it in KeptItems(x, sides.oldFields[x], sides.newFields[x], response)
  {
    hide FieldVerdict;
    hide ScopesChanged;
    hide AffectsExistingInput;
    if !IsRemoved(x, sides) && !IsAdded(x, sides) {
      KeptAre(x, sides.oldFields[x], sides.newFields[x], response);
      hide KeptItems;
    }
  }

  /** A position both sides describe, below the root. */
  ghost predicate SharedBelow(prev: Schema, next: Schema, q: Path) {
    q != [] && Describes(prev, q) && Describes(next, q)
  }

  lemma SharedEntries(before: seq<Item>, after: seq<Item>, prev: Schema, next: Schema, sides: Sides, response: bool,
                      exact: real -> bool, q: Path, it: Item)
    requires Ran(before, after, prev, next, sides, response, exact) && SharedBelow(prev, next, q)
    requires it.at == q && AboutField(it.change)
    ensures q in sides.oldFields && q in sides.newFields
    ensures it in Appended(before, after) <==> it in KeptItems(q, sides.oldFields[q], sides.newFields[q], response)
  {
    hide ConstraintItems;
    hide ChildItems;
    hide RootItems;
    hide KeptItems;
    hide Summarizes;
    hide IsAdded;
    hide IsRemoved;
    KeptEntries(sides, prev, next, q);
    hide TablesOf;
    FieldFindings(sides, response, exact, q, it);
    LimitsSaveFields(q, prev, next, response, exact, it);
    RootsAre(prev, next, response);
  }

  lemma RootsAre(prev: Schema, next: Schema, response: bool)
    ensures forall it | it in RootItems(prev, next, response) ::
              it.at == [] && (it.change.RootType? || AboutEnum(it.change))
    ensures forall it | it in TypeItems([], RootType, EffectiveTypes(prev), EffectiveTypes(next), response) ::
              it.change.RootType?
    ensures forall it | it in EnumItems([], EffectiveEnum(prev), EffectiveEnum(next), response) :: AboutEnum(it.change)
  {
    hide TypeChangeBreaking;
  }

  lemma KeptEntries(sides: Sides, prev: Schema, next: Schema, q: Path)
    requires TablesOf(sides, prev, next) && SharedBelow(prev, next, q)
    ensures q in sides.oldFields && q in sides.newFields && !IsAdded(q, sides) && !IsRemoved(q, sides)
    ensures var (f, g) := (sides.oldFields[q], sides.newFields[q]);
            && Summarizes(Some(f), NodesIn(prev, q), Last(q), Requires(NodesIn(prev, q[..|q| - 1]), Last(q)))
            && Summarizes(Some(g), NodesIn(next, q), Last(q), Requires(NodesIn(next, q[..|q| - 1]), Last(q)))
  {
    hide FieldIn;
    EntrySummarizes(prev, q);
    EntrySummarizes(next, q);
    assert Entry(sides.oldFields, q) == FieldIn(prev, q) && Entry(sides.newFields, q) == FieldIn(next, q);
  }

  ghost predicate LosesType(from: seq<Schema>, to: seq<Schema>) {
    exists v :: AllTypes(from, v) && !AllTypes(to, v)
  }

  ghost predicate LosesValue(from: seq<Schema>, to: seq<Schema>) {
    exists v :: AllEnums(from, v) && !AllEnums(to, v)
  }

  lemma TypesLost(prev: Schema, next: Schema, q: Path, f: Field, g: Field)
    requires q != [] && Summarizes(Some(f), NodesIn(prev, q), Last(q), f.required)
    requires Summarizes(Some(g), NodesIn(next, q), Last(q), g.required)
    ensures LosesType(NodesIn(prev, q), NodesIn(next, q)) <==> exists v :: InTypes(v, f.types) && !InTypes(v, g.types)
    ensures LosesType(NodesIn(next, q), NodesIn(prev, q)) <==> exists v :: InTypes(v, g.types) && !InTypes(v, f.types)
  {
    hide AllTypes;
    hide NodesIn;
    hide InTypes;
  }

  lemma EnumsLost(prev: Schema, next: Schema, q: Path, f: Field, g: Field)
    requires q != [] && Summarizes(Some(f), NodesIn(prev, q), Last(q), f.required)
    requires Summarizes(Some(g), NodesIn(next, q), Last(q), g.required)
    ensures LosesValue(NodesIn(prev, q), NodesIn(next, q)) <==> LosesListed(f.enums, g.enums)
    ensures LosesValue(NodesIn(next, q), NodesIn(prev, q)) <==> LosesListed(g.enums, f.enums)
  {
    hide AllEnums;
    hide NodesIn;
    hide InEnum;
  }

  /** Below the root a type is called breaking exactly if a value is lost, or one is named where there
      was none. */
  lemma TypesFound(before: seq<Item>, after: seq<Item>, prev: Schema, next: Schema, sides: Sides, response: bool,
                   exact: real -> bool, q: Path)
    requires Ran(before, after, prev, next, sides, response, exact) && SharedBelow(prev, next, q)
    ensures var from, to := NodesIn(From(prev, next, response), q), NodesIn(To(prev, next, response), q);
            Reports(Appended(before, after), q, FieldType, true) <==>
            LosesType(from, to) || (Untyped(from) && !Untyped(to))
  {
    KeptEntries(sides, prev, next, q);
    var f, g := sides.oldFields[q], sides.newFields[q];
    var own := TypeItems(q, FieldType, f.types, g.types, response);
    TypesReported(own, q, FieldType, f.types, g.types, response);
    PartKept(q, f, g, response);
    hide KeptItems;
    hide TypeItems;
    hide RequiredItems;
    hide EnumItems;
    hide Ran;
    hide Appended;
    forall it: Item | it.at == q && it.change == FieldType ensures it in Appended(before, after) <==> it in own {
      SharedEntries(before, after, prev, next, sides, response, exact, q, it);
      if it in KeptItems(q, f, g, response) {
        KeptPart(q, f, g, response, it);
      }
    }
    TypesLost(prev, next, q, f, g);
    hide Summarizes;
  }

  /** Below the root an enumeration is called breaking exactly if a value is lost, or, in a response,
      if a listed value is no longer listed. */
  lemma EnumsFound(before: seq<Item>, after: seq<Item>, prev: Schema, next: Schema, sides: Sides, response: bool,
                   exact: real -> bool, q: Path)
    requires Ran(before, after, prev, next, sides, response, exact) && SharedBelow(prev, next, q)
    ensures var a, b := NodesIn(prev, q), NodesIn(next, q);
            ReportsEnum(Appended(before, after), q, true) <==>
            LosesValue(From(a, b, response), To(a, b, response))
            || (response && !Unlisted(a) && !Unlisted(b) && LosesValue(a, b))
  {
    hide KeptItems;
    hide EnumItems;
    hide Appended;
    hide LosesValue;
    hide LosesListed;
    hide NodesIn;
    assert |before| <= |after|;
    KeptEntries(sides, prev, next, q);
    hide Ran;
    var f, g := sides.oldFields[q], sides.newFields[q];
    assert f.enums.None? == Unlisted(NodesIn(prev, q)) && g.enums.None? == Unlisted(NodesIn(next, q));
    hide Unlisted;
    var own := EnumItems(q, f.enums, g.enums, response);
    EnumsReported(own, q, f.enums, g.enums, response);
    PartKept(q, f, g, response);
    EnumsLost(prev, next, q, f, g);
    forall it: Item | it.at == q && AboutEnum(it.change) ensures it in Appended(before, after) <==> it in own {
      SharedEntries(before, after, prev, next, sides, response, exact, q, it);
      if it in KeptItems(q, f, g, response) {
        KeptPart(q, f, g, response, it);
      }
    }
  }

  /** A property both sides describe is called breaking for being required exactly if it was not. */
  lemma RequiredFound(before: seq<Item>, after: seq<Item>, prev: Schema, next: Schema, sides: Sides, response: bool,
                      exact: real -> bool, q: Path)
    requires Ran(before, after, prev, next, sides, response, exact) && SharedBelow(prev, next, q)
    ensures var above := q[..|q| - 1];
            Reports(Appended(before, after), q, FieldRequired, true) <==>
            && Requires(NodesIn(To(prev, next, response), above), Last(q))
            && !Requires(NodesIn(From(prev, next, response), above), Last(q))
  {
    KeptEntries(sides, prev, next, q);
    var f, g := sides.oldFields[q], sides.newFields[q];
    var own := RequiredItems(q, f.required, g.required, response);
    RequiredReported(own, q, f.required, g.required, response);
    PartKept(q, f, g, response);
    hide KeptItems;
    hide TypeItems;
    hide RequiredItems;
    hide EnumItems;
    hide Ran;
    hide Appended;
    forall it: Item | it.at == q && it.change == FieldRequired ensures it in Appended(before, after) <==> it in own {
      SharedEntries(before, after, prev, next, sides, response, exact, q, it);
      if it in KeptItems(q, f, g, response) {
        KeptPart(q, f, g, response, it);
      }
    }
    hide Requires;
  }

  /** The same for the type of the whole message. */
  lemma RootTypeFound(before: seq<Item>, after: seq<Item>, prev: Schema, next: Schema, sides: Sides, response: bool,
                      exact: real -> bool)
    requires Ran(before, after, prev, next, sides, response, exact)
    ensures var from, to := EffectiveTypes(From(prev, next, response)), EffectiveTypes(To(prev, next, response));
            Reports(Appended(before, after), [], RootType, true) <==>
            (exists v :: InTypes(v, from) && !InTypes(v, to)) || (from.None? && to.Some?)
  {
    var own := TypeItems([], RootType, EffectiveTypes(prev), EffectiveTypes(next), response);
    TypesReported(own, [], RootType, EffectiveTypes(prev), EffectiveTypes(next), response);
    forall it: Item | it.at == [] && it.change == RootType ensures it in Appended(before, after) <==> it in own {
      RootFindings(before, after, prev, next, sides, response, exact, it);
      RootsAre(prev, next, response);
      hide TypeItems;
      hide EnumItems;
    }
    hide TypeItems;
    hide Ran;
    hide Appended;
  }

  /** The same for the enumeration of the whole message. */
  lemma RootEnumFound(before: seq<Item>, after: seq<Item>, prev: Schema, next: Schema, sides: Sides, response: bool,
                      exact: real -> bool)
    requires Ran(before, after, prev, next, sides, response, exact)
    ensures var a, b := EffectiveEnum(prev), EffectiveEnum(next);
            ReportsEnum(Appended(before, after), [], true) <==>
            LosesListed(From(a, b, response), To(a, b, response))
            || (response && a.Some? && b.Some? && LosesListed(a, b))
  {
    var own := EnumItems([], EffectiveEnum(prev), EffectiveEnum(next), response);
    EnumsReported(own, [], EffectiveEnum(prev), EffectiveEnum(next), response);
    forall it: Item | it.at == [] && AboutEnum(it.change) ensures it in Appended(before, after) <==> it in own {
      RootFindings(before, after, prev, next, sides, response, exact, it);
      RootsAre(prev, next, response);
      hide TypeItems;
      hide EnumItems;
    }
    hide EnumItems;
    hide Ran;
    hide Appended;
  }

  lemma RootFindings(before: seq<Item>, after: seq<Item>, prev: Schema, next: Schema, sides: Sides, response: bool,
                     exact: real -> bool, it: Item)
    requires Ran(before, after, prev, next, sides, response, exact)
    requires it.at == [] && (it.change.RootType? || AboutEnum(it.change))
    ensures it in Appended(before, after) <==> it in RootItems(prev, next, response)
  {
    LimitsSaveFields([], prev, next, response, exact, it);
    assert it !in ChildItems(sides, response, exact) by {
      TablesSaveRoot(sides, prev, next, response, exact, it);
    }
    hide ConstraintItems;
    hide ChildItems;
    hide RootItems;
    hide TablesOf;
  }

  lemma TablesSaveRoot(sides: Sides, prev: Schema, next: Schema, response: bool, exact: real -> bool, it: Item)
    requires TablesOf(sides, prev, next) && it.at == [] && (it.change.RootType? || AboutEnum(it.change))
    ensures it !in ChildItems(sides, response, exact)
  {
    assert Entry(sides.oldFields, []).None? && Entry(sides.newFields, []).None?;
    hide TablesOf;
    forall p | p in sides.newFields ensures it !in NewSideItems(p, sides, response, exact) {
      SidePlace(sides, response, exact, p);
    }
    forall p | p in sides.oldFields ensures it !in OldSideItems(p, sides, response, exact) {
      SidePlace(sides, response, exact, p);
    }
    hide NewSideItems;
    hide OldSideItems;
  }

  lemma SidePlace(sides: Sides, response: bool, exact: real -> bool, p: Path)
    ensures p in sides.newFields ==> forall it | it in NewSideItems(p, sides, response, exact) :: it.at == p
    ensures p in sides.oldFields ==> forall it | it in OldSideItems(p, sides, response, exact) :: it.at == p
  {
    hide FieldVerdict;
    hide ScopesChanged;
    hide AffectsExistingInput;
    if p in sides.newFields && p in sides.oldFields {
      KeptAre(p, sides.oldFields[p], sides.newFields[p], response);
    }
    hide KeptItems;
  }

  // Properties that come or go

  /** A property of a shared object that only one side describes. */
  ghost predicate OneSided(prev: Schema, next: Schema, q: Path, name: string) {
    && Describes(prev, q) && Describes(next, q)
    && Describes(prev, q + [Prop(name)]) != Describes(next, q + [Prop(name)])
  }

  /** The side that must accept asks for the name, the other one does not. */
  ghost predicate NewlyRequired(prev: Schema, next: Schema, q: Path, name: string, response: bool) {
    && Requires(NodesIn(To(prev, next, response), q), Prop(name))
    && !Requires(NodesIn(From(prev, next, response), q), Prop(name))
  }

  lemma OneSidedEntries(sides: Sides, prev: Schema, next: Schema, q: Path, name: string)
    requires TablesOf(sides, prev, next) && OneSided(prev, next, q, name)
    ensures var p := q + [Prop(name)];
            && (Describes(next, p) ==> IsAdded(p, sides) && !IsRemoved(p, sides) && sides.newFields[p].defined
                                       && !sides.newFields[p].arrayItem)
            && (Describes(prev, p) ==> IsRemoved(p, sides) && !IsAdded(p, sides) && sides.oldFields[p].defined
                                       && !sides.oldFields[p].arrayItem)
            && (p in sides.newFields ==> sides.newFields[p].required == Requires(NodesIn(next, q), Prop(name)))
            && (p in sides.oldFields ==> sides.oldFields[p].required == Requires(NodesIn(prev, q), Prop(name)))
            && (p !in sides.newFields ==> !Requires(NodesIn(next, q), Prop(name)))
            && (p !in sides.oldFields ==> !Requires(NodesIn(prev, q), Prop(name)))
  {
    hide FieldIn;
    hide NodesIn;
    hide Requires;
    var p := q + [Prop(name)];
    assert p[..|p| - 1] == q && Last(p) == Prop(name);
    EntrySummarizes(prev, p);
    EntrySummarizes(next, p);
    assert Entry(sides.oldFields, p) == FieldIn(prev, p) && Entry(sides.newFields, p) == FieldIn(next, p);
  }

  lemma OneSidedVerdict(sides: Sides, prev: Schema, next: Schema, q: Path, name: string, f: Field, response: bool,
                        exact: real -> bool)
    requires TablesOf(sides, prev, next) && OneSided(prev, next, q, name) && f.defined && !f.arrayItem
    ensures FieldVerdict(f, q + [Prop(name)], sides, response, exact) ==
            Compatibility(Some(NodesIn(prev, q)), Some(NodesIn(next, q)), name, response, exact)
  {
    hide NodesIn;
    hide FieldIn;
    hide Decide;
    QuietFindings.ParentOf(q, Prop(name));
    assert NodesAt(sides.oldNodes, q) == NodesIn(prev, q) && NodesAt(sides.newNodes, q) == NodesIn(next, q);
  }

  /** Every field around a shared position is in the old table. */
  lemma SharedIsExisting(sides: Sides, prev: Schema, next: Schema, q: Path, name: string)
    requires TablesOf(sides, prev, next) && Describes(prev, q)
    ensures AffectsExistingInput(q + [Prop(name)], sides.oldFields, sides.newFields)
  {
    hide FieldIn;
    hide NodesIn;
    var p := q + [Prop(name)];
    forall k | 1 <= k < |p| ensures p[..k] in sides.oldFields {
      assert p[..k] == q[..k];
      QuietFindings.DescribesAbove(prev, q, k);
      EntrySummarizes(prev, q[..k]);
      assert Entry(sides.oldFields, q[..k]) == FieldIn(prev, q[..k]);
    }
  }

  /** A property that is new on a shared object is called breaking exactly if its name is newly required,
      or the verdict on its rules is. */
  lemma AddedFound(before: seq<Item>, after: seq<Item>, prev: Schema, next: Schema, sides: Sides, response: bool,
                   exact: real -> bool, q: Path, name: string)
    requires Ran(before, after, prev, next, sides, response, exact)
    requires OneSided(prev, next, q, name) && Describes(next, q + [Prop(name)])
    ensures Reports(Appended(before, after), q + [Prop(name)], FieldAdded, true) <==>
            || NewlyRequired(prev, next, q, name, response)
            || Compatibility(Some(NodesIn(prev, q)), Some(NodesIn(next, q)), name, response, exact).breaking
  {
    hide ConstraintItems;
    hide Compatibility;
    hide NodesIn;
    var p := q + [Prop(name)];
    OneSidedEntries(sides, prev, next, q, name);
    OneSidedVerdict(sides, prev, next, q, name, sides.newFields[p], response, exact);
    SharedIsExisting(sides, prev, next, q, name);
    var added := AddedItem(p, sides, response, exact);
    assert added.breaking <==>
           NewlyRequired(prev, next, q, name, response)
           || Compatibility(Some(NodesIn(prev, q)), Some(NodesIn(next, q)), name, response, exact).breaking;
    assert added.at == p && added.change == FieldAdded;
    hide AddedItem;
    hide Requires;
    forall it: Item | it.at == p && it.change == FieldAdded ensures it in Appended(before, after) <==> it == added {
      DeclarationFindings(before, after, prev, next, sides, response, exact, p, it);
      assert NewSideItems(p, sides, response, exact) == {added};
      assert p in sides.oldFields ==> OldSideItems(p, sides, response, exact) == {};
    }
    hide Ran;
    hide Appended;
  }

  /** A property that is gone from a shared object is breaking in every response, and in a request exactly
      if its name is newly required, or the verdict on its rules is. */
  lemma RemovedFound(before: seq<Item>, after: seq<Item>, prev: Schema, next: Schema, sides: Sides, response: bool,
                     exact: real -> bool, q: Path, name: string)
    requires Ran(before, after, prev, next, sides, response, exact)
    requires OneSided(prev, next, q, name) && Describes(prev, q + [Prop(name)])
    ensures Reports(Appended(before, after), q + [Prop(name)], FieldRemoved, true) <==>
            || response || NewlyRequired(prev, next, q, name, response)
            || Compatibility(Some(NodesIn(prev, q)), Some(NodesIn(next, q)), name, response, exact).breaking
  {
    hide ConstraintItems;
    hide Compatibility;
    hide NodesIn;
    var p := q + [Prop(name)];
    OneSidedEntries(sides, prev, next, q, name);
    OneSidedVerdict(sides, prev, next, q, name, sides.oldFields[p], response, exact);
    var removed := RemovedItem(p, sides, response, exact);
    assert removed.breaking <==>
           response || NewlyRequired(prev, next, q, name, response)
           || Compatibility(Some(NodesIn(prev, q)), Some(NodesIn(next, q)), name, response, exact).breaking;
    assert removed.at == p && removed.change == FieldRemoved;
    hide RemovedItem;
    hide Requires;
    forall it: Item | it.at == p && it.change == FieldRemoved
      ensures it in Appended(before, after) <==> it == removed
    {
      DeclarationFindings(before, after, prev, next, sides, response, exact, p, it);
      assert OldSideItems(p, sides, response, exact) == {removed};
      assert p in sides.newFields ==> NewSideItems(p, sides, response, exact) == {};
    }
    hide Ran;
    hide Appended;
  }

  lemma DeclarationFindings(before: seq<Item>, after: seq<Item>, prev: Schema, next: Schema, sides: Sides,
                            response: bool, exact: real -> bool, p: Path, it: Item)
    requires Ran(before, after, prev, next, sides, response, exact)
    requires it.at == p && (it.change.FieldAdded? || it.change.FieldRemoved?)
    ensures it in Appended(before, after) <==>
            || (p in sides.newFields && it in NewSideItems(p, sides, response, exact))
            || (p in sides.oldFields && it in OldSideItems(p, sides, response, exact))
  {
    hide ConstraintItems;
    hide TablesOf;
    hide NewSideItems;
    hide OldSideItems;
    hide RootItems;
    LimitsSaveFields(p, prev, next, response, exact, it);
    RootsAre(prev, next, response);
    forall x ensures x in sides.newFields && it in NewSideItems(x, sides, response, exact) ==> x == p
      ensures x in sides.oldFields && it in OldSideItems(x, sides, response, exact) ==> x == p
    {
      SidePlace(sides, response, exact, x);
    }
    hide NewSideItems;
    hide OldSideItems;
    hide RootItems;
  }
}

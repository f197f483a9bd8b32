/**
 What a quiet comparison says about one position: services/vdoc/semantic_diff.go,
 compareSchemaFields, and services/vdoc/semantic_constraints.go, compareSchemaConstraints.

 Types, enumerations and required names are compared for all nodes of a position together, limits
 and the remaining keywords node by node: outside `allOf` directly, inside through the remainders.
 When nothing there is breaking or left to review, each of these relates the two sides in the
 direction of the message.
 */
module QuietFindings {
  import opened Wrappers
  import opened Schemas
  import opened TypeLattice
  import opened NumericBounds
  import opened EnumSets
  import opened CanonicalForms
  import opened Alternatives
  import opened PropertyRules
  import opened SchemaFields
  import opened SchemaDiff
  import opened SchemaPositions
  import opened BranchRemainders

  ghost predicate Quiet(items: set<Item>) {
    forall it | it in items :: !it.breaking && !it.mustHandle
  }

  /** Whatever both schemas describe, they describe outside `allOf` on both sides or on neither. */
  ghost predicate Aligned(prev: Schema, next: Schema) {
    forall q | Describes(prev, q) && Describes(next, q) :: At(prev, q).Some? <==> At(next, q).Some?
  }

  /** A whole comparison that reported nothing. */
  datatype Comparison = Comparison(prev: Schema, next: Schema, sides: Sides, response: bool) {
    ghost predicate Clean(w: World) {
      && Aligned(prev, next)
      && TablesOf(sides, prev, next)
      && Quiet(AllItems(prev, next, sides, response, w.exact))
    }

    predicate Shared(q: Path) {
      Describes(prev, q) && Describes(next, q)
    }

    /** The side whose values must stay accepted, and the side that must accept them. */
    function From(): Schema {
      if response then next else prev
    }

    function To(): Schema {
      if response then prev else next
    }
  }

  // Findings in the tables

  /** Every finding about one path of either table is among the findings. */
  lemma PathQuiet(c: Comparison, w: World, p: Path)
    requires c.Clean(w)
    ensures p in c.sides.newFields ==> Quiet(NewSideItems(p, c.sides, c.response, w.exact))
    ensures p in c.sides.oldFields ==> Quiet(OldSideItems(p, c.sides, c.response, w.exact))
  {
    if p in c.sides.newFields {
      assert NewSideItems(p, c.sides, c.response, w.exact) <=
        NewItemsOf(c.sides.newFields.Keys, c.sides, c.response, w.exact);
    }
    if p in c.sides.oldFields {
      assert OldSideItems(p, c.sides, c.response, w.exact) <=
        OldItemsOf(c.sides.oldFields.Keys, c.sides, c.response, w.exact);
    }
  }

  lemma AddedQuiet(c: Comparison, w: World, p: Path)
    requires c.Clean(w) && IsAdded(p, c.sides)
    ensures var it := AddedItem(p, c.sides, c.response, w.exact); !it.breaking && !it.mustHandle
  {
    PathQuiet(c, w, p);
    assert AddedItem(p, c.sides, c.response, w.exact) in NewSideItems(p, c.sides, c.response, w.exact);
  }

  lemma RemovedQuiet(c: Comparison, w: World, p: Path)
    requires c.Clean(w) && IsRemoved(p, c.sides)
    ensures var it := RemovedItem(p, c.sides, c.response, w.exact); !it.breaking && !it.mustHandle
  {
    PathQuiet(c, w, p);
    assert RemovedItem(p, c.sides, c.response, w.exact) in OldSideItems(p, c.sides, c.response, w.exact);
  }

  lemma KeptQuiet(c: Comparison, w: World, p: Path)
    requires c.Clean(w) && p in c.sides.oldFields && p in c.sides.newFields && !IsAdded(p, c.sides)
             && !IsRemoved(p, c.sides)
    ensures Quiet(KeptItems(p, c.sides.oldFields[p], c.sides.newFields[p], c.response))
  {
    PathQuiet(c, w, p);
    assert KeptItems(p, c.sides.oldFields[p], c.sides.newFields[p], c.response) <=
      NewSideItems(p, c.sides, c.response, w.exact);
  }

  lemma ParentOf(q: Path, step: Step)
    ensures Parent(q + [step]) == q
    ensures LastName(q + [step]) == if step.Prop? then step.name else ""
  {
    assert (q + [step])[..|q|] == q;
  }

  lemma EntriesAre(c: Comparison, w: World, p: Path)
    requires c.Clean(w) && p != []
    ensures Entry(c.sides.oldFields, p) == FieldIn(c.prev, p)
    ensures Entry(c.sides.newFields, p) == FieldIn(c.next, p)
    ensures Summarizes(FieldIn(c.prev, p), NodesIn(c.prev, p), Last(p),
                       Requires(NodesIn(c.prev, p[..|p| - 1]), Last(p)))
    ensures Summarizes(FieldIn(c.next, p), NodesIn(c.next, p), Last(p),
                       Requires(NodesIn(c.next, p[..|p| - 1]), Last(p)))
  {
    EntrySummarizes(c.prev, p);
    EntrySummarizes(c.next, p);
  }

  lemma NodesOf(c: Comparison, w: World, q: Path)
    requires c.Clean(w)
    ensures Lookup(c.sides.oldNodes, q) == if Describes(c.prev, q) then Some(NodesIn(c.prev, q)) else None
    ensures Lookup(c.sides.newNodes, q) == if Describes(c.next, q) then Some(NodesIn(c.next, q)) else None
  {
    assert NodesAt(c.sides.oldNodes, q) == NodesIn(c.prev, q);
    assert NodesAt(c.sides.newNodes, q) == NodesIn(c.next, q);
  }

  /** Both tables have an entry for a shared position, and it is neither added nor removed. */
  lemma SharedKept(c: Comparison, w: World, q: Path)
    requires c.Clean(w) && c.Shared(q) && q != []
    ensures q in c.sides.oldFields && q in c.sides.newFields
    ensures Quiet(KeptItems(q, c.sides.oldFields[q], c.sides.newFields[q], c.response))
  {
    EntriesAre(c, w, q);
    KeptQuiet(c, w, q);
  }

  // Types, enumerations and required names

  lemma QuietTypes(at: Path, change: Change, a: TypeSet, b: TypeSet, response: bool, v: Value)
    requires Quiet(TypeItems(at, change, a, b, response))
    ensures var from, to := if response then b else a, if response then a else b;
            InTypes(v, from) ==> InTypes(v, to)
  {
    if a != b {
      assert Finding(at, change, TypeChangeBreaking(a, b, response)) in TypeItems(at, change, a, b, response);
      TypeChangeBreakingExact(a, b, response);
    }
  }

  lemma QuietEnums(at: Path, a: EnumSet, b: EnumSet, response: bool, v: Value)
    requires Quiet(EnumItems(at, a, b, response))
    ensures var from, to := if response then b else a, if response then a else b;
            InEnum(v, from) ==> InEnum(v, to)
  {
    if a.Some? && b.Some? {
      assert v in a.value - b.value ==> Finding(at, EnumRemoved(v), true) in EnumItems(at, a, b, response);
      assert v in b.value - a.value ==> Finding(at, EnumAdded(v), response) in EnumItems(at, a, b, response);
    } else if a.Some? || b.Some? {
      assert Finding(at, EnumConstraint, b.Some? != response) in EnumItems(at, a, b, response);
    }
  }

  /** Types and enumerations of a shared position, root or nested. */
  lemma QuietTypesAndEnums(c: Comparison, w: World, q: Path, v: Value)
    requires c.Clean(w) && c.Shared(q)
    requires AllTypes(NodesIn(c.From(), q), v) && AllEnums(NodesIn(c.From(), q), v)
    ensures AllTypes(NodesIn(c.To(), q), v) && AllEnums(NodesIn(c.To(), q), v)
  {
    if q == [] {
      var from, to := c.From(), c.To();
      assert NodesIn(from, q)[0] == from && NodesIn(to, q) == [to];
      QuietTypes([], RootType, EffectiveTypes(c.prev), EffectiveTypes(c.next), c.response, v);
      QuietEnums([], EffectiveEnum(c.prev), EffectiveEnum(c.next), c.response, v);
    } else {
      SharedKept(c, w, q);
      EntriesAre(c, w, q);
      var f, g := c.sides.oldFields[q], c.sides.newFields[q];
      QuietTypes(q, FieldType, f.types, g.types, c.response, v);
      QuietEnums(q, f.enums, g.enums, c.response, v);
    }
  }

  lemma {:induction false} DescribesAbove(s: Schema, q: Path, k: nat)
    requires Describes(s, q) && k <= |q|
    ensures Describes(s, q[..k])
    decreases |q|
  {
    if k == |q| {
      assert q[..k] == q;
    } else {
      var above := q[..|q| - 1];
      assert above + [q[|q| - 1]] == q;
      DescribesPrefix(s, above, q[|q| - 1]);
      DescribesAbove(s, above, k);
      assert above[..k] == q[..k];
    }
  }

  /** On a path that is shared up to `q` and then only descends into items, every enclosing field is
      old or an array item, so a new field there affects existing input. */
  lemma SharedAffects(c: Comparison, w: World, q: Path, depth: nat, path: Path)
    requires c.Clean(w) && Describes(c.prev, q)
    requires |path| == |q| + depth + 1 && path[..|q| + depth] == q + Repeat(Items, depth)
    ensures AffectsExistingInput(path, c.sides.oldFields, c.sides.newFields)
  {
    hide ConstraintItems;
    hide Repeat;
    hide NodesIn;
    hide FieldIn;
    hide Aligned;
    hide AllItems;
    forall k | 1 <= k < |path| && path[..k] in c.sides.newFields
      ensures path[..k] in c.sides.oldFields || c.sides.newFields[path[..k]].arrayItem
    {
      assert Entry(c.sides.oldFields, path[..k]) == FieldIn(c.prev, path[..k]);
      assert Entry(c.sides.newFields, path[..k]) == FieldIn(c.next, path[..k]);
      OldOrItems(c.prev, c.next, q, depth, path[..k]);
    }
  }

  lemma OldOrItems(prev: Schema, next: Schema, q: Path, depth: nat, path: Path)
    requires Describes(prev, q) && path != [] && path <= q + Repeat(Items, depth)
    ensures FieldIn(prev, path).Some? || (FieldIn(next, path).Some? ==> FieldIn(next, path).value.arrayItem)
  {
    var whole := q + Repeat(Items, depth);
    var k := |path|;
    assert path == whole[..k];
    if k <= |q| {
      EntrySummarizes(prev, path);
      DescribesAbove(prev, q, k);
      assert whole[..k] == q[..k];
    } else {
      EntrySummarizes(next, path);
      RepeatAt(Items, depth, k - 1 - |q|);
      assert Last(path) == Items;
    }
  }

  lemma {:induction false} RepeatAt<T>(x: T, n: nat, k: nat)
    requires k < n
    ensures Repeat(x, n)[k] == x
  {
    if k > 0 {
      RepeatAt(x, n - 1, k - 1);
    }
  }

  /** A name required on the accepting side was required already. */
  lemma QuietRequired(c: Comparison, w: World, q: Path, name: string)
    requires c.Clean(w) && c.Shared(q) && Requires(NodesIn(c.To(), q), Prop(name))
    ensures Requires(NodesIn(c.From(), q), Prop(name))
  {
    hide At;
    hide ConstraintItems;
    var p := q + [Prop(name)];
    assert p[..|p| - 1] == q && Last(p) == Prop(name);
    EntriesAre(c, w, p);
    assert p[..|q| + 0] == q + Repeat(Items, 0);
    SharedAffects(c, w, q, 0, p);
    if IsRemoved(p, c.sides) {
      RemovedQuiet(c, w, p);
    } else if IsAdded(p, c.sides) {
      AddedQuiet(c, w, p);
    } else {
      var f, g := c.sides.oldFields[p], c.sides.newFields[p];
      KeptQuiet(c, w, p);
      assert RequiredItems(p, f.required, g.required, c.response) <= KeptItems(p, f, g, c.response);
      assert f.required != g.required ==>
        Finding(p, FieldRequired, (!c.response && g.required) || (c.response && f.required))
          in RequiredItems(p, f.required, g.required, c.response);
    }
  }

  // Limits and the keywords compared as a whole, outside allOf

  /** The findings at a shared position are findings of the whole comparison. */
  lemma {:induction false} ConstraintsBelow(prev: Schema, next: Schema, at: Path, q: Path, response: bool,
                                            exact: real -> bool)
    requires At(prev, q).Some? && At(next, q).Some?
    ensures ConstraintItems(at + q, At(prev, q).value, At(next, q).value, response, exact)
         <= ConstraintItems(at, prev, next, response, exact)
    decreases |q|
  {
    if q == [] {
      assert at + q == at;
    } else {
      var a, b := ChildAt(prev, q[0]).value, ChildAt(next, q[0]).value;
      assert at + q == (at + [q[0]]) + q[1..];
      ConstraintsBelow(a, b, at + [q[0]], q[1..], response, exact);
      match q[0] {
        case Prop(name) =>
          assert ConstraintItems(at + [q[0]], a, b, response, exact)
              <= SharedItems(next.properties.Keys, at, prev, next, response, exact);
        case Items =>
          assert ConstraintItems(at + [q[0]], a, b, response, exact) == ItemsItems(at, prev, next, response, exact);
      }
    }
  }

  lemma QuietBounds(at: Path, a: BoundMap, b: BoundMap, lower: bool, response: bool, exact: real -> bool, x: real)
    requires Quiet(BoundItems(at, a, b, lower, response, exact))
    ensures var from, to := if response then b else a, if response then a else b;
            InSide(from, lower, x) ==> InSide(to, lower, x)
  {
    var m, n := BoundKeywords(a, lower), BoundKeywords(b, lower);
    assert InSide(a, lower, x) <==> InSide(m, lower, x);
    assert InSide(b, lower, x) <==> InSide(n, lower, x);
    if m != n {
      var before, after := Stricter(m, lower), Stricter(n, lower);
      StricterDenotes(m, lower);
      StricterDenotes(n, lower);
      CompareBoundSign(before, after, lower);
      if Convertible(m, lower, exact) && Convertible(n, lower, exact) {
        var comparison := CompareBound(before, after, lower);
        if comparison != 0 {
          assert Finding(at, BoundChanged(lower), (comparison > 0) != response) in
            BoundItems(at, a, b, lower, response, exact);
        }
      } else {
        assert Manual(at, BoundChanged(lower)) in BoundItems(at, a, b, lower, response, exact);
      }
    }
  }

  lemma QuietSize(at: Path, a: map<SizeKey, real>, b: map<SizeKey, real>, key: SizeKey, response: bool,
                  exact: real -> bool, v: Value)
    requires Quiet(SizeItems(at, a, b, key, response, exact))
    ensures var from, to := if response then b else a, if response then a else b;
            (key in from ==> SizeOk(key, from[key], v)) ==> (key in to ==> SizeOk(key, to[key], v))
  {
    if key in a && key in b && a[key] != b[key] {
      if exact(a[key]) && exact(b[key]) {
        var narrower := (a[key] < b[key]) != IsMaximum(key);
        assert Finding(at, SizeChanged(key), narrower != response) in SizeItems(at, a, b, key, response, exact);
      } else {
        assert Manual(at, SizeChanged(key)) in SizeItems(at, a, b, key, response, exact);
      }
    } else if (key in a) != (key in b) {
      assert Finding(at, SizeChanged(key), (key in b) != response) in SizeItems(at, a, b, key, response, exact);
    }
  }

  lemma QuietMembers(at: Path, key: Keyword, a: seq<Schema>, b: seq<Schema>, response: bool, v: Value, w: World)
    requires Quiet(AlternativeItems(at, key, a, b, response, w.exact))
    ensures var from, to := if response then b else a, if response then a else b;
            Satisfies(key, from, v, w) ==> Satisfies(key, to, v, w)
  {
    var outcome := Compared(key, a, b, response, w.exact);
    hide Compared;
    assert outcome.Review? ==>
      Manual(at, AlternativesChanged(key)) in AlternativeItems(at, key, a, b, response, w.exact);
    assert outcome == Changed(true) ==>
      Finding(at, AlternativesChanged(key), true) in AlternativeItems(at, key, a, b, response, w.exact);
    QuietAlternatives(key, a, b, response, v, w);
  }

  lemma QuietSizes(at: Path, a: Schema, b: Schema, response: bool, exact: real -> bool, v: Value)
    requires a.Node? && b.Node? && Quiet(AllSizeItems(at, a, b, response, exact))
    ensures var from, to := if response then b else a, if response then a else b;
            SizesOk(from.sizes, v) ==> SizesOk(to.sizes, v)
  {
    var from, to := if response then b else a, if response then a else b;
    if SizesOk(from.sizes, v) {
      forall key | key in to.sizes ensures SizeOk(key, to.sizes[key], v) {
        assert key in SizeKeys by { SizeKeysComplete(key); }
        assert SizeItems(at, a.sizes, b.sizes, key, response, exact) <= AllSizeItems(at, a, b, response, exact);
        QuietSize(at, a.sizes, b.sizes, key, response, exact, v);
      }
    }
  }

  lemma QuietOwn(at: Path, a: Schema, b: Schema, response: bool, w: World, v: Value)
    requires a.Node? && b.Node? && Quiet(OwnKeywordItems(at, a, b, response, w.exact))
    ensures var from, to := if response then b else a, if response then a else b;
            && (BoundsOk(from.bounds, v) ==> BoundsOk(to.bounds, v))
            && (SizesOk(from.sizes, v) ==> SizesOk(to.sizes, v))
            && (MembersOk(from, v, w) ==> MembersOk(to, v, w))
    ensures Unsupported(a, w.exact) == Unsupported(b, w.exact)
  {
    hide Accepting;
    hide AlternativeItems;
    hide AllSizeItems;
    hide SizesOk;
    var from, to := if response then b else a, if response then a else b;
    if v.Num? && BoundsOk(from.bounds, v) {
      QuietBounds(at, a.bounds, b.bounds, true, response, w.exact, v.n);
      QuietBounds(at, a.bounds, b.bounds, false, response, w.exact, v.n);
      BoundsBySides(from.bounds, v.n);
      BoundsBySides(to.bounds, v.n);
    }
    QuietSizes(at, a, b, response, w.exact, v);
    QuietMembers(at, AnyOf, a.anyOf, b.anyOf, response, v, w);
    QuietMembers(at, OneOf, a.oneOf, b.oneOf, response, v, w);
    assert Quiet(UnsupportedItems(at, a, b, w.exact));
    assert !Quiet({Manual(at, ManualReview)}) by { assert Manual(at, ManualReview) in {Manual(at, ManualReview)}; }
  }

  lemma QuietFlags(at: Path, a: Schema, b: Schema, response: bool, exact: real -> bool)
    requires Quiet(ConstraintItems(at, a, b, response, exact))
    ensures a.Flag? || b.Flag? ==> a == b
  {
    assert (a.Flag? || b.Flag?) && a != b ==> Manual(at, ManualReview) in ConstraintItems(at, a, b, response, exact);
  }

  lemma SizeKeysComplete(key: SizeKey)
    ensures key in SizeKeys
  {
    match key
    case MinLength => assert SizeKeys[0] == key;
    case MaxLength => assert SizeKeys[1] == key;
    case MinItems => assert SizeKeys[2] == key;
    case MaxItems => assert SizeKeys[3] == key;
    case MinProperties => assert SizeKeys[4] == key;
    case MaxProperties => assert SizeKeys[5] == key;
  }

  // The same for every node of a position

  /** The two nodes leave the same names to `additionalProperties`, apart from those they declare. */
  predicate SameScope(x: Schema, y: Schema, exact: real -> bool)
    requires x.Node? && y.Node?
  {
    && x.others == y.others
    && x.additional.Some? == y.additional.Some?
    && (x.additional.Some? ==> CanonicalSchema(x.additional.value, exact) == CanonicalSchema(y.additional.value, exact))
  }

  /** The node's flag, limits and uninterpreted keywords. */
  ghost predicate LimitsOk(x: Schema, v: Value, w: World) {
    if x.Flag? then x.allow
    else BoundsOk(x.bounds, v) && SizesOk(x.sizes, v) && MembersOk(x, v, w) && KeywordsOk(x.others, v, w)
  }

  lemma FreeLimits(x: Schema, v: Value, w: World)
    requires Own(x, w.exact) == NothingLeft
    ensures LimitsOk(x, v, w) && x.Node? && x.additional.None?
  {
    if v.Num? {
      CanonicalBoundsKeepRange(x.bounds, w.exact, v.n);
    }
    SameLength(CanonicalAll(x.anyOf, w.exact), []);
    SameLength(CanonicalAll(x.oneOf, w.exact), []);
  }

  lemma SameLimits(x: Schema, y: Schema, v: Value, w: World)
    requires Own(x, w.exact) == Own(y, w.exact) && Accepts(y, v, w)
    ensures LimitsOk(x, v, w)
    ensures x.Node? ==> y.Node? && SameScope(x, y, w.exact)
  {
    if x.Node? && v.Num? {
      CanonicalBoundsKeepRange(x.bounds, w.exact, v.n);
      CanonicalBoundsKeepRange(y.bounds, w.exact, v.n);
    }
    if x.Node? {
      SameLength(CanonicalAll(x.anyOf, w.exact), CanonicalAll(y.anyOf, w.exact));
      SameLength(CanonicalAll(x.oneOf, w.exact), CanonicalAll(y.oneOf, w.exact));
      SameAccepting(x.anyOf, y.anyOf, v, w);
      SameAccepting(x.oneOf, y.oneOf, v, w);
    }
  }

  /** Limits that were accepted stay accepted, and a restriction on undeclared names has its like. */
  lemma QuietNode(c: Comparison, w: World, q: Path, x: Schema, v: Value) returns (y: Schema)
    requires c.Clean(w) && c.Shared(q) && Reaches(c.To(), q, x) && AcceptsAt(c.From(), q, v, w)
    ensures LimitsOk(x, v, w)
    ensures x.Node? && x.additional.Some? ==> Reaches(c.From(), q, y) && y.Node? && SameScope(x, y, w.exact)
  {
    if At(c.To(), q) == Some(x) {
      y := QuietDirect(c, w, q, x, v);
    } else {
      var k, i := BranchAbove(c.To(), q, x);
      DescribesAbove(c.From(), q, k);
      y := QuietBranch(c, w, q, k, i, x);
      if Own(x, w.exact) == NothingLeft {
        FreeLimits(x, v, w);
      } else {
        SameLimits(x, y, v, w);
      }
    }
  }

  /** The two nodes outside `allOf` that a shared position has, when one side has one. */
  lemma DirectPair(c: Comparison, w: World, q: Path)
    requires c.Clean(w) && c.Shared(q) && At(c.To(), q).Some?
    ensures At(c.From(), q).Some? && Reaches(c.From(), q, At(c.From(), q).value)
    ensures Quiet(ConstraintItems(q, At(c.prev, q).value, At(c.next, q).value, c.response, w.exact))
  {
    assert Describes(c.prev, q);
    AtReached(c.From(), q);
    ConstraintsBelow(c.prev, c.next, [], q, c.response, w.exact);
    assert [] + q == q;
  }

  lemma QuietDirect(c: Comparison, w: World, q: Path, x: Schema, v: Value) returns (y: Schema)
    requires c.Clean(w) && c.Shared(q) && At(c.To(), q) == Some(x) && AcceptsAt(c.From(), q, v, w)
    ensures LimitsOk(x, v, w)
    ensures x.Node? ==> Reaches(c.From(), q, y) && y.Node? && SameScope(x, y, w.exact)
  {
    DirectPair(c, w, q);
    y := At(c.From(), q).value;
    assert Accepts(y, v, w);
    var a, b := At(c.prev, q).value, At(c.next, q).value;
    QuietFlags(q, a, b, c.response, w.exact);
    if x.Node? {
      QuietOwn(q, a, b, c.response, w, v);
    }
  }

  lemma SameBranchesAt(c: Comparison, w: World, q: Path)
    requires c.Clean(w) && c.Shared(q) && At(c.To(), q).Some? && At(c.To(), q).value.Node?
    ensures At(c.From(), q).Some? && At(c.From(), q).value.Node? && Reaches(c.From(), q, At(c.From(), q).value)
    ensures multiset(Remainders(At(c.From(), q).value.allOf, w.exact)) ==
            multiset(Remainders(At(c.To(), q).value.allOf, w.exact))
  {
    DirectPair(c, w, q);
    var a, b := At(c.prev, q).value, At(c.next, q).value;
    QuietFlags(q, a, b, c.response, w.exact);
    QuietOwn(q, a, b, c.response, w, Null);
  }

  /** `x` belongs to branch `i` of the node that `q` has `k` steps down. */
  ghost predicate InBranch(s: Schema, q: Path, k: nat, i: nat, x: Schema) {
    && k <= |q| && At(s, q[..k]).Some? && At(s, q[..k]).value.Node?
    && i < |At(s, q[..k]).value.allOf| && Reaches(At(s, q[..k]).value.allOf[i], q[k..], x)
  }

  lemma QuietBranch(c: Comparison, w: World, q: Path, k: nat, i: nat, x: Schema) returns (y: Schema)
    requires c.Clean(w) && InBranch(c.To(), q, k, i, x) && Describes(c.From(), q[..k])
    ensures Own(x, w.exact) == NothingLeft || (Reaches(c.From(), q, y) && Own(x, w.exact) == Own(y, w.exact))
  {
    hide Remainders;
    hide ConstraintItems;
    hide Own;
    hide Accepts;
    hide AllItems;
    hide TablesOf;
    hide NodesIn;
    var above, below := q[..k], q[k..];
    assert above + below == q;
    AtReached(c.To(), above);
    ReachedDescribes(c.To(), above, At(c.To(), above).value);
    SameBranchesAt(c, w, above);
    var f, t := At(c.From(), above).value, At(c.To(), above).value;
    y := SameRemainders(f.allOf, t.allOf, i, below, x, w.exact);
    if Own(x, w.exact) != NothingLeft {
      assert Reaches(f, below, y);
      ReachOn(c.From(), above, f, below, y);
    }
  }

  // One property name

  ghost predicate OwnRulesOk(x: Schema, name: string, value: Value, w: World)
    requires x.Node?
  {
    if name in x.properties then Accepts(x.properties[name], value, w)
    else x.additional.Some? ==> Accepts(x.additional.value, value, w)
  }

  /** The rules of a node cover each node of its `allOf` tree. */
  lemma {:induction false} RulesReach(n: Schema, x: Schema, name: string, value: Value, w: World)
    requires Reaches(n, [], x) && x.Node? && AcceptsAll(RulesOf(n, name), value, w)
    ensures OwnRulesOk(x, name, value, w)
    decreases n
  {
    if n.Node? {
      AcceptsConcat(OwnRules(n, name), RulesOfAll(n.allOf, name), value, w);
      RulesOfAllMember(n.allOf, name, value, w);
      if x == n {
        OwnRulesMean(x, name, value, w);
      } else {
        var i :| 0 <= i < |n.allOf| && Reaches(n.allOf[i], [], x);
        RulesReach(n.allOf[i], x, name, value, w);
      }
    }
  }

  /** Rules that include one another carry acceptance of one property to every node. */
  lemma RulesCarry(from: Schema, to: Schema, q: Path, x: Schema, v: Value, name: string, w: World)
    requires AcceptsAt(from, q, v, w) && v.Obj? && name in v.fields && !UnknownInAll(NodesIn(from, q))
    requires Included(Conjunction(RulesOfAll(NodesIn(from, q), name)), Conjunction(RulesOfAll(NodesIn(to, q), name)), w)
    requires Reaches(to, q, x) && x.Node?
    ensures OwnRulesOk(x, name, v.fields[name], w)
  {
    var value := v.fields[name];
    AcceptsNodes(from, q, v, w);
    assert v.fields != map[];
    ObjectPropertyRuleExact(NodesIn(from, q), v, w);
    ConjunctionAccepts(RulesOfAll(NodesIn(to, q), name), value, w);
    RulesOfAllMember(NodesIn(to, q), name, value, w);
    var n := ReachedNode(to, q, x);
    var i :| 0 <= i < |NodesIn(to, q)| && NodesIn(to, q)[i] == n;
    RulesReach(n, x, name, value, w);
  }

  /** A quiet verdict on a property: the rules of the two sides include one another. */
  lemma QuietVerdict(c: Comparison, w: World, q: Path, name: string)
    requires c.Clean(w) && c.Shared(q)
    requires Compatibility(Some(NodesIn(c.prev, q)), Some(NodesIn(c.next, q)), name, c.response, w.exact) == Silent
    ensures !UnknownInAll(NodesIn(c.From(), q))
    ensures Included(Conjunction(RulesOfAll(NodesIn(c.From(), q), name)),
                     Conjunction(RulesOfAll(NodesIn(c.To(), q), name)), w)
  {
    SilentMeansIncluded(NodesIn(c.prev, q), NodesIn(c.next, q), name, c.response, w);
  }

  /** Unless both sides declare a property, or neither does, its rules were judged. */
  lemma QuietDeclaration(c: Comparison, w: World, q: Path, name: string)
    requires c.Clean(w) && c.Shared(q)
    requires Describes(c.prev, q + [Prop(name)]) != Describes(c.next, q + [Prop(name)])
    ensures Compatibility(Some(NodesIn(c.prev, q)), Some(NodesIn(c.next, q)), name, c.response, w.exact) == Silent
  {
    var p := q + [Prop(name)];
    ParentOf(q, Prop(name));
    NodesOf(c, w, q);
    EntriesAre(c, w, p);
    if IsRemoved(p, c.sides) {
      RemovedQuiet(c, w, p);
    } else {
      AddedQuiet(c, w, p);
    }
  }

  /** If both declare it, either its rules were judged or the declarations have the same shape. */
  lemma QuietScopes(c: Comparison, w: World, q: Path, name: string)
    requires c.Clean(w) && c.Shared(q) && c.Shared(q + [Prop(name)])
    ensures
      || Compatibility(Some(NodesIn(c.prev, q)), Some(NodesIn(c.next, q)), name, c.response, w.exact) == Silent
      || multiset(ShapesOf(NodesIn(c.prev, q), name, w.exact)) == multiset(ShapesOf(NodesIn(c.next, q), name, w.exact))
  {
    var p := q + [Prop(name)];
    ParentOf(q, Prop(name));
    NodesOf(c, w, q);
    EntriesAre(c, w, p);
    SharedKept(c, w, p);
    PathQuiet(c, w, p);
    var f, g := c.sides.oldFields[p], c.sides.newFields[p];
    var kept := KeptItems(p, f, g, c.response);
    assert !Handled(kept);
    assert ScopeItems(p, g, false, c.sides, c.response, w.exact) <= NewSideItems(p, c.sides, c.response, w.exact);
    var verdict := FieldVerdict(g, p, c.sides, c.response, w.exact);
    assert ScopesChanged(p, c.sides, w.exact) && (verdict.breaking || verdict.manual) ==>
      Item(p, ScopeChanged, verdict.breaking, true) in ScopeItems(p, g, false, c.sides, c.response, w.exact);
  }

  lemma {:induction false} ShapeMember(nodes: seq<Schema>, shape: Shape, name: string, exact: real -> bool)
    ensures shape in ShapesOf(nodes, name, exact) <==> exists i ::
            0 <= i < |nodes| && ShapeOf(nodes[i], name, exact) == shape
  {
    if nodes != [] {
      ShapeMember(nodes[1..], shape, name, exact);
      if i :| 0 <= i < |nodes| && ShapeOf(nodes[i], name, exact) == shape {
        if i > 0 {
          assert nodes[1..][i - 1] == nodes[i];
        }
      }
      if shape in ShapesOf(nodes[1..], name, exact) {
        var i :| 0 <= i < |nodes[1..]| && ShapeOf(nodes[1..][i], name, exact) == shape;
        assert ShapeOf(nodes[i + 1], name, exact) == shape;
      }
    }
  }

  ghost predicate SameDeclaration(x: Schema, y: Schema, name: string, exact: real -> bool) {
    x.Node? && y.Node? && SameScope(x, y, exact) && (name in x.properties <==> name in y.properties)
  }

  /** Shapes that agree pair up the nodes of their `allOf` trees. */
  lemma {:induction false} SameShape(f: Schema, t: Schema, x: Schema, name: string, exact: real -> bool)
    returns (y: Schema)
    requires ShapeOf(f, name, exact) == ShapeOf(t, name, exact) && Reaches(t, [], x) && x.Node?
    ensures Reaches(f, [], y) && SameDeclaration(x, y, name, exact)
    decreases t, 0
  {
    if x == t {
      y := f;
    } else {
      var i :| 0 <= i < |t.allOf| && Reaches(t.allOf[i], [], x);
      var j;
      j, y := SameShapes(f.allOf, t.allOf, i, x, name, exact);
    }
  }

  lemma {:induction false} SameShapes(fs: seq<Schema>, ts: seq<Schema>, i: nat, x: Schema, name: string,
                                      exact: real -> bool)
    returns (j: nat, y: Schema)
    requires multiset(ShapesOf(fs, name, exact)) == multiset(ShapesOf(ts, name, exact))
    requires i < |ts| && Reaches(ts[i], [], x) && x.Node?
    ensures j < |fs| && Reaches(fs[j], [], y) && SameDeclaration(x, y, name, exact)
    decreases ts[i], 1
  {
    var shape := ShapeOf(ts[i], name, exact);
    ShapeMember(ts, shape, name, exact);
    assert shape in multiset(ShapesOf(ts, name, exact));
    assert shape in multiset(ShapesOf(fs, name, exact));
    ShapeMember(fs, shape, name, exact);
    j :| 0 <= j < |fs| && ShapeOf(fs[j], name, exact) == shape;
    y := SameShape(fs[j], ts[i], x, name, exact);
  }

  /** What `additionalProperties` of a node asks was asked before, or its rules were judged. */
  lemma QuietAdditional(c: Comparison, w: World, q: Path, x: Schema, v: Value, name: string)
    requires c.Clean(w) && c.Shared(q) && Reaches(c.To(), q, x) && x.Node? && AcceptsAt(c.From(), q, v, w)
    requires v.Obj? && name in v.fields && name !in x.properties
    ensures x.additional.Some? && !Covered(x.others, name, w) ==> Accepts(x.additional.value, v.fields[name], w)
  {
    if x.additional.Some? && !Covered(x.others, name, w) {
      if Compatibility(Some(NodesIn(c.prev, q)), Some(NodesIn(c.next, q)), name, c.response, w.exact) == Silent {
        QuietVerdict(c, w, q, name);
        RulesCarry(c.From(), c.To(), q, x, v, name, w);
      } else {
        var y := SameUndeclared(c, w, q, x, v, name);
        assert Accepts(y, v, w);
        CanonicalKeepsMeaning(y.additional.value, x.additional.value, v.fields[name], w);
      }
    }
  }

  lemma SameUndeclared(c: Comparison, w: World, q: Path, x: Schema, v: Value, name: string) returns (y: Schema)
    requires c.Clean(w) && c.Shared(q) && Reaches(c.To(), q, x) && x.Node? && AcceptsAt(c.From(), q, v, w)
    requires name !in x.properties && x.additional.Some?
    requires Compatibility(Some(NodesIn(c.prev, q)), Some(NodesIn(c.next, q)), name, c.response, w.exact) != Silent
    ensures Reaches(c.From(), q, y) && y.Node? && name !in y.properties && SameScope(x, y, w.exact)
  {
    hide Accepts;
    hide Compatibility;
    hide AllItems;
    hide Aligned;
    hide TablesOf;
    hide NodesIn;
    var p := q + [Prop(name)];
    if Describes(c.prev, p) && Describes(c.next, p) {
      QuietScopes(c, w, q, name);
      y := SameInShape(c.From(), c.To(), q, x, name, w.exact);
    } else {
      if Describes(c.prev, p) != Describes(c.next, p) {
        QuietDeclaration(c, w, q, name);
      }
      y := QuietNode(c, w, q, x, v);
      UndeclaredIn(c.From(), q, y, name);
    }
  }

  lemma UndeclaredIn(s: Schema, q: Path, y: Schema, name: string)
    requires Reaches(s, q, y) && y.Node? && !Describes(s, q + [Prop(name)])
    ensures name !in y.properties
  {
    if name in y.properties {
      ReachChild(s, q, y, Prop(name));
      ReachedDescribes(s, q + [Prop(name)], y.properties[name]);
    }
  }

  lemma SameInShape(from: Schema, to: Schema, q: Path, x: Schema, name: string, exact: real -> bool) returns (y: Schema)
    requires Reaches(to, q, x) && x.Node?
    requires multiset(ShapesOf(NodesIn(from, q), name, exact)) == multiset(ShapesOf(NodesIn(to, q), name, exact))
    ensures Reaches(from, q, y) && SameDeclaration(x, y, name, exact)
  {
    var n := ReachedNode(to, q, x);
    var i :| 0 <= i < |NodesIn(to, q)| && NodesIn(to, q)[i] == n;
    var j;
    j, y := SameShapes(NodesIn(from, q), NodesIn(to, q), i, x, name, exact);
    NodeReached(from, q, NodesIn(from, q)[j]);
    ReachOn(from, q, NodesIn(from, q)[j], [], y);
    assert q + [] == q;
  }
}

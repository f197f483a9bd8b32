/**
 What "nothing to report" means: services/vdoc/semantic_diff.go, compareSchemaFields. The findings
 decide inclusion for aligned schemas; requests need one more condition, on `items`.
 */
module SchemaSoundness {
  import opened Wrappers
  import opened Schemas
  import opened PropertyRules
  import opened SchemaFields
  import opened SchemaDiff
  import opened SchemaPositions
  import opened BranchRemainders
  import opened QuietFindings

  // Array items that only the new request schema describes

  /** Some node of the position is boolean, typed or enumerated. */
  predicate TellsType(s: Schema, p: Path) {
    !Untyped(NodesIn(s, p)) || !Unlisted(NodesIn(s, p)) || exists n :: n in NodesIn(s, p) && n.Flag?
  }

  /** Such items are compared only through their own type, enumeration, limits and required names, so
      a type must come before any property that is described below them. */
  ghost predicate NewItemsCompared(prev: Schema, next: Schema) {
    forall q, depth, name |
      && Describes(prev, q) && !Describes(prev, q + [Items]) && depth > 0
      && Describes(next, q + Repeat(Items, depth) + [Prop(name)]) ::
      exists k :: 1 <= k <= depth && TellsType(next, q + Repeat(Items, k))
  }

  /** `x` describes items, nested `depth` times, that only the new request schema has. */
  ghost predicate IsNewItem(c: Comparison, q: Path, depth: nat, x: Schema) {
    && !c.response && Describes(c.prev, q) && !Describes(c.prev, q + [Items]) && depth > 0
    && Reaches(c.next, q + Repeat(Items, depth), x)
  }

  lemma {:induction false} RepeatNext<T>(x: T, n: nat)
    ensures Repeat(x, n + 1) == Repeat(x, n) + [x]
  {
    if n > 0 {
      RepeatNext(x, n - 1);
    }
  }

  /** Nothing below the missing items is described, up to any depth. */
  lemma {:induction false} NothingOld(s: Schema, q: Path, depth: nat)
    requires !Describes(s, q + [Items]) && depth > 0
    ensures !Describes(s, q + Repeat(Items, depth))
    decreases depth
  {
    if depth == 1 {
      assert Repeat(Items, 1) == [Items];
    } else {
      RepeatNext(Items, depth - 1);
      var above := q + Repeat(Items, depth - 1);
      assert q + Repeat(Items, depth) == above + [Items];
      NothingOld(s, q, depth - 1);
      if Describes(s, above + [Items]) {
        DescribesPrefix(s, above, Items);
      }
    }
  }

  /** A typed or enumerated new item would have been reported. */
  lemma UntypedNewItems(c: Comparison, w: World, q: Path, depth: nat, x: Schema)
    requires c.Clean(w) && IsNewItem(c, q, depth, x)
    ensures Untyped(NodesIn(c.next, q + Repeat(Items, depth))) && Unlisted(NodesIn(c.next, q + Repeat(Items, depth)))
  {
    hide ConstraintItems;
    hide Aligned;
    hide AllItems;
    hide TablesOf;
    hide NodesIn;
    hide FieldIn;
    hide Reaches;
    var p := q + Repeat(Items, depth);
    RepeatNext(Items, depth - 1);
    assert Last(p) == Items && p[..|q| + (depth - 1)] == q + Repeat(Items, depth - 1);
    ReachedDescribes(c.next, p, x);
    NothingOld(c.prev, q, depth);
    EntriesAre(c, w, p);
    SharedAffects(c, w, q, depth - 1, p);
    AddedQuiet(c, w, p);
  }

  /** A name required by new items would have been reported. */
  lemma NothingRequired(c: Comparison, w: World, q: Path, depth: nat, x: Schema)
    requires c.Clean(w) && IsNewItem(c, q, depth, x) && x.Node?
    ensures x.required == {}
  {
    forall name | name in x.required ensures false {
      var here := q + Repeat(Items, depth);
      var p := here + [Prop(name)];
      assert Last(p) == Prop(name) && p[..|p| - 1] == here && p[..|q| + depth] == here;
      ReachedRequires(c.next, here, x, name);
      NothingOld(c.prev, q, depth);
      if Describes(c.prev, p) {
        DescribesPrefix(c.prev, here, Prop(name));
      }
      EntriesAre(c, w, p);
      SharedAffects(c, w, q, depth, p);
      AddedQuiet(c, w, p);
    }
  }

  /** What an empty schema is compared with, one items step further. */
  lemma ItemsBelow(at: Path, a: Schema, b: Schema, exact: real -> bool)
    requires Quiet(ConstraintItems(at, a, b, false, exact))
    requires b.Node? && b.items.Some? && (a.Node? ==> a.items.None?)
    ensures Quiet(ConstraintItems(at + [Items], Unconstrained, b.items.value, false, exact))
  {
    hide OwnKeywordItems;
    hide SharedItems;
    QuietFlags(at, a, b, false, exact);
    assert ItemsItems(at, a, b, false, exact) <= ConstraintItems(at, a, b, false, exact);
  }

  lemma FirstNewItems(c: Comparison, w: World, q: Path, t: Schema)
    requires c.Clean(w) && !c.response && Describes(c.prev, q) && !Describes(c.prev, q + [Items])
    requires At(c.next, q) == Some(t) && t.Node? && t.items.Some?
    ensures Quiet(ConstraintItems(q + [Items], Unconstrained, t.items.value, false, w.exact))
  {
    hide ConstraintItems;
    hide Aligned;
    hide AllItems;
    hide TablesOf;
    hide NodesIn;
    AtReached(c.next, q);
    ReachedDescribes(c.next, q, t);
    DirectPair(c, w, q);
    var f := At(c.prev, q).value;
    if f.Node? && f.items.Some? {
      ReachChild(c.prev, q, f, Items);
      ReachedDescribes(c.prev, q + [Items], f.items.value);
    }
    ItemsBelow(q, f, t, w.exact);
  }

  /** Outside `allOf`, new items are compared with the empty schema. */
  lemma {:induction false} QuietNewItems(c: Comparison, w: World, q: Path, depth: nat, x: Schema)
    requires c.Clean(w) && IsNewItem(c, q, depth, x) && At(c.next, q + Repeat(Items, depth)) == Some(x)
    ensures Quiet(ConstraintItems(q + Repeat(Items, depth), Unconstrained, x, false, w.exact))
    decreases depth
  {
    hide ConstraintItems;
    hide Aligned;
    hide AllItems;
    hide TablesOf;
    hide NodesIn;
    var above := q + Repeat(Items, depth - 1);
    RepeatNext(Items, depth - 1);
    assert q + Repeat(Items, depth) == above + [Items];
    var t := LastDirect(c.next, above, Items);
    if depth == 1 {
      assert above == q;
      FirstNewItems(c, w, q, t);
    } else {
      AtReached(c.next, above);
      QuietNewItems(c, w, q, depth - 1, t);
      ItemsBelow(above, Unconstrained, t, w.exact);
    }
  }

  /** New items put no limit on anything. */
  lemma FreeNewItems(c: Comparison, w: World, q: Path, depth: nat, x: Schema, v: Value)
    requires c.Clean(w) && IsNewItem(c, q, depth, x)
    ensures LimitsOk(x, v, w) && x.Node? && x.additional.None?
  {
    var p := q + Repeat(Items, depth);
    if At(c.next, p) == Some(x) {
      QuietNewItems(c, w, q, depth, x);
      QuietFlags(p, Unconstrained, x, false, w.exact);
      QuietOwn(p, Unconstrained, x, false, w, v);
    } else {
      var k, i := BranchAbove(c.next, p, x);
      if k <= |q| {
        assert p[..k] == q[..k];
        DescribesAbove(c.prev, q, k);
        var y := QuietBranch(c, w, p, k, i, x);
        NothingOld(c.prev, q, depth);
        if Reaches(c.prev, p, y) {
          ReachedDescribes(c.prev, p, y);
        }
      } else {
        FreeBranch(c, w, q, depth, k, i, x);
      }
      FreeLimits(x, v, w);
    }
  }

  lemma EmptyRemainders(at: Path, t: Schema, w: World)
    requires t.Node? && Quiet(ConstraintItems(at, Unconstrained, t, false, w.exact))
    ensures multiset(Remainders(t.allOf, w.exact)) == multiset{}
  {
    QuietOwn(at, Unconstrained, t, false, w, Null);
    assert Remainders(Unconstrained.allOf, w.exact) == [];
  }

  lemma FreeBranch(c: Comparison, w: World, q: Path, depth: nat, k: nat, i: nat, x: Schema)
    requires c.Clean(w) && IsNewItem(c, q, depth, x)
    requires |q| < k && InBranch(c.next, q + Repeat(Items, depth), k, i, x)
    ensures Own(x, w.exact) == NothingLeft
  {
    hide Aligned;
    hide AllItems;
    hide TablesOf;
    hide NodesIn;
    hide Own;
    var p := q + Repeat(Items, depth);
    RepeatPrefix(Items, depth, k - |q|);
    assert p[..k] == q + Repeat(Items, k - |q|);
    var t := At(c.next, p[..k]).value;
    AtReached(c.next, p[..k]);
    QuietNewItems(c, w, q, k - |q|, t);
    EmptyRemainders(p[..k], t, w);
    NoRemainders(t.allOf, i, w.exact);
    NothingBelow(t.allOf[i], p[k..], x, w.exact);
  }

  lemma {:induction false} RepeatPrefix<T>(x: T, n: nat, k: nat)
    requires k <= n
    ensures |Repeat(x, n)| == n && Repeat(x, n)[..k] == Repeat(x, k)
  {
    if k > 0 {
      RepeatPrefix(x, n - 1, k - 1);
    }
  }

  /** A new item says nothing of the value as a whole, and describes no property. */
  lemma EmptyNewItems(c: Comparison, w: World, q: Path, depth: nat, x: Schema, v: Value)
    requires c.Clean(w) && IsNewItem(c, q, depth, x) && NewItemsCompared(c.prev, c.next)
    ensures x.Node? && LocalOk(x, v, w) && MembersOk(x, v, w) && x.properties == map[] && x.additional.None?
  {
    var p := q + Repeat(Items, depth);
    FreeNewItems(c, w, q, depth, x, v);
    UntypedNewItems(c, w, q, depth, x);
    ReachedUntyped(c.next, p, x);
    NothingRequired(c, w, q, depth, x);
    forall name ensures name !in x.properties {
      if name in x.properties {
        ReachChild(c.next, p, x, Prop(name));
        ReachedDescribes(c.next, p + [Prop(name)], x.properties[name]);
        NothingTyped(c, w, q, depth, x, name);
      }
    }
  }

  /** No position down to the new items tells a type. */
  lemma NothingTyped(c: Comparison, w: World, q: Path, depth: nat, x: Schema, name: string)
    requires c.Clean(w) && IsNewItem(c, q, depth, x) && NewItemsCompared(c.prev, c.next)
    ensures !Describes(c.next, q + Repeat(Items, depth) + [Prop(name)])
  {
    hide NodesIn;
    hide TellsType;
    hide Reaches;
    hide ConstraintItems;
    hide AllItems;
    hide Aligned;
    hide TablesOf;
    hide Repeat;
    var p := q + Repeat(Items, depth);
    if Describes(c.next, p + [Prop(name)]) {
      var k :| 1 <= k <= depth && TellsType(c.next, q + Repeat(Items, k));
      RepeatPrefix(Items, depth, k);
      assert p[..|q| + k] == q + Repeat(Items, k);
      ReachedDescribes(c.next, p, x);
      DescribesAbove(c.next, p, |q| + k);
      TypedNewItems(c, w, q, k);
    }
  }

  lemma TypedNewItems(c: Comparison, w: World, q: Path, depth: nat)
    requires c.Clean(w) && !c.response && Describes(c.prev, q) && !Describes(c.prev, q + [Items]) && depth > 0
    requires Describes(c.next, q + Repeat(Items, depth))
    ensures !TellsType(c.next, q + Repeat(Items, depth))
  {
    var p := q + Repeat(Items, depth);
    forall n | n in NodesIn(c.next, p) ensures n.Node? {
      NodeReached(c.next, p, n);
      FreeNewItems(c, w, q, depth, n, Null);
    }
    var n := NodesIn(c.next, p)[0];
    NodeReached(c.next, p, n);
    UntypedNewItems(c, w, q, depth, n);
  }

  /** New items accept everything. */
  lemma {:induction false} NewItemsUniversal(c: Comparison, w: World, q: Path, depth: nat, x: Schema, v: Value)
    requires c.Clean(w) && IsNewItem(c, q, depth, x) && NewItemsCompared(c.prev, c.next)
    ensures Accepts(x, v, w)
    decreases v, x
  {
    hide ConstraintItems;
    hide Aligned;
    hide AllItems;
    hide TablesOf;
    hide NodesIn;
    hide NewItemsCompared;
    var p := q + Repeat(Items, depth);
    EmptyNewItems(c, w, q, depth, x, v);
    if v.Arr? && x.items.Some? {
      RepeatNext(Items, depth);
      assert q + Repeat(Items, depth + 1) == p + [Items];
      ReachChild(c.next, p, x, Items);
      forall i | 0 <= i < |v.elements| ensures Accepts(x.items.value, v.elements[i], w) {
        NewItemsUniversal(c, w, q, depth + 1, x.items.value, v.elements[i]);
      }
    }
    forall i | 0 <= i < |x.allOf| ensures Accepts(x.allOf[i], v, w) {
      ReachBranch(c.next, p, x, i);
      NewItemsUniversal(c, w, q, depth, x.allOf[i], v);
    }
  }

  // The theorem

  /** What a clean comparison is asked to carry over: acceptance at a shared position, node by node. */
  ghost predicate Carries(c: Comparison, w: World, q: Path, x: Schema, v: Value) {
    && c.Clean(w) && c.Shared(q) && (c.response || NewItemsCompared(c.prev, c.next))
    && AcceptsAt(c.From(), q, v, w) && Reaches(c.To(), q, x)
  }

  /** A clean comparison includes the accepted values of every shared position. */
  lemma {:induction false} CleanIncludes(c: Comparison, w: World, q: Path, x: Schema, v: Value)
    requires Carries(c, w, q, x, v)
    ensures Accepts(x, v, w)
    decreases v, x, 1
  {
    hide LocalOk;
    hide MembersOk;
    hide Accepting;
    hide AllItems;
    hide TablesOf;
    hide Aligned;
    hide NodesIn;
    hide NewItemsCompared;
    if x.Flag? {
      var y := QuietNode(c, w, q, x, v);
    } else {
      CleanLocal(c, w, q, x, v);
      if v.Obj? {
        forall name | name in v.fields ensures FieldOk(x, v, name, w) {
          CleanField(c, w, q, x, v, name);
        }
      }
      if v.Arr? && x.items.Some? {
        forall i | 0 <= i < |v.elements| ensures Accepts(x.items.value, v.elements[i], w) {
          CleanElement(c, w, q, x, v, i);
        }
      }
      forall i | 0 <= i < |x.allOf| ensures Accepts(x.allOf[i], v, w) {
        ReachBranch(c.To(), q, x, i);
        CleanIncludes(c, w, q, x.allOf[i], v);
      }
    }
  }

  lemma CleanLocal(c: Comparison, w: World, q: Path, x: Schema, v: Value)
    requires Carries(c, w, q, x, v) && x.Node?
    ensures LocalOk(x, v, w) && MembersOk(x, v, w)
  {
    hide Accepts;
    hide Accepting;
    hide MembersOk;
    hide AllItems;
    hide TablesOf;
    hide Aligned;
    hide NodesIn;
    hide NewItemsCompared;
    AcceptsTypes(c.From(), q, v, w);
    QuietTypesAndEnums(c, w, q, v);
    ReachedTypes(c.To(), q, x, v);
    var y := QuietNode(c, w, q, x, v);
    if v.Obj? {
      forall name | name in x.required ensures name in v.fields {
        ReachedRequires(c.To(), q, x, name);
        QuietRequired(c, w, q, name);
        AcceptsRequired(c.From(), q, v, name, w);
      }
    }
  }

  ghost predicate FieldOk(x: Schema, v: Value, name: string, w: World)
    requires x.Node? && v.Obj? && name in v.fields
  {
    if name in x.properties then Accepts(x.properties[name], v.fields[name], w)
    else x.additional.Some? && !Covered(x.others, name, w) ==> Accepts(x.additional.value, v.fields[name], w)
  }

  lemma {:induction false} CleanField(c: Comparison, w: World, q: Path, x: Schema, v: Value, name: string)
    requires Carries(c, w, q, x, v) && x.Node? && v.Obj? && name in v.fields
    ensures FieldOk(x, v, name, w)
    decreases v, x, 0
  {
    var p := q + [Prop(name)];
    if name !in x.properties {
      QuietAdditional(c, w, q, x, v, name);
    } else {
      ReachChild(c.To(), q, x, Prop(name));
      ReachedDescribes(c.To(), p, x.properties[name]);
      if Describes(c.From(), p) {
        AcceptsField(c.From(), q, v, name, w);
        CleanIncludes(c, w, p, x.properties[name], v.fields[name]);
      } else {
        QuietDeclaration(c, w, q, name);
        QuietVerdict(c, w, q, name);
        RulesCarry(c.From(), c.To(), q, x, v, name, w);
      }
    }
  }

  lemma {:induction false} CleanElement(c: Comparison, w: World, q: Path, x: Schema, v: Value, i: nat)
    requires Carries(c, w, q, x, v) && x.Node? && v.Arr? && x.items.Some? && i < |v.elements|
    ensures Accepts(x.items.value, v.elements[i], w)
    decreases v, x, 0
  {
    var p := q + [Items];
    ReachChild(c.To(), q, x, Items);
    ReachedDescribes(c.To(), p, x.items.value);
    if Describes(c.From(), p) {
      AcceptsElement(c.From(), q, v, i, w);
      CleanIncludes(c, w, p, x.items.value, v.elements[i]);
    } else if c.response {
      EntriesAre(c, w, p);
      RemovedQuiet(c, w, p);
    } else {
      assert Repeat(Items, 1) == [Items];
      NewItemsUniversal(c, w, q, 1, x.items.value, v.elements[i]);
    }
  }

  /** Request direction: a clean comparison keeps every accepted value. */
  lemma RequestSound(prev: Schema, next: Schema, sides: Sides, v: Value, w: World)
    requires Aligned(prev, next) && NewItemsCompared(prev, next) && TablesOf(sides, prev, next)
    requires Quiet(AllItems(prev, next, sides, false, w.exact))
    requires Accepts(prev, v, w)
    ensures Accepts(next, v, w)
  {
    hide Accepts;
    hide AllItems;
    hide TablesOf;
    hide Aligned;
    hide NewItemsCompared;
    AcceptsHere(prev, v, w);
    CleanIncludes(Comparison(prev, next, sides, false), w, [], next, v);
  }

  /** Response direction: no condition on items is needed. */
  lemma ResponseSound(prev: Schema, next: Schema, sides: Sides, v: Value, w: World)
    requires Aligned(prev, next) && TablesOf(sides, prev, next)
    requires Quiet(AllItems(prev, next, sides, true, w.exact))
    requires Accepts(next, v, w)
    ensures Accepts(prev, v, w)
  {
    hide Accepts;
    hide AllItems;
    hide TablesOf;
    hide Aligned;
    AcceptsHere(next, v, w);
    CleanIncludes(Comparison(prev, next, sides, true), w, [], prev, v);
  }
}

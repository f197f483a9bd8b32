/**
 Flattened schemas: services/vdoc/semantic_diff.go, collectSchemaFields and mergeSchemaField, and
 services/vdoc/semantic_property_rules.go, schemaObjectNodes. Both walk a schema and fill a table
 keyed by the path of each nested position. Paths are sequences of steps here; module SchemaPaths
 shows that the dotted strings of the source name them one to one.
 */
module SchemaFields {
  import opened Wrappers
  import opened Schemas
  import opened TypeLattice
  import opened EnumSets

  datatype Step = Prop(name: string) | Items

  type Path = seq<Step>

  datatype Field = Field(arrayItem: bool, defined: bool, types: TypeSet, required: bool, enums: EnumSet)

  const RequiredOnly := Field(false, false, None, true, None)

  function MergeFields(a: Field, b: Field): Field {
    Field(a.arrayItem || b.arrayItem, a.defined || b.defined, Intersect(a.types, b.types),
          a.required || b.required, IntersectEnums(a.enums, b.enums))
  }

  /** Merging where either side may have no entry. */
  function Combine(a: Option<Field>, b: Option<Field>): Option<Field> {
    if a.None? then b else if b.None? then a else Some(MergeFields(a.value, b.value))
  }

  lemma CombineAssociative(a: Option<Field>, b: Option<Field>, c: Option<Field>)
    ensures Combine(Combine(a, b), c) == Combine(a, Combine(b, c))
  {
    if a.Some? && b.Some? && c.Some? {
      IntersectAssociative(a.value.types, b.value.types, c.value.types);
      if a.value.enums.Some? && b.value.enums.Some? && c.value.enums.Some? {
        assert a.value.enums.value * b.value.enums.value * c.value.enums.value
            == a.value.enums.value * (b.value.enums.value * c.value.enums.value);
      }
    }
  }

  lemma IntersectAssociative(a: TypeSet, b: TypeSet, c: TypeSet)
    ensures Intersect(Intersect(a, b), c) == Intersect(a, Intersect(b, c))
  {
    if a.Some? && b.Some? && c.Some? {
      var l, r := Intersect(Intersect(a, b), c), Intersect(a, Intersect(b, c));
      forall t ensures t in l.value <==> t in r.value {
      }
      assert l.value == r.value;
    }
  }

  function ChildAt(s: Schema, step: Step): Option<Schema>
    requires s.Node?
  {
    match step
    case Prop(name) => if name in s.properties then Some(s.properties[name]) else None
    case Items => s.items
  }

  function RequiredNames(fragments: seq<Schema>): set<string>
    requires forall i | 0 <= i < |fragments| :: fragments[i].Node?
  {
    if fragments == [] then {} else RequiredNames(fragments[..|fragments| - 1]) + fragments[|fragments| - 1].required
  }

  /** The entry a declared child contributes at its own path. */
  function OwnField(child: Schema, step: Step, required: set<string>): Field {
    match step
    case Prop(name) => Field(false, true, EffectiveTypes(child), name in required, EffectiveEnum(child))
    case Items => Field(true, false, EffectiveTypes(child), false, EffectiveEnum(child))
  }

  function RequiredMark(required: set<string>, p: Path): Option<Field>
    requires p != []
  {
    if |p| == 1 && p[0].Prop? && p[0].name in required then Some(RequiredOnly) else None
  }

  /** What one child contributes at the path `rest` below it. */
  function ChildField(child: Schema, step: Step, required: set<string>, rest: Path): Option<Field>
    decreases |rest|, 3
  {
    if rest == [] then Some(OwnField(child, step, required)) else FieldIn(child, rest)
  }

  function FragmentField(s: Schema, p: Path, required: set<string>): Option<Field>
    requires s.Node? && p != []
    decreases |p|, 0
  {
    var child := ChildAt(s, p[0]);
    if child.None? then None else ChildField(child.value, p[0], required, p[1..])
  }

  function FragmentsField(fragments: seq<Schema>, p: Path, required: set<string>): Option<Field>
    requires p != [] && forall i | 0 <= i < |fragments| :: fragments[i].Node?
    decreases |p|, 1, |fragments|
  {
    if fragments == [] then None
    else
      Combine(FragmentsField(fragments[..|fragments| - 1], p, required),
              FragmentField(fragments[|fragments| - 1], p, required))
  }

  /** The entry of a schema's field table at a path: what `required` says, then each fragment in order. */
  function FieldIn(s: Schema, p: Path): Option<Field>
    requires p != []
    decreases |p|, 2
  {
    if s.Flag? then None
    else
      var required := RequiredNames(Fragments(s));
      Combine(RequiredMark(required, p), FragmentsField(Fragments(s), p, required))
  }

  type FieldTable = map<Path, Field>

  function Entry(table: FieldTable, p: Path): Option<Field> {
    if p in table then Some(table[p]) else None
  }

  /** What walking `schema` from `prefix` contributes at `p`. */
  function FieldBelow(schema: Schema, prefix: Path, p: Path): Option<Field> {
    if prefix < p then FieldIn(schema, p[|prefix|..]) else None
  }

  function MarkBelow(required: set<string>, prefix: Path, p: Path): Option<Field> {
    if prefix < p then RequiredMark(required, p[|prefix|..]) else None
  }

  function FragmentsBelow(fragments: seq<Schema>, required: set<string>, prefix: Path, p: Path): Option<Field>
    requires forall i | 0 <= i < |fragments| :: fragments[i].Node?
  {
    if prefix < p then FragmentsField(fragments, p[|prefix|..], required) else None
  }

  function FragmentBelow(fragment: Schema, required: set<string>, prefix: Path, p: Path): Option<Field>
    requires fragment.Node?
  {
    if prefix < p then FragmentField(fragment, p[|prefix|..], required) else None
  }

  function PropertiesBelow(fragment: Schema, rest: set<string>, required: set<string>, prefix: Path,
                           p: Path): Option<Field>
    requires fragment.Node?
  {
    if prefix < p && p[|prefix|].Prop? && p[|prefix|].name !in rest
      then FragmentField(fragment, p[|prefix|..], required)
    else None
  }

  function ChildBelow(child: Schema, step: Step, required: set<string>, prefix: Path, p: Path): Option<Field> {
    if prefix < p && p[|prefix|] == step then ChildField(child, step, required, p[|prefix| + 1..]) else None
  }

  class FieldCollector {
    var out: FieldTable

    constructor ()
      ensures out == map[]
    {
      out := map[];
    }

    method Merge(path: Path, next: Field)
      modifies this
      ensures forall p: Path :: Entry(out, p) == if p == path then Combine(Entry(old(out), p), Some(next))
              else Entry(old(out), p)
    {
      if path !in out {
        out := out[path := next];
        return;
      }
      var current := out[path];
      var types := IntersectSchemaTypes(current.types, next.types);
      var enums := current.enums;
      if enums.None? {
        enums := next.enums;
      } else if next.enums.Some? {
        enums := Some(enums.value * next.enums.value);
      }
      out := out[path := Field(current.arrayItem || next.arrayItem, current.defined || next.defined, types,
                               current.required || next.required, enums)];
    }

    method Collect(prefix: Path, schema: Schema)
      modifies this
      ensures forall p: Path :: Entry(out, p) == Combine(Entry(old(out), p), FieldBelow(schema, prefix, p))
      decreases schema, 2
    {
      if schema.Flag? {
        return;
      }
      var fragments := Fragments(schema);
      var required := {};
      for i := 0 to |fragments|
        invariant required == RequiredNames(fragments[..i])
      {
        assert fragments[..i + 1][..i] == fragments[..i];
        required := required + fragments[i].required;
      }
      assert fragments[..|fragments|] == fragments;
      MarkRequired(prefix, required);
      FragmentsSmaller(schema);
      CollectFragments(prefix, fragments, required, schema);
      forall p: Path ensures Entry(out, p) == Combine(Entry(old(out), p), FieldBelow(schema, prefix, p)) {
        CombineAssociative(Entry(old(out), p), MarkBelow(required, prefix, p),
                           FragmentsBelow(fragments, required, prefix, p));
      }
    }

    method CollectFragments(prefix: Path, fragments: seq<Schema>, required: set<string>, ghost whole: Schema)
      requires forall i | 0 <= i < |fragments| :: fragments[i].Node? && (fragments[i] == whole || fragments[i] < whole)
      modifies this
      ensures forall p: Path ::
        Entry(out, p) == Combine(Entry(old(out), p), FragmentsBelow(fragments, required, prefix, p))
      decreases whole, 1
    {
      for i := 0 to |fragments|
        invariant forall p: Path ::
          Entry(out, p) == Combine(Entry(old(out), p), FragmentsBelow(fragments[..i], required, prefix, p))
      {
        CollectFragment(prefix, fragments[i], required, whole);
        assert fragments[..i + 1][..i] == fragments[..i];
        forall p: Path
          ensures Entry(out, p) == Combine(Entry(old(out), p), FragmentsBelow(fragments[..i + 1], required, prefix, p))
        {
          CombineAssociative(Entry(old(out), p), FragmentsBelow(fragments[..i], required, prefix, p),
                             FragmentBelow(fragments[i], required, prefix, p));
        }
      }
      assert fragments[..|fragments|] == fragments;
    }

    method MarkRequired(prefix: Path, required: set<string>)
      modifies this
      ensures forall p: Path :: Entry(out, p) == Combine(Entry(old(out), p), MarkBelow(required, prefix, p))
    {
      var rest := required;
      while rest != {}
        invariant rest <= required
        invariant forall p: Path :: Entry(out, p) == Combine(Entry(old(out), p), MarkBelow(required - rest, prefix, p))
        decreases rest
      {
        var name :| name in rest;
        ghost var before := out;
        Merge(prefix + [Prop(name)], RequiredOnly);
        forall p: Path
          ensures Entry(out, p) == Combine(Entry(old(out), p), MarkBelow(required - (rest - {name}), prefix, p))
        {
          assert Entry(before, p) == Combine(Entry(old(out), p), MarkBelow(required - rest, prefix, p));
          if prefix < p {
            PathBelow(prefix, Prop(name), p);
          }
        }
        rest := rest - {name};
      }
    }

    /** One fragment: its properties in any order, then its items. */
    method CollectFragment(prefix: Path, fragment: Schema, required: set<string>, ghost whole: Schema)
      requires fragment.Node? && (fragment == whole || fragment < whole)
      modifies this
      ensures forall p: Path ::
        Entry(out, p) == Combine(Entry(old(out), p), FragmentBelow(fragment, required, prefix, p))
      decreases whole, 0
    {
      var rest := fragment.properties.Keys;
      while rest != {}
        invariant rest <= fragment.properties.Keys
        invariant forall p: Path ::
          Entry(out, p) == Combine(Entry(old(out), p), PropertiesBelow(fragment, rest, required, prefix, p))
        decreases rest
      {
        var name :| name in rest;
        CollectChild(prefix, Prop(name), fragment.properties[name], required, whole);
        rest := rest - {name};
      }
      if fragment.items.Some? {
        CollectChild(prefix, Items, fragment.items.value, required, whole);
      }
    }

    method CollectChild(prefix: Path, step: Step, child: Schema, required: set<string>, ghost whole: Schema)
      requires child < whole
      modifies this
      ensures forall p: Path ::
        Entry(out, p) == Combine(Entry(old(out), p), ChildBelow(child, step, required, prefix, p))
      decreases child, 3
    {
      Merge(prefix + [step], OwnField(child, step, required));
      Collect(prefix + [step], child);
      forall p: Path
        ensures Entry(out, p) == Combine(Entry(old(out), p), ChildBelow(child, step, required, prefix, p))
      {
        if prefix < p {
          PathBelow(prefix, step, p);
        }
      }
    }
  }

  /** A longer path either leaves `prefix` by another step, or ends with this one, or goes on below it. */
  lemma PathBelow(prefix: Path, step: Step, p: Path)
    requires prefix < p
    ensures p == prefix + [step] <==> p[|prefix|] == step && |p| == |prefix| + 1
    ensures prefix + [step] < p <==> p[|prefix|] == step && |p| > |prefix| + 1
    ensures p[|prefix|..] == [p[|prefix|]] + p[|prefix| + 1..]
  {
    if p[|prefix|] == step {
      assert p[..|prefix| + 1] == prefix + [step];
    }
  }

  /** schemaFields: the table of a whole schema. */
  method CollectSchemaFields(schema: Schema) returns (fields: FieldTable)
    ensures forall p: Path :: Entry(fields, p) == if p == [] then None else FieldIn(schema, p)
  {
    var collector := new FieldCollector();
    collector.Collect([], schema);
    fields := collector.out;
    forall p: Path ensures Entry(fields, p) == if p == [] then None else FieldIn(schema, p) {
      assert p != [] ==> p[0..] == p;
      assert [] < p <==> p != [];
    }
  }

  // schemaObjectNodes

  function NodesInFragments(fragments: seq<Schema>, p: Path): seq<Schema>
    requires p != [] && forall i | 0 <= i < |fragments| :: fragments[i].Node?
    decreases |p|, 0, |fragments|
  {
    if fragments == [] then []
    else
      var child := ChildAt(fragments[|fragments| - 1], p[0]);
      NodesInFragments(fragments[..|fragments| - 1], p) + (if child.None? then [] else NodesIn(child.value, p[1..]))
  }

  /** The unmerged nodes at a path: one for each branch of the `allOf` tree that declares it. */
  function NodesIn(s: Schema, p: Path): seq<Schema>
    decreases |p|, 1
  {
    if p == [] then [s] else if s.Flag? then [] else NodesInFragments(Fragments(s), p)
  }

  type NodeTable = map<Path, seq<Schema>>

  function NodesAt(table: NodeTable, p: Path): seq<Schema> {
    if p in table then table[p] else []
  }

  function NodesBelow(s: Schema, path: Path, p: Path): seq<Schema> {
    if path <= p then NodesIn(s, p[|path|..]) else []
  }

  function FragmentNodesBelow(fragments: seq<Schema>, path: Path, p: Path): seq<Schema>
    requires forall i | 0 <= i < |fragments| :: fragments[i].Node?
  {
    if path < p then NodesInFragments(fragments, p[|path|..]) else []
  }

  function ChildNodesBelow(child: Schema, step: Step, path: Path, p: Path): seq<Schema> {
    if path < p && p[|path|] == step then NodesIn(child, p[|path| + 1..]) else []
  }

  function PropertyNodesBelow(fragment: Schema, rest: set<string>, path: Path, p: Path): seq<Schema>
    requires fragment.Node?
  {
    if path < p && p[|path|].Prop? && p[|path|].name !in rest && p[|path|].name in fragment.properties
    then NodesIn(fragment.properties[p[|path|].name], p[|path| + 1..])
    else []
  }

  function FragmentNodes(fragment: Schema, path: Path, p: Path): seq<Schema>
    requires fragment.Node?
  {
    if path < p && ChildAt(fragment, p[|path|]).Some?
    then NodesIn(ChildAt(fragment, p[|path|]).value, p[|path| + 1..])
    else []
  }

  class NodeCollector {
    var out: NodeTable

    constructor ()
      ensures out == map[] && Valid()
    {
      out := map[];
    }

    /** Every listed path has a node, so "is listed" and "has nodes" mean the same. */
    ghost predicate Valid()
      reads this
    {
      forall p | p in out :: out[p] != []
    }

    method Collect(path: Path, value: Schema)
      requires Valid()
      modifies this
      ensures Valid()
      ensures forall p: Path :: NodesAt(out, p) == NodesAt(old(out), p) + NodesBelow(value, path, p)
      decreases value, 2
    {
      out := out[path := NodesAt(out, path) + [value]];
      ghost var entered := out;
      if value.Node? {
        FragmentsSmaller(value);
        CollectFragments(path, Fragments(value), value);
      }
      forall p: Path ensures NodesAt(out, p) == NodesAt(old(out), p) + NodesBelow(value, path, p) {
        assert value.Node? ==> NodesAt(out, p) == NodesAt(entered, p) + FragmentNodesBelow(Fragments(value), path, p);
        PathAtOrBelow(path, p);
      }
    }

    method CollectFragments(path: Path, fragments: seq<Schema>, ghost whole: Schema)
      requires forall i | 0 <= i < |fragments| :: fragments[i].Node? && (fragments[i] == whole || fragments[i] < whole)
      requires Valid()
      modifies this
      ensures Valid()
      ensures forall p: Path :: NodesAt(out, p) == NodesAt(old(out), p) + FragmentNodesBelow(fragments, path, p)
      decreases whole, 1
    {
      for i := 0 to |fragments|
        invariant Valid()
        invariant forall p: Path ::
          NodesAt(out, p) == NodesAt(old(out), p) + FragmentNodesBelow(fragments[..i], path, p)
      {
        ghost var before := out;
        CollectFragment(path, fragments[i], whole);
        AppendedInOrder(old(out), before, out, fragments, i, path);
      }
      assert fragments[..|fragments|] == fragments;
    }

    method CollectFragment(path: Path, fragment: Schema, ghost whole: Schema)
      requires fragment.Node? && (fragment == whole || fragment < whole)
      requires Valid()
      modifies this
      ensures Valid()
      ensures forall p: Path :: NodesAt(out, p) == NodesAt(old(out), p) + FragmentNodes(fragment, path, p)
      decreases whole, 0
    {
      hide PropertyNodesBelow;
      hide NodesAt;
      hide ChildNodesBelow;
      hide FragmentNodes;
      var rest := fragment.properties.Keys;
      forall p: Path ensures PropertyNodesBelow(fragment, rest, path, p) == [] {
        NoPropertyYet(fragment, path, p);
      }
      while rest != {}
        invariant rest <= fragment.properties.Keys
        invariant Valid()
        invariant forall p: Path ::
          NodesAt(out, p) == NodesAt(old(out), p) + PropertyNodesBelow(fragment, rest, path, p)
        decreases rest
      {
        var name :| name in rest;
        CollectChild(path, Prop(name), fragment.properties[name], whole);
        forall p: Path
          ensures NodesAt(out, p) == NodesAt(old(out), p) + PropertyNodesBelow(fragment, rest - {name}, path, p)
        {
          PropertyNodesStep(fragment, rest, name, path, p);
          Associate(NodesAt(old(out), p), PropertyNodesBelow(fragment, rest, path, p),
                    ChildNodesBelow(fragment.properties[name], Prop(name), path, p));
        }
        rest := rest - {name};
      }
      ghost var before := out;
      if fragment.items.Some? {
        CollectChild(path, Items, fragment.items.value, whole);
      }
      forall p: Path ensures NodesAt(out, p) == NodesAt(old(out), p) + FragmentNodes(fragment, path, p) {
        FragmentNodesParts(fragment, path, p);
        assert NodesAt(before, p) == NodesAt(old(out), p) + PropertyNodesBelow(fragment, {}, path, p);
        if fragment.items.Some? {
          Associate(NodesAt(old(out), p), PropertyNodesBelow(fragment, {}, path, p),
                    ChildNodesBelow(fragment.items.value, Items, path, p));
        }
      }
    }

    method CollectChild(path: Path, step: Step, child: Schema, ghost whole: Schema)
      requires child < whole
      requires Valid()
      modifies this
      ensures Valid()
      ensures forall p: Path :: NodesAt(out, p) == NodesAt(old(out), p) + ChildNodesBelow(child, step, path, p)
      decreases child, 3
    {
      Collect(path + [step], child);
      forall p: Path ensures NodesAt(out, p) == NodesAt(old(out), p) + ChildNodesBelow(child, step, path, p) {
        StepAtOrBelow(path, step, p);
      }
    }
  }

  lemma Associate<T>(a: seq<T>, b: seq<T>, c: seq<T>)
    ensures (a + b) + c == a + (b + c)
  {
  }

  lemma NoPropertyYet(fragment: Schema, path: Path, p: Path)
    requires fragment.Node?
    ensures PropertyNodesBelow(fragment, fragment.properties.Keys, path, p) == []
  {
  }

  lemma PropertyNodesStep(fragment: Schema, rest: set<string>, name: string, path: Path, p: Path)
    requires fragment.Node? && name in rest && rest <= fragment.properties.Keys
    ensures PropertyNodesBelow(fragment, rest - {name}, path, p) ==
            PropertyNodesBelow(fragment, rest, path, p) +
              ChildNodesBelow(fragment.properties[name], Prop(name), path, p)
  {
  }

  lemma FragmentNodesParts(fragment: Schema, path: Path, p: Path)
    requires fragment.Node?
    ensures FragmentNodes(fragment, path, p) ==
            PropertyNodesBelow(fragment, {}, path, p) +
            (if fragment.items.Some? then ChildNodesBelow(fragment.items.value, Items, path, p) else [])
  {
  }

  lemma AppendedInOrder(start: NodeTable, before: NodeTable, after: NodeTable, fragments: seq<Schema>, i: nat,
                        path: Path)
    requires i < |fragments| && forall j | 0 <= j < |fragments| :: fragments[j].Node?
    requires forall p: Path :: NodesAt(before, p) == NodesAt(start, p) + FragmentNodesBelow(fragments[..i], path, p)
    requires forall p: Path :: NodesAt(after, p) == NodesAt(before, p) + FragmentNodes(fragments[i], path, p)
    ensures forall p: Path :: NodesAt(after, p) == NodesAt(start, p) + FragmentNodesBelow(fragments[..i + 1], path, p)
  {
    forall p: Path
      ensures NodesAt(after, p) == NodesAt(start, p) + FragmentNodesBelow(fragments[..i + 1], path, p)
    {
      FragmentNodesStep(fragments, i, path, p);
    }
  }

  lemma FragmentNodesStep(fragments: seq<Schema>, i: nat, path: Path, p: Path)
    requires i < |fragments| && forall j | 0 <= j < |fragments| :: fragments[j].Node?
    ensures FragmentNodesBelow(fragments[..i + 1], path, p) ==
            FragmentNodesBelow(fragments[..i], path, p) + FragmentNodes(fragments[i], path, p)
  {
    assert fragments[..i + 1][..i] == fragments[..i];
    if path < p {
      assert p[|path|..][1..] == p[|path| + 1..];
    }
  }

  lemma PathAtOrBelow(path: Path, p: Path)
    ensures path <= p <==> path == p || path < p
    ensures path <= p ==> (p[|path|..] == [] <==> path == p)
  {
  }

  lemma StepAtOrBelow(path: Path, step: Step, p: Path)
    ensures path + [step] <= p <==> path < p && p[|path|] == step
    ensures path + [step] <= p ==> p[|path + [step]|..] == p[|path| + 1..]
  {
    if path < p && p[|path|] == step {
      assert p[..|path| + 1] == path + [step];
    }
  }

  method SchemaObjectNodes(schema: Schema) returns (nodes: NodeTable)
    ensures forall p: Path :: NodesAt(nodes, p) == NodesIn(schema, p)
    ensures forall p | p in nodes :: nodes[p] != []
  {
    var collector := new NodeCollector();
    collector.Collect([], schema);
    nodes := collector.out;
    forall p: Path ensures NodesAt(nodes, p) == NodesIn(schema, p) {
      assert p[0..] == p;
    }
  }
}

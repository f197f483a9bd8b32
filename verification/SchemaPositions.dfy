/**
 Positions of a schema and what the flattened tables say about them: services/vdoc/semantic_diff.go,
 collectSchemaFields, and services/vdoc/semantic_property_rules.go, schemaObjectNodes.

 Several nodes may describe one position, each from its own branch of an `allOf`. `Reaches` says
 which nodes a value at that position must satisfy; the table of nodes lists them branch by branch,
 and an entry of the table of fields speaks for all of them at once. `At` is the one node that a
 position may have outside every `allOf`.
 */
module SchemaPositions {
  import opened Wrappers
  import opened Schemas
  import opened TypeLattice
  import opened EnumSets
  import opened SchemaFields

  /** `x` must accept whatever stands at path `p` in a value that `s` accepts. */
  ghost predicate Reaches(s: Schema, p: Path, x: Schema)
    decreases s
  {
    || (p == [] && x == s)
    || (s.Node? && exists i :: 0 <= i < |s.allOf| && Reaches(s.allOf[i], p, x))
    || (s.Node? && p != [] && ChildAt(s, p[0]).Some? && Reaches(ChildAt(s, p[0]).value, p[1..], x))
  }

  ghost predicate AcceptsAt(s: Schema, p: Path, v: Value, w: World) {
    forall x | Reaches(s, p, x) :: Accepts(x, v, w)
  }

  /** Some node of the schema describes the position. */
  predicate Describes(s: Schema, p: Path) {
    NodesIn(s, p) != []
  }

  /** The node a position has outside every `allOf`. */
  function At(s: Schema, p: Path): Option<Schema>
    decreases |p|
  {
    if p == [] then Some(s)
    else if s.Flag? || ChildAt(s, p[0]).None? then None
    else At(ChildAt(s, p[0]).value, p[1..])
  }

  // Reaching a position step by step

  ghost predicate ViaChild(f: Schema, p: Path, x: Schema) {
    f.Node? && p != [] && ChildAt(f, p[0]).Some? && Reaches(ChildAt(f, p[0]).value, p[1..], x)
  }

  lemma {:induction false} FirstStep(s: Schema, p: Path, x: Schema)
    requires p != []
    ensures Reaches(s, p, x) <==> exists f :: f in Fragments(s) && ViaChild(f, p, x)
    decreases s, 1
  {
    if s.Node? {
      FirstStepOfAll(s.allOf, p, x);
      assert Fragments(s) == [s] + FragmentsOfAll(s.allOf);
      assert ViaChild(s, p, x) ==> s in Fragments(s);
    }
  }

  lemma {:induction false} FirstStepOfAll(nodes: seq<Schema>, p: Path, x: Schema)
    requires p != []
    ensures (exists i :: 0 <= i < |nodes| && Reaches(nodes[i], p, x)) <==>
            exists f :: f in FragmentsOfAll(nodes) && ViaChild(f, p, x)
    decreases nodes, 0
  {
    if nodes != [] {
      FirstStep(nodes[0], p, x);
      FirstStepOfAll(nodes[1..], p, x);
      if i :| 0 <= i < |nodes| && Reaches(nodes[i], p, x) {
        if i > 0 {
          assert nodes[1..][i - 1] == nodes[i];
        }
      }
      if f :| f in FragmentsOfAll(nodes[1..]) && ViaChild(f, p, x) {
        var i :| 0 <= i < |nodes[1..]| && Reaches(nodes[1..][i], p, x);
        assert Reaches(nodes[i + 1], p, x);
      }
    }
  }

  /** The nodes reached without a step are the fragments. */
  lemma {:induction false} NoStep(s: Schema, x: Schema)
    requires x.Node?
    ensures Reaches(s, [], x) <==> x in Fragments(s)
    decreases s, 1
  {
    if s.Node? {
      NoStepOfAll(s.allOf, x);
      assert Fragments(s) == [s] + FragmentsOfAll(s.allOf);
    }
  }

  lemma {:induction false} NoStepOfAll(nodes: seq<Schema>, x: Schema)
    requires x.Node?
    ensures (exists i :: 0 <= i < |nodes| && Reaches(nodes[i], [], x)) <==> x in FragmentsOfAll(nodes)
    decreases nodes, 0
  {
    if nodes != [] {
      NoStep(nodes[0], x);
      NoStepOfAll(nodes[1..], x);
      if i :| 0 <= i < |nodes| && Reaches(nodes[i], [], x) {
        if i > 0 {
          assert nodes[1..][i - 1] == nodes[i];
        }
      }
      if x in FragmentsOfAll(nodes[1..]) {
        var i :| 0 <= i < |nodes[1..]| && Reaches(nodes[1..][i], [], x);
        assert Reaches(nodes[i + 1], [], x);
      }
    }
  }

  lemma {:induction false} ReachOn(s: Schema, p: Path, y: Schema, r: Path, x: Schema)
    requires Reaches(s, p, y) && Reaches(y, r, x)
    ensures Reaches(s, p + r, x)
    decreases s
  {
    if p == [] && y == s {
      assert p + r == r;
    } else if i :| 0 <= i < |s.allOf| && Reaches(s.allOf[i], p, y) {
      ReachOn(s.allOf[i], p, y, r, x);
    } else {
      ReachOn(ChildAt(s, p[0]).value, p[1..], y, r, x);
      assert (p + r)[0] == p[0] && (p + r)[1..] == p[1..] + r;
    }
  }

  lemma ReachChild(s: Schema, p: Path, y: Schema, step: Step)
    requires Reaches(s, p, y) && y.Node? && ChildAt(y, step).Some?
    ensures Reaches(s, p + [step], ChildAt(y, step).value)
  {
    var child := ChildAt(y, step).value;
    assert Reaches(child, [step][1..], child);
    assert Reaches(y, [step], child);
    ReachOn(s, p, y, [step], child);
  }

  lemma ReachBranch(s: Schema, p: Path, y: Schema, i: nat)
    requires Reaches(s, p, y) && y.Node? && i < |y.allOf|
    ensures Reaches(s, p, y.allOf[i])
  {
    assert Reaches(y.allOf[i], [], y.allOf[i]);
    assert Reaches(y, [], y.allOf[i]);
    ReachOn(s, p, y, [], y.allOf[i]);
    assert p + [] == p;
  }

  /** The last step is a child of a node at the position before. */
  lemma {:induction false} LastStep(s: Schema, p: Path, step: Step, x: Schema) returns (y: Schema)
    requires Reaches(s, p + [step], x)
    ensures Reaches(s, p, y) && y.Node? && ChildAt(y, step).Some? && Reaches(ChildAt(y, step).value, [], x)
    decreases s
  {
    var q := p + [step];
    if i :| s.Node? && 0 <= i < |s.allOf| && Reaches(s.allOf[i], q, x) {
      y := LastStep(s.allOf[i], p, step, x);
    } else if p == [] {
      y := s;
      assert q[1..] == [];
    } else {
      assert q[0] == p[0] && q[1..] == p[1..] + [step];
      y := LastStep(ChildAt(s, p[0]).value, p[1..], step, x);
    }
  }

  lemma {:induction false} AtReached(s: Schema, p: Path)
    requires At(s, p).Some?
    ensures Reaches(s, p, At(s, p).value)
    decreases |p|
  {
    if p != [] {
      AtReached(ChildAt(s, p[0]).value, p[1..]);
    }
  }

  lemma {:induction false} LastDirect(s: Schema, p: Path, step: Step) returns (t: Schema)
    requires At(s, p + [step]).Some?
    ensures At(s, p) == Some(t) && t.Node? && ChildAt(t, step) == At(s, p + [step])
    decreases |p|
  {
    var q := p + [step];
    if p == [] {
      t := s;
      assert q[1..] == [];
    } else {
      assert q[0] == p[0] && q[1..] == p[1..] + [step];
      t := LastDirect(ChildAt(s, p[0]).value, p[1..], step);
    }
  }

  /** What is reached otherwise is reached through a branch of a node that stands outside every `allOf`. */
  lemma {:induction false} BranchAbove(s: Schema, p: Path, x: Schema) returns (k: nat, i: nat)
    requires Reaches(s, p, x) && At(s, p) != Some(x)
    ensures k <= |p| && At(s, p[..k]).Some? && At(s, p[..k]).value.Node? && i < |At(s, p[..k]).value.allOf|
    ensures Reaches(At(s, p[..k]).value.allOf[i], p[k..], x)
    decreases s
  {
    if j :| s.Node? && 0 <= j < |s.allOf| && Reaches(s.allOf[j], p, x) {
      k, i := 0, j;
      assert p[..0] == [] && p[0..] == p;
    } else {
      var child := ChildAt(s, p[0]).value;
      var k';
      k', i := BranchAbove(child, p[1..], x);
      k := k' + 1;
      assert p[..k][0] == p[0] && p[..k][1..] == p[1..][..k'];
      assert p[k..] == p[1..][k'..];
    }
  }

  // Reaching and the table of nodes

  lemma {:induction false} NodesInMember(fragments: seq<Schema>, p: Path, n: Schema)
    requires p != [] && forall i | 0 <= i < |fragments| :: fragments[i].Node?
    ensures n in NodesInFragments(fragments, p) <==>
            exists f :: f in fragments && ChildAt(f, p[0]).Some? && n in NodesIn(ChildAt(f, p[0]).value, p[1..])
    decreases |fragments|
  {
    if fragments != [] {
      var front, last := fragments[..|fragments| - 1], fragments[|fragments| - 1];
      NodesInMember(front, p, n);
      assert fragments == front + [last];
      assert forall f | f in fragments :: f in front || f == last;
      assert last in fragments;
    }
  }

  lemma {:induction false} NodeReached(s: Schema, p: Path, n: Schema)
    requires n in NodesIn(s, p)
    ensures Reaches(s, p, n)
    decreases |p|
  {
    if p != [] {
      NodesInMember(Fragments(s), p, n);
      var f :| f in Fragments(s) && ChildAt(f, p[0]).Some? && n in NodesIn(ChildAt(f, p[0]).value, p[1..]);
      NodeReached(ChildAt(f, p[0]).value, p[1..], n);
      assert ViaChild(f, p, n);
      FirstStep(s, p, n);
    }
  }

  lemma {:induction false} ReachedNode(s: Schema, p: Path, x: Schema) returns (n: Schema)
    requires Reaches(s, p, x)
    ensures n in NodesIn(s, p) && Reaches(n, [], x)
    decreases |p|
  {
    if p == [] {
      n := s;
    } else {
      FirstStep(s, p, x);
      var f :| f in Fragments(s) && ViaChild(f, p, x);
      n := ReachedNode(ChildAt(f, p[0]).value, p[1..], x);
      NodesInMember(Fragments(s), p, n);
    }
  }

  lemma DescribesReached(s: Schema, p: Path)
    ensures Describes(s, p) <==> exists x :: Reaches(s, p, x)
  {
    if Describes(s, p) {
      var n := NodesIn(s, p)[0];
      NodeReached(s, p, n);
      assert Reaches(s, p, n);
    } else {
      forall x ensures !Reaches(s, p, x) {
        if Reaches(s, p, x) {
          var n := ReachedNode(s, p, x);
          assert n in NodesIn(s, p);
        }
      }
    }
  }

  lemma ReachedDescribes(s: Schema, p: Path, x: Schema)
    requires Reaches(s, p, x)
    ensures Describes(s, p)
  {
    var n := ReachedNode(s, p, x);
    assert n in NodesIn(s, p);
  }

  lemma DescribesPrefix(s: Schema, p: Path, step: Step)
    requires Describes(s, p + [step])
    ensures Describes(s, p)
  {
    DescribesReached(s, p + [step]);
    var x :| Reaches(s, p + [step], x);
    var y := LastStep(s, p, step, x);
    ReachedDescribes(s, p, y);
  }

  // What acceptance says about positions

  lemma {:induction false} AcceptsHere(s: Schema, v: Value, w: World)
    requires Accepts(s, v, w)
    ensures AcceptsAt(s, [], v, w)
    decreases s
  {
    if s.Node? {
      forall i | 0 <= i < |s.allOf| ensures AcceptsAt(s.allOf[i], [], v, w) {
        AcceptsHere(s.allOf[i], v, w);
      }
    }
  }

  lemma AcceptsField(s: Schema, p: Path, v: Value, name: string, w: World)
    requires AcceptsAt(s, p, v, w) && v.Obj? && name in v.fields
    ensures AcceptsAt(s, p + [Prop(name)], v.fields[name], w)
  {
    forall x | Reaches(s, p + [Prop(name)], x) ensures Accepts(x, v.fields[name], w) {
      var y := LastStep(s, p, Prop(name), x);
      assert Accepts(y, v, w);
      AcceptsHere(y.properties[name], v.fields[name], w);
    }
  }

  lemma AcceptsElement(s: Schema, p: Path, v: Value, i: nat, w: World)
    requires AcceptsAt(s, p, v, w) && v.Arr? && i < |v.elements|
    ensures AcceptsAt(s, p + [Items], v.elements[i], w)
  {
    forall x | Reaches(s, p + [Items], x) ensures Accepts(x, v.elements[i], w) {
      var y := LastStep(s, p, Items, x);
      assert Accepts(y, v, w);
      AcceptsHere(y.items.value, v.elements[i], w);
    }
  }

  lemma AcceptsNodes(s: Schema, p: Path, v: Value, w: World)
    requires AcceptsAt(s, p, v, w)
    ensures AcceptsAll(NodesIn(s, p), v, w)
  {
    forall i | 0 <= i < |NodesIn(s, p)| ensures Accepts(NodesIn(s, p)[i], v, w) {
      NodeReached(s, p, NodesIn(s, p)[i]);
    }
  }

  // The entry of a position

  ghost predicate AllTypes(nodes: seq<Schema>, v: Value) {
    forall i | 0 <= i < |nodes| :: InTypes(v, EffectiveTypes(nodes[i]))
  }

  ghost predicate AllEnums(nodes: seq<Schema>, v: Value) {
    forall i | 0 <= i < |nodes| :: InEnum(v, EffectiveEnum(nodes[i]))
  }

  predicate Untyped(nodes: seq<Schema>) {
    forall i | 0 <= i < |nodes| :: EffectiveTypes(nodes[i]).None?
  }

  predicate Unlisted(nodes: seq<Schema>) {
    forall i | 0 <= i < |nodes| :: EffectiveEnum(nodes[i]).None?
  }

  /** The entry says of the nodes what they say together. */
  ghost predicate Summarizes(f: Option<Field>, nodes: seq<Schema>, step: Step, required: bool) {
    && (f.Some? <==> nodes != [] || required)
    && (f.Some? ==>
          && f.value.defined == (nodes != [] && step.Prop?)
          && f.value.arrayItem == (nodes != [] && step.Items?)
          && f.value.required == required
          && (f.value.types.None? <==> Untyped(nodes))
          && (f.value.enums.None? <==> Unlisted(nodes))
          && (forall v :: InTypes(v, f.value.types) <==> AllTypes(nodes, v))
          && (forall v :: InEnum(v, f.value.enums) <==> AllEnums(nodes, v)))
  }

  lemma AllConcat(a: seq<Schema>, b: seq<Schema>)
    ensures Untyped(a + b) <==> Untyped(a) && Untyped(b)
    ensures Unlisted(a + b) <==> Unlisted(a) && Unlisted(b)
    ensures forall v :: AllTypes(a + b, v) <==> AllTypes(a, v) && AllTypes(b, v)
    ensures forall v :: AllEnums(a + b, v) <==> AllEnums(a, v) && AllEnums(b, v)
  {
    var all := a + b;
    assert forall i | 0 <= i < |a| :: a[i] == all[i];
    assert forall i | 0 <= i < |b| :: b[i] == all[|a| + i];
    assert forall i | 0 <= i < |all| :: all[i] == if i < |a| then a[i] else b[i - |a|];
  }

  lemma CombineSummarizes(f: Option<Field>, a: seq<Schema>, x: bool, g: Option<Field>, b: seq<Schema>, y: bool,
                          step: Step)
    requires Summarizes(f, a, step, x) && Summarizes(g, b, step, y)
    ensures Summarizes(Combine(f, g), a + b, step, x || y)
  {
    AllConcat(a, b);
    if f.Some? && g.Some? {
      forall v ensures InTypes(v, Combine(f, g).value.types) <==> AllTypes(a + b, v) {
        IntersectDenotes(f.value.types, g.value.types, v);
      }
      forall v ensures InEnum(v, Combine(f, g).value.enums) <==> AllEnums(a + b, v) {
        IntersectEnumsDenotes(f.value.enums, g.value.enums, v);
      }
    }
  }

  /** Some node before the last step requires the name the path ends with. */
  ghost predicate Requires(nodes: seq<Schema>, step: Step) {
    step.Prop? && exists i :: 0 <= i < |nodes| && step.name in RequiredNames(Fragments(nodes[i]))
  }

  lemma RequiresConcat(a: seq<Schema>, b: seq<Schema>, step: Step)
    ensures Requires(a + b, step) <==> Requires(a, step) || Requires(b, step)
  {
    var all := a + b;
    assert forall i | 0 <= i < |a| :: a[i] == all[i];
    assert forall i | 0 <= i < |b| :: b[i] == all[|a| + i];
    assert forall i | 0 <= i < |all| :: all[i] == if i < |a| then a[i] else b[i - |a|];
  }

  function Last(p: Path): Step
    requires p != []
  {
    p[|p| - 1]
  }

  /** The table of fields and the table of nodes agree on every position. */
  lemma {:induction false} EntrySummarizes(s: Schema, p: Path)
    requires p != []
    ensures Summarizes(FieldIn(s, p), NodesIn(s, p), Last(p), Requires(NodesIn(s, p[..|p| - 1]), Last(p)))
    decreases |p|, 2
  {
    hide Summarizes;
    hide Requires;
    if s.Node? {
      var fs := Fragments(s);
      var required := RequiredNames(fs);
      if |p| == 1 {
        OneStep(fs, p, required);
        MarkSummarizes(s, p);
        var nodes := NodesInFragments(fs, p);
        CombineSummarizes(RequiredMark(required, p), [], Requires([s], p[0]), FragmentsField(fs, p, required), nodes,
                          Requires([s], p[0]) && nodes != [], p[0]);
        assert [] + nodes == nodes;
        assert p[..0] == [] && NodesIn(s, []) == [s];
      } else {
        MoreSteps(fs, p, required);
      }
    } else {
      FlagSummarizes(s, p);
    }
  }

  lemma FlagSummarizes(s: Schema, p: Path)
    requires s.Flag? && p != []
    ensures Summarizes(FieldIn(s, p), NodesIn(s, p), Last(p), Requires(NodesIn(s, p[..|p| - 1]), Last(p)))
  {
    var parents := NodesIn(s, p[..|p| - 1]);
    assert Fragments(s) == [] && RequiredNames([]) == {};
    assert forall i | 0 <= i < |parents| :: parents[i] == s;
  }

  lemma MarkSummarizes(s: Schema, p: Path)
    requires |p| == 1
    ensures Requires([s], p[0]) <==> p[0].Prop? && p[0].name in RequiredNames(Fragments(s))
    ensures Summarizes(RequiredMark(RequiredNames(Fragments(s)), p), [], p[0], Requires([s], p[0]))
  {
    assert [s][0] == s;
  }

  lemma OwnSummarizes(child: Schema, step: Step, required: set<string>)
    ensures Summarizes(Some(OwnField(child, step, required)), [child], step, step.Prop? && step.name in required)
  {
    var f := OwnField(child, step, required);
    assert [child][0] == child;
    assert f.types == EffectiveTypes(child) && f.enums == EffectiveEnum(child);
    assert forall v :: AllTypes([child], v) <==> InTypes(v, EffectiveTypes([child][0]));
    assert forall v :: AllEnums([child], v) <==> InEnum(v, EffectiveEnum([child][0]));
  }

  lemma {:induction false} OneStep(fs: seq<Schema>, p: Path, required: set<string>)
    requires |p| == 1 && forall i | 0 <= i < |fs| :: fs[i].Node?
    ensures Summarizes(FragmentsField(fs, p, required), NodesInFragments(fs, p), p[0],
                       p[0].Prop? && p[0].name in required && NodesInFragments(fs, p) != [])
    decreases |fs|
  {
    if fs != [] {
      var front, last := fs[..|fs| - 1], fs[|fs| - 1];
      OneStep(front, p, required);
      assert p[1..] == [];
      var child := ChildAt(last, p[0]);
      var nodes := if child.None? then [] else [child.value];
      var marked := p[0].Prop? && p[0].name in required;
      if child.Some? {
        OwnSummarizes(child.value, p[0], required);
        assert FragmentField(last, p, required) == Some(OwnField(child.value, p[0], required));
        assert NodesIn(child.value, p[1..]) == nodes;
      }
      assert Summarizes(FragmentField(last, p, required), nodes, p[0], marked && child.Some?);
      CombineSummarizes(FragmentsField(front, p, required), NodesInFragments(front, p), marked
                        && NodesInFragments(front, p) != [],
                        FragmentField(last, p, required), nodes, marked && child.Some?, p[0]);
    }
  }

  lemma NothingSummarizes(p: Path)
    requires |p| > 1
    ensures Summarizes(None, [], Last(p), Requires([], Last(p)))
  {
  }

  lemma {:induction false} MoreSteps(fs: seq<Schema>, p: Path, required: set<string>)
    requires |p| > 1 && forall i | 0 <= i < |fs| :: fs[i].Node?
    ensures Summarizes(FragmentsField(fs, p, required), NodesInFragments(fs, p), Last(p),
                       Requires(NodesInFragments(fs, p[..|p| - 1]), Last(p)))
    decreases |p|, 1, |fs|
  {
    hide Summarizes;
    hide Requires;
    if fs == [] {
      NothingSummarizes(p);
    } else {
      var front, last := fs[..|fs| - 1], fs[|fs| - 1];
      var above := p[..|p| - 1];
      MoreSteps(front, p, required);
      ChildSummarizes(last, p, required);
      assert above[0] == p[0];
      var nodes, parents := ChildNodes(last, p), ChildNodes(last, above);
      RequiresConcat(NodesInFragments(front, above), parents, Last(p));
      CombineSummarizes(FragmentsField(front, p, required), NodesInFragments(front, p),
                        Requires(NodesInFragments(front, above), Last(p)),
                        FragmentField(last, p, required), nodes, Requires(parents, Last(p)), Last(p));
    }
  }

  /** The nodes one fragment contributes. */
  function ChildNodes(f: Schema, p: Path): seq<Schema>
    requires f.Node? && p != []
  {
    if ChildAt(f, p[0]).None? then [] else NodesIn(ChildAt(f, p[0]).value, p[1..])
  }

  lemma {:induction false} ChildSummarizes(f: Schema, p: Path, required: set<string>)
    requires f.Node? && |p| > 1
    ensures Summarizes(FragmentField(f, p, required), ChildNodes(f, p), Last(p),
                       Requires(ChildNodes(f, p[..|p| - 1]), Last(p)))
    decreases |p|, 0
  {
    hide Summarizes;
    hide Requires;
    var above := p[..|p| - 1];
    assert above[0] == p[0];
    if ChildAt(f, p[0]).Some? {
      var child := ChildAt(f, p[0]).value;
      EntrySummarizes(child, p[1..]);
      assert p[1..][..|p| - 2] == above[1..] && Last(p[1..]) == Last(p);
      assert FragmentField(f, p, required) == FieldIn(child, p[1..]);
    } else {
      NothingSummarizes(p);
    }
  }

  // From the entry to the nodes reached

  lemma ReachedFragment(s: Schema, p: Path, x: Schema) returns (n: Schema)
    requires Reaches(s, p, x) && x.Node?
    ensures n in NodesIn(s, p) && x in Fragments(n)
  {
    n := ReachedNode(s, p, x);
    NoStep(n, x);
  }

  lemma FragmentReached(s: Schema, p: Path, n: Schema, x: Schema)
    requires n in NodesIn(s, p) && x in Fragments(n)
    ensures Reaches(s, p, x)
  {
    NodeReached(s, p, n);
    NoStep(n, x);
    ReachOn(s, p, n, [], x);
    assert p + [] == p;
  }

  lemma AcceptsTypes(s: Schema, p: Path, v: Value, w: World)
    requires AcceptsAt(s, p, v, w)
    ensures AllTypes(NodesIn(s, p), v) && AllEnums(NodesIn(s, p), v)
  {
    AcceptsNodes(s, p, v, w);
    forall i | 0 <= i < |NodesIn(s, p)|
      ensures InTypes(v, EffectiveTypes(NodesIn(s, p)[i])) && InEnum(v, EffectiveEnum(NodesIn(s, p)[i]))
    {
      EffectiveTypesSound(NodesIn(s, p)[i], v, w);
      EffectiveEnumSound(NodesIn(s, p)[i], v, w);
    }
  }

  lemma ReachedTypes(s: Schema, p: Path, x: Schema, v: Value)
    requires Reaches(s, p, x) && x.Node? && AllTypes(NodesIn(s, p), v) && AllEnums(NodesIn(s, p), v)
    ensures InTypes(v, KeywordTypes(x.types, x.nullable)) && InEnum(v, KeywordEnum(x))
  {
    var n := ReachedFragment(s, p, x);
    var i :| 0 <= i < |NodesIn(s, p)| && NodesIn(s, p)[i] == n;
    assert InTypes(v, EffectiveTypes(n)) && InEnum(v, EffectiveEnum(n));
    FoldTypesDenotes(Fragments(n), v);
    FoldEnumsDenotes(Fragments(n), v);
  }

  lemma ReachedUntyped(s: Schema, p: Path, x: Schema)
    requires Reaches(s, p, x) && x.Node?
    ensures Untyped(NodesIn(s, p)) ==> x.types == {}
    ensures Unlisted(NodesIn(s, p)) ==> x.enumeration.None? && x.constant.None?
  {
    var n := ReachedFragment(s, p, x);
    var i :| 0 <= i < |NodesIn(s, p)| && NodesIn(s, p)[i] == n;
    UnconstrainedFold(Fragments(n));
  }

  lemma {:induction false} UnconstrainedFold(fs: seq<Schema>)
    requires forall i | 0 <= i < |fs| :: fs[i].Node?
    ensures FoldTypes(fs).None? ==> forall f | f in fs :: f.types == {}
    ensures FoldEnums(fs).None? ==> forall f | f in fs :: f.enumeration.None? && f.constant.None?
  {
    if fs != [] {
      var front, last := fs[..|fs| - 1], fs[|fs| - 1];
      UnconstrainedFold(front);
      assert fs == front + [last];
    }
  }

  lemma {:induction false} RequiredMember(fs: seq<Schema>, name: string)
    requires forall i | 0 <= i < |fs| :: fs[i].Node?
    ensures name in RequiredNames(fs) <==> exists f :: f in fs && name in f.required
  {
    if fs != [] {
      var front, last := fs[..|fs| - 1], fs[|fs| - 1];
      RequiredMember(front, name);
      assert fs == front + [last];
      assert last in fs;
    }
  }

  lemma ReachedRequires(s: Schema, p: Path, x: Schema, name: string)
    requires Reaches(s, p, x) && x.Node? && name in x.required
    ensures Requires(NodesIn(s, p), Prop(name))
  {
    var n := ReachedFragment(s, p, x);
    RequiredMember(Fragments(n), name);
    var i :| 0 <= i < |NodesIn(s, p)| && NodesIn(s, p)[i] == n;
  }

  lemma AcceptsRequired(s: Schema, p: Path, v: Value, name: string, w: World)
    requires AcceptsAt(s, p, v, w) && v.Obj? && Requires(NodesIn(s, p), Prop(name))
    ensures name in v.fields
  {
    var i :| 0 <= i < |NodesIn(s, p)| && name in RequiredNames(Fragments(NodesIn(s, p)[i]));
    var n := NodesIn(s, p)[i];
    RequiredMember(Fragments(n), name);
    var x :| x in Fragments(n) && name in x.required;
    FragmentReached(s, p, n, x);
    assert Accepts(x, v, w);
  }
}

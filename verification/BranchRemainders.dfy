/**
 What comparing the remainders of two `allOf` lists establishes: services/vdoc/semantic_constraints.go,
 allOfConstraintRemainder.

 The remainder keeps bounds, sizes, `additionalProperties` and the keywords that are compared as they
 stand, at every position of a branch. Equal remainders mean that each of these has a counterpart at
 the same position on the other side, and a branch without a remainder has none of them anywhere.
 The lists are compared without regard to order, and members that keep nothing are dropped.
 */
module BranchRemainders {
  import opened Wrappers
  import opened Schemas
  import opened NumericBounds
  import opened CanonicalForms
  import opened SchemaFields
  import opened SchemaDiff
  import opened SchemaPositions

  /** What a remainder keeps of one node. */
  function Own(s: Schema, exact: real -> bool): Canon {
    match s
    case Flag(allow) => CanonFlag(allow)
    case Node(_, _, _, _, bounds, sizes, _, _, _, additional, _, anyOf, oneOf, others) =>
      CanonNode({}, None, None, None, CanonicalBounds(bounds, exact), sizes, map[], {}, None,
                if additional.Some? then Some(CanonicalSchema(additional.value, exact)) else None,
                multiset{}, multiset(CanonicalAll(anyOf, exact)), multiset(CanonicalAll(oneOf, exact)), others)
  }

  lemma {:induction false} RemainderMember(nodes: seq<Schema>, c: Canon, exact: real -> bool)
    ensures c in Remainders(nodes, exact) <==> exists i :: 0 <= i < |nodes| && Remainder(nodes[i], exact) == Some(c)
  {
    if nodes != [] {
      RemainderMember(nodes[1..], c, exact);
      if i :| 0 <= i < |nodes| && Remainder(nodes[i], exact) == Some(c) {
        if i > 0 {
          assert nodes[1..][i - 1] == nodes[i];
        }
      }
      if c in Remainders(nodes[1..], exact) {
        var i :| 0 <= i < |nodes[1..]| && Remainder(nodes[1..][i], exact) == Some(c);
        assert Remainder(nodes[i + 1], exact) == Some(c);
      }
    }
  }

  lemma NoRemainders(nodes: seq<Schema>, i: nat, exact: real -> bool)
    requires multiset(Remainders(nodes, exact)) == multiset{} && i < |nodes|
    ensures Remainder(nodes[i], exact).None?
  {
    var rest := Remainder(nodes[i], exact);
    RemainderMember(nodes, rest.GetOr(NothingLeft), exact);
    assert rest.Some? ==> rest.GetOr(NothingLeft) in multiset(Remainders(nodes, exact));
  }

  lemma NothingHere(s: Schema, exact: real -> bool)
    requires Remainder(s, exact).None?
    ensures Own(s, exact) == NothingLeft && s.Node? && multiset(Remainders(s.allOf, exact)) == multiset{}
  {
  }

  /** A branch without a remainder constrains nothing this way, at any position. */
  lemma {:induction false} NothingBelow(s: Schema, p: Path, x: Schema, exact: real -> bool)
    requires Remainder(s, exact).None? && Reaches(s, p, x)
    ensures Own(x, exact) == NothingLeft
    decreases s
  {
    hide Own;
    hide Remainder;
    hide Remainders;
    NothingHere(s, exact);
    if p == [] && x == s {
    } else if i :| 0 <= i < |s.allOf| && Reaches(s.allOf[i], p, x) {
      NoRemainders(s.allOf, i, exact);
      NothingBelow(s.allOf[i], p, x, exact);
    } else {
      var child := ChildAt(s, p[0]).value;
      NoChildRemainder(s, p[0], exact);
      NothingBelow(child, p[1..], x, exact);
    }
  }

  lemma NoChildRemainder(s: Schema, step: Step, exact: real -> bool)
    requires s.Node? && Remainder(s, exact).None? && ChildAt(s, step).Some?
    ensures Remainder(ChildAt(s, step).value, exact).None?
  {
    var kept := map name | name in s.properties && Remainder(s.properties[name], exact).Some? ::
      Remainder(s.properties[name], exact).value;
    assert kept == map[];
    assert forall name | name in s.properties :: Remainder(s.properties[name], exact).Some? <==> name in kept;
  }

  /** Equal remainders: every node of one side that keeps something has its like on the other. */
  lemma {:induction false} SameRemainder(f: Schema, t: Schema, p: Path, x: Schema, exact: real -> bool)
    returns (y: Schema)
    requires Remainder(f, exact) == Remainder(t, exact) && Reaches(t, p, x)
    ensures Own(x, exact) == NothingLeft || (Reaches(f, p, y) && Own(y, exact) == Own(x, exact))
    decreases t, 0
  {
    hide Remainder;
    hide Remainders;
    hide Own;
    y := f;
    if Remainder(t, exact).None? {
      NothingBelow(t, p, x, exact);
    } else if p == [] && x == t {
      SameOwn(f, t, exact);
    } else if i :| 0 <= i < |t.allOf| && Reaches(t.allOf[i], p, x) {
      SameBranches(f, t, exact);
      y := SameRemainders(f.allOf, t.allOf, i, p, x, exact);
      if Own(x, exact) != NothingLeft {
        var j :| 0 <= j < |f.allOf| && Reaches(f.allOf[j], p, y);
      }
    } else {
      var child := ChildAt(t, p[0]).value;
      if Remainder(child, exact).None? {
        NothingBelow(child, p[1..], x, exact);
      } else {
        SameChild(f, t, p[0], exact);
        y := SameRemainder(ChildAt(f, p[0]).value, child, p[1..], x, exact);
      }
    }
  }

  lemma {:induction false} SameRemainders(fs: seq<Schema>, ts: seq<Schema>, i: nat, p: Path, x: Schema,
                                          exact: real -> bool)
    returns (y: Schema)
    requires multiset(Remainders(fs, exact)) == multiset(Remainders(ts, exact))
    requires i < |ts| && Reaches(ts[i], p, x)
    ensures Own(x, exact) == NothingLeft ||
            ((exists j :: 0 <= j < |fs| && Reaches(fs[j], p, y)) && Own(y, exact) == Own(x, exact))
    decreases ts[i], 1
  {
    y := x;
    var rest := Remainder(ts[i], exact);
    if rest.None? {
      NothingBelow(ts[i], p, x, exact);
    } else {
      RemainderMember(ts, rest.value, exact);
      assert rest.value in multiset(Remainders(ts, exact));
      assert rest.value in multiset(Remainders(fs, exact));
      RemainderMember(fs, rest.value, exact);
      var j :| 0 <= j < |fs| && Remainder(fs[j], exact) == rest;
      y := SameRemainder(fs[j], ts[i], p, x, exact);
    }
  }

  lemma SameOwn(f: Schema, t: Schema, exact: real -> bool)
    requires Remainder(f, exact) == Remainder(t, exact) && Remainder(t, exact).Some?
    ensures Own(f, exact) == Own(t, exact)
  {
  }

  lemma SameBranches(f: Schema, t: Schema, exact: real -> bool)
    requires t.Node? && Remainder(f, exact) == Remainder(t, exact) && Remainder(t, exact).Some?
    ensures f.Node? && multiset(Remainders(f.allOf, exact)) == multiset(Remainders(t.allOf, exact))
  {
  }

  lemma SameChild(f: Schema, t: Schema, step: Step, exact: real -> bool)
    requires t.Node? && Remainder(f, exact) == Remainder(t, exact) && Remainder(t, exact).Some?
    requires ChildAt(t, step).Some? && Remainder(ChildAt(t, step).value, exact).Some?
    ensures f.Node? && ChildAt(f, step).Some?
    ensures Remainder(ChildAt(f, step).value, exact) == Remainder(ChildAt(t, step).value, exact)
  {
    if step.Prop? {
      var a, b := Remainder(f, exact).value.properties, Remainder(t, exact).value.properties;
      assert step.name in b;
      assert a[step.name] == b[step.name];
    }
  }
}

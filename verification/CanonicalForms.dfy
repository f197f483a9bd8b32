/**
 The comparison form of a schema: services/vdoc/semantic_constraints.go,
 canonicalSchemaConstraint, canonicalSchemaKeyword and canonicalSet. The source sorts the JSON
 texts of the members of `enum`, `required`, `type` and `allOf`; equal sorted lists are equal
 multisets, which is how they are kept here.
 */
module CanonicalForms {
  import opened Wrappers
  import opened Schemas
  import opened NumericBounds

  datatype Canon =
    | CanonFlag(allow: bool)
    | CanonNode(
        types: set<TypeName>,
        nullable: Option<bool>,
        enumeration: Option<multiset<Value>>,
        constant: Option<Value>,
        bounds: map<BoundKey, real>,
        sizes: map<SizeKey, real>,
        properties: map<string, Canon>,
        required: set<string>,
        items: Option<Canon>,
        additional: Option<Canon>,
        allOf: multiset<Canon>,
        anyOf: multiset<Canon>,
        oneOf: multiset<Canon>,
        others: map<string, Value>)

  function CanonicalSchema(s: Schema, exact: real -> bool): Canon
    decreases s, 1
  {
    match s
    case Flag(allow) => CanonFlag(allow)
    case Node(types, nullable, enumeration, constant, bounds, sizes, properties, required, items, additional, allOf,
              anyOf, oneOf, others) =>
      CanonNode(
        types, nullable,
        if enumeration.Some? then Some(multiset(enumeration.value)) else None,
        constant,
        CanonicalBounds(bounds, exact),
        sizes,
        map name | name in properties :: CanonicalSchema(properties[name], exact),
        required,
        if items.Some? then Some(CanonicalSchema(items.value, exact)) else None,
        if additional.Some? then Some(CanonicalSchema(additional.value, exact)) else None,
        multiset(CanonicalAll(allOf, exact)), multiset(CanonicalAll(anyOf, exact)),
          multiset(CanonicalAll(oneOf, exact)),
        others)
  }

  function CanonicalAll(nodes: seq<Schema>, exact: real -> bool): (r: seq<Canon>)
    ensures |r| == |nodes|
    ensures forall i | 0 <= i < |nodes| :: r[i] == CanonicalSchema(nodes[i], exact)
    decreases nodes, 0
  {
    if nodes == [] then [] else [CanonicalSchema(nodes[0], exact)] + CanonicalAll(nodes[1..], exact)
  }

  /** Comparing canonical forms never equates schemas that mean different things. */
  lemma {:induction false} CanonicalKeepsMeaning(a: Schema, b: Schema, v: Value, w: World)
    requires CanonicalSchema(a, w.exact) == CanonicalSchema(b, w.exact)
    ensures Accepts(a, v, w) <==> Accepts(b, v, w)
    decreases a, 1
  {
    if a.Node? {
      hide Accepts;
      hide LocalOk;
      CanonicalLocal(a, b, v, w);
      CanonicalParts(a, b, v, w);
      SameMembers(a, b, w.exact);
      SameAccepting(a.allOf, b.allOf, v, w);
      SameAccepting(a.anyOf, b.anyOf, v, w);
      SameAccepting(a.oneOf, b.oneOf, v, w);
      AcceptsByParts(a, v, w);
      AcceptsByParts(b, v, w);
    }
  }

  /** Properties and elements of the value. */
  ghost predicate PartsOk(s: Schema, v: Value, w: World)
    requires s.Node?
  {
    && (v.Obj? ==>
          forall name | name in v.fields ::
            if name in s.properties then Accepts(s.properties[name], v.fields[name], w)
            else s.additional.Some? && !Covered(s.others, name, w) ==> Accepts(s.additional.value, v.fields[name], w))
    && (v.Arr? && s.items.Some? ==>
          forall i | 0 <= i < |v.elements| :: Accepts(s.items.value, v.elements[i], w))
  }

  lemma AcceptsByParts(s: Schema, v: Value, w: World)
    requires s.Node?
    ensures Accepts(s, v, w) <==>
            && LocalOk(s, v, w) && PartsOk(s, v, w) && Accepting(s.allOf, v, w) == |s.allOf|
            && (s.anyOf != [] ==> Accepting(s.anyOf, v, w) > 0) && (s.oneOf != [] ==> Accepting(s.oneOf, v, w) == 1)
  {
    hide LocalOk;
    AllAccepting(s.allOf, v, w);
  }

  lemma {:induction false} AllAccepting(nodes: seq<Schema>, v: Value, w: World)
    ensures Accepting(nodes, v, w) <= |nodes|
    ensures Accepting(nodes, v, w) == |nodes| <==> AcceptsAll(nodes, v, w)
  {
    hide Accepts;
    if nodes != [] {
      AllAccepting(nodes[1..], v, w);
      assert forall i | 0 < i < |nodes| :: nodes[i] == nodes[1..][i - 1];
      assert forall i | 0 <= i < |nodes| - 1 :: nodes[1..][i] == nodes[i + 1];
    }
  }

  lemma {:induction false} CanonicalParts(a: Schema, b: Schema, v: Value, w: World)
    requires a.Node? && b.Node?
    requires CanonicalSchema(a, w.exact) == CanonicalSchema(b, w.exact)
    ensures PartsOk(a, v, w) <==> PartsOk(b, v, w)
    decreases a, 0
  {
    hide Accepts;
    var ca, cb := CanonicalSchema(a, w.exact), CanonicalSchema(b, w.exact);
    assert forall name ::
      (name in a.properties <==> name in ca.properties) && (name in b.properties <==> name in cb.properties);
    if v.Obj? {
      forall name | name in v.fields
        ensures (if name in a.properties then Accepts(a.properties[name], v.fields[name], w)
                 else a.additional.Some? && !Covered(a.others, name, w) ==>
                   Accepts(a.additional.value, v.fields[name], w))
            <==> (if name in b.properties then Accepts(b.properties[name], v.fields[name], w)
                  else b.additional.Some? && !Covered(b.others, name, w) ==>
                    Accepts(b.additional.value, v.fields[name], w))
      {
        if name in a.properties {
          assert ca.properties[name] == cb.properties[name];
          CanonicalKeepsMeaning(a.properties[name], b.properties[name], v.fields[name], w);
        } else if a.additional.Some? {
          CanonicalKeepsMeaning(a.additional.value, b.additional.value, v.fields[name], w);
        }
      }
    }
    if v.Arr? && a.items.Some? {
      forall i | 0 <= i < |v.elements|
        ensures Accepts(a.items.value, v.elements[i], w) <==> Accepts(b.items.value, v.elements[i], w)
      {
        CanonicalKeepsMeaning(a.items.value, b.items.value, v.elements[i], w);
      }
    }
  }

  lemma SameMembers(a: Schema, b: Schema, exact: real -> bool)
    requires a.Node? && b.Node? && CanonicalSchema(a, exact) == CanonicalSchema(b, exact)
    ensures multiset(CanonicalAll(a.allOf, exact)) == multiset(CanonicalAll(b.allOf, exact))
    ensures multiset(CanonicalAll(a.anyOf, exact)) == multiset(CanonicalAll(b.anyOf, exact))
    ensures multiset(CanonicalAll(a.oneOf, exact)) == multiset(CanonicalAll(b.oneOf, exact))
    ensures |a.allOf| == |b.allOf| && |a.anyOf| == |b.anyOf| && |a.oneOf| == |b.oneOf|
  {
    SameLength(CanonicalAll(a.allOf, exact), CanonicalAll(b.allOf, exact));
    SameLength(CanonicalAll(a.anyOf, exact), CanonicalAll(b.anyOf, exact));
    SameLength(CanonicalAll(a.oneOf, exact), CanonicalAll(b.oneOf, exact));
  }

  lemma SameLength<T>(a: seq<T>, b: seq<T>)
    requires multiset(a) == multiset(b)
    ensures |a| == |b|
  {
    assert |multiset(a)| == |a|;
  }

  lemma CanonicalLocal(a: Schema, b: Schema, v: Value, w: World)
    requires a.Node? && b.Node?
    requires CanonicalSchema(a, w.exact) == CanonicalSchema(b, w.exact)
    ensures LocalOk(a, v, w) <==> LocalOk(b, v, w)
  {
    if v.Num? {
      CanonicalBoundsKeepRange(a.bounds, w.exact, v.n);
      CanonicalBoundsKeepRange(b.bounds, w.exact, v.n);
    }
    if a.enumeration.Some? {
      assert v in a.enumeration.value <==> v in multiset(a.enumeration.value);
      assert v in b.enumeration.value <==> v in multiset(b.enumeration.value);
    }
  }

  // Counting members

  /** The same members, in any order, accept equally often. */
  lemma {:induction false} SameAccepting(a: seq<Schema>, b: seq<Schema>, v: Value, w: World)
    requires multiset(CanonicalAll(a, w.exact)) == multiset(CanonicalAll(b, w.exact))
    ensures Accepting(a, v, w) == Accepting(b, v, w)
    decreases a, 0
  {
    hide CanonicalSchema;
    hide CanonicalAll;
    hide Accepts;
    var ca, cb := CanonicalAll(a, w.exact), CanonicalAll(b, w.exact);
    if a == [] {
      assert |multiset(ca)| == |multiset(cb)| == |cb|;
    } else {
      var j := SameCanon(ca, cb);
      var rest := b[..j] + b[j + 1..];
      SameRest(a, b, j, w.exact);
      SameAccepting(a[1..], rest, v, w);
      AcceptingWithout(b, j, v, w);
      CanonicalKeepsMeaning(a[0], b[j], v, w);
    }
  }

  lemma SameRest(a: seq<Schema>, b: seq<Schema>, j: nat, exact: real -> bool)
    requires a != [] && j < |b| && multiset(CanonicalAll(a, exact)) == multiset(CanonicalAll(b, exact))
    requires CanonicalAll(a, exact)[0] == CanonicalAll(b, exact)[j]
    ensures multiset(CanonicalAll(a[1..], exact)) == multiset(CanonicalAll(b[..j] + b[j + 1..], exact))
    ensures CanonicalSchema(a[0], exact) == CanonicalSchema(b[j], exact)
  {
    hide CanonicalSchema;
    hide CanonicalAll;
    var ca, cb := CanonicalAll(a, exact), CanonicalAll(b, exact);
    CanonicalWithout(a, 0, exact);
    CanonicalWithout(b, j, exact);
    assert a[..0] + a[1..] == a[1..];
    OneLess(multiset(ca), multiset(cb), ca[0], cb[j],
            multiset(CanonicalAll(a[1..], exact)), multiset(CanonicalAll(b[..j] + b[j + 1..], exact)));
  }

  lemma OneLess<T>(a: multiset<T>, b: multiset<T>, x: T, y: T, a': multiset<T>, b': multiset<T>)
    requires a == b && x == y && a' == a - multiset{x} && b' == b - multiset{y}
    ensures a' == b'
  {
  }

  lemma SameCanon(a: seq<Canon>, b: seq<Canon>) returns (j: nat)
    requires a != [] && multiset(a) == multiset(b)
    ensures j < |b| && b[j] == a[0]
  {
    assert a[0] in multiset(a);
    assert a[0] in multiset(b);
    j :| 0 <= j < |b| && b[j] == a[0];
  }

  lemma Without<T>(s: seq<T>, j: nat)
    requires j < |s|
    ensures multiset(s[..j] + s[j + 1..]) == multiset(s) - multiset{s[j]}
  {
    assert s == s[..j] + [s[j]] + s[j + 1..];
  }

  lemma CanonicalWithout(b: seq<Schema>, j: nat, exact: real -> bool)
    requires j < |b|
    ensures var all := CanonicalAll(b, exact);
            multiset(CanonicalAll(b[..j] + b[j + 1..], exact)) == multiset(all) - multiset{all[j]}
  {
    hide CanonicalSchema;
    hide CanonicalAll;
    var all, rest := CanonicalAll(b, exact), CanonicalAll(b[..j] + b[j + 1..], exact);
    Without(all, j);
    assert rest == all[..j] + all[j + 1..];
  }

  lemma {:induction false} AcceptingWithout(b: seq<Schema>, j: nat, v: Value, w: World)
    requires j < |b|
    ensures Accepting(b, v, w) == Accepting(b[..j] + b[j + 1..], v, w) + if Accepts(b[j], v, w) then 1 else 0
    decreases j
  {
    var rest := b[..j] + b[j + 1..];
    if j == 0 {
      assert rest == b[1..];
    } else {
      AcceptingWithout(b[1..], j - 1, v, w);
      assert rest[0] == b[0] && rest[1..] == b[1..][..j - 1] + b[1..][j..];
    }
  }
}

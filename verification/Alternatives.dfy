/**
 Changes to `anyOf` and `oneOf`: services/vdoc/semantic_constraints.go, compareSchemaConstraints,
 disjointTypes and setDifference.

 Members are compared by their canonical form. A list that only gains members, or only loses some,
 is judged by the direction of the message; for `oneOf` this needs types that exclude one another,
 because a new member could otherwise turn one accepting member into two.
 */
module Alternatives {
  import opened Wrappers
  import opened Schemas
  import opened TypeLattice
  import opened CanonicalForms

  datatype Keyword = AnyOf | OneOf

  /** What the keyword asks of a value: some member accepts it, or exactly one does. */
  ghost predicate Satisfies(key: Keyword, members: seq<Schema>, v: Value, w: World) {
    members != [] ==>
      match key
      case AnyOf => Accepting(members, v, w) > 0
      case OneOf => Accepting(members, v, w) == 1
  }

  datatype Outcome = Unchanged | Review | Changed(breaking: bool)

  function CanonicalMembers(members: seq<Schema>, exact: real -> bool): multiset<Canon> {
    multiset(CanonicalAll(members, exact))
  }

  /** JSON Schema counts an integer as a number. */
  function Kinds(types: set<TypeName>): set<TypeName> {
    set t | t in types :: if t == TInteger then TNumber else t
  }

  predicate OwnKinds(s: Schema) {
    var types := EffectiveTypes(s);
    types.Some? && types.value != {} && !(TInteger in types.value && TNumber in types.value)
  }

  predicate Apart(a: Schema, b: Schema) {
    EffectiveTypes(a).Some? && EffectiveTypes(b).Some? ==>
      Kinds(EffectiveTypes(a).value) !! Kinds(EffectiveTypes(b).value)
  }

  /** disjointTypes: every member is typed, and no two admit the same kind of value. */
  predicate Disjoint(members: seq<Schema>) {
    && (forall i | 0 <= i < |members| :: OwnKinds(members[i]))
    && (forall i, j | 0 <= i < j < |members| :: Apart(members[i], members[j]))
  }

  predicate Loses(a: multiset<Canon>, b: multiset<Canon>) {
    exists c :: c in a && c !in b
  }

  function Compared(key: Keyword, prev: seq<Schema>, next: seq<Schema>, response: bool, exact: real -> bool): Outcome {
    var a, z := CanonicalMembers(prev, exact), CanonicalMembers(next, exact);
    if a == z then Unchanged
    else if prev == [] || next == [] then Review
    else
      var removed, added := Loses(a, z), Loses(z, a);
      if (removed && added) || (key == OneOf && (!Disjoint(prev) || !Disjoint(next))) then Review
      else Changed((!response && removed) || (response && added))
  }

  method SetDifference(a: seq<Canon>, z: seq<Canon>) returns (out: seq<Canon>)
    ensures forall c :: c in out <==> c in a && c !in z
    ensures out != [] <==> Loses(multiset(a), multiset(z))
  {
    out := [];
    for i := 0 to |a|
      invariant forall c :: c in out <==> c in a[..i] && c !in z
    {
      if a[i] !in z {
        out := out + [a[i]];
      }
    }
    if out != [] {
      assert out[0] in out && out[0] in multiset(a) && out[0] !in multiset(z);
    } else {
      assert forall c :: c in multiset(a) <==> c in a;
    }
  }

  method DisjointTypes(items: seq<Schema>) returns (disjoint: bool)
    ensures disjoint == Disjoint(items)
  {
    var seen: set<TypeName> := {};
    for i := 0 to |items|
      invariant forall t :: t in seen <==> exists j :: 0 <= j < i && t in Kinds(EffectiveTypes(items[j]).GetOr({}))
      invariant forall j | 0 <= j < i :: OwnKinds(items[j])
      invariant forall j, k | 0 <= j < k < i :: Apart(items[j], items[k])
    {
      var types := SchemaType(items[i]);
      if types.None? || types.value == {} {
        return false;
      }
      var fresh' := AddKinds(types.value, seen);
      if fresh'.None? {
        SeenTwice(items, i, types.value, seen);
        return false;
      }
      seen := fresh'.value;
    }
    return true;
  }

  /** The inner loop: each name once, with those seen before; None when one repeats. */
  method AddKinds(types: set<TypeName>, seen: set<TypeName>) returns (r: Option<set<TypeName>>)
    ensures r.Some? <==> Kinds(types) !! seen && !(TInteger in types && TNumber in types)
    ensures r.Some? ==> r.value == seen + Kinds(types)
  {
    var rest, all := types, seen;
    while rest != {}
      invariant rest <= types
      invariant all == seen + Kinds(types - rest)
      invariant Kinds(types - rest) !! seen && !(TInteger in types - rest && TNumber in types - rest)
      decreases rest
    {
      var t :| t in rest;
      var kind := if t == TInteger then TNumber else t;
      if kind in all {
        return None;
      }
      assert types - (rest - {t}) == types - rest + {t};
      assert Kinds(types - rest + {t}) == Kinds(types - rest) + {kind};
      all := all + {kind};
      rest := rest - {t};
    }
    assert types - rest == types;
    return Some(all);
  }

  lemma SeenTwice(items: seq<Schema>, i: nat, types: set<TypeName>, seen: set<TypeName>)
    requires i < |items| && EffectiveTypes(items[i]) == Some(types)
    requires forall t :: t in seen <==> exists j :: 0 <= j < i && t in Kinds(EffectiveTypes(items[j]).GetOr({}))
    requires !(Kinds(types) !! seen) || (TInteger in types && TNumber in types)
    ensures !Disjoint(items)
  {
    if !(TInteger in types && TNumber in types) {
      var t :| t in Kinds(types) && t in seen;
      var j :| 0 <= j < i && t in Kinds(EffectiveTypes(items[j]).GetOr({}));
      if EffectiveTypes(items[j]).Some? {
        assert !Apart(items[j], items[i]);
      }
    }
  }

  method CompareAlternatives(key: Keyword, prev: seq<Schema>, next: seq<Schema>, response: bool, exact: real -> bool)
    returns (outcome: Outcome)
    ensures outcome == Compared(key, prev, next, response, exact)
  {
    hide CanonicalSchema;
    hide Disjoint;
    var a, z := CanonicalMembers(prev, exact), CanonicalMembers(next, exact);
    if a == z {
      return Unchanged;
    }
    if prev == [] || next == [] {
      return Review;
    }
    var removed := SetDifference(CanonicalAll(prev, exact), CanonicalAll(next, exact));
    var added := SetDifference(CanonicalAll(next, exact), CanonicalAll(prev, exact));
    if |removed| > 0 && |added| > 0 {
      return Review;
    }
    if key == OneOf {
      var before := DisjointTypes(prev);
      var after := DisjointTypes(next);
      if !before || !after {
        return Review;
      }
    }
    return Changed((!response && |removed| > 0) || (response && |added| > 0));
  }

  // What silence means

  lemma {:induction false} SomeAccepting(members: seq<Schema>, v: Value, w: World)
    ensures Accepting(members, v, w) > 0 <==> exists i :: 0 <= i < |members| && Accepts(members[i], v, w)
  {
    if members != [] {
      SomeAccepting(members[1..], v, w);
      assert forall i | 0 < i < |members| :: members[i] == members[1..][i - 1];
      assert forall i | 0 <= i < |members| - 1 :: members[1..][i] == members[i + 1];
    }
  }

  function ValueKind(v: Value): TypeName {
    match v
    case Null => TNull
    case Bool(_) => TBoolean
    case Num(_) => TNumber
    case Str(_) => TString
    case Arr(_) => TArray
    case Obj(_) => TObject
  }

  lemma AcceptedKind(s: Schema, v: Value, w: World)
    requires OwnKinds(s) && Accepts(s, v, w)
    ensures ValueKind(v) in Kinds(EffectiveTypes(s).value)
  {
    EffectiveTypesSound(s, v, w);
    var t :| t in EffectiveTypes(s).value && HasType(v, t);
    assert (if t == TInteger then TNumber else t) == ValueKind(v);
  }

  /** Members of disjoint types never accept the same value. */
  lemma ApartMembers(a: Schema, b: Schema, v: Value, w: World)
    requires OwnKinds(a) && OwnKinds(b) && Apart(a, b) && Accepts(a, v, w)
    ensures !Accepts(b, v, w)
  {
    AcceptedKind(a, v, w);
    if Accepts(b, v, w) {
      AcceptedKind(b, v, w);
    }
  }

  lemma {:induction false} AtMostOne(members: seq<Schema>, v: Value, w: World)
    requires Disjoint(members)
    ensures Accepting(members, v, w) <= 1
  {
    if members != [] {
      var rest := members[1..];
      assert forall i | 0 <= i < |rest| :: rest[i] == members[i + 1];
      AtMostOne(rest, v, w);
      SomeAccepting(rest, v, w);
      if Accepts(members[0], v, w) && Accepting(rest, v, w) > 0 {
        var i :| 0 <= i < |rest| && Accepts(rest[i], v, w);
        ApartMembers(members[0], members[i + 1], v, w);
      }
    }
  }

  /** A member that both sides have, up to its canonical form. */
  lemma SharedMember(a: seq<Schema>, b: seq<Schema>, i: nat, v: Value, w: World) returns (j: nat)
    requires i < |a| && Accepts(a[i], v, w)
    requires !Loses(multiset(CanonicalAll(a, w.exact)), multiset(CanonicalAll(b, w.exact)))
    ensures j < |b| && Accepts(b[j], v, w)
  {
    var c := CanonicalAll(a, w.exact)[i];
    assert c in CanonicalAll(a, w.exact);
    assert c in multiset(CanonicalAll(a, w.exact));
    assert c in multiset(CanonicalAll(b, w.exact));
    j :| 0 <= j < |CanonicalAll(b, w.exact)| && CanonicalAll(b, w.exact)[j] == c;
    CanonicalKeepsMeaning(a[i], b[j], v, w);
  }

  /** Members that are all still there, in disjoint types for `oneOf`. */
  lemma GrownMembers(key: Keyword, from: seq<Schema>, to: seq<Schema>, v: Value, w: World)
    requires !Loses(multiset(CanonicalAll(from, w.exact)), multiset(CanonicalAll(to, w.exact)))
    requires key == OneOf ==> Disjoint(to)
    requires from != [] && Satisfies(key, from, v, w)
    ensures Satisfies(key, to, v, w)
  {
    hide CanonicalSchema;
    hide CanonicalAll;
    hide Accepts;
    hide Disjoint;
    SomeAccepting(from, v, w);
    var i :| 0 <= i < |from| && Accepts(from[i], v, w);
    var j := SharedMember(from, to, i, v, w);
    SomeAccepting(to, v, w);
    if key == OneOf {
      AtMostOne(to, v, w);
    }
  }

  /** A change that is neither breaking nor left to review keeps what must stay accepted. */
  lemma QuietAlternatives(key: Keyword, prev: seq<Schema>, next: seq<Schema>, response: bool, v: Value, w: World)
    requires Compared(key, prev, next, response, w.exact) in {Unchanged, Changed(false)}
    ensures var from, to := if response then next else prev, if response then prev else next;
            Satisfies(key, from, v, w) ==> Satisfies(key, to, v, w)
  {
    hide CanonicalSchema;
    hide Accepts;
    hide Disjoint;
    var from, to := if response then next else prev, if response then prev else next;
    if CanonicalMembers(prev, w.exact) == CanonicalMembers(next, w.exact) {
      SameLength(CanonicalAll(from, w.exact), CanonicalAll(to, w.exact));
      SameAccepting(from, to, v, w);
    } else if Satisfies(key, from, v, w) {
      GrownMembers(key, from, to, v, w);
    }
  }
}

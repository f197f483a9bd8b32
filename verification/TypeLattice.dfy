/**
 Type sets: services/vdoc/semantic_diff.go, schemaType, typeChangeBreaking and
 intersectSchemaTypes. The source joins type names with `|`, writes "" for "no constraint" and
 "never" for the empty set; here those are None and Some({}).
 */
module TypeLattice {
  import opened Wrappers
  import opened Schemas

  type TypeSet = Option<set<TypeName>>

  const SixKinds: set<TypeName> := {TNull, TBoolean, TObject, TArray, TNumber, TString}

  /** What two names have in common: themselves, or `integer` inside `number`. */
  function Meet(x: TypeName, y: TypeName): Option<TypeName> {
    if x == y then Some(x)
    else if (x == TInteger && y == TNumber) || (x == TNumber && y == TInteger) then Some(TInteger)
    else None
  }

  /** The names in both sets, and `integer` when one side has it and the other has `number`. */
  function Meets(xs: set<TypeName>, ys: set<TypeName>): set<TypeName> {
    xs * ys + (if (TInteger in xs && TNumber in ys) || (TNumber in xs && TInteger in ys) then {TInteger} else {})
  }

  function Intersect(a: TypeSet, b: TypeSet): TypeSet {
    if a.None? then b
    else if b.None? then a
    else Some(Meets(a.value, b.value))
  }

  method IntersectSchemaTypes(a: TypeSet, b: TypeSet) returns (r: TypeSet)
    ensures r == Intersect(a, b)
  {
    if a.None? {
      return b;
    }
    if b.None? {
      return a;
    }
    var result: set<TypeName> := {};
    var xs := a.value;
    while xs != {}
      invariant xs <= a.value
      invariant forall t :: t in result <==> t in Meets(a.value - xs, b.value)
      decreases xs
    {
      var x :| x in xs;
      ghost var before := result;
      var ys := b.value;
      while ys != {}
        invariant ys <= b.value
        invariant forall t :: t in result <==> t in before || t in Meets({x}, b.value - ys)
        decreases ys
      {
        var y :| y in ys;
        if x == y {
          result := result + {x};
        } else if (x == TInteger && y == TNumber) || (x == TNumber && y == TInteger) {
          result := result + {TInteger};
        }
        ys := ys - {y};
      }
      assert b.value - ys == b.value;
      xs := xs - {x};
    }
    assert a.value - xs == a.value;
    assert result == Meets(a.value, b.value);
    return Some(result);
  }

  /** The intersection, fragment by fragment in order, of what each fragment's `type` allows. */
  function FoldTypes(fragments: seq<Schema>): TypeSet
    requires forall i | 0 <= i < |fragments| :: fragments[i].Node?
  {
    if fragments == [] then None
    else
      var last := fragments[|fragments| - 1];
      Intersect(FoldTypes(fragments[..|fragments| - 1]), KeywordTypes(last.types, last.nullable))
  }

  function EffectiveTypes(s: Schema): TypeSet {
    FoldTypes(Fragments(s))
  }

  method SchemaType(s: Schema) returns (allowed: TypeSet)
    ensures allowed == EffectiveTypes(s)
  {
    allowed := None;
    var fragments := Fragments(s);
    for i := 0 to |fragments|
      invariant allowed == FoldTypes(fragments[..i])
    {
      assert fragments[..i + 1][..i] == fragments[..i];
      var fragment := fragments[i];
      if fragment.types == {} {
        continue;
      }
      var next := fragment.types;
      if fragment.nullable == Some(true) {
        next := next + {TNull};
      }
      if allowed.None? {
        allowed := Some(next);
      } else {
        allowed := IntersectSchemaTypes(allowed, Some(next));
      }
    }
    assert fragments[..|fragments|] == fragments;
  }

  /** Whether going from `oldType` to `newType` can reject something that was accepted. */
  predicate TypeChangeBreaking(oldType: TypeSet, newType: TypeSet, response: bool) {
    var a := if response then newType else oldType;
    var b := if response then oldType else newType;
    if b.None? || a == Some({}) then false
    else if a.None? then true
    else exists t | t in a.value :: t !in b.value && !(t == TInteger && TNumber in b.value)
  }

  ghost predicate TypesIncluded(a: TypeSet, b: TypeSet) {
    forall v | InTypes(v, a) :: InTypes(v, b)
  }

  /** A value of type `x` and a value of type `y` at once is a value of their meet, and conversely. */
  lemma MeetDenotes(x: TypeName, y: TypeName, v: Value)
    ensures HasType(v, x) && HasType(v, y) <==> Meet(x, y).Some? && HasType(v, Meet(x, y).value)
  {
  }

  lemma IntersectDenotes(a: TypeSet, b: TypeSet, v: Value)
    ensures InTypes(v, Intersect(a, b)) <==> InTypes(v, a) && InTypes(v, b)
  {
    if a.Some? && b.Some? {
      if InTypes(v, a) && InTypes(v, b) {
        var x :| x in a.value && HasType(v, x);
        var y :| y in b.value && HasType(v, y);
        MeetDenotes(x, y, v);
        assert Meet(x, y).value in Intersect(a, b).value;
      }
      if InTypes(v, Intersect(a, b)) {
        var t :| t in Intersect(a, b).value && HasType(v, t);
      }
    }
  }

  /** The folded type set accepts exactly what every fragment's `type` accepts. */
  lemma {:induction false} FoldTypesDenotes(fragments: seq<Schema>, v: Value)
    requires forall i | 0 <= i < |fragments| :: fragments[i].Node?
    ensures InTypes(v, FoldTypes(fragments)) <==>
            forall i | 0 <= i < |fragments| :: InTypes(v, KeywordTypes(fragments[i].types, fragments[i].nullable))
  {
    if fragments != [] {
      var n := |fragments| - 1;
      FoldTypesDenotes(fragments[..n], v);
      IntersectDenotes(FoldTypes(fragments[..n]), KeywordTypes(fragments[n].types, fragments[n].nullable), v);
      assert forall i | 0 <= i < n :: fragments[..n][i] == fragments[i];
    }
  }

  /** Everything a schema accepts has one of its effective types. */
  lemma {:induction false} EffectiveTypesSound(s: Schema, v: Value, w: World)
    requires Accepts(s, v, w)
    ensures InTypes(v, EffectiveTypes(s))
  {
    FragmentsAccept(s, v, w);
    FoldTypesDenotes(Fragments(s), v);
    var fs := Fragments(s);
    forall i | 0 <= i < |fs|
      ensures InTypes(v, KeywordTypes(fs[i].types, fs[i].nullable))
    {
      assert Accepts(fs[i], v, w);
    }
  }

  function Sample(t: TypeName): (v: Value)
    ensures forall u: TypeName :: HasType(v, u) <==> u == t || (t == TInteger && u == TNumber)
  {
    match t
    case TNull => Null
    case TBoolean => Bool(false)
    case TObject => Obj(map[])
    case TArray => Arr([])
    case TNumber => var half := Num(0.5); assert !IsIntegral(0.5) by { assert (0.5).Floor == 0; } half
    case TString => Str("")
    case TInteger => var zero := Num(0.0); assert IsIntegral(0.0) by { assert (0.0).Floor == 0; } zero
  }

  lemma KindOf(v: Value) returns (t: TypeName)
    ensures t in SixKinds && HasType(v, t)
  {
    t := match v
      case Null => TNull
      case Bool(_) => TBoolean
      case Num(_) => TNumber
      case Str(_) => TString
      case Arr(_) => TArray
      case Obj(_) => TObject;
  }

  /** A type change is reported as breaking exactly when the wanted inclusion fails, with one
      exception: "no `type`" to a list naming all six JSON kinds is reported although it accepts
      the same values. */
  lemma TypeChangeBreakingExact(oldType: TypeSet, newType: TypeSet, response: bool)
    ensures
      var a := if response then newType else oldType;
      var b := if response then oldType else newType;
      TypeChangeBreaking(oldType, newType, response) <==> !TypesIncluded(a, b) || (a.None? && b.Some?)
    ensures
      var a := if response then newType else oldType;
      var b := if response then oldType else newType;
      a.None? && b.Some? ==> (TypesIncluded(a, b) <==> SixKinds <= b.value)
  {
    var a := if response then newType else oldType;
    var b := if response then oldType else newType;
    if a.None? && b.Some? {
      if SixKinds <= b.value {
        forall v ensures InTypes(v, b) { var t := KindOf(v); }
      }
      if TypesIncluded(a, b) {
        forall t | t in SixKinds ensures t in b.value {
          assert InTypes(Sample(t), a);
        }
      }
    } else if b.Some? {
      forall t | t in a.value
        ensures InTypes(Sample(t), b) <==> t in b.value || (t == TInteger && TNumber in b.value)
      {
      }
      if TypesIncluded(a, b) {
        forall t | t in a.value
          ensures t in b.value || (t == TInteger && TNumber in b.value)
        {
          assert InTypes(Sample(t), a);
        }
      }
      if !TypeChangeBreaking(oldType, newType, response) {
        forall v | InTypes(v, a) ensures InTypes(v, b) {
          var t :| t in a.value && HasType(v, t);
          assert t in b.value || (t == TInteger && TNumber in b.value);
        }
      }
    }
  }
}

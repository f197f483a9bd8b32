/**
 Numeric bounds: services/vdoc/semantic_bounds.go. Numbers are compared exactly, as the source
 compares `big.Rat` values; a number for which `exact` fails is one the source refuses to convert.
 */
module NumericBounds {
  import opened Schemas

  datatype Bound = NoBound | Limit(n: real, exclusive: bool)

  type BoundMap = map<BoundKey, real>

  const LowerKeys: seq<BoundKey> := [Minimum, ExclusiveMinimum]
  const UpperKeys: seq<BoundKey> := [Maximum, ExclusiveMaximum]

  function SideKeys(lower: bool): (keys: seq<BoundKey>)
    ensures |keys| == 2 && keys[0] != keys[1]
  {
    if lower then LowerKeys else UpperKeys
  }

  /** The values one side of a range lets through. */
  predicate InBound(b: Bound, lower: bool, x: real) {
    match b
    case NoBound => true
    case Limit(n, exclusive) =>
      if lower then (if exclusive then n < x else n <= x)
      else if exclusive then x < n else x <= n
  }

  function Compare(a: real, b: real): int {
    if a < b then -1 else if a > b then 1 else 0
  }

  function CompareBound(before: Bound, after: Bound, lower: bool): int {
    if before.NoBound? then (if after.NoBound? then 0 else 1)
    else if after.NoBound? then -1
    else
      var comparison := if lower then Compare(after.n, before.n) else -Compare(after.n, before.n);
      if comparison == 0 && before.exclusive != after.exclusive then (if after.exclusive then 1 else -1)
      else comparison
  }

  /** Only the two keywords of one side. */
  function BoundKeywords(schema: BoundMap, lower: bool): BoundMap {
    map key | key in schema && key in SideKeys(lower) :: schema[key]
  }

  ghost predicate SideExact(values: BoundMap, lower: bool, exact: real -> bool) {
    forall key | key in SideKeys(lower) && key in values :: exact(values[key])
  }

  ghost predicate InSide(values: BoundMap, lower: bool, x: real) {
    forall key | key in SideKeys(lower) && key in values :: WithinBound(x, key, values[key])
  }

  /** The stricter of the two keywords of one side, by the comparison above. */
  function Stricter(values: BoundMap, lower: bool): Bound {
    var keys := SideKeys(lower);
    var plain := if keys[0] in values then Limit(values[keys[0]], false) else NoBound;
    if keys[1] !in values then plain
    else
      var strict := Limit(values[keys[1]], true);
      if CompareBound(plain, strict, lower) > 0 then strict else plain
  }

  method EffectiveNumericBound(values: BoundMap, lower: bool, exact: real -> bool) returns (result: Bound, ok: bool)
    ensures ok <==> SideExact(values, lower, exact)
    ensures ok ==> result == Stricter(values, lower)
    ensures ok ==> forall x :: InBound(result, lower, x) <==> InSide(values, lower, x)
  {
    result := NoBound;
    var keys := SideKeys(lower);
    for i := 0 to 2
      invariant forall j | 0 <= j < i && keys[j] in values :: exact(values[keys[j]])
      invariant result == if i < 2 then (if i == 1 && keys[0] in values then Limit(values[keys[0]], false) else NoBound)
                          else Stricter(values, lower)
    {
      var key := keys[i];
      if key !in values {
        continue;
      }
      if !exact(values[key]) {
        assert key in SideKeys(lower);
        return NoBound, false;
      }
      var next := Limit(values[key], i == 1);
      if CompareBound(result, next, lower) > 0 {
        result := next;
      }
    }
    StricterDenotes(values, lower);
    return result, true;
  }

  /** The stricter keyword accepts exactly what both keywords accept together. */
  lemma StricterDenotes(values: BoundMap, lower: bool)
    ensures forall x :: InBound(Stricter(values, lower), lower, x) <==> InSide(values, lower, x)
  {
    var keys := SideKeys(lower);
    forall x
      ensures InBound(Stricter(values, lower), lower, x) <==> InSide(values, lower, x)
    {
      assert InSide(values, lower, x) <==>
        (keys[0] in values ==> WithinBound(x, keys[0], values[keys[0]])) &&
        (keys[1] in values ==> WithinBound(x, keys[1], values[keys[1]]));
    }
  }

  /** A value inside `wide` and outside `narrow` when the comparison calls the step a narrowing. */
  function BetweenBounds(wide: Bound, narrow: Bound, lower: bool): (x: real)
    requires CompareBound(wide, narrow, lower) > 0
    ensures InBound(wide, lower, x) && !InBound(narrow, lower, x)
  {
    if narrow.exclusive then narrow.n
    else if wide.NoBound? then (if lower then narrow.n - 1.0 else narrow.n + 1.0)
    else (wide.n + narrow.n) / 2.0
  }

  ghost predicate Narrows(before: Bound, after: Bound, lower: bool) {
    forall x | InBound(after, lower, x) :: InBound(before, lower, x)
  }

  /** The sign of the comparison: positive, zero or negative exactly when the new range is strictly
      narrower, the same, or strictly wider. */
  lemma CompareBoundSign(before: Bound, after: Bound, lower: bool)
    ensures CompareBound(before, after, lower) >= 0 <==> Narrows(before, after, lower)
    ensures CompareBound(before, after, lower) <= 0 <==> Narrows(after, before, lower)
    ensures CompareBound(before, after, lower) == 0 <==> before == after
  {
    if CompareBound(before, after, lower) > 0 {
      var x := BetweenBounds(before, after, lower);
      assert !Narrows(after, before, lower);
    }
    if CompareBound(before, after, lower) < 0 {
      var x := BetweenBounds(after, before, lower);
      assert !Narrows(before, after, lower);
    }
  }

  /** One side replaced by its stricter keyword, when both numbers can be converted. */
  function CanonicalSide(schema: BoundMap, lower: bool, exact: real -> bool): BoundMap {
    var keys := SideKeys(lower);
    if (keys[0] in schema && !exact(schema[keys[0]])) || (keys[1] in schema && !exact(schema[keys[1]])) then schema
    else
      match Stricter(schema, lower)
      case NoBound => schema
      case Limit(n, exclusive) => (schema - {keys[0], keys[1]})[if exclusive then keys[1] else keys[0] := n]
  }

  function CanonicalBounds(schema: BoundMap, exact: real -> bool): BoundMap {
    CanonicalSide(CanonicalSide(schema, true, exact), false, exact)
  }

  /** A schema comparison view whose bound keywords are rewritten in place. */
  class BoundView {
    var schema: BoundMap

    constructor (schema: BoundMap)
      ensures this.schema == schema
    {
      this.schema := schema;
    }

    method CanonicalNumericBounds(exact: real -> bool)
      modifies this
      ensures schema == CanonicalBounds(old(schema), exact)
    {
      for side := 0 to 2
        invariant side == 0 ==> schema == old(schema)
        invariant side == 1 ==> schema == CanonicalSide(old(schema), true, exact)
        invariant side == 2 ==> schema == CanonicalBounds(old(schema), exact)
      {
        var lower := side == 0;
        var keys := SideKeys(lower);
        var bound, ok := EffectiveNumericBound(schema, lower, exact);
        if !ok || bound.NoBound? {
          continue;
        }
        assert keys[0] in SideKeys(lower) && keys[1] in SideKeys(lower);
        schema := schema - {keys[0]};
        schema := schema - {keys[1]};
        schema := schema[if bound.exclusive then keys[1] else keys[0] := bound.n];
      }
    }
  }

  lemma BoundsBySides(bounds: BoundMap, x: real)
    ensures WithinBounds(x, bounds) <==> InSide(bounds, true, x) && InSide(bounds, false, x)
  {
    forall key | key in bounds
      ensures key in SideKeys(true) || key in SideKeys(false)
    {
      match key case Minimum => assert SideKeys(true)[0] == key;
                case ExclusiveMinimum => assert SideKeys(true)[1] == key;
                case Maximum => assert SideKeys(false)[0] == key;
                case ExclusiveMaximum => assert SideKeys(false)[1] == key;
    }
  }

  lemma CanonicalSideKeepsRange(schema: BoundMap, lower: bool, exact: real -> bool, x: real)
    ensures InSide(CanonicalSide(schema, lower, exact), lower, x) <==> InSide(schema, lower, x)
    ensures InSide(CanonicalSide(schema, lower, exact), !lower, x) <==> InSide(schema, !lower, x)
    ensures Stricter(CanonicalSide(schema, lower, exact), !lower) == Stricter(schema, !lower)
  {
    var keys := SideKeys(lower);
    var out := CanonicalSide(schema, lower, exact);
    assert SideKeys(!lower)[0] in SideKeys(!lower) && SideKeys(!lower)[1] in SideKeys(!lower);
    assert keys[0] in SideKeys(lower) && keys[1] in SideKeys(lower);
    if out != schema {
      StricterDenotes(schema, lower);
    }
  }

  /** Canonical bounds accept the same numbers. */
  lemma CanonicalBoundsKeepRange(schema: BoundMap, exact: real -> bool, x: real)
    ensures WithinBounds(x, CanonicalBounds(schema, exact)) <==> WithinBounds(x, schema)
  {
    var mid := CanonicalSide(schema, true, exact);
    CanonicalSideKeepsRange(schema, true, exact, x);
    CanonicalSideKeepsRange(mid, false, exact, x);
    BoundsBySides(schema, x);
    BoundsBySides(CanonicalBounds(schema, exact), x);
  }

  lemma CanonicalBoundsForm(schema: BoundMap, exact: real -> bool)
    requires forall key | key in schema :: exact(schema[key])
    ensures CanonicalBounds(schema, exact) == Rendered(Stricter(schema, true), Stricter(schema, false))
  {
    var mid := CanonicalSide(schema, true, exact);
    CanonicalSideKeepsRange(schema, true, exact, 0.0);
    var out := CanonicalBounds(schema, exact);
    var want := Rendered(Stricter(schema, true), Stricter(schema, false));
    forall key: BoundKey
      ensures key in out <==> key in want
      ensures key in out ==> out[key] == want[key]
    {
      match key case Minimum => case ExclusiveMinimum => case Maximum => case ExclusiveMaximum =>
    }
  }

  function Rendered(low: Bound, high: Bound): BoundMap {
    (match low
     case NoBound => map[]
     case Limit(n, exclusive) => map[if exclusive then ExclusiveMinimum else Minimum := n]) +
    (match high
     case NoBound => map[]
     case Limit(n, exclusive) => map[if exclusive then ExclusiveMaximum else Maximum := n])
  }

  lemma RenderedInjective(low: Bound, high: Bound, low': Bound, high': Bound)
    ensures Rendered(low, high) == Rendered(low', high') <==> low == low' && high == high'
  {
    var a, b := Rendered(low, high), Rendered(low', high');
    assert forall key | key in [Minimum, ExclusiveMinimum, Maximum, ExclusiveMaximum] :: a == b ==>
      (key in a <==> key in b);
    assert Minimum in a <==> low.Limit? && !low.exclusive;
    assert ExclusiveMinimum in a <==> low.Limit? && low.exclusive;
    assert Maximum in a <==> high.Limit? && !high.exclusive;
    assert ExclusiveMaximum in a <==> high.Limit? && high.exclusive;
    assert Minimum in b <==> low'.Limit? && !low'.exclusive;
    assert ExclusiveMinimum in b <==> low'.Limit? && low'.exclusive;
    assert Maximum in b <==> high'.Limit? && !high'.exclusive;
    assert ExclusiveMaximum in b <==> high'.Limit? && high'.exclusive;
  }

  ghost predicate SameRange(a: BoundMap, b: BoundMap) {
    forall x :: WithinBounds(x, a) <==> WithinBounds(x, b)
  }

  /** Some number inside both sides pins each side down: a wider side would let in one more number. */
  lemma SidesDetermined(a: BoundMap, b: BoundMap, lower: bool, y: real)
    requires SameRange(a, b)
    requires WithinBounds(y, a)
    ensures Stricter(a, lower) == Stricter(b, lower)
  {
    var p, q := Stricter(a, lower), Stricter(b, lower);
    CompareBoundSign(p, q, lower);
    CompareBoundSign(q, p, lower);
    if p != q {
      var wide, narrow, inner, outer := p, q, a, b;
      if CompareBound(p, q, lower) < 0 {
        wide, narrow, inner, outer := q, p, b, a;
      }
      var x := BetweenBounds(wide, narrow, lower);
      StricterDenotes(a, lower);
      StricterDenotes(b, lower);
      StricterDenotes(a, !lower);
      StricterDenotes(b, !lower);
      BoundsBySides(inner, x);
      BoundsBySides(outer, x);
      BoundsBySides(inner, y);
      BoundsBySides(outer, y);
      assert InBound(narrow, lower, y) && !InBound(narrow, lower, x);
      assert InBound(Stricter(inner, !lower), !lower, x);
    }
  }

  /** The canonical form is unique for a range: for bounds that accept some number, equal canonical
      forms and equal ranges are the same thing. */
  lemma CanonicalBoundsUnique(a: BoundMap, b: BoundMap, exact: real -> bool, y: real)
    requires forall key | key in a :: exact(a[key])
    requires forall key | key in b :: exact(b[key])
    requires WithinBounds(y, a)
    ensures CanonicalBounds(a, exact) == CanonicalBounds(b, exact) <==> SameRange(a, b)
  {
    if CanonicalBounds(a, exact) == CanonicalBounds(b, exact) {
      forall x ensures WithinBounds(x, a) <==> WithinBounds(x, b) {
        CanonicalBoundsKeepRange(a, exact, x);
        CanonicalBoundsKeepRange(b, exact, x);
      }
    }
    if SameRange(a, b) {
      SidesDetermined(a, b, true, y);
      SidesDetermined(a, b, false, y);
      CanonicalBoundsForm(a, exact);
      CanonicalBoundsForm(b, exact);
    }
  }

  /** An empty range has many canonical forms: nothing satisfies either of these two. */
  lemma EmptyRangesDiffer(exact: real -> bool)
    requires exact(0.0) && exact(1.0) && exact(2.0)
    ensures
      var a: BoundMap := map[Minimum := 1.0, Maximum := 0.0];
      var b: BoundMap := map[Minimum := 2.0, Maximum := 0.0];
      SameRange(a, b) && CanonicalBounds(a, exact) != CanonicalBounds(b, exact)
  {
    var a: BoundMap := map[Minimum := 1.0, Maximum := 0.0];
    var b: BoundMap := map[Minimum := 2.0, Maximum := 0.0];
    forall x ensures !WithinBounds(x, a) && !WithinBounds(x, b) {
      assert Minimum in a && Maximum in a && Minimum in b && Maximum in b;
    }
    CanonicalBoundsForm(a, exact);
    CanonicalBoundsForm(b, exact);
    RenderedInjective(Stricter(a, true), Stricter(a, false), Stricter(b, true), Stricter(b, false));
  }
}

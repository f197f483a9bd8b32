/**
 When a finding is breaking: services/vdoc/semantic_diff.go, add, compareEnumValueLists and
 typeChangeBreaking, services/vdoc/semantic_bounds.go and services/vdoc/semantic_constraints.go.
 The findings a builder appended are read off its list and set against the values that are lost:
 those that one side must keep accepting and the other side refuses.
 */

module ReportedBreaks {
  import opened Wrappers
  import opened Schemas
  import opened TypeLattice
  import opened NumericBounds
  import opened EnumSets
  import opened CanonicalForms
  import opened Alternatives
  import opened SchemaFields
  import opened SchemaDiff

  /** Requests must accept what the old schema accepts, responses may only hold what it accepts. */
  function From<T>(prev: T, next: T, response: bool): T {
    if response then next else prev
  }

  function To<T>(prev: T, next: T, response: bool): T {
    if response then prev else next
  }

  /** Among the findings there is one about this change at this place, breaking or not. */
  ghost predicate Reports(items: set<Item>, at: Path, change: Change, breaking: bool) {
    exists it :: it in items && it.at == at && it.change == change && it.breaking == breaking
  }

  // Bounds

  ghost predicate LosesNumber(from: BoundMap, to: BoundMap, lower: bool) {
    exists x :: InSide(from, lower, x) && !InSide(to, lower, x)
  }

  /** Bounds that can be converted are breaking exactly if a number is lost, and are mentioned without
      being breaking exactly if a number is gained and none lost. */
  lemma BoundsReported(items: set<Item>, at: Path, prev: BoundMap, next: BoundMap, lower: bool,
                       response: bool, exact: real -> bool)
    requires items == BoundItems(at, prev, next, lower, response, exact)
    requires SideExact(prev, lower, exact) && SideExact(next, lower, exact)
    ensures var from, to := From(prev, next, response), To(prev, next, response);
            && (Reports(items, at, BoundChanged(lower), true) <==> LosesNumber(from, to, lower))
            && (Reports(items, at, BoundChanged(lower), false) <==>
                LosesNumber(to, from, lower) && !LosesNumber(from, to, lower))
  {
    var a, z := BoundKeywords(prev, lower), BoundKeywords(next, lower);
    forall x ensures InSide(prev, lower, x) <==> InSide(a, lower, x) {
    }
    forall x ensures InSide(next, lower, x) <==> InSide(z, lower, x) {
    }
    StricterDenotes(a, lower);
    StricterDenotes(z, lower);
    var b, c := Stricter(a, lower), Stricter(z, lower);
    CompareBoundSign(b, c, lower);
    assert LosesNumber(prev, next, lower) <==> CompareBound(b, c, lower) > 0;
    assert LosesNumber(next, prev, lower) <==> CompareBound(b, c, lower) < 0;
    if CompareBound(b, c, lower) != 0 {
      assert items == {Finding(at, BoundChanged(lower), (CompareBound(b, c, lower) > 0) != response)};
      assert Finding(at, BoundChanged(lower), (CompareBound(b, c, lower) > 0) != response) in items;
    } else {
      assert items == {};
    }
  }

  /** Bounds that cannot be converted are left to a person. */
  lemma BoundsUnread(items: set<Item>, at: Path, prev: BoundMap, next: BoundMap, lower: bool,
                     response: bool, exact: real -> bool)
    requires items == BoundItems(at, prev, next, lower, response, exact)
    requires !SideExact(prev, lower, exact) || !SideExact(next, lower, exact)
    ensures !Reports(items, at, BoundChanged(lower), true)
    ensures Reports(items, at, BoundChanged(lower), false) <==>
            exists key :: key in SideKeys(lower) && (key in prev || key in next)
              && (key in prev && key in next ==> prev[key] != next[key])
    ensures forall it | it in items :: it.mustHandle
  {
    var a, z := BoundKeywords(prev, lower), BoundKeywords(next, lower);
    assert a == z <==> forall key | key in SideKeys(lower) ::
      (key in a <==> key in z) && (key in a ==> a[key] == z[key]);
    assert !Convertible(a, lower, exact) || !Convertible(z, lower, exact);
    if a != z {
      assert Manual(at, BoundChanged(lower)) in items;
    }
  }

  // Sizes

  ghost predicate SizeHolds(sizes: map<SizeKey, real>, key: SizeKey, v: Value) {
    key in sizes ==> SizeOk(key, sizes[key], v)
  }

  ghost predicate LosesSize(from: map<SizeKey, real>, to: map<SizeKey, real>, key: SizeKey) {
    exists v :: SizeHolds(from, key, v) && !SizeHolds(to, key, v)
  }

  /** Narrower on the line of numbers, whether or not a size lies between. */
  predicate Tighter(from: map<SizeKey, real>, to: map<SizeKey, real>, key: SizeKey) {
    && key in to
    && (key in from ==> if IsMaximum(key) then to[key] < from[key] else from[key] < to[key])
  }

  /** Some size is allowed by the limit of `from` and not by the one of `to`. */
  predicate SizeBetween(from: map<SizeKey, real>, to: map<SizeKey, real>, key: SizeKey)
    requires key in to
  {
    if IsMaximum(key) then key in from ==> from[key] >= 0.0 && from[key].Floor as real > to[key]
    else to[key] > 0.0 && (key in from ==> Ceiling(from[key]) as real < to[key])
  }

  function Ceiling(x: real): (n: int)
    ensures n as real - 1.0 < x <= n as real
  {
    -((-x).Floor)
  }

  function Fields(n: nat): (m: map<string, Value>)
    ensures |m| == n && forall k | k in m :: |k| < n
  {
    if n == 0 then map[]
    else
      var rest := Fields(n - 1);
      var name := seq(n - 1, _ => 'a');
      assert name !in rest;
      rest[name := Null]
  }

  function SizeOf(key: SizeKey, v: Value): Option<nat> {
    match key
    case MinLength => if v.Str? then Some(|v.s|) else None
    case MaxLength => if v.Str? then Some(|v.s|) else None
    case MinItems => if v.Arr? then Some(|v.elements|) else None
    case MaxItems => if v.Arr? then Some(|v.elements|) else None
    case MinProperties => if v.Obj? then Some(|v.fields|) else None
    case MaxProperties => if v.Obj? then Some(|v.fields|) else None
  }

  function Sized(key: SizeKey, n: nat): (v: Value)
    ensures SizeOf(key, v) == Some(n)
  {
    match key
    case MinLength => Str(seq(n, _ => 'a'))
    case MaxLength => Str(seq(n, _ => 'a'))
    case MinItems => Arr(seq(n, _ => Null))
    case MaxItems => Arr(seq(n, _ => Null))
    case MinProperties => Obj(Fields(n))
    case MaxProperties => Obj(Fields(n))
  }

  lemma SizeOkMeans(key: SizeKey, limit: real, v: Value)
    ensures SizeOk(key, limit, v) <==>
            (SizeOf(key, v).Some? ==>
               if IsMaximum(key) then SizeOf(key, v).value as real <= limit else limit <= SizeOf(key, v).value as real)
  {
  }

  /** A size is lost exactly if one lies between the two limits. */
  lemma LosesSizeExactly(from: map<SizeKey, real>, to: map<SizeKey, real>, key: SizeKey)
    ensures LosesSize(from, to, key) <==> key in to && SizeBetween(from, to, key)
    ensures LosesSize(from, to, key) ==> Tighter(from, to, key)
  {
    if LosesSize(from, to, key) {
      var v :| SizeHolds(from, key, v) && !SizeHolds(to, key, v);
      SizeOkMeans(key, to[key], v);
      if key in from {
        SizeOkMeans(key, from[key], v);
        LostBetween(from[key], to[key], SizeOf(key, v).value, IsMaximum(key));
      }
    }
    if key in to && SizeBetween(from, to, key) {
      var n := SizeLost(from, to, key);
      var v := Sized(key, n);
      SizeOkMeans(key, to[key], v);
      if key in from {
        SizeOkMeans(key, from[key], v);
      }
      assert SizeHolds(from, key, v) && !SizeHolds(to, key, v);
    }
  }

  lemma LostBetween(from: real, to: real, n: nat, maximum: bool)
    requires if maximum then n as real <= from && n as real > to else from <= n as real && n as real < to
    ensures if maximum then from.Floor as real > to && from >= 0.0 else Ceiling(from) as real < to
  {
    if maximum {
      assert n <= from.Floor;
    } else {
      assert Ceiling(from) <= n;
    }
  }

  function SizeLost(from: map<SizeKey, real>, to: map<SizeKey, real>, key: SizeKey): (n: nat)
    requires key in to && SizeBetween(from, to, key)
    ensures key in from ==> if IsMaximum(key) then n as real <= from[key] else from[key] <= n as real
    ensures if IsMaximum(key) then n as real > to[key] else n as real < to[key]
  {
    if IsMaximum(key) then
      if key in from then from[key].Floor else if to[key] < 0.0 then 0 else to[key].Floor + 1
    else if key in from && Ceiling(from[key]) > 0 then Ceiling(from[key])
    else 0
  }

  /** A size limit that can be compared is breaking exactly if it is tighter. Every lost size makes it
      so, and no size is lost only if none lies between the two limits. */
  lemma SizesReported(items: set<Item>, at: Path, prev: map<SizeKey, real>,
                      next: map<SizeKey, real>, key: SizeKey, response: bool, exact: real -> bool)
    requires items == SizeItems(at, prev, next, key, response, exact)
    requires key in prev && key in next && prev[key] != next[key] ==> exact(prev[key]) && exact(next[key])
    ensures var from, to := From(prev, next, response), To(prev, next, response);
            && (Reports(items, at, SizeChanged(key), true) <==> Tighter(from, to, key))
            && (Reports(items, at, SizeChanged(key), false) <==> Tighter(to, from, key))
            && (LosesSize(from, to, key) ==> Reports(items, at, SizeChanged(key), true))
            && (Reports(items, at, SizeChanged(key), true) ==>
                  (LosesSize(from, to, key) <==> SizeBetween(from, to, key)))
  {
    var from, to := From(prev, next, response), To(prev, next, response);
    LosesSizeExactly(from, to, key);
    if items != {} {
      assert items == {Finding(at, SizeChanged(key), Tighter(from, to, key))};
      assert Finding(at, SizeChanged(key), Tighter(from, to, key)) in items;
    }
  }

  /** Two limits that cannot be compared are left to a person. */
  lemma SizesUnread(items: set<Item>, at: Path, prev: map<SizeKey, real>,
                    next: map<SizeKey, real>, key: SizeKey, response: bool, exact: real -> bool)
    requires items == SizeItems(at, prev, next, key, response, exact)
    requires key in prev && key in next && prev[key] != next[key] && (!exact(prev[key]) || !exact(next[key]))
    ensures Reports(items, at, SizeChanged(key), false)
    ensures forall it | it in items :: it.mustHandle && !it.breaking
  {
    assert Manual(at, SizeChanged(key)) in items;
  }

  /** For limits that are sizes themselves only a new minimum of zero is breaking without a loss. */
  lemma NaturalSizes(from: map<SizeKey, real>, to: map<SizeKey, real>, key: SizeKey, f: nat, t: nat)
    requires key in to && to[key] == t as real && (key in from ==> from[key] == f as real) && Tighter(from, to, key)
    ensures SizeBetween(from, to, key) <==> IsMaximum(key) || t > 0
  {
    if key in from && !IsMaximum(key) {
      assert Ceiling(from[key]) == f;
    }
  }

  // Enumerations

  ghost predicate LosesListed(from: EnumSet, to: EnumSet) {
    exists v :: InEnum(v, from) && !InEnum(v, to)
  }

  ghost predicate ReportsEnum(items: set<Item>, at: Path, breaking: bool) {
    exists it :: it in items && it.at == at && it.breaking == breaking
                 && (it.change.EnumConstraint? || it.change.EnumRemoved? || it.change.EnumAdded?)
  }

  lemma Unlistable(values: set<Value>) returns (v: Value)
    ensures v !in values
  {
    var n := Longest(values);
    v := Str(seq(n + 1, _ => 'a'));
  }

  lemma {:induction false} Longest(values: set<Value>) returns (n: nat)
    ensures forall v | v in values && v.Str? :: |v.s| <= n
  {
    if values == {} {
      n := 0;
    } else {
      var v :| v in values;
      n := Longest(values - {v});
      if v.Str? && |v.s| > n {
        n := |v.s|;
      }
    }
  }

  lemma ListedLost(a: EnumSet, b: EnumSet)
    requires a.Some? && b.Some?
    ensures LosesListed(a, b) <==> exists v :: v in a.value - b.value
  {
    if v :| v in a.value - b.value {
      assert InEnum(v, a) && !InEnum(v, b);
    }
    if v :| InEnum(v, a) && !InEnum(v, b) {
      assert v in a.value - b.value;
    }
  }

  /** In a request an enumeration is breaking exactly if a value is lost; in a response a value that the
      old list had and the new one has not is breaking too. */
  lemma EnumsReported(items: set<Item>, at: Path, oldValues: EnumSet, newValues: EnumSet,
                      response: bool)
    requires items == EnumItems(at, oldValues, newValues, response)
    ensures ReportsEnum(items, at, true) <==>
            || LosesListed(From(oldValues, newValues, response), To(oldValues, newValues, response))
            || (response && oldValues.Some? && newValues.Some? && LosesListed(oldValues, newValues))
  {
    if oldValues.Some? && newValues.Some? {
      var removed, added := oldValues.value - newValues.value, newValues.value - oldValues.value;
      ListedLost(oldValues, newValues);
      ListedLost(newValues, oldValues);
      if v :| v in removed {
        assert Finding(at, EnumRemoved(v), true) in items;
      }
      if v :| v in added {
        assert Finding(at, EnumAdded(v), response) in items;
      }
      assert forall it | it in items && it.breaking ::
        (exists v :: v in removed) || (response && exists v :: v in added);
    } else if oldValues.Some? || newValues.Some? {
      assert Finding(at, EnumConstraint, newValues.Some? != response) in items;
      var v := Unlistable(if oldValues.Some? then oldValues.value else newValues.value);
      assert InEnum(v, None);
    }
  }

  // Types and required names

  /** A type is breaking exactly if a value is lost, or one is named where there was none. */
  lemma TypesReported(items: set<Item>, at: Path, change: Change, oldTypes: TypeSet,
                      newTypes: TypeSet, response: bool)
    requires items == TypeItems(at, change, oldTypes, newTypes, response)
    ensures var from, to := From(oldTypes, newTypes, response), To(oldTypes, newTypes, response);
            Reports(items, at, change, true) <==>
            (exists v :: InTypes(v, from) && !InTypes(v, to)) || (from.None? && to.Some?)
  {
    var from, to := From(oldTypes, newTypes, response), To(oldTypes, newTypes, response);
    TypeChangeBreakingExact(oldTypes, newTypes, response);
    assert TypesIncluded(from, to) <==> !exists v :: InTypes(v, from) && !InTypes(v, to);
    if oldTypes != newTypes {
      assert Finding(at, change, TypeChangeBreaking(oldTypes, newTypes, response)) in items;
    }
  }

  /** A required flag is breaking exactly if a value without the name is lost. */
  lemma RequiredReported(items: set<Item>, at: Path, a: bool, b: bool, response: bool)
    requires items == RequiredItems(at, a, b, response)
    ensures Reports(items, at, FieldRequired, true) <==> To(a, b, response) && !From(a, b, response)
    ensures Reports(items, at, FieldRequired, false) <==> !To(a, b, response) && From(a, b, response)
  {
    if a != b {
      assert Finding(at, FieldRequired, (!response && b) || (response && a)) in items;
    }
  }

  // Alternatives

  /** Some member of `from` has, up to its canonical form, no like among those of `to`. */
  ghost predicate LosesMember(from: seq<Schema>, to: seq<Schema>, exact: real -> bool) {
    exists i :: 0 <= i < |from| && forall j | 0 <= j < |to| ::
      CanonicalSchema(to[j], exact) != CanonicalSchema(from[i], exact)
  }

  /** Alternatives that are judged without a person: both sides have some, at most one side has members
      of its own, and those of `oneOf` exclude one another. */
  ghost predicate Comparable(key: Keyword, prev: seq<Schema>, next: seq<Schema>, exact: real -> bool) {
    && prev != [] && next != [] && (key == OneOf ==> Disjoint(prev) && Disjoint(next))
    && !(LosesMember(prev, next, exact) && LosesMember(next, prev, exact))
  }

  /** Alternatives are breaking exactly if they can be compared and one of them is lost. */
  lemma MembersReported(items: set<Item>, at: Path, key: Keyword, prev: seq<Schema>,
                        next: seq<Schema>, response: bool, exact: real -> bool)
    requires items == AlternativeItems(at, key, prev, next, response, exact)
    ensures Reports(items, at, AlternativesChanged(key), true) <==>
            && Comparable(key, prev, next, exact)
            && LosesMember(From(prev, next, response), To(prev, next, response), exact)
    ensures Comparable(key, prev, next, exact) ==> forall it | it in items :: it.mustHandle == it.breaking
  {
    ComparedMeans(key, prev, next, response, exact);
    match Compared(key, prev, next, response, exact)
    case Unchanged =>
    case Review => assert Manual(at, AlternativesChanged(key)) in items;
    case Changed(breaking) => assert Finding(at, AlternativesChanged(key), breaking) in items;
    hide Compared;
    hide Comparable;
    hide LosesMember;
  }

  lemma ComparedMeans(key: Keyword, prev: seq<Schema>, next: seq<Schema>, response: bool, exact: real -> bool)
    ensures var outcome := Compared(key, prev, next, response, exact);
            var loses := LosesMember(From(prev, next, response), To(prev, next, response), exact);
            && (outcome.Unchanged? ==> !loses)
            && (outcome.Review? ==> !Comparable(key, prev, next, exact))
            && (outcome.Changed? ==> Comparable(key, prev, next, exact) && (outcome.breaking <==> loses))
  {
    hide CanonicalSchema;
    hide CanonicalAll;
    hide Disjoint;
    hide LosesMember;
    MembersLost(prev, next, exact);
    MembersLost(next, prev, exact);
  }

  lemma MembersLost(from: seq<Schema>, to: seq<Schema>, exact: real -> bool)
    ensures LosesMember(from, to, exact) <==> Loses(CanonicalMembers(from, exact), CanonicalMembers(to, exact))
  {
    hide CanonicalSchema;
    var a, z := CanonicalAll(from, exact), CanonicalAll(to, exact);
    if i :| 0 <= i < |from| && forall j | 0 <= j < |to| ::
        CanonicalSchema(to[j], exact) != CanonicalSchema(from[i], exact)
    {
      assert a[i] in multiset(a) && a[i] !in multiset(z);
    }
    if c :| c in multiset(a) && c !in multiset(z) {
      var i :| 0 <= i < |a| && a[i] == c;
      forall j | 0 <= j < |to| ensures CanonicalSchema(to[j], exact) != CanonicalSchema(from[i], exact) {
        assert z[j] in multiset(z);
      }
    }
  }
}

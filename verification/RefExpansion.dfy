/** What services/vdoc/openapi.go, openAPIResolver.value, achieves: the expansion a document means. */
module RefExpansion {
  import opened Wrappers
  import opened JsonTrees
  import opened RefResolver
  import JsonPointer
  import JsonNumbers

  // The expansion a reader would do, with no record of the references already followed

  ghost function Expand(root: Document, v: Json, kind: Kind, fuel: nat): Option<Json>
    decreases fuel, 1
  {
    if fuel == 0 || HasNul(v) then None
    else if RefAt(v, kind).Some? then
      var target := JsonPointer.Lookup(root, RefAt(v, kind).value);
      if target.None? then None
      else
        var expanded := Expand(root, target.value, kind, fuel - 1);
        if expanded.None? then None
        else if KeepsSiblings(root, v, kind) then
          var additional := Expand(root, Siblings(v), Schema, fuel - 1);
          if additional.None? || !additional.value.Obj? then None
          else Some(UnderAllOf(expanded.value, additional.value))
        else Some(Described(root, expanded.value, v, kind))
    else
      match v
      case Obj(_) => Gather(ExpandFields(root, v, kind, fuel))
      case Arr(_) => GatherAll(ExpandElements(root, v, kind, fuel))
      case Number(text) =>
        var number := JsonNumbers.Number(text);
        if number.None? then None else Some(Json.Number(number.value))
      case _ => Some(v)
  }

  ghost function ExpandFields(root: Document, v: Json, kind: Kind, fuel: nat): map<string, Option<Json>>
    requires v.Obj? && fuel > 0
    decreases fuel, 0
  {
    map k | k in v.fields :: Expand(root, v.fields[k], ChildKind(kind, k), fuel - 1)
  }

  ghost function ExpandElements(root: Document, v: Json, kind: Kind, fuel: nat): seq<Option<Json>>
    requires v.Arr? && fuel > 0
    decreases fuel, 0
  {
    seq(|v.elements|, i requires 0 <= i < |v.elements| => Expand(root, v.elements[i], ElementKind(kind), fuel - 1))
  }

  lemma {:induction false} FieldVisits(root: Document, v: Json, seen: set<string>, kind: Kind, key: string)
    requires v.Obj? && RefAt(v, kind).None? && key in v.fields
    ensures Visits(root, v.fields[key], seen, ChildKind(kind, key)) < Visits(root, v, seen, kind)
  {
    hide ChildKind;
    WeighObject(root, v, seen, kind);
    SumRemove(FieldWeights(root, v, seen, kind, OneNode), key);
  }

  lemma {:induction false} PartOfTotal(s: seq<nat>, i: nat)
    requires i < |s|
    ensures s[i] <= Total(s)
  {
    if i < |s| - 1 {
      PartOfTotal(s[..|s| - 1], i);
    }
  }

  lemma {:induction false} ElementVisits(root: Document, v: Json, seen: set<string>, kind: Kind, i: nat)
    requires v.Arr? && i < |v.elements|
    ensures Visits(root, v.elements[i], seen, ElementKind(kind)) < Visits(root, v, seen, kind)
  {
    WeighArray(root, v, seen, kind);
    PartOfTotal(ElementWeights(root, v, seen, kind, OneNode), i);
  }

  /** What the resolver returns is the expansion. */
  lemma {:induction false} UnfoldIsExpansion(root: Document, v: Json, seen: set<string>, kind: Kind, fuel: nat)
    requires Unfold(root, v, seen, kind).Some? && Visits(root, v, seen, kind) <= fuel
    ensures Expand(root, v, kind, fuel) == Unfold(root, v, seen, kind)
    decreases fuel, 1
  {
    hide ChildKind;
    hide JsonPointer.Lookup;
    hide JsonNumbers.Number;
    hide UnderAllOf;
    hide Described;
    if RefAt(v, kind).Some? {
      var target := JsonPointer.Lookup(root, RefAt(v, kind).value).value;
      ReferenceParts(root, v, seen, kind, target);
      UnfoldIsExpansion(root, target, seen + {RefAt(v, kind).value}, kind, fuel - 1);
      if KeepsSiblings(root, v, kind) {
        UnfoldIsExpansion(root, Siblings(v), seen, Schema, fuel - 1);
      }
    } else if v.Obj? {
      FieldsExpand(root, v, seen, kind, fuel);
    } else if v.Arr? {
      ElementsExpand(root, v, seen, kind, fuel);
    }
  }

  lemma {:induction false} FieldsExpand(root: Document, v: Json, seen: set<string>, kind: Kind, fuel: nat)
    requires !HasNul(v) && Unfold(root, v, seen, kind).Some? && Visits(root, v, seen, kind) <= fuel
    requires v.Obj? && RefAt(v, kind).None?
    ensures fuel > 0 && ExpandFields(root, v, kind, fuel) == UnfoldFields(root, v, seen, kind)
    decreases fuel, 0
  {
    hide Expand;
    hide ChildKind;
    UnfoldGathers(root, v, seen, kind);
    hide Unfold;
    hide Weigh;
    forall k | k in v.fields
      ensures Expand(root, v.fields[k], ChildKind(kind, k), fuel - 1) ==
              Unfold(root, v.fields[k], seen, ChildKind(kind, k))
    {
      assert UnfoldFields(root, v, seen, kind)[k].Some?;
      FieldVisits(root, v, seen, kind, k);
      UnfoldIsExpansion(root, v.fields[k], seen, ChildKind(kind, k), fuel - 1);
    }
  }

  lemma {:induction false} ElementsExpand(root: Document, v: Json, seen: set<string>, kind: Kind, fuel: nat)
    requires Unfold(root, v, seen, kind).Some? && Visits(root, v, seen, kind) <= fuel && v.Arr?
    ensures fuel > 0 && ExpandElements(root, v, kind, fuel) == UnfoldElements(root, v, seen, kind)
    decreases fuel, 0
  {
    hide Expand;
    var results := UnfoldElements(root, v, seen, kind);
    WeighArray(root, v, seen, kind);
    assert GatherAll(results).Some? by {
      UnfoldGathers(root, v, seen, kind);
    }
    hide Unfold;
    forall i | 0 <= i < |v.elements| ensures ExpandElements(root, v, kind, fuel)[i] == results[i] {
      assert results[i].Some?;
      ElementVisits(root, v, seen, kind, i);
      UnfoldIsExpansion(root, v.elements[i], seen, ElementKind(kind), fuel - 1);
    }
  }

  lemma UnfoldGathers(root: Document, v: Json, seen: set<string>, kind: Kind)
    requires !HasNul(v) && RefAt(v, kind).None?
    ensures v.Obj? ==> Unfold(root, v, seen, kind) == Gather(UnfoldFields(root, v, seen, kind))
    ensures v.Arr? ==> Unfold(root, v, seen, kind) == GatherAll(UnfoldElements(root, v, seen, kind))
  {
    hide ChildKind;
    hide JsonPointer.Lookup;
    hide JsonNumbers.Number;
  }

  // Positions visited

  datatype Position = Position(value: Json, kind: Kind)

  datatype Step = Field(key: string) | Element(n: nat) | Target | Beside

  function Go(root: Document, p: Position, s: Step): Option<Position> {
    match s
    case Field(key) =>
      if p.value.Obj? && RefAt(p.value, p.kind).None? && key in p.value.fields then
        Some(Position(p.value.fields[key], ChildKind(p.kind, key)))
      else None
    case Element(n) =>
      if p.value.Arr? && n < |p.value.elements| then Some(Position(p.value.elements[n], ElementKind(p.kind))) else None
    case Target =>
      if RefAt(p.value, p.kind).None? then None
      else
        var target := JsonPointer.Lookup(root, RefAt(p.value, p.kind).value);
        if target.None? then None else Some(Position(target.value, p.kind))
    case Beside =>
      if RefAt(p.value, p.kind).Some? && KeepsSiblings(root, p.value, p.kind) then
        Some(Position(Siblings(p.value), Schema))
      else None
  }

  ghost function Travel(root: Document, p: Position, steps: seq<Step>): Option<Position>
    decreases |steps|
  {
    if steps == [] then Some(p)
    else
      var next := Go(root, p, steps[0]);
      if next.None? then None else Travel(root, next.value, steps[1..])
  }

  /** The references followed on the way. */
  ghost function Followed(root: Document, p: Position, steps: seq<Step>): set<string>
    requires Travel(root, p, steps).Some?
    decreases |steps|
  {
    if steps == [] then {}
    else
      (if steps[0] == Target then {RefAt(p.value, p.kind).value} else {})
      + Followed(root, Go(root, p, steps[0]).value, steps[1..])
  }

  /** The way ends at a reference that was followed on it, or is in the set. */
  ghost predicate Repeats(root: Document, p: Position, steps: seq<Step>, seen: set<string>) {
    var end := Travel(root, p, steps);
    end.Some? && RefAt(end.value.value, end.value.kind).Some?
    && RefAt(end.value.value, end.value.kind).value in seen + Followed(root, p, steps)
  }

  lemma {:induction false} UnfoldNeverRepeats(root: Document, p: Position, steps: seq<Step>, seen: set<string>)
    requires Unfold(root, p.value, seen, p.kind).Some?
    ensures !Repeats(root, p, steps, seen)
    decreases |steps|
  {
    hide ChildKind;
    hide JsonPointer.Lookup;
    hide JsonNumbers.Number;
    hide UnderAllOf;
    hide Described;
    if steps != [] && Go(root, p, steps[0]).Some? {
      var v, kind := p.value, p.kind;
      var next := Go(root, p, steps[0]).value;
      match steps[0]
      case Field(key) =>
        assert UnfoldFields(root, v, seen, kind)[key].Some?;
        UnfoldNeverRepeats(root, next, steps[1..], seen);
      case Element(n) =>
        assert UnfoldElements(root, v, seen, kind)[n].Some?;
        UnfoldNeverRepeats(root, next, steps[1..], seen);
      case Target =>
        ReferenceParts(root, v, seen, kind, next.value);
        UnfoldNeverRepeats(root, next, steps[1..], seen + {RefAt(v, kind).value});
      case Beside =>
        ReferenceParts(root, v, seen, kind, JsonPointer.Lookup(root, RefAt(v, kind).value).value);
        UnfoldNeverRepeats(root, next, steps[1..], seen);
    }
  }

  /** When the expansion is finite and the resolver refuses, it met a reference twice. */
  lemma {:induction false} RefusalRepeats(root: Document, p: Position, seen: set<string>, fuel: nat)
    returns (steps: seq<Step>)
    requires Expand(root, p.value, p.kind, fuel).Some? && Unfold(root, p.value, seen, p.kind).None?
    ensures Repeats(root, p, steps, seen)
    decreases fuel, 1
  {
    hide ChildKind;
    hide JsonPointer.Lookup;
    hide JsonNumbers.Number;
    hide UnderAllOf;
    hide Described;
    var v, kind := p.value, p.kind;
    if RefAt(v, kind).Some? {
      steps := ReferenceRepeats(root, p, seen, fuel);
    } else if v.Obj? {
      ExpandGathers(root, v, kind, fuel);
      UnfoldGathers(root, v, seen, kind);
      var key :| key in v.fields && UnfoldFields(root, v, seen, kind)[key].None?;
      assert ExpandFields(root, v, kind, fuel)[key].Some?;
      var next := Position(v.fields[key], ChildKind(kind, key));
      var rest := RefusalRepeats(root, next, seen, fuel - 1);
      steps := Ahead(root, p, Field(key), next, rest, seen);
    } else if v.Arr? {
      ExpandGathers(root, v, kind, fuel);
      UnfoldGathers(root, v, seen, kind);
      var n :| 0 <= n < |v.elements| && UnfoldElements(root, v, seen, kind)[n].None?;
      assert ExpandElements(root, v, kind, fuel)[n].Some?;
      var next := Position(v.elements[n], ElementKind(kind));
      var rest := RefusalRepeats(root, next, seen, fuel - 1);
      steps := Ahead(root, p, Element(n), next, rest, seen);
    }
  }

  lemma {:induction false} ReferenceRepeats(root: Document, p: Position, seen: set<string>, fuel: nat)
    returns (steps: seq<Step>)
    requires Expand(root, p.value, p.kind, fuel).Some? && Unfold(root, p.value, seen, p.kind).None?
    requires RefAt(p.value, p.kind).Some?
    ensures Repeats(root, p, steps, seen)
    decreases fuel, 0
  {
    hide ChildKind;
    hide JsonPointer.Lookup;
    hide JsonNumbers.Number;
    hide UnderAllOf;
    hide Described;
    var v, kind := p.value, p.kind;
    var ref := RefAt(v, kind).value;
    if ref in seen {
      steps := [];
    } else {
      var target := Position(JsonPointer.Lookup(root, ref).value, kind);
      ReferenceParts(root, v, seen, kind, target.value);
      if Unfold(root, target.value, seen + {ref}, kind).None? {
        var rest := RefusalRepeats(root, target, seen + {ref}, fuel - 1);
        steps := Ahead(root, p, Target, target, rest, seen);
      } else {
        var beside := Position(Siblings(v), Schema);
        var rest := RefusalRepeats(root, beside, seen, fuel - 1);
        steps := Ahead(root, p, Beside, beside, rest, seen);
      }
    }
  }

  lemma ExpandGathers(root: Document, v: Json, kind: Kind, fuel: nat)
    requires Expand(root, v, kind, fuel).Some? && RefAt(v, kind).None?
    ensures fuel > 0 && !HasNul(v)
    ensures v.Obj? ==> Expand(root, v, kind, fuel) == Gather(ExpandFields(root, v, kind, fuel))
    ensures v.Arr? ==> Expand(root, v, kind, fuel) == GatherAll(ExpandElements(root, v, kind, fuel))
  {
    hide ChildKind;
    hide JsonPointer.Lookup;
    hide JsonNumbers.Number;
  }

  lemma Ahead(root: Document, p: Position, s: Step, next: Position, rest: seq<Step>, seen: set<string>)
    returns (steps: seq<Step>)
    requires Go(root, p, s) == Some(next)
    requires Repeats(root, next, rest, if s == Target then seen + {RefAt(p.value, p.kind).value} else seen)
    ensures steps == [s] + rest && Repeats(root, p, steps, seen)
  {
    hide Go;
    hide RefAt;
    steps := [s] + rest;
    assert steps[1..] == rest;
  }

  ghost predicate Finite(root: Document, v: Json, kind: Kind) {
    exists fuel: nat :: Expand(root, v, kind, fuel).Some?
  }

  /** The resolver succeeds exactly if the expansion is finite and no path follows a reference twice. */
  lemma UnfoldExact(root: Document, v: Json, kind: Kind)
    ensures Unfold(root, v, {}, kind).Some? <==>
            Finite(root, v, kind) && !exists steps :: Repeats(root, Position(v, kind), steps, {})
  {
    hide Unfold;
    hide Expand;
    hide Repeats;
    if Unfold(root, v, {}, kind).Some? {
      UnfoldIsExpansion(root, v, {}, kind, Visits(root, v, {}, kind));
      forall steps ensures !Repeats(root, Position(v, kind), steps, {}) {
        UnfoldNeverRepeats(root, Position(v, kind), steps, {});
      }
    } else if Finite(root, v, kind) {
      var fuel: nat :| Expand(root, v, kind, fuel).Some?;
      var steps := RefusalRepeats(root, Position(v, kind), {}, fuel);
    }
  }

  // Cycles

  lemma GoExpands(root: Document, p: Position, s: Step, fuel: nat)
    requires Expand(root, p.value, p.kind, fuel).Some? && Go(root, p, s).Some?
    ensures fuel > 0 && Expand(root, Go(root, p, s).value.value, Go(root, p, s).value.kind, fuel - 1).Some?
  {
    hide ChildKind;
    hide JsonPointer.Lookup;
    hide JsonNumbers.Number;
    hide UnderAllOf;
    hide Described;
    match s
    case Field(key) => assert ExpandFields(root, p.value, p.kind, fuel)[key].Some?;
    case Element(n) => assert ExpandElements(root, p.value, p.kind, fuel)[n].Some?;
    case Target =>
    case Beside =>
  }

  /** Every position on the way of a finite expansion has a shorter one. */
  lemma {:induction false} TravelExpands(root: Document, p: Position, steps: seq<Step>, fuel: nat)
    requires Expand(root, p.value, p.kind, fuel).Some? && Travel(root, p, steps).Some?
    ensures |steps| < fuel
    ensures Expand(root, Travel(root, p, steps).value.value, Travel(root, p, steps).value.kind, fuel - |steps|).Some?
    decreases |steps|
  {
    hide Go;
    if steps == [] {
      assert fuel > 0;
    } else {
      GoExpands(root, p, steps[0], fuel);
      TravelExpands(root, Go(root, p, steps[0]).value, steps[1..], fuel - 1);
    }
  }

  lemma {:induction false} TravelJoins(root: Document, p: Position, before: seq<Step>, after: seq<Step>)
    requires Travel(root, p, before).Some?
    ensures Travel(root, p, before + after) == Travel(root, Travel(root, p, before).value, after)
    decreases |before|
  {
    hide Go;
    if before == [] {
      assert before + after == after;
    } else {
      assert (before + after)[1..] == before[1..] + after;
      TravelJoins(root, Go(root, p, before[0]).value, before[1..], after);
    }
  }

  lemma {:induction false} CycleNeverEnds(root: Document, p: Position, steps: seq<Step>, fuel: nat)
    requires steps != [] && Travel(root, p, steps) == Some(p)
    ensures Expand(root, p.value, p.kind, fuel).None?
    decreases fuel
  {
    hide Expand;
    hide Travel;
    if Expand(root, p.value, p.kind, fuel).Some? {
      TravelExpands(root, p, steps, fuel);
      CycleNeverEnds(root, p, steps, fuel - |steps|);
    }
  }

  /** A reference met again under the same kind inside its own target: no reader could finish. */
  lemma SameKindNeverEnds(root: Document, p: Position, before: seq<Step>, inside: seq<Step>, fuel: nat)
    requires Travel(root, p, before).Some?
    requires var q := Travel(root, p, before).value;
             && Travel(root, q, [Target] + inside).Some?
             && var r := Travel(root, q, [Target] + inside).value;
                RefAt(r.value, r.kind).Some? && RefAt(r.value, r.kind) == RefAt(q.value, q.kind) && r.kind == q.kind
    ensures Expand(root, p.value, p.kind, fuel).None?
  {
    hide Expand;
    hide JsonPointer.Lookup;
    var q := Travel(root, p, before).value;
    var target := Go(root, q, Target).value;
    assert ([Target] + inside)[1..] == inside;
    var r := Travel(root, target, inside).value;
    assert Go(root, r, Target) == Some(target);
    assert Travel(root, r, [Target]) == Travel(root, target, [][..]);
    TravelJoins(root, target, inside, [Target]);
    TravelJoins(root, p, before, [Target]);
    assert Travel(root, q, [Target]) == Some(target);
    if Expand(root, p.value, p.kind, fuel).Some? {
      TravelExpands(root, p, before + [Target], fuel);
      CycleNeverEnds(root, target, inside + [Target], fuel - |before| - 1);
    }
  }

  lemma {:induction false} FollowedAt(root: Document, p: Position, steps: seq<Step>, ref: string) returns (i: nat)
    requires Travel(root, p, steps).Some? && ref in Followed(root, p, steps)
    ensures i < |steps| && steps[i] == Target && Travel(root, p, steps[..i]).Some?
    ensures var q := Travel(root, p, steps[..i]).value;
            RefAt(q.value, q.kind) == Some(ref) && Travel(root, p, steps) == Travel(root, q, steps[i..])
    decreases |steps|
  {
    hide JsonPointer.Lookup;
    hide ChildKind;
    if steps[0] == Target && RefAt(p.value, p.kind).value == ref {
      i := 0;
      assert steps[..0] == [] && steps[0..] == steps;
    } else {
      var next := Go(root, p, steps[0]).value;
      var j := FollowedAt(root, next, steps[1..], ref);
      i := j + 1;
      assert steps[..i][1..] == steps[1..][..j] && steps[i..] == steps[1..][j..];
      assert steps[..i][0] == steps[0];
    }
  }

  /** A finite expansion is refused only where a reference is met again under another kind. */
  lemma RefusedKindsDiffer(root: Document, p: Position, steps: seq<Step>, fuel: nat) returns (i: nat)
    requires Expand(root, p.value, p.kind, fuel).Some? && Repeats(root, p, steps, {})
    ensures i < |steps| && Travel(root, p, steps[..i]).Some?
    ensures var q, r := Travel(root, p, steps[..i]).value, Travel(root, p, steps).value;
            RefAt(q.value, q.kind) == RefAt(r.value, r.kind) && q.kind != r.kind
  {
    hide Expand;
    hide Go;
    var r := Travel(root, p, steps).value;
    i := FollowedAt(root, p, steps, RefAt(r.value, r.kind).value);
    var q := Travel(root, p, steps[..i]).value;
    if q.kind == r.kind {
      assert steps[i..] == [Target] + steps[i + 1..];
      SameKindNeverEnds(root, p, steps[..i], steps[i + 1..], fuel);
    }
  }

  /** References seen elsewhere make no difference: fewer of them never turn success into failure. */
  lemma SeenOnlyRefuses(root: Document, v: Json, seen: set<string>, fewer: set<string>, kind: Kind)
    requires Unfold(root, v, seen, kind).Some? && fewer <= seen
    ensures Unfold(root, v, fewer, kind) == Unfold(root, v, seen, kind)
  {
    hide Unfold;
    hide Expand;
    hide Visits;
    var fuel := Visits(root, v, seen, kind) + Visits(root, v, fewer, kind);
    UnfoldIsExpansion(root, v, seen, kind, fuel);
    if Unfold(root, v, fewer, kind).None? {
      var steps := RefusalRepeats(root, Position(v, kind), fewer, fuel);
      UnfoldNeverRepeats(root, Position(v, kind), steps, seen);
    } else {
      UnfoldIsExpansion(root, v, fewer, kind, fuel);
    }
  }

  // No reference is left

  /** Nothing in the document at this kind would be resolved. */
  ghost predicate Resolved(v: Json, kind: Kind) {
    && RefAt(v, kind).None?
    && match v
       case Obj(fields) => forall k | k in fields :: Resolved(fields[k], ChildKind(kind, k))
       case Arr(elements) => forall i | 0 <= i < |elements| :: Resolved(elements[i], ElementKind(kind))
       case _ => true
  }

  /** Wherever references count, `$ref` is text, and so are the descriptions beside one. */
  ghost predicate TextAt(root: Document, p: Position) {
    && (p.value.Obj? && Resolving(p.kind) && "$ref" in p.value.fields ==> p.value.fields["$ref"].Str?)
    && (RefAt(p.value, p.kind).Some? && Is31(root) && p.kind == Object ==>
          forall k | k in {"summary", "description"} && k in p.value.fields :: p.value.fields[k].Str?)
  }

  ghost predicate TextEverywhere(root: Document, p: Position) {
    forall steps | Travel(root, p, steps).Some? :: TextAt(root, Travel(root, p, steps).value)
  }

  lemma TextBelow(root: Document, p: Position, s: Step)
    requires TextEverywhere(root, p) && Go(root, p, s).Some?
    ensures TextEverywhere(root, Go(root, p, s).value)
  {
    hide Go;
    hide TextAt;
    var next := Go(root, p, s).value;
    forall steps | Travel(root, next, steps).Some? ensures TextAt(root, Travel(root, next, steps).value) {
      assert ([s] + steps)[1..] == steps;
      assert Travel(root, p, [s] + steps) == Travel(root, next, steps);
    }
  }

  lemma {:induction false} NoReferenceLeft(root: Document, p: Position, fuel: nat)
    requires Expand(root, p.value, p.kind, fuel).Some? && TextEverywhere(root, p)
    ensures Resolved(Expand(root, p.value, p.kind, fuel).value, p.kind)
    decreases fuel, 1
  {
    hide JsonPointer.Lookup;
    hide JsonNumbers.Number;
    hide ChildKind;
    hide UnderAllOf;
    hide Described;
    var v, kind := p.value, p.kind;
    var r := Expand(root, v, kind, fuel).value;
    assert TextAt(root, p) by {
      assert Travel(root, p, []) == Some(p);
    }
    if RefAt(v, kind).Some? {
      var target := Go(root, p, Target).value;
      TextBelow(root, p, Target);
      NoReferenceLeft(root, target, fuel - 1);
      var t := Expand(root, target.value, kind, fuel - 1).value;
      if KeepsSiblings(root, v, kind) {
        TextBelow(root, p, Beside);
        NoReferenceLeft(root, Position(Siblings(v), Schema), fuel - 1);
        MergedResolved(t, Expand(root, Siblings(v), Schema, fuel - 1).value);
      } else {
        DescribedResolved(root, t, v, kind);
      }
    } else if v.Obj? {
      ExpandGathers(root, v, kind, fuel);
      forall k | k in v.fields ensures Resolved(r.fields[k], ChildKind(kind, k)) {
        assert ExpandFields(root, v, kind, fuel)[k].Some?;
        TextBelow(root, p, Field(k));
        NoReferenceLeft(root, Position(v.fields[k], ChildKind(kind, k)), fuel - 1);
      }
      TextStays(root, p, fuel);
    } else if v.Arr? {
      ExpandGathers(root, v, kind, fuel);
      forall i | 0 <= i < |v.elements| ensures Resolved(r.elements[i], ElementKind(kind)) {
        assert ExpandElements(root, v, kind, fuel)[i].Some?;
        TextBelow(root, p, Element(i));
        NoReferenceLeft(root, Position(v.elements[i], ElementKind(kind)), fuel - 1);
      }
    }
  }

  /** An object without a reference gets none. */
  lemma TextStays(root: Document, p: Position, fuel: nat)
    requires p.value.Obj? && RefAt(p.value, p.kind).None? && TextAt(root, p)
    requires Expand(root, p.value, p.kind, fuel).Some?
    ensures RefAt(Expand(root, p.value, p.kind, fuel).value, p.kind).None?
  {
    hide JsonPointer.Lookup;
    hide JsonNumbers.Number;
    hide ChildKind;
    ExpandGathers(root, p.value, p.kind, fuel);
  }

  lemma MergedResolved(target: Json, additional: Json)
    requires Resolved(target, Schema) && Resolved(additional, Schema) && additional.Obj?
    ensures Resolved(UnderAllOf(target, additional), Schema)
  {
    var r := UnderAllOf(target, additional);
    assert ChildKind(Schema, "allOf") == SchemaArray;
    assert Resolved(r.fields["allOf"], SchemaArray);
  }

  lemma DescribedResolved(root: Document, target: Json, v: Json, kind: Kind)
    requires Resolved(target, kind) && RefAt(v, kind).Some? && TextAt(root, Position(v, kind))
    ensures Resolved(Described(root, target, v, kind), kind)
  {
  }
}

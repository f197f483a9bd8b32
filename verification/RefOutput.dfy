/** How large an expanded document can get: services/vdoc/openapi.go, openAPIResolver.value. */
module RefOutput {
  import opened Wrappers
  import opened JsonTrees
  import opened RefResolver
  import opened RefExpansion
  import JsonPointer
  import JsonNumbers

  lemma {:induction false} SumBelow(m: map<string, nat>, n: map<string, nat>)
    requires m.Keys == n.Keys && forall k | k in m :: m[k] <= n[k]
    ensures Sum(m) <= Sum(n)
    decreases |m|
  {
    if m == map[] {
      assert n == map[] by {
        assert n.Keys == {};
      }
    } else {
      var k :| k in m;
      SumRemove(m, k);
      SumRemove(n, k);
      SumBelow(m - {k}, n - {k});
    }
  }

  lemma {:induction false} SizeAppend(elements: seq<Json>, x: Json)
    ensures SizeAll(elements + [x]) == SizeAll(elements) + Size(x)
  {
    if elements == [] {
      assert elements + [x] == [x] && [x][1..] == [];
    } else {
      assert (elements + [x])[1..] == elements[1..] + [x];
      SizeAppend(elements[1..], x);
    }
  }

  lemma {:induction false} SizeBelow(elements: seq<Json>, n: seq<nat>)
    requires |elements| == |n| && forall i | 0 <= i < |n| :: Size(elements[i]) <= n[i]
    ensures SizeAll(elements) <= Total(n)
    decreases |n|
  {
    if n != [] {
      var last := |n| - 1;
      SizeBelow(elements[..last], n[..last]);
      assert elements == elements[..last] + [elements[last]];
      SizeAppend(elements[..last], elements[last]);
    }
  }

  /** The values a 3.1 reference object puts into its target; they are not visited. */
  ghost function TextBeside(v: Json): nat {
    if !v.Obj? then 0
    else
      (if "summary" in v.fields then Size(v.fields["summary"]) else 0) +
      (if "description" in v.fields then Size(v.fields["description"]) else 0)
  }

  ghost predicate Overrides(root: Document, p: Position) {
    Is31(root) && p.kind == Object && RefAt(p.value, p.kind).Some?
  }

  ghost predicate PaidAt(root: Document, p: Position, w: Json -> nat) {
    w(p.value) >= 1 + if Overrides(root, p) then TextBeside(p.value) else 0
  }

  /** Every visit is charged for the values it puts into the output. */
  ghost predicate PaidEverywhere(root: Document, p: Position, w: Json -> nat) {
    forall steps | Travel(root, p, steps).Some? :: PaidAt(root, Travel(root, p, steps).value, w)
  }

  lemma PaidBelow(root: Document, p: Position, s: Step, w: Json -> nat)
    requires PaidEverywhere(root, p, w) && Go(root, p, s).Some?
    ensures PaidEverywhere(root, Go(root, p, s).value, w)
  {
    hide Go;
    hide PaidAt;
    var next := Go(root, p, s).value;
    forall steps | Travel(root, next, steps).Some? ensures PaidAt(root, Travel(root, next, steps).value, w) {
      assert ([s] + steps)[1..] == steps;
      assert Travel(root, p, [s] + steps) == Travel(root, next, steps);
    }
  }

  lemma {:induction false} NormalizeSize(v: Json)
    ensures Size(JsonNumbers.Normalize(v)) == Size(v)
  {
    var r := JsonNumbers.Normalize(v);
    if v.Obj? {
      forall k | k in v.fields ensures Size(r.fields[k]) == Size(v.fields[k]) {
        NormalizeSize(v.fields[k]);
      }
      assert Sizes(r.fields, r) == Sizes(v.fields, v);
    } else if v.Arr? {
      forall i | 0 <= i < |v.elements| ensures Size(r.elements[i]) == Size(v.elements[i]) {
        NormalizeSize(v.elements[i]);
      }
      SameSizes(r.elements, v.elements);
    }
  }

  lemma {:induction false} SameSizes(a: seq<Json>, b: seq<Json>)
    requires |a| == |b| && forall i | 0 <= i < |a| :: Size(a[i]) == Size(b[i])
    ensures SizeAll(a) == SizeAll(b)
  {
    if a != [] {
      assert forall i | 0 <= i < |a| - 1 :: a[1..][i] == a[i + 1] && b[1..][i] == b[i + 1];
      SameSizes(a[1..], b[1..]);
    }
  }

  lemma PutSize(fields: map<string, Json>, k: string, x: Json)
    ensures Size(Obj(fields[k := x])) <= Size(Obj(fields)) + Size(x)
    ensures k in fields ==> Size(Obj(fields[k := x])) == Size(Obj(fields)) - Size(fields[k]) + Size(x)
  {
    var put := fields[k := x];
    FieldSize(put, k);
    assert put - {k} == fields - {k};
    if k in fields {
      FieldSize(fields, k);
    } else {
      assert fields - {k} == fields;
    }
  }

  lemma DescribedSize(root: Document, target: Json, v: Json, kind: Kind)
    requires RefAt(v, kind).Some?
    ensures Size(Described(root, target, v, kind)) <=
            Size(target) + if Overrides(root, Position(v, kind)) then TextBeside(v) else 0
  {
    if Is31(root) && kind == Object && target.Obj? {
      var siblings := Siblings(v).fields;
      var first := Override(target.fields, siblings, "summary");
      if "summary" in siblings {
        NormalizeSize(siblings["summary"]);
        PutSize(target.fields, "summary", JsonNumbers.Normalize(siblings["summary"]));
      }
      if "description" in siblings {
        NormalizeSize(siblings["description"]);
        PutSize(first, "description", JsonNumbers.Normalize(siblings["description"]));
      }
    }
  }

  lemma UnderAllOfSize(target: Json, additional: Json)
    requires additional.Obj?
    ensures Size(UnderAllOf(target, additional)) <= 1 + Size(target) + Size(additional)
  {
    var fields := additional.fields;
    var rest := if "allOf" in fields && fields["allOf"].Arr? then fields["allOf"].elements else [];
    var both := Arr([target] + rest);
    assert ([target] + rest)[1..] == rest;
    assert Size(both) == 1 + Size(target) + SizeAll(rest);
    PutSize(fields, "allOf", both);
  }

  lemma WeighParts(root: Document, v: Json, seen: set<string>, kind: Kind, w: Json -> nat)
    requires RefAt(v, kind).None?
    ensures v.Obj? ==> Weigh(root, v, seen, kind, w) == w(v) + Sum(FieldWeights(root, v, seen, kind, w))
    ensures v.Arr? ==> Weigh(root, v, seen, kind, w) == w(v) + Total(ElementWeights(root, v, seen, kind, w))
  {
    hide ChildKind;
    hide JsonPointer.Lookup;
  }

  lemma WeighReference(root: Document, v: Json, seen: set<string>, kind: Kind, target: Json, w: Json -> nat)
    requires RefAt(v, kind).Some? && RefAt(v, kind).value !in seen
    requires JsonPointer.Lookup(root, RefAt(v, kind).value) == Some(target)
    ensures Weigh(root, v, seen, kind, w) ==
            w(v) + Weigh(root, target, seen + {RefAt(v, kind).value}, kind, w)
            + if KeepsSiblings(root, v, kind) then Weigh(root, Siblings(v), seen, Schema, w) else 0
  {
    hide ChildKind;
    hide JsonPointer.Lookup;
  }

  /** The output holds no more values than the visits are charged for. */
  lemma {:induction false} OutputBound(root: Document, v: Json, seen: set<string>, kind: Kind, w: Json -> nat)
    requires Unfold(root, v, seen, kind).Some? && PaidEverywhere(root, Position(v, kind), w)
    ensures Size(Unfold(root, v, seen, kind).value) <= Weigh(root, v, seen, kind, w)
    decreases Unseen(root, v, seen), Size(v)
  {
    hide ChildKind;
    hide JsonPointer.Lookup;
    hide JsonNumbers.Number;
    hide UnderAllOf;
    hide Described;
    hide Refs;
    hide Unseen;
    hide PaidEverywhere;
    var p := Position(v, kind);
    assert PaidAt(root, p, w) by {
      PaidHere(root, p, w);
    }
    ChildrenSmaller(root, v, seen);
    if RefAt(v, kind).Some? {
      ReferenceBound(root, v, seen, kind, w);
    } else if v.Obj? {
      UnfoldGathers(root, v, seen, kind);
      var out := Unfold(root, v, seen, kind).value;
      assert out.fields.Keys == v.fields.Keys;
      var sizes, weights := Sizes(out.fields, out), FieldWeights(root, v, seen, kind, w);
      forall k | k in v.fields ensures sizes[k] <= weights[k] {
        assert UnfoldFields(root, v, seen, kind)[k].Some?;
        PaidBelow(root, p, Field(k), w);
        OutputBound(root, v.fields[k], seen, ChildKind(kind, k), w);
      }
      SumBelow(sizes, weights);
      WeighParts(root, v, seen, kind, w);
    } else if v.Arr? {
      UnfoldGathers(root, v, seen, kind);
      var out := Unfold(root, v, seen, kind).value;
      var weights := ElementWeights(root, v, seen, kind, w);
      forall i | 0 <= i < |v.elements| ensures Size(out.elements[i]) <= weights[i] {
        assert UnfoldElements(root, v, seen, kind)[i].Some?;
        PaidBelow(root, p, Element(i), w);
        OutputBound(root, v.elements[i], seen, ElementKind(kind), w);
      }
      SizeBelow(out.elements, weights);
      WeighParts(root, v, seen, kind, w);
    }
  }

  lemma PaidHere(root: Document, p: Position, w: Json -> nat)
    requires PaidEverywhere(root, p, w)
    ensures PaidAt(root, p, w)
  {
    assert Travel(root, p, []) == Some(p);
  }

  lemma {:induction false} ReferenceBound(root: Document, v: Json, seen: set<string>, kind: Kind, w: Json -> nat)
    requires Unfold(root, v, seen, kind).Some? && PaidEverywhere(root, Position(v, kind), w) && RefAt(v, kind).Some?
    ensures Size(Unfold(root, v, seen, kind).value) <= Weigh(root, v, seen, kind, w)
    decreases Unseen(root, v, seen), Size(v), 0
  {
    hide ChildKind;
    hide JsonPointer.Lookup;
    hide JsonNumbers.Number;
    hide UnderAllOf;
    hide Described;
    hide Refs;
    hide Unseen;
    hide PaidEverywhere;
    var p := Position(v, kind);
    PaidHere(root, p, w);
    var ref := RefAt(v, kind).value;
    var target := JsonPointer.Lookup(root, ref).value;
    TargetSmaller(root, v, kind, seen);
    SiblingsSmaller(root, v, kind, seen);
    ReferenceParts(root, v, seen, kind, target);
    WeighReference(root, v, seen, kind, target, w);
    PaidBelow(root, p, Target, w);
    OutputBound(root, target, seen + {ref}, kind, w);
    var t := Unfold(root, target, seen + {ref}, kind).value;
    if KeepsSiblings(root, v, kind) {
      PaidBelow(root, p, Beside, w);
      OutputBound(root, Siblings(v), seen, Schema, w);
      UnderAllOfSize(t, Unfold(root, Siblings(v), seen, Schema).value);
    } else {
      DescribedSize(root, t, v, kind);
    }
  }

  /** Nothing is put into the output unvisited. */
  ghost predicate NoOverride(root: Document, p: Position) {
    forall steps | Travel(root, p, steps).Some? ::
      Overrides(root, Travel(root, p, steps).value) ==> TextBeside(Travel(root, p, steps).value.value) == 0
  }

  /** Where no 3.1 reference object has text beside it, the output holds no more values than were visited. */
  lemma OutputSize(root: Document, v: Json, seen: set<string>, kind: Kind)
    requires !Is31(root) || NoOverride(root, Position(v, kind))
    requires Unfold(root, v, seen, kind).Some?
    ensures Size(Unfold(root, v, seen, kind).value) <= Visits(root, v, seen, kind)
  {
    hide Travel;
    OutputBound(root, v, seen, kind, OneNode);
  }

  ghost function WithText(v: Json): nat {
    1 + TextBeside(v)
  }

  /** In every version: no more than the visits and the text beside what was visited. */
  lemma OutputWithText(root: Document, v: Json, seen: set<string>, kind: Kind)
    requires Unfold(root, v, seen, kind).Some?
    ensures Size(Unfold(root, v, seen, kind).value) <= Weigh(root, v, seen, kind, WithText)
  {
    hide Travel;
    OutputBound(root, v, seen, kind, WithText);
  }
}

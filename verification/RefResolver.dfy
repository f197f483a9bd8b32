/**
 Expansion of `$ref` in an OpenAPI document: services/vdoc/openapi.go, openAPIResolver.value, visit
 and childRefKind. The kind of a position decides whether a `$ref` found there is a reference.

 `Unfold` is the result without the budgets, `Visits`, `Load` and `Shallow` are what it costs, and
 the resolver's methods are proved to return the one within the limits of the other. Every error
 is None, and strings stand for byte strings.
 */
module RefResolver {
  import opened Wrappers
  import opened JsonTrees
  import JsonPointer
  import JsonNumbers

  const MAX_BYTES: nat := 16777216
  const MAX_NODES: nat := 200000
  const MAX_DEPTH: nat := 128

  type Document = map<string, Json>

  datatype Kind = Object | Schema | SchemaMap | SchemaArray | ObjectMap | Responses | Literal

  predicate HasPrefix(s: string, prefix: string) {
    prefix <= s
  }

  /** The kind below a key. */
  function ChildKind(parent: Kind, key: string): Kind {
    match parent
    case Literal => Literal
    case SchemaMap => Schema
    case ObjectMap => Object
    case Responses => if HasPrefix(key, "x-") then Literal else Object
    case Schema =>
      if key in {"properties", "patternProperties", "$defs", "definitions", "dependentSchemas"} then SchemaMap
      else if key in {"allOf", "anyOf", "oneOf", "prefixItems"} then SchemaArray
      else if key in {"items", "additionalItems", "additionalProperties", "unevaluatedProperties",
        "unevaluatedItems", "propertyNames", "contains", "not", "if", "then", "else"} then Schema
      else Literal
    case _ =>
      if HasPrefix(key, "x-") then Literal
      else if key == "schema" then Schema
      else if key in {"content", "headers", "examples", "encoding"} then ObjectMap
      else if key == "responses" then Responses
      else if key in {"example", "default", "enum", "const", "value"} then Literal
      else Object
  }

  function ElementKind(kind: Kind): Kind {
    if kind == SchemaArray then Schema else kind
  }

  /** References are resolved at positions of this kind. */
  predicate Resolving(kind: Kind) {
    kind == Object || kind == Schema || kind == SchemaArray
  }

  function RefAt(v: Json, kind: Kind): Option<string> {
    if v.Obj? && "$ref" in v.fields && v.fields["$ref"].Str? && Resolving(kind) then Some(v.fields["$ref"].s)
    else None
  }

  predicate Is31(root: Document) {
    "openapi" in root && root["openapi"].Str? && HasPrefix(root["openapi"].s, "3.1.")
  }

  predicate NulIn(s: string) {
    '\0' in s
  }

  predicate HasNul(v: Json) {
    match v
    case Str(s) => NulIn(s)
    case Obj(fields) => exists k | k in fields :: NulIn(k)
    case _ => false
  }

  function Siblings(v: Json): Json
    requires v.Obj?
  {
    Obj(v.fields - {"$ref"})
  }

  /** OpenAPI 3.1 schemas keep the keywords beside a reference. */
  predicate KeepsSiblings(root: Document, v: Json, kind: Kind)
    requires v.Obj?
  {
    Is31(root) && kind == Schema && Siblings(v).fields != map[]
  }

  function UnderAllOf(target: Json, additional: Json): Json
    requires additional.Obj?
  {
    var rest :=
      if "allOf" in additional.fields && additional.fields["allOf"].Arr? then additional.fields["allOf"].elements
        else [];
    Obj(additional.fields["allOf" := Arr([target] + rest)])
  }

  function Override(target: map<string, Json>, siblings: map<string, Json>, key: string): map<string, Json> {
    if key in siblings then target[key := JsonNumbers.Normalize(siblings[key])] else target
  }

  /** OpenAPI 3.1 reference objects may replace the summary and the description. */
  function Described(root: Document, target: Json, v: Json, kind: Kind): Json
    requires v.Obj?
  {
    if Is31(root) && kind == Object && target.Obj? then
      Obj(Override(Override(target.fields, Siblings(v).fields, "summary"), Siblings(v).fields, "description"))
    else target
  }

  // The measure: references not yet seen on the path, then the size of the value

  ghost function Refs(v: Json): set<string> {
    match v
    case Obj(fields) =>
      (if "$ref" in fields && fields["$ref"].Str? then {fields["$ref"].s} else {})
      + (set k, r | k in fields && r in Refs(fields[k]) :: r)
    case Arr(elements) => set i, r | 0 <= i < |elements| && r in Refs(elements[i]) :: r
    case _ => {}
  }

  ghost function Unseen(root: Document, v: Json, seen: set<string>): set<string> {
    Refs(Obj(root)) + Refs(v) - seen
  }

  ghost predicate Smaller(root: Document, w: Json, v: Json, seen: set<string>) {
    && (Unseen(root, w, seen) == Unseen(root, v, seen) || Unseen(root, w, seen) < Unseen(root, v, seen))
    && Size(w) < Size(v)
  }

  lemma SubtreeSmaller(root: Document, w: Json, v: Json, seen: set<string>)
    requires Refs(w) <= Refs(v) && Size(w) < Size(v)
    ensures Smaller(root, w, v, seen)
  {
    assert Unseen(root, w, seen) <= Unseen(root, v, seen);
  }

  lemma ChildrenSmaller(root: Document, v: Json, seen: set<string>)
    ensures v.Obj? ==> forall k | k in v.fields :: Smaller(root, v.fields[k], v, seen)
    ensures v.Arr? ==> forall i | 0 <= i < |v.elements| :: Smaller(root, v.elements[i], v, seen)
  {
    if v.Obj? {
      forall k | k in v.fields ensures Smaller(root, v.fields[k], v, seen) {
        FieldSize(v.fields, k);
        SubtreeSmaller(root, v.fields[k], v, seen);
      }
    } else if v.Arr? {
      forall i | 0 <= i < |v.elements| ensures Smaller(root, v.elements[i], v, seen) {
        ElementSize(v.elements, i);
        SubtreeSmaller(root, v.elements[i], v, seen);
      }
    }
  }

  lemma SiblingsSmaller(root: Document, v: Json, kind: Kind, seen: set<string>)
    requires RefAt(v, kind).Some?
    ensures Smaller(root, Siblings(v), v, seen)
  {
    FieldSize(v.fields, "$ref");
    SubtreeSmaller(root, Siblings(v), v, seen);
  }

  lemma {:induction false} NodeRefs(v: Json, path: seq<JsonPointer.Token>)
    requires JsonPointer.Navigate(v, path).Some?
    ensures Refs(JsonPointer.Navigate(v, path).value) <= Refs(v)
    decreases |path|
  {
    if path != [] {
      match path[0]
      case Key(name) => NodeRefs(v.fields[name], path[1..]);
      case Index(n) => NodeRefs(v.elements[n], path[1..]);
    }
  }

  lemma TargetSmaller(root: Document, v: Json, kind: Kind, seen: set<string>)
    requires RefAt(v, kind).Some? && RefAt(v, kind).value !in seen
    requires JsonPointer.Lookup(root, RefAt(v, kind).value).Some?
    ensures var ref := RefAt(v, kind).value;
            Unseen(root, JsonPointer.Lookup(root, ref).value, seen + {ref}) < Unseen(root, v, seen)
  {
    var ref := RefAt(v, kind).value;
    var target := JsonPointer.Lookup(root, ref).value;
    var path := JsonPointer.LookupReaches(root, ref);
    NodeRefs(Obj(root), path);
    assert ref in Unseen(root, v, seen) && ref !in Unseen(root, target, seen + {ref});
  }

  // The expansion

  ghost function Gather(fields: map<string, Option<Json>>): Option<Json> {
    if forall k | k in fields :: fields[k].Some? then Some(Obj(map k | k in fields :: fields[k].value)) else None
  }

  ghost function GatherAll(elements: seq<Option<Json>>): Option<Json> {
    if forall i | 0 <= i < |elements| :: elements[i].Some? then
      Some(Arr(seq(|elements|, i requires 0 <= i < |elements| => elements[i].value)))
    else None
  }

  /** The value with its references replaced, unless one is met again on its own path. */
  ghost function Unfold(root: Document, v: Json, seen: set<string>, kind: Kind): (r: Option<Json>)
    ensures r.Some? && v.Obj? && RefAt(v, kind).None? ==> r.value.Obj?
    decreases Unseen(root, v, seen), Size(v), 1
  {
    if HasNul(v) then None
    else if RefAt(v, kind).Some? then
      var ref := RefAt(v, kind).value;
      var target := JsonPointer.Lookup(root, ref);
      if ref in seen || target.None? then None
      else
        TargetSmaller(root, v, kind, seen);
        SiblingsSmaller(root, v, kind, seen);
        var expanded := Unfold(root, target.value, seen + {ref}, kind);
        if expanded.None? then None
        else if KeepsSiblings(root, v, kind) then
          var additional := Unfold(root, Siblings(v), seen, Schema);
          if additional.None? then None else Some(UnderAllOf(expanded.value, additional.value))
        else Some(Described(root, expanded.value, v, kind))
    else
      match v
      case Obj(_) => Gather(UnfoldFields(root, v, seen, kind))
      case Arr(_) => GatherAll(UnfoldElements(root, v, seen, kind))
      case Number(text) =>
        var number := JsonNumbers.Number(text);
        if number.None? then None else Some(Json.Number(number.value))
      case _ => Some(v)
  }

  ghost function UnfoldFields(root: Document, v: Json, seen: set<string>, kind: Kind): map<string, Option<Json>>
    requires v.Obj?
    decreases Unseen(root, v, seen), Size(v), 0
  {
    ChildrenSmaller(root, v, seen);
    map k | k in v.fields :: Unfold(root, v.fields[k], seen, ChildKind(kind, k))
  }

  ghost function UnfoldElements(root: Document, v: Json, seen: set<string>, kind: Kind): seq<Option<Json>>
    requires v.Arr?
    decreases Unseen(root, v, seen), Size(v), 0
  {
    ChildrenSmaller(root, v, seen);
    seq(|v.elements|, i requires 0 <= i < |v.elements| => Unfold(root, v.elements[i], seen, ElementKind(kind)))
  }

  ghost function Total(s: seq<nat>): nat {
    if s == [] then 0 else Total(s[..|s| - 1]) + s[|s| - 1]
  }

  /** What all visits of the expansion weigh together. */
  ghost function Weigh(root: Document, v: Json, seen: set<string>, kind: Kind, w: Json -> nat): (n: nat)
    ensures n >= w(v)
    decreases Unseen(root, v, seen), Size(v), 1
  {
    if RefAt(v, kind).Some? then
      var ref := RefAt(v, kind).value;
      var target := JsonPointer.Lookup(root, ref);
      if ref in seen || target.None? then w(v)
      else
        TargetSmaller(root, v, kind, seen);
        SiblingsSmaller(root, v, kind, seen);
        var expanded := w(v) + Weigh(root, target.value, seen + {ref}, kind, w);
        if KeepsSiblings(root, v, kind) then expanded + Weigh(root, Siblings(v), seen, Schema, w) else expanded
    else
      match v
      case Obj(_) => w(v) + Sum(FieldWeights(root, v, seen, kind, w))
      case Arr(_) => w(v) + Total(ElementWeights(root, v, seen, kind, w))
      case _ => w(v)
  }

  ghost function FieldWeights(root: Document, v: Json, seen: set<string>, kind: Kind, w: Json -> nat): map<string, nat>
    requires v.Obj?
    decreases Unseen(root, v, seen), Size(v), 0
  {
    ChildrenSmaller(root, v, seen);
    map k | k in v.fields :: Weigh(root, v.fields[k], seen, ChildKind(kind, k), w)
  }

  ghost function ElementWeights(root: Document, v: Json, seen: set<string>, kind: Kind, w: Json -> nat): seq<nat>
    requires v.Arr?
    decreases Unseen(root, v, seen), Size(v), 0
  {
    ChildrenSmaller(root, v, seen);
    seq(|v.elements|, i requires 0 <= i < |v.elements| => Weigh(root, v.elements[i], seen, ElementKind(kind), w))
  }

  /** No visit lies deeper than the limit. */
  ghost predicate Shallow(root: Document, v: Json, seen: set<string>, kind: Kind, limit: int)
    decreases Unseen(root, v, seen), Size(v)
  {
    && limit >= 0
    && if RefAt(v, kind).Some? then
         var ref := RefAt(v, kind).value;
         var target := JsonPointer.Lookup(root, ref);
         if ref in seen || target.None? then true
         else
           TargetSmaller(root, v, kind, seen);
           SiblingsSmaller(root, v, kind, seen);
           && Shallow(root, target.value, seen + {ref}, kind, limit - 1)
           && (KeepsSiblings(root, v, kind) ==> Shallow(root, Siblings(v), seen, Schema, limit - 1))
       else
         ChildrenSmaller(root, v, seen);
         match v
         case Obj(fields) => forall k | k in fields :: Shallow(root, fields[k], seen, ChildKind(kind, k), limit - 1)
         case Arr(elements) =>
           forall i | 0 <= i < |elements| :: Shallow(root, elements[i], seen, ElementKind(kind), limit - 1)
         case _ => true
  }

  // The resolver and its budgets

  ghost function KeyLoad(fields: map<string, Json>): nat {
    Sum(map k | k in fields :: |k| * 6 + 4)
  }

  /** Bytes charged for one visit: the worst case of its escaped text. */
  ghost function ByteLoad(v: Json): nat {
    match v
    case Str(s) => 8 + |s| * 6
    case Number(text) => 8 + |text|
    case Obj(fields) => 8 + KeyLoad(fields)
    case _ => 8
  }

  ghost function OneNode(v: Json): nat {
    1
  }

  ghost function Visits(root: Document, v: Json, seen: set<string>, kind: Kind): nat {
    Weigh(root, v, seen, kind, OneNode)
  }

  ghost function Load(root: Document, v: Json, seen: set<string>, kind: Kind): nat {
    Weigh(root, v, seen, kind, ByteLoad)
  }

  /** The whole expansion stays within what is left of the budgets. */
  ghost predicate Fits(root: Document, v: Json, seen: set<string>, kind: Kind, depth: nat, nodes: nat, bytes: nat) {
    && nodes + Visits(root, v, seen, kind) <= MAX_NODES
    && bytes + Load(root, v, seen, kind) <= MAX_BYTES
    && Shallow(root, v, seen, kind, MAX_DEPTH - depth)
  }

  /** What the resolver answers: the expansion, if the budgets allow it. */
  ghost function Outcome(root: Document, v: Json, seen: set<string>, kind: Kind, depth: nat, nodes: nat,
                         bytes: nat): Option<Json> {
    if Fits(root, v, seen, kind, depth, nodes, bytes) then Unfold(root, v, seen, kind) else None
  }

  ghost function Restrict(m: map<string, nat>, keys: set<string>): map<string, nat> {
    map k | k in m && k in keys :: m[k]
  }

  lemma TakeKey(m: map<string, nat>, todo: set<string>, k: string)
    requires k in todo && k in m
    ensures Sum(Restrict(m, todo)) == m[k] + Sum(Restrict(m, todo - {k}))
  {
    SumRemove(Restrict(m, todo), k);
    assert Restrict(m, todo) - {k} == Restrict(m, todo - {k});
  }

  lemma AllKeys(m: map<string, nat>)
    ensures Restrict(m, m.Keys) == m && Restrict(m, {}) == map[]
  {
  }

  lemma {:induction false} TotalPrefix(s: seq<nat>, n: nat)
    requires n <= |s|
    ensures Total(s[..n]) <= Total(s)
    ensures n < |s| ==> Total(s[..n + 1]) == Total(s[..n]) + s[n]
  {
    if n < |s| {
      assert s[..n + 1][..n] == s[..n];
      TotalPrefix(s[..|s| - 1], n);
      assert s[..|s| - 1][..n] == s[..n];
    } else {
      assert s[..n] == s;
    }
  }

  lemma GatherExact(results: map<string, Option<Json>>, out: map<string, Json>)
    requires out.Keys == results.Keys && forall k | k in out :: results[k] == Some(out[k])
    ensures Gather(results) == Some(Obj(out))
  {
    assert out == map k | k in results :: results[k].value;
  }

  lemma ShallowObject(root: Document, v: Json, seen: set<string>, kind: Kind, limit: nat)
    requires v.Obj? && RefAt(v, kind).None?
    requires forall k | k in v.fields :: Shallow(root, v.fields[k], seen, ChildKind(kind, k), limit - 1)
    ensures Shallow(root, v, seen, kind, limit)
  {
    hide ChildKind;
    hide JsonPointer.Lookup;
  }

  lemma UnfoldObject(root: Document, v: Json, seen: set<string>, kind: Kind, out: map<string, Json>)
    requires v.Obj? && RefAt(v, kind).None? && !HasNul(v) && out.Keys == v.fields.Keys
    requires forall k | k in out :: Unfold(root, v.fields[k], seen, ChildKind(kind, k)) == Some(out[k])
    ensures Unfold(root, v, seen, kind) == Some(Obj(out))
  {
    hide ChildKind;
    hide JsonPointer.Lookup;
    hide JsonNumbers.Number;
    GatherExact(UnfoldFields(root, v, seen, kind), out);
  }

  /** An object whose expansion is complete. */
  lemma FieldsDone(root: Document, v: Json, seen: set<string>, kind: Kind, depth: nat, nodes: nat, bytes: nat,
                   out: map<string, Json>)
    requires v.Obj? && RefAt(v, kind).None? && !HasNul(v) && depth <= MAX_DEPTH && out.Keys == v.fields.Keys
    requires forall k | k in out :: Unfold(root, v.fields[k], seen, ChildKind(kind, k)) == Some(out[k])
    requires forall k | k in out :: Shallow(root, v.fields[k], seen, ChildKind(kind, k), MAX_DEPTH - depth - 1)
    requires nodes + Visits(root, v, seen, kind) <= MAX_NODES && bytes + Load(root, v, seen, kind) <= MAX_BYTES
    ensures Outcome(root, v, seen, kind, depth, nodes, bytes) == Some(Obj(out))
  {
    hide Unfold;
    hide Shallow;
    hide Weigh;
    hide ChildKind;
    UnfoldObject(root, v, seen, kind, out);
    ShallowObject(root, v, seen, kind, MAX_DEPTH - depth);
  }

  /** An object one of whose fields cannot be expanded with what is left. */
  lemma FieldFails(root: Document, v: Json, seen: set<string>, kind: Kind, depth: nat, nodes: nat, bytes: nat,
                   key: string, n: nat, b: nat)
    requires v.Obj? && RefAt(v, kind).None? && depth <= MAX_DEPTH && key in v.fields
    requires Outcome(root, v.fields[key], seen, ChildKind(kind, key), depth + 1, n, b).None?
    requires n + Visits(root, v.fields[key], seen, ChildKind(kind, key)) <= nodes + Visits(root, v, seen, kind)
    requires b + Load(root, v.fields[key], seen, ChildKind(kind, key)) <= bytes + Load(root, v, seen, kind)
    ensures Outcome(root, v, seen, kind, depth, nodes, bytes).None?
  {
    hide ChildKind;
    hide JsonPointer.Lookup;
    hide JsonNumbers.Number;
    hide JsonNumbers.Normalize;
    var child := UnfoldFields(root, v, seen, kind)[key];
  }

  lemma ElementsDone(root: Document, v: Json, seen: set<string>, kind: Kind, depth: nat, nodes: nat, bytes: nat,
                     out: seq<Json>)
    requires v.Arr? && depth <= MAX_DEPTH && |out| == |v.elements|
    requires forall i | 0 <= i < |out| :: Unfold(root, v.elements[i], seen, ElementKind(kind)) == Some(out[i])
    requires forall i | 0 <= i < |out| :: Shallow(root, v.elements[i], seen, ElementKind(kind), MAX_DEPTH - depth - 1)
    requires nodes + Visits(root, v, seen, kind) <= MAX_NODES && bytes + Load(root, v, seen, kind) <= MAX_BYTES
    ensures Outcome(root, v, seen, kind, depth, nodes, bytes) == Some(Arr(out))
  {
    hide ChildKind;
    hide JsonPointer.Lookup;
    hide JsonNumbers.Number;
    hide JsonNumbers.Normalize;
    var results := UnfoldElements(root, v, seen, kind);
    assert out == seq(|results|, i requires 0 <= i < |results| => results[i].value);
  }

  lemma ElementFails(root: Document, v: Json, seen: set<string>, kind: Kind, depth: nat, nodes: nat, bytes: nat,
                     i: nat, n: nat, b: nat)
    requires v.Arr? && depth <= MAX_DEPTH && i < |v.elements|
    requires Outcome(root, v.elements[i], seen, ElementKind(kind), depth + 1, n, b).None?
    requires n + Visits(root, v.elements[i], seen, ElementKind(kind)) <= nodes + Visits(root, v, seen, kind)
    requires b + Load(root, v.elements[i], seen, ElementKind(kind)) <= bytes + Load(root, v, seen, kind)
    ensures Outcome(root, v, seen, kind, depth, nodes, bytes).None?
  {
    hide ChildKind;
    hide JsonPointer.Lookup;
    hide JsonNumbers.Number;
    hide JsonNumbers.Normalize;
    var child := UnfoldElements(root, v, seen, kind)[i];
  }

  lemma WeighObject(root: Document, v: Json, seen: set<string>, kind: Kind)
    requires v.Obj? && RefAt(v, kind).None?
    ensures Visits(root, v, seen, kind) == 1 + Sum(FieldWeights(root, v, seen, kind, OneNode))
    ensures Load(root, v, seen, kind) == ByteLoad(v) + Sum(FieldWeights(root, v, seen, kind, ByteLoad))
  {
    hide ChildKind;
    hide JsonPointer.Lookup;
  }

  lemma WeighArray(root: Document, v: Json, seen: set<string>, kind: Kind)
    requires v.Arr?
    ensures Visits(root, v, seen, kind) == 1 + Total(ElementWeights(root, v, seen, kind, OneNode))
    ensures Load(root, v, seen, kind) == 8 + Total(ElementWeights(root, v, seen, kind, ByteLoad))
  {
    hide JsonPointer.Lookup;
  }

  /** A position whose reference cannot be followed. */
  lemma ReferenceFails(root: Document, v: Json, seen: set<string>, kind: Kind, depth: nat, nodes: nat, bytes: nat)
    requires RefAt(v, kind).Some?
    requires RefAt(v, kind).value in seen || JsonPointer.Lookup(root, RefAt(v, kind).value).None?
    ensures Outcome(root, v, seen, kind, depth, nodes, bytes).None?
  {
    hide JsonPointer.Lookup;
  }

  lemma VisitFails(root: Document, v: Json, seen: set<string>, kind: Kind, depth: nat, nodes: nat, bytes: nat)
    requires HasNul(v) || nodes + 1 > MAX_NODES || bytes + ByteLoad(v) > MAX_BYTES || depth > MAX_DEPTH
    ensures Outcome(root, v, seen, kind, depth, nodes, bytes).None?
  {
    hide JsonPointer.Lookup;
    hide ChildKind;
    hide JsonNumbers.Number;
  }

  lemma LeafOutcome(root: Document, v: Json, seen: set<string>, kind: Kind, depth: nat, nodes: nat, bytes: nat)
    requires !v.Obj? && !v.Arr? && !HasNul(v) && depth <= MAX_DEPTH
    requires nodes + 1 <= MAX_NODES && bytes + ByteLoad(v) <= MAX_BYTES
    ensures Visits(root, v, seen, kind) == 1 && Load(root, v, seen, kind) == ByteLoad(v)
    ensures !v.Number? ==> Outcome(root, v, seen, kind, depth, nodes, bytes) == Some(v)
    ensures v.Number? ==> Outcome(root, v, seen, kind, depth, nodes, bytes) ==
                          if JsonNumbers.Number(v.text).None? then None
                          else Some(Json.Number(JsonNumbers.Number(v.text).value))
  {
    hide JsonPointer.Lookup;
    hide ChildKind;
    hide JsonNumbers.Number;
  }

  /** A reference whose target fails, or whose target is all there is to expand. */
  lemma TargetOnly(root: Document, v: Json, seen: set<string>, kind: Kind, depth: nat, n0: nat, b0: nat,
                   t: Option<Json>)
    requires RefAt(v, kind).Some? && RefAt(v, kind).value !in seen && !HasNul(v) && depth <= MAX_DEPTH
    requires JsonPointer.Lookup(root, RefAt(v, kind).value).Some?
    requires var target := JsonPointer.Lookup(root, RefAt(v, kind).value).value;
             t == Outcome(root, target, seen + {RefAt(v, kind).value}, kind, depth + 1, n0 + 1, b0 + ByteLoad(v))
    requires t.None? || !KeepsSiblings(root, v, kind)
    ensures Outcome(root, v, seen, kind, depth, n0, b0) ==
            if t.None? then None else Some(Described(root, t.value, v, kind))
    ensures t.Some? ==>
              var target := JsonPointer.Lookup(root, RefAt(v, kind).value).value;
              var inner := seen + {RefAt(v, kind).value};
              && Visits(root, v, seen, kind) == 1 + Visits(root, target, inner, kind)
              && Load(root, v, seen, kind) == ByteLoad(v) + Load(root, target, inner, kind)
  {
    hide Unfold;
    hide Shallow;
    hide Visits;
    hide Load;
    hide JsonPointer.Lookup;
    hide Described;
    hide UnderAllOf;
    ReferenceParts(root, v, seen, kind, JsonPointer.Lookup(root, RefAt(v, kind).value).value);
  }

  /** A reference with keywords beside it, once the target is expanded. */
  lemma TargetAndSiblings(root: Document, v: Json, seen: set<string>, kind: Kind, depth: nat, n0: nat, b0: nat, t: Json,
                          n: nat, b: nat, a: Option<Json>)
    requires RefAt(v, kind).Some? && RefAt(v, kind).value !in seen && !HasNul(v) && depth <= MAX_DEPTH
    requires JsonPointer.Lookup(root, RefAt(v, kind).value).Some? && KeepsSiblings(root, v, kind)
    requires var target := JsonPointer.Lookup(root, RefAt(v, kind).value).value;
             var inner := seen + {RefAt(v, kind).value};
             && Outcome(root, target, inner, kind, depth + 1, n0 + 1, b0 + ByteLoad(v)) == Some(t)
             && n == n0 + 1 + Visits(root, target, inner, kind)
             && b == b0 + ByteLoad(v) + Load(root, target, inner, kind)
    requires a == Outcome(root, Siblings(v), seen, Schema, depth + 1, n, b)
    ensures a.Some? ==> a.value.Obj?
    ensures Outcome(root, v, seen, kind, depth, n0, b0) == if a.None? then None else Some(UnderAllOf(t, a.value))
    ensures a.Some? ==>
              && n0 + Visits(root, v, seen, kind) == n + Visits(root, Siblings(v), seen, Schema)
              && b0 + Load(root, v, seen, kind) == b + Load(root, Siblings(v), seen, Schema)
  {
    hide Unfold;
    hide Shallow;
    hide Visits;
    hide Load;
    hide JsonPointer.Lookup;
    hide Described;
    hide UnderAllOf;
    ReferenceParts(root, v, seen, kind, JsonPointer.Lookup(root, RefAt(v, kind).value).value);
  }

  /** How far the fields of an object are expanded, and what that has cost since n0 and b0. */
  ghost predicate FieldsProgress(root: Document, v: Json, seen: set<string>, kind: Kind, depth: nat, n0: int, b0: int,
                                 out: map<string, Json>, todo: set<string>, nodes: nat, bytes: nat)
    requires v.Obj?
  {
    && todo <= v.fields.Keys && out.Keys == v.fields.Keys - todo
    && (forall k | k in out :: Unfold(root, v.fields[k], seen, ChildKind(kind, k)) == Some(out[k]))
    && (forall k | k in out :: Shallow(root, v.fields[k], seen, ChildKind(kind, k), MAX_DEPTH - depth - 1))
    && nodes <= MAX_NODES && bytes <= MAX_BYTES
    && nodes + Sum(Restrict(FieldWeights(root, v, seen, kind, OneNode), todo)) == n0 + Visits(root, v, seen, kind)
    && bytes + Sum(Restrict(FieldWeights(root, v, seen, kind, ByteLoad), todo)) == b0 + Load(root, v, seen, kind)
  }

  lemma FieldsBegin(root: Document, v: Json, seen: set<string>, kind: Kind, depth: nat, nodes: nat, bytes: nat)
    requires v.Obj? && RefAt(v, kind).None? && nodes <= MAX_NODES && bytes <= MAX_BYTES
    ensures FieldsProgress(root, v, seen, kind, depth, nodes - 1, bytes - ByteLoad(v), map[], v.fields.Keys, nodes,
                           bytes)
  {
    WeighObject(root, v, seen, kind);
    assert FieldWeights(root, v, seen, kind, OneNode).Keys == v.fields.Keys;
    assert FieldWeights(root, v, seen, kind, ByteLoad).Keys == v.fields.Keys;
    AllKeys(FieldWeights(root, v, seen, kind, OneNode));
    AllKeys(FieldWeights(root, v, seen, kind, ByteLoad));
  }

  lemma FieldsStep(root: Document, v: Json, seen: set<string>, kind: Kind, depth: nat, n0: int, b0: int,
                   out: map<string, Json>, todo: set<string>, nodes: nat, bytes: nat, key: string, x: Json)
    requires v.Obj? && RefAt(v, kind).None? && depth <= MAX_DEPTH && key in todo && n0 >= 0 && b0 >= 0
    requires FieldsProgress(root, v, seen, kind, depth, n0, b0, out, todo, nodes, bytes)
    requires Outcome(root, v.fields[key], seen, ChildKind(kind, key), depth + 1, nodes, bytes) == Some(x)
    ensures FieldsProgress(root, v, seen, kind, depth, n0, b0, out[key := x], todo - {key},
                           nodes + Visits(root, v.fields[key], seen, ChildKind(kind, key)),
                           bytes + Load(root, v.fields[key], seen, ChildKind(kind, key)))
  {
    hide Unfold;
    hide Shallow;
    hide Weigh;
    hide ChildKind;
    hide RefAt;
    hide Sum;
    hide Restrict;
    WeightOf(root, v, seen, kind, key);
    TakeKey(FieldWeights(root, v, seen, kind, OneNode), todo, key);
    TakeKey(FieldWeights(root, v, seen, kind, ByteLoad), todo, key);
    hide FieldWeights;
  }

  lemma WeightOf(root: Document, v: Json, seen: set<string>, kind: Kind, key: string)
    requires v.Obj? && key in v.fields
    ensures key in FieldWeights(root, v, seen, kind, OneNode) && key in FieldWeights(root, v, seen, kind, ByteLoad)
    ensures FieldWeights(root, v, seen, kind, OneNode)[key] == Visits(root, v.fields[key], seen, ChildKind(kind, key))
    ensures FieldWeights(root, v, seen, kind, ByteLoad)[key] == Load(root, v.fields[key], seen, ChildKind(kind, key))
  {
    hide Weigh;
    hide ChildKind;
  }

  lemma FieldsStop(root: Document, v: Json, seen: set<string>, kind: Kind, depth: nat, n0: int, b0: int,
                   out: map<string, Json>, todo: set<string>, nodes: nat, bytes: nat, key: string)
    requires v.Obj? && RefAt(v, kind).None? && depth <= MAX_DEPTH && key in todo && n0 >= 0 && b0 >= 0
    requires FieldsProgress(root, v, seen, kind, depth, n0, b0, out, todo, nodes, bytes)
    requires Outcome(root, v.fields[key], seen, ChildKind(kind, key), depth + 1, nodes, bytes).None?
    ensures Outcome(root, v, seen, kind, depth, n0, b0).None?
  {
    hide Unfold;
    hide Shallow;
    hide Weigh;
    hide ChildKind;
    TakeKey(FieldWeights(root, v, seen, kind, OneNode), todo, key);
    TakeKey(FieldWeights(root, v, seen, kind, ByteLoad), todo, key);
    FieldFails(root, v, seen, kind, depth, n0, b0, key, nodes, bytes);
  }

  lemma FieldsEnd(root: Document, v: Json, seen: set<string>, kind: Kind, depth: nat, n0: nat, b0: nat,
                  out: map<string, Json>, nodes: nat, bytes: nat)
    requires v.Obj? && RefAt(v, kind).None? && !HasNul(v) && depth <= MAX_DEPTH
    requires FieldsProgress(root, v, seen, kind, depth, n0, b0, out, {}, nodes, bytes)
    ensures Outcome(root, v, seen, kind, depth, n0, b0) == Some(Obj(out))
    ensures nodes == n0 + Visits(root, v, seen, kind) && bytes == b0 + Load(root, v, seen, kind)
  {
    hide Unfold;
    hide Shallow;
    hide Weigh;
    hide ChildKind;
    AllKeys(FieldWeights(root, v, seen, kind, OneNode));
    AllKeys(FieldWeights(root, v, seen, kind, ByteLoad));
    FieldsDone(root, v, seen, kind, depth, n0, b0, out);
  }

  ghost predicate ElementsProgress(root: Document, v: Json, seen: set<string>, kind: Kind, depth: nat, n0: int, b0: int,
                                   out: seq<Json>, nodes: nat, bytes: nat)
    requires v.Arr?
  {
    && |out| <= |v.elements|
    && (forall i | 0 <= i < |out| :: Unfold(root, v.elements[i], seen, ElementKind(kind)) == Some(out[i]))
    && (forall i | 0 <= i < |out| :: Shallow(root, v.elements[i], seen, ElementKind(kind), MAX_DEPTH - depth - 1))
    && nodes <= MAX_NODES && bytes <= MAX_BYTES
    && nodes == n0 + 1 + Total(ElementWeights(root, v, seen, kind, OneNode)[..|out|])
    && bytes == b0 + 8 + Total(ElementWeights(root, v, seen, kind, ByteLoad)[..|out|])
  }

  lemma ElementsBegin(root: Document, v: Json, seen: set<string>, kind: Kind, depth: nat, nodes: nat, bytes: nat)
    requires v.Arr? && nodes <= MAX_NODES && bytes <= MAX_BYTES
    ensures ElementsProgress(root, v, seen, kind, depth, nodes - 1, bytes - 8, [], nodes, bytes)
  {
  }

  lemma ElementsStep(root: Document, v: Json, seen: set<string>, kind: Kind, depth: nat, n0: int, b0: int,
                     out: seq<Json>, nodes: nat, bytes: nat, x: Option<Json>)
    requires v.Arr? && depth <= MAX_DEPTH && |out| < |v.elements| && n0 >= 0 && b0 >= 0
    requires ElementsProgress(root, v, seen, kind, depth, n0, b0, out, nodes, bytes)
    requires x == Outcome(root, v.elements[|out|], seen, ElementKind(kind), depth + 1, nodes, bytes)
    ensures x.None? ==> Outcome(root, v, seen, kind, depth, n0, b0).None?
    ensures x.Some? ==>
              ElementsProgress(root, v, seen, kind, depth, n0, b0, out + [x.value],
                               nodes + Visits(root, v.elements[|out|], seen, ElementKind(kind)),
                               bytes + Load(root, v.elements[|out|], seen, ElementKind(kind)))
  {
    hide Total;
    hide Unfold;
    hide Shallow;
    hide Weigh;
    var i := |out|;
    WeighArray(root, v, seen, kind);
    TotalPrefix(ElementWeights(root, v, seen, kind, OneNode), i);
    TotalPrefix(ElementWeights(root, v, seen, kind, ByteLoad), i);
    TotalPrefix(ElementWeights(root, v, seen, kind, OneNode), i + 1);
    TotalPrefix(ElementWeights(root, v, seen, kind, ByteLoad), i + 1);
    if x.None? {
      ElementFails(root, v, seen, kind, depth, n0, b0, i, nodes, bytes);
    }
  }

  lemma ElementsEnd(root: Document, v: Json, seen: set<string>, kind: Kind, depth: nat, n0: nat, b0: nat,
                    out: seq<Json>, nodes: nat, bytes: nat)
    requires v.Arr? && depth <= MAX_DEPTH && |out| == |v.elements|
    requires ElementsProgress(root, v, seen, kind, depth, n0, b0, out, nodes, bytes)
    ensures Outcome(root, v, seen, kind, depth, n0, b0) == Some(Arr(out))
    ensures nodes == n0 + Visits(root, v, seen, kind) && bytes == b0 + Load(root, v, seen, kind)
  {
    hide Unfold;
    hide Shallow;
    hide Weigh;
    WeighArray(root, v, seen, kind);
    var n, b := ElementWeights(root, v, seen, kind, OneNode), ElementWeights(root, v, seen, kind, ByteLoad);
    assert n[..|out|] == n && b[..|out|] == b;
    ElementsDone(root, v, seen, kind, depth, n0, b0, out);
  }

  /** What following a reference takes: first the target, then the keywords beside it. */
  lemma ReferenceParts(root: Document, v: Json, seen: set<string>, kind: Kind, target: Json)
    requires RefAt(v, kind).Some? && RefAt(v, kind).value !in seen && !HasNul(v)
    requires JsonPointer.Lookup(root, RefAt(v, kind).value) == Some(target)
    ensures var inner := seen + {RefAt(v, kind).value};
            var kept := KeepsSiblings(root, v, kind);
            var first := Unfold(root, target, inner, kind);
            var second := Unfold(root, Siblings(v), seen, Schema);
            && Visits(root, v, seen, kind) == 1 + Visits(root, target, inner, kind)
                                              + (if kept then Visits(root, Siblings(v), seen, Schema) else 0)
            && Load(root, v, seen, kind) == ByteLoad(v) + Load(root, target, inner, kind)
                                            + (if kept then Load(root, Siblings(v), seen, Schema) else 0)
            && (forall limit: nat ::
                  Shallow(root, v, seen, kind, limit) <==>
                  && Shallow(root, target, inner, kind, limit - 1)
                  && (kept ==> Shallow(root, Siblings(v), seen, Schema, limit - 1)))
            && Unfold(root, v, seen, kind) ==
               if first.None? || (kept && second.None?) then None
               else if kept then Some(UnderAllOf(first.value, second.value))
               else Some(Described(root, first.value, v, kind))
  {
    hide JsonPointer.Lookup;
    hide UnderAllOf;
    hide Described;
    hide ChildKind;
    TargetSmaller(root, v, kind, seen);
    SiblingsSmaller(root, v, kind, seen);
  }

  class Resolver {
    var nodes: nat
    var bytes: nat

    constructor ()
      ensures nodes == 0 && bytes == 0
    {
      nodes, bytes := 0, 0;
    }

    method Visit(v: Json, depth: nat) returns (ok: bool)
      modifies this
      ensures ok <==> !HasNul(v) && old(nodes) + 1 <= MAX_NODES && old(bytes) + ByteLoad(v) <= MAX_BYTES
                      && depth <= MAX_DEPTH
      ensures ok ==> nodes == old(nodes) + 1 && bytes == old(bytes) + ByteLoad(v)
    {
      nodes := nodes + 1;
      bytes := bytes + 8;
      match v {
        case Str(s) =>
          if NulIn(s) {
            return false;
          }
          bytes := bytes + |s| * 6;
        case Number(text) =>
          bytes := bytes + |text|;
        case Obj(fields) =>
          ghost var load: map<string, nat> := map k | k in fields :: |k| * 6 + 4;
          ghost var start := bytes;
          var todo := fields.Keys;
          assert load.Keys == fields.Keys;
          AllKeys(load);
          while todo != {}
            invariant todo <= fields.Keys
            invariant nodes == old(nodes) + 1
            invariant bytes + Sum(Restrict(load, todo)) == start + Sum(load)
            invariant forall k | k in fields.Keys - todo :: !NulIn(k)
            decreases todo
          {
            var key :| key in todo;
            if NulIn(key) {
              return false;
            }
            TakeKey(load, todo, key);
            bytes := bytes + (|key| * 6 + 4);
            todo := todo - {key};
          }
          assert Restrict(load, {}) == map[];
        case _ =>
      }
      return !(nodes > MAX_NODES || bytes > MAX_BYTES || depth > MAX_DEPTH);
    }

    method Value(root: Document, v: Json, seen: set<string>, kind: Kind, depth: nat) returns (r: Option<Json>)
      modifies this
      ensures r == Outcome(root, v, seen, kind, depth, old(nodes), old(bytes))
      ensures r.Some? ==> nodes == old(nodes) + Visits(root, v, seen, kind)
      ensures r.Some? ==> bytes == old(bytes) + Load(root, v, seen, kind)
      decreases Unseen(root, v, seen), Size(v), 1
    {
      hide Refs;
      hide Size;
      hide Unseen;
      hide Unfold;
      hide Outcome;
      hide Visits;
      hide Load;
      hide JsonNumbers.Number;
      var ok := Visit(v, depth);
      if !ok {
        VisitFails(root, v, seen, kind, depth, old(nodes), old(bytes));
        return None;
      }
      if RefAt(v, kind).Some? {
        r := Follow(root, v, seen, kind, depth);
        return;
      }
      match v {
        case Obj(fields) =>
          r := Fields(root, v, seen, kind, depth);
        case Arr(elements) =>
          r := Elements(root, v, seen, kind, depth);
        case Number(text) =>
          var number := JsonNumbers.Number(text);
          r := if number.None? then None else Some(Json.Number(number.value));
          LeafOutcome(root, v, seen, kind, depth, old(nodes), old(bytes));
        case _ =>
          r := Some(v);
          LeafOutcome(root, v, seen, kind, depth, old(nodes), old(bytes));
      }
    }

    method Follow(root: Document, v: Json, seen: set<string>, kind: Kind, depth: nat) returns (r: Option<Json>)
      requires RefAt(v, kind).Some? && !HasNul(v) && depth <= MAX_DEPTH
      requires 1 <= nodes <= MAX_NODES && ByteLoad(v) <= bytes <= MAX_BYTES
      modifies this
      ensures r == Outcome(root, v, seen, kind, depth, old(nodes) - 1, old(bytes) - ByteLoad(v))
      ensures r.Some? ==> nodes == old(nodes) - 1 + Visits(root, v, seen, kind)
      ensures r.Some? ==> bytes == old(bytes) - ByteLoad(v) + Load(root, v, seen, kind)
      decreases Unseen(root, v, seen), Size(v), 0
    {
      hide Refs;
      hide Size;
      hide Unseen;
      hide Unfold;
      hide Outcome;
      hide Visits;
      hide Load;
      hide JsonPointer.Lookup;
      hide UnderAllOf;
      hide Described;
      ghost var n0, b0 := nodes - 1, bytes - ByteLoad(v);
      var ref := RefAt(v, kind).value;
      var resolved := JsonPointer.Lookup(root, ref);
      if ref in seen || resolved.None? {
        ReferenceFails(root, v, seen, kind, depth, n0, b0);
        return None;
      }
      TargetSmaller(root, v, kind, seen);
      SiblingsSmaller(root, v, kind, seen);
      var target := Value(root, resolved.value, seen + {ref}, kind, depth + 1);
      ghost var n, b := nodes, bytes;
      if target.None? || !KeepsSiblings(root, v, kind) {
        TargetOnly(root, v, seen, kind, depth, n0, b0, target);
        return if target.None? then None else Some(Described(root, target.value, v, kind));
      }
      var additional := Value(root, Siblings(v), seen, Schema, depth + 1);
      TargetAndSiblings(root, v, seen, kind, depth, n0, b0, target.value, n, b, additional);
      return if additional.None? then None else Some(UnderAllOf(target.value, additional.value));
    }

    method Fields(root: Document, v: Json, seen: set<string>, kind: Kind, depth: nat) returns (r: Option<Json>)
      requires v.Obj? && RefAt(v, kind).None? && !HasNul(v) && depth <= MAX_DEPTH
      requires 1 <= nodes <= MAX_NODES && ByteLoad(v) <= bytes <= MAX_BYTES
      modifies this
      ensures r == Outcome(root, v, seen, kind, depth, old(nodes) - 1, old(bytes) - ByteLoad(v))
      ensures r.Some? ==> nodes == old(nodes) - 1 + Visits(root, v, seen, kind)
      ensures r.Some? ==> bytes == old(bytes) - ByteLoad(v) + Load(root, v, seen, kind)
      decreases Unseen(root, v, seen), Size(v), 0
    {
      hide Refs;
      hide Size;
      hide Unseen;
      hide Unfold;
      hide Outcome;
      hide Visits;
      hide Load;
      hide ChildKind;
      hide FieldsProgress;
      var fields := v.fields;
      ghost var n0, b0 := nodes - 1, bytes - ByteLoad(v);
      ChildrenSmaller(root, v, seen);
      FieldsBegin(root, v, seen, kind, depth, nodes, bytes);
      var out: map<string, Json> := map[];
      var todo := fields.Keys;
      while todo != {}
        invariant todo <= fields.Keys
        invariant FieldsProgress(root, v, seen, kind, depth, n0, b0, out, todo, nodes, bytes)
        decreases todo
      {
        var key :| key in todo;
        ghost var n, b := nodes, bytes;
        var resolved := Value(root, fields[key], seen, ChildKind(kind, key), depth + 1);
        if resolved.None? {
          FieldsStop(root, v, seen, kind, depth, n0, b0, out, todo, n, b, key);
          return None;
        }
        FieldsStep(root, v, seen, kind, depth, n0, b0, out, todo, n, b, key, resolved.value);
        out := out[key := resolved.value];
        todo := todo - {key};
      }
      FieldsEnd(root, v, seen, kind, depth, n0, b0, out, nodes, bytes);
      return Some(Obj(out));
    }

    method Elements(root: Document, v: Json, seen: set<string>, kind: Kind, depth: nat) returns (r: Option<Json>)
      requires v.Arr? && depth <= MAX_DEPTH
      requires 1 <= nodes <= MAX_NODES && ByteLoad(v) <= bytes <= MAX_BYTES
      modifies this
      ensures r == Outcome(root, v, seen, kind, depth, old(nodes) - 1, old(bytes) - ByteLoad(v))
      ensures r.Some? ==> nodes == old(nodes) - 1 + Visits(root, v, seen, kind)
      ensures r.Some? ==> bytes == old(bytes) - ByteLoad(v) + Load(root, v, seen, kind)
      decreases Unseen(root, v, seen), Size(v), 0
    {
      hide Refs;
      hide Size;
      hide Unseen;
      hide Unfold;
      hide Outcome;
      hide Visits;
      hide Load;
      hide ElementsProgress;
      var elements := v.elements;
      ghost var n0, b0 := nodes - 1, bytes - 8;
      ChildrenSmaller(root, v, seen);
      ElementsBegin(root, v, seen, kind, depth, nodes, bytes);
      var out: seq<Json> := [];
      for i := 0 to |elements|
        invariant |out| == i
        invariant ElementsProgress(root, v, seen, kind, depth, n0, b0, out, nodes, bytes)
      {
        var childKind := kind;
        if kind == SchemaArray {
          childKind := Schema;
        }
        ghost var n, b := nodes, bytes;
        var resolved := Value(root, elements[i], seen, childKind, depth + 1);
        ElementsStep(root, v, seen, kind, depth, n0, b0, out, n, b, resolved);
        if resolved.None? {
          return None;
        }
        out := out + [resolved.value];
      }
      ElementsEnd(root, v, seen, kind, depth, n0, b0, out, nodes, bytes);
      return Some(Arr(out));
    }
  }
}

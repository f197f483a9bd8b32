/**
 JSON values, and JSON Schema nodes with the keywords the compatibility engine knows.
 `Accepts` is the reference meaning of a schema: the set of values it accepts
 (JSON Schema Validation 2020-12, sections 6.1 to 6.5; JSON Schema Core 2020-12,
 sections 10.2.1.1 and 10.3; OpenAPI 3.0.3 for `nullable`, which only widens `type`).
 Nothing in this module knows how two schemas are compared.
 */
module Schemas {
  import opened Wrappers

  datatype Value =
    | Null
    | Bool(b: bool)
    | Num(n: real)
    | Str(s: string)
    | Arr(elements: seq<Value>)
    | Obj(fields: map<string, Value>)

  datatype TypeName = TNull | TBoolean | TObject | TArray | TNumber | TString | TInteger

  datatype BoundKey = Minimum | ExclusiveMinimum | Maximum | ExclusiveMaximum

  datatype SizeKey = MinLength | MaxLength | MinItems | MaxItems | MinProperties | MaxProperties

  /** A schema is `true`, `false` or a keyword object. An empty `types`, `allOf`, `anyOf` or
      `oneOf` is an absent one; `others` holds every keyword the engine does not interpret, annotations removed. */
  datatype Schema =
    | Flag(allow: bool)
    | Node(
        types: set<TypeName>,
        nullable: Option<bool>,
        enumeration: Option<seq<Value>>,
        constant: Option<Value>,
        bounds: map<BoundKey, real>,
        sizes: map<SizeKey, real>,
        properties: map<string, Schema>,
        required: set<string>,
        items: Option<Schema>,
        additional: Option<Schema>,
        allOf: seq<Schema>,
        anyOf: seq<Schema>,
        oneOf: seq<Schema>,
        others: map<string, Value>)

  /** What the engine leaves open. `keyword` decides the uninterpreted keywords of a node, `covers`
      says which property names they take away from `additionalProperties` (as `patternProperties`
      does), and `exact` says which numbers fit the engine's bounded exact arithmetic. Every
      theorem holds for every `World`. */
  datatype World = World(
    keyword: (map<string, Value>, Value) -> bool,
    covers: (map<string, Value>, string) -> bool,
    exact: real -> bool)

  const Unconstrained: Schema :=
    Node({}, None, None, None, map[], map[], map[], {}, None, None, [], [], [], map[])

  predicate IsIntegral(x: real) {
    x.Floor as real == x
  }

  predicate HasType(v: Value, t: TypeName) {
    match t
    case TNull => v.Null?
    case TBoolean => v.Bool?
    case TObject => v.Obj?
    case TArray => v.Arr?
    case TNumber => v.Num?
    case TString => v.Str?
    case TInteger => v.Num? && IsIntegral(v.n)
  }

  /** The names a node's `type` and `nullable` allow together; no `type`, no constraint. */
  function KeywordTypes(types: set<TypeName>, nullable: Option<bool>): Option<set<TypeName>> {
    if types == {} then None
    else if nullable == Some(true) then Some(types + {TNull})
    else Some(types)
  }

  ghost predicate InTypes(v: Value, ts: Option<set<TypeName>>) {
    ts.Some? ==> exists t :: t in ts.value && HasType(v, t)
  }

  ghost predicate InEnum(v: Value, enums: Option<set<Value>>) {
    enums.Some? ==> v in enums.value
  }

  predicate WithinBound(x: real, key: BoundKey, limit: real) {
    match key
    case Minimum => limit <= x
    case ExclusiveMinimum => limit < x
    case Maximum => x <= limit
    case ExclusiveMaximum => x < limit
  }

  ghost predicate WithinBounds(x: real, bounds: map<BoundKey, real>) {
    forall key | key in bounds :: WithinBound(x, key, bounds[key])
  }

  ghost predicate BoundsOk(bounds: map<BoundKey, real>, v: Value) {
    v.Num? ==> WithinBounds(v.n, bounds)
  }

  /** No uninterpreted keywords, no constraint from them. */
  ghost predicate KeywordsOk(others: map<string, Value>, v: Value, w: World) {
    others == map[] || w.keyword(others, v)
  }

  ghost predicate Covered(others: map<string, Value>, name: string, w: World) {
    others != map[] && w.covers(others, name)
  }

  ghost predicate SizeOk(key: SizeKey, limit: real, v: Value) {
    match key
    case MinLength => v.Str? ==> limit <= |v.s| as real
    case MaxLength => v.Str? ==> |v.s| as real <= limit
    case MinItems => v.Arr? ==> limit <= |v.elements| as real
    case MaxItems => v.Arr? ==> |v.elements| as real <= limit
    case MinProperties => v.Obj? ==> limit <= |v.fields| as real
    case MaxProperties => v.Obj? ==> |v.fields| as real <= limit
  }

  ghost predicate SizesOk(sizes: map<SizeKey, real>, v: Value) {
    forall key | key in sizes :: SizeOk(key, sizes[key], v)
  }

  /** The keywords of one node that look at the value as a whole, not at its parts. */
  ghost predicate LocalOk(s: Schema, v: Value, w: World)
    requires s.Node?
  {
    && InTypes(v, KeywordTypes(s.types, s.nullable))
    && (s.enumeration.Some? ==> v in s.enumeration.value)
    && (s.constant.Some? ==> v == s.constant.value)
    && BoundsOk(s.bounds, v)
    && SizesOk(s.sizes, v)
    && KeywordsOk(s.others, v, w)
    && (v.Obj? ==> s.required <= v.fields.Keys)
  }

  ghost predicate Accepts(s: Schema, v: Value, w: World)
    decreases s, 2
  {
    match s
    case Flag(allow) => allow
    case Node(_, _, _, _, _, _, properties, _, items, additional, allOf, _, _, others) =>
      && LocalOk(s, v, w)
      && MembersOk(s, v, w)
      && (v.Obj? ==>
            forall name | name in v.fields ::
              if name in properties then Accepts(properties[name], v.fields[name], w)
              else additional.Some? && !Covered(others, name, w) ==> Accepts(additional.value, v.fields[name], w))
      && (v.Arr? && items.Some? ==>
            forall i | 0 <= i < |v.elements| :: Accepts(items.value, v.elements[i], w))
      && (forall i | 0 <= i < |allOf| :: Accepts(allOf[i], v, w))
  }

  /** Some member of `anyOf` accepts the value, and exactly one of `oneOf`. */
  ghost predicate MembersOk(s: Schema, v: Value, w: World)
    requires s.Node?
    decreases s, 1
  {
    && (s.anyOf != [] ==> Accepting(s.anyOf, v, w) > 0)
    && (s.oneOf != [] ==> Accepting(s.oneOf, v, w) == 1)
  }

  /** How many of the schemas accept the value. */
  ghost function Accepting(nodes: seq<Schema>, v: Value, w: World): nat
    decreases nodes, 0
  {
    if nodes == [] then 0 else Accepting(nodes[1..], v, w) + if Accepts(nodes[0], v, w) then 1 else 0
  }

  ghost predicate AcceptsAll(nodes: seq<Schema>, v: Value, w: World) {
    forall i | 0 <= i < |nodes| :: Accepts(nodes[i], v, w)
  }

  ghost predicate Included(a: Schema, b: Schema, w: World) {
    forall v | Accepts(a, v, w) :: Accepts(b, v, w)
  }

  /** The object nodes whose keywords apply to the same value: the schema and, recursively, the
      objects of its `allOf`. Boolean members are skipped, as the source skips them. */
  function Fragments(s: Schema): (r: seq<Schema>)
    ensures forall i | 0 <= i < |r| :: r[i].Node?
    decreases s, 1
  {
    match s
    case Flag(_) => []
    case Node(_, _, _, _, _, _, _, _, _, _, allOf, _, _, _) => [s] + FragmentsOfAll(allOf)
  }

  function FragmentsOfAll(nodes: seq<Schema>): (r: seq<Schema>)
    ensures forall i | 0 <= i < |r| :: r[i].Node?
    decreases nodes, 0
  {
    if nodes == [] then [] else Fragments(nodes[0]) + FragmentsOfAll(nodes[1..])
  }

  /** Fragments are the schema itself or parts of it. */
  lemma {:induction false} FragmentsSmaller(s: Schema)
    ensures forall i | 0 <= i < |Fragments(s)| :: Fragments(s)[i] == s || Fragments(s)[i] < s
    decreases s, 1
  {
    if s.Node? {
      FragmentsOfAllSmaller(s.allOf);
    }
  }

  lemma {:induction false} FragmentsOfAllSmaller(nodes: seq<Schema>)
    ensures forall i | 0 <= i < |FragmentsOfAll(nodes)| ::
              exists j :: 0 <= j < |nodes| && (FragmentsOfAll(nodes)[i] == nodes[j]
                                               || FragmentsOfAll(nodes)[i] < nodes[j])
    decreases nodes, 0
  {
    if nodes != [] {
      FragmentsSmaller(nodes[0]);
      FragmentsOfAllSmaller(nodes[1..]);
      forall i | 0 <= i < |FragmentsOfAll(nodes)|
        ensures exists j :: 0 <= j < |nodes| && (FragmentsOfAll(nodes)[i] == nodes[j]
                                                 || FragmentsOfAll(nodes)[i] < nodes[j])
      {
        var f, k := FragmentsOfAll(nodes)[i], |Fragments(nodes[0])|;
        if i < k {
          assert f == Fragments(nodes[0])[i];
          assert f == nodes[0] || f < nodes[0];
        } else {
          assert f == FragmentsOfAll(nodes[1..])[i - k];
          var j :| 0 <= j < |nodes[1..]| && (f == nodes[1..][j] || f < nodes[1..][j]);
          assert f == nodes[j + 1] || f < nodes[j + 1];
        }
      }
    } else {
      assert FragmentsOfAll(nodes) == [];
    }
  }

  /** A schema accepts a value only if each of its fragments does. */
  lemma {:induction false} FragmentsAccept(s: Schema, v: Value, w: World)
    requires Accepts(s, v, w)
    ensures AcceptsAll(Fragments(s), v, w)
    decreases s, 1
  {
    if s.Node? {
      FragmentsOfAllAccept(s.allOf, v, w);
    }
  }

  lemma {:induction false} FragmentsOfAllAccept(nodes: seq<Schema>, v: Value, w: World)
    requires AcceptsAll(nodes, v, w)
    ensures AcceptsAll(FragmentsOfAll(nodes), v, w)
    decreases nodes, 0
  {
    if nodes != [] {
      FragmentsAccept(nodes[0], v, w);
      FragmentsOfAllAccept(nodes[1..], v, w);
    }
  }
}

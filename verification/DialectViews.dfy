/**
 One way to write bounds for both OpenAPI versions: services/vdoc/semantic_dialect.go,
 schemaDialectView. Only the comparison sees the view.

 OpenAPI 3.0 writes an exclusive bound as a boolean beside the limit, 3.1 as a limit of its own; 3.1
 knows no `nullable`. The view rewrites both at every schema of an operation, however nested, and
 leaves literal values such as examples and enumerations alone.
 */
module DialectViews {
  import opened Wrappers
  import opened Schemas
  import opened NumericBounds
  import opened JsonTrees
  import opened RefResolver
  import JsonPointer
  import JsonNumbers

  // OpenAPI 3.0 writes exclusiveness as a boolean beside the limit, 3.1 as a limit of its own.

  datatype RawLimit = Switch(on: bool) | Number(n: real)

  type RawBounds = map<BoundKey, RawLimit>

  function PlainKey(key: BoundKey): BoundKey {
    match key
    case ExclusiveMinimum => Minimum
    case ExclusiveMaximum => Maximum
    case _ => key
  }

  predicate IsSwitch(raw: RawBounds, key: BoundKey) {
    key in raw && PlainKey(key) != key && raw[key].Switch?
  }

  /** A plain limit moves under the exclusive keyword whose switch is on. */
  predicate MovesAway(raw: RawBounds, key: BoundKey) {
    || (key == Minimum && IsSwitch(raw, ExclusiveMinimum) && raw[ExclusiveMinimum].on)
    || (key == Maximum && IsSwitch(raw, ExclusiveMaximum) && raw[ExclusiveMaximum].on)
  }

  function ViewOf(raw: RawBounds): RawBounds {
    map key | key in raw && !MovesAway(raw, key) && (IsSwitch(raw, key) ==> raw[key].on && PlainKey(key) in raw)
      :: if IsSwitch(raw, key) then raw[PlainKey(key)] else raw[key]
  }

  /** What a 3.0 document means: sections 5.3 and 5.5 of draft-wright-json-schema-validation-00, where
      a switch without its limit says nothing. A number under an exclusive keyword is a 3.1 limit. */
  ghost predicate LegacyAccepts(raw: RawBounds, x: real) {
    && (Minimum in raw && raw[Minimum].Number? ==>
          if IsSwitch(raw, ExclusiveMinimum) && raw[ExclusiveMinimum].on then raw[Minimum].n < x
            else raw[Minimum].n <= x)
    && (Maximum in raw && raw[Maximum].Number? ==>
          if IsSwitch(raw, ExclusiveMaximum) && raw[ExclusiveMaximum].on then x < raw[Maximum].n
            else x <= raw[Maximum].n)
    && (ExclusiveMinimum in raw && raw[ExclusiveMinimum].Number? ==> raw[ExclusiveMinimum].n < x)
    && (ExclusiveMaximum in raw && raw[ExclusiveMaximum].Number? ==> x < raw[ExclusiveMaximum].n)
  }

  function Limits(view: RawBounds): BoundMap {
    map key | key in view && view[key].Number? :: view[key].n
  }

  /** The 3.1 reading of the view accepts exactly what the 3.0 document accepts. */
  lemma DialectViewKeepsRange(raw: RawBounds, x: real)
    ensures WithinBounds(x, Limits(ViewOf(raw))) <==> LegacyAccepts(raw, x)
  {
    var m := Limits(ViewOf(raw));
    assert WithinBounds(x, m) <==>
      && (Minimum in m ==> m[Minimum] <= x)
      && (ExclusiveMinimum in m ==> m[ExclusiveMinimum] < x)
      && (Maximum in m ==> x <= m[Maximum])
      && (ExclusiveMaximum in m ==> x < m[ExclusiveMaximum]);
  }

  // The whole document

  const ExclusiveKeys: set<string> := {"exclusiveMinimum", "exclusiveMaximum"}

  function BoundOf(key: string): string {
    if key == "exclusiveMaximum" then "maximum" else "minimum"
  }

  /** A boolean exclusive keyword of a 3.0 schema. */
  predicate Switches(fields: map<string, Json>, kind: Kind, legacy30: bool, key: string) {
    kind == Schema && legacy30 && key in ExclusiveKeys && key in fields && fields[key].Bool?
  }

  predicate SwitchedOn(fields: map<string, Json>, kind: Kind, legacy30: bool, key: string) {
    Switches(fields, kind, legacy30, key) && fields[key].b
  }

  /** The limit goes under the exclusive keyword that is switched on. */
  predicate Moves(fields: map<string, Json>, kind: Kind, legacy30: bool, key: string) {
    || (key == "minimum" && SwitchedOn(fields, kind, legacy30, "exclusiveMinimum"))
    || (key == "maximum" && SwitchedOn(fields, kind, legacy30, "exclusiveMaximum"))
  }

  /** OpenAPI 3.1 knows no `nullable`. */
  predicate Forgotten(kind: Kind, legacy30: bool, key: string) {
    kind == Schema && !legacy30 && key == "nullable"
  }

  predicate Kept(fields: map<string, Json>, kind: Kind, legacy30: bool, key: string) {
    && key in fields && !Forgotten(kind, legacy30, key) && !Moves(fields, kind, legacy30, key)
    && (Switches(fields, kind, legacy30, key) ==> fields[key].b && BoundOf(key) in fields)
  }

  function View(v: Json, kind: Kind, legacy30: bool): Json {
    if kind == Literal then v
    else
      match v
      case Obj(fields) =>
        Json.Obj(map k | k in fields && Kept(fields, kind, legacy30, k) ::
              if Switches(fields, kind, legacy30, k) then fields[BoundOf(k)]
              else View(fields[k], ChildKind(kind, k), legacy30))
      case Arr(elements) =>
        Json.Arr(seq(|elements|, i requires 0 <= i < |elements| => View(elements[i], ElementKind(kind), legacy30)))
      case _ => v
  }

  method SchemaDialectView(v: Json, kind: Kind, legacy30: bool) returns (view: Json, changed: bool)
    ensures view == View(v, kind, legacy30) && (!changed ==> view == v)
    ensures kind == Literal ==> !changed
    decreases v, 1
  {
    if kind == Literal {
      return v, false;
    }
    match v {
      case Obj(fields) =>
        var out := ViewFields(v, kind, legacy30);
        if out.Some? {
          return Json.Obj(out.value), true;
        }
        return v, false;
      case Arr(elements) =>
        var out: Option<seq<Json>> := None;
        for i := 0 to |elements|
          invariant |out.GetOr(elements)| == |elements|
          invariant forall j | 0 <= j < i :: out.GetOr(elements)[j] == View(elements[j], ElementKind(kind), legacy30)
          invariant forall j | i <= j < |elements| :: out.GetOr(elements)[j] == elements[j]
        {
          var next, changed' := SchemaDialectView(elements[i], ElementKind(kind), legacy30);
          if changed' {
            out := Some(out.GetOr(elements)[i := next]);
          }
        }
        assert out.GetOr(elements) == View(v, kind, legacy30).elements;
        if out.Some? {
          return Json.Arr(out.value), true;
        }
        return v, false;
      case _ =>
        return v, false;
    }
  }

  /** The limit has moved, once the switch has been seen. */
  predicate Moved(fields: map<string, Json>, kind: Kind, legacy30: bool, done: set<string>, key: string) {
    || (key == "minimum" && SwitchedOn(fields, kind, legacy30, "exclusiveMinimum") && "exclusiveMinimum" in done)
    || (key == "maximum" && SwitchedOn(fields, kind, legacy30, "exclusiveMaximum") && "exclusiveMaximum" in done)
  }

  /** What stands under a key once the keys in `done` have been seen. */
  function Seen(fields: map<string, Json>, kind: Kind, legacy30: bool, done: set<string>, key: string): Option<Json> {
    if key !in fields || Moved(fields, kind, legacy30, done, key) then None
    else if key !in done then Some(fields[key])
    else if Forgotten(kind, legacy30, key) then None
    else if !Switches(fields, kind, legacy30, key) then Some(View(fields[key], ChildKind(kind, key), legacy30))
    else if fields[key].b && BoundOf(key) in fields then Some(fields[BoundOf(key)])
    else None
  }

  /** Seeing one more key changes what stands under it, and under the limit it takes away. */
  lemma SeenNext(fields: map<string, Json>, kind: Kind, legacy30: bool, done: set<string>, key: string, k: string)
    requires key in fields && key !in done
    ensures k != key ==>
              Seen(fields, kind, legacy30, done + {key}, k) ==
              if SwitchedOn(fields, kind, legacy30, key) && BoundOf(key) == k then None
              else Seen(fields, kind, legacy30, done, k)
    ensures Seen(fields, kind, legacy30, done, key) ==
            if Moved(fields, kind, legacy30, done, key) then None else Some(fields[key])
    ensures Moved(fields, kind, legacy30, done, key) ==> ChildKind(kind, key) == Literal
    ensures Moved(fields, kind, legacy30, done + {key}, key) == Moved(fields, kind, legacy30, done, key)
  {
    hide ChildKind;
    if kind == Schema {
      if key in {"minimum", "maximum"} {
        LimitsAreLiteral(key);
      }
    }
  }

  lemma AllSeen(v: Json, kind: Kind, legacy30: bool, k: string)
    requires v.Obj? && kind != Literal
    ensures At(View(v, kind, legacy30).fields, k) == Seen(v.fields, kind, legacy30, v.fields.Keys, k)
  {
    hide ChildKind;
    var fields := View(v, kind, legacy30).fields;
    assert k in fields <==> k in v.fields && Kept(v.fields, kind, legacy30, k);
  }

  /** Limits, like everything a schema does not nest, are literal. */
  lemma LimitsAreLiteral(key: string)
    requires key in {"minimum", "maximum", "nullable", "exclusiveMinimum", "exclusiveMaximum"}
    ensures ChildKind(Schema, key) == Literal
  {
  }

  function At(fields: map<string, Json>, key: string): Option<Json> {
    if key in fields then Some(fields[key]) else None
  }

  /** The loop over the fields, in any order; nothing is copied before something changes. */
  method ViewFields(v: Json, kind: Kind, legacy30: bool) returns (out: Option<map<string, Json>>)
    requires v.Obj? && kind != Literal
    ensures out.GetOr(v.fields) == View(v, kind, legacy30).fields
    decreases v, 0
  {
    var fields := v.fields;
    out := None;
    var rest := fields.Keys;
    while rest != {}
      invariant rest <= fields.Keys
      invariant forall k :: At(out.GetOr(fields), k) == Seen(fields, kind, legacy30, fields.Keys - rest, k)
      decreases rest
    {
      var key :| key in rest;
      ghost var before := out.GetOr(fields);
      ghost var done := fields.Keys - rest;
      SeenNext(fields, kind, legacy30, done, key, key);
      if kind == Schema && !legacy30 && key == "nullable" {
        out := Some(out.GetOr(fields) - {key});
      } else if kind == Schema && legacy30 && key in ExclusiveKeys && fields[key].Bool? {
        var copy := out.GetOr(fields) - {key};
        if fields[key].b && BoundOf(key) in fields {
          copy := copy[key := fields[BoundOf(key)]] - {BoundOf(key)};
        }
        out := Some(copy);
      } else {
        var next, changed := SchemaDialectView(fields[key], ChildKind(kind, key), legacy30);
        if changed {
          out := Some(out.GetOr(fields)[key := next]);
        }
      }
      rest := rest - {key};
      forall k ensures At(out.GetOr(fields), k) == Seen(fields, kind, legacy30, fields.Keys - rest, k) {
        assert At(before, k) == Seen(fields, kind, legacy30, done, k);
        SeenNext(fields, kind, legacy30, done, key, k);
        assert done + {key} == fields.Keys - rest;
      }
    }
    forall k ensures At(out.GetOr(fields), k) == At(View(v, kind, legacy30).fields, k) {
      AllSeen(v, kind, legacy30, k);
    }
    SameAt(out.GetOr(fields), View(v, kind, legacy30).fields);
  }

  lemma SameAt(a: map<string, Json>, b: map<string, Json>)
    requires forall k :: At(a, k) == At(b, k)
    ensures a == b
  {
    assert forall k :: k in a <==> At(a, k).Some?;
    assert forall k :: k in b <==> At(b, k).Some?;
    forall k | k in a ensures a[k] == b[k] {
      assert At(a, k) == At(b, k);
    }
  }

  // What the view means, at every position

  /** The kind of the position a path leads to. */
  function KindAt(kind: Kind, path: seq<JsonPointer.Token>): Kind
    decreases |path|
  {
    if path == [] then kind
    else
      KindAt(match path[0] case Key(name) => ChildKind(kind, name) case Index(_) => ElementKind(kind), path[1..])
  }

  lemma {:induction false} LiteralBelow(path: seq<JsonPointer.Token>)
    ensures KindAt(Literal, path) == Literal
  {
    if path != [] {
      LiteralBelow(path[1..]);
    }
  }

  /** Keys that the view drops or moves hold nothing but literal text. */
  lemma StructureKept(fields: map<string, Json>, kind: Kind, legacy30: bool, key: string)
    requires ChildKind(kind, key) != Literal
    ensures Kept(fields, kind, legacy30, key) <==> key in fields
    ensures !Switches(fields, kind, legacy30, key)
  {
    hide ChildKind;
    if kind == Schema && key in {"minimum", "maximum", "nullable", "exclusiveMinimum", "exclusiveMaximum"} {
      LimitsAreLiteral(key);
    }
  }

  /** The view has the same positions, literal text aside, and at each of them the view of what was there. */
  lemma {:induction false} ViewCommutes(v: Json, kind: Kind, legacy30: bool, path: seq<JsonPointer.Token>)
    requires KindAt(kind, path) != Literal
    ensures JsonPointer.Navigate(View(v, kind, legacy30), path) ==
            if JsonPointer.Navigate(v, path).None? then None
            else Some(View(JsonPointer.Navigate(v, path).value, KindAt(kind, path), legacy30))
    decreases |path|
  {
    LiteralBelow(path);
    if path != [] {
      LiteralBelow(path[1..]);
      match path[0] {
        case Key(name) =>
          if v.Obj? {
            StructureKept(v.fields, kind, legacy30, name);
            if name in v.fields {
              ViewCommutes(v.fields[name], ChildKind(kind, name), legacy30, path[1..]);
            }
          }
        case Index(n) =>
          if v.Arr? && n < |v.elements| {
            ViewCommutes(v.elements[n], ElementKind(kind), legacy30, path[1..]);
          }
      }
    }
  }

  function KeyText(key: BoundKey): string {
    match key
    case Minimum => "minimum"
    case ExclusiveMinimum => "exclusiveMinimum"
    case Maximum => "maximum"
    case ExclusiveMaximum => "exclusiveMaximum"
  }

  ghost predicate IsLimit(x: Json) {
    x.Bool? || (x.Number? && JsonNumbers.IsNumber(x.text))
  }

  ghost function LimitOf(x: Json): RawLimit
    requires IsLimit(x)
  {
    if x.Bool? then Switch(x.b) else RawLimit.Number(JsonNumbers.NumberValue(x.text))
  }

  /** The bound keywords of a schema, as far as they hold numbers or booleans. */
  ghost function BoundsIn(fields: map<string, Json>): RawBounds {
    map key | key in {Minimum, ExclusiveMinimum, Maximum, ExclusiveMaximum}
              && KeyText(key) in fields && IsLimit(fields[KeyText(key)]) ::
      LimitOf(fields[KeyText(key)])
  }

  ghost function Bound(bounds: RawBounds, key: BoundKey): Option<RawLimit> {
    if key in bounds then Some(bounds[key]) else None
  }

  ghost function Read(x: Option<Json>): Option<RawLimit> {
    if x.Some? && IsLimit(x.value) then Some(LimitOf(x.value)) else None
  }

  lemma BoundRead(fields: map<string, Json>, key: BoundKey)
    ensures Bound(BoundsIn(fields), key) == Read(At(fields, KeyText(key)))
  {
  }

  /** A limit leaves when its switch is on, and otherwise stays. */
  lemma ViewedLimit(v: Json, key: BoundKey)
    requires v.Obj? && key in {Minimum, Maximum}
    ensures var exclusive := if key == Minimum then "exclusiveMinimum" else "exclusiveMaximum";
            At(View(v, Schema, true).fields, KeyText(key)) ==
            if At(v.fields, exclusive) == Some(Json.Bool(true)) then None else At(v.fields, KeyText(key))
  {
    LimitsAreLiteral(KeyText(key));
    AllSeen(v, Schema, true, KeyText(key));
  }

  /** A switch becomes the limit it stands for, or nothing. */
  lemma ViewedSwitch(v: Json, key: BoundKey)
    requires v.Obj? && key in {ExclusiveMinimum, ExclusiveMaximum}
    ensures At(View(v, Schema, true).fields, KeyText(key)) ==
            match At(v.fields, KeyText(key))
            case Some(Bool(on)) => if on then At(v.fields, KeyText(PlainKey(key))) else None
            case other => other
  {
    LimitsAreLiteral(KeyText(key));
    AllSeen(v, Schema, true, KeyText(key));
  }

  lemma ViewedBounds(v: Json)
    requires v.Obj?
    ensures View(v, Schema, true).Obj? && BoundsIn(View(v, Schema, true).fields) == ViewOf(BoundsIn(v.fields))
  {
    hide View;
    assert View(v, Schema, true).Obj? by {
      ViewIsObject(v);
    }
    var raw, view := BoundsIn(v.fields), BoundsIn(View(v, Schema, true).fields);
    forall key: BoundKey ensures Bound(view, key) == Bound(ViewOf(raw), key) {
      BoundRead(v.fields, key);
      BoundRead(View(v, Schema, true).fields, key);
      match key
      case Minimum => ViewedLimit(v, key); BoundRead(v.fields, ExclusiveMinimum);
      case Maximum => ViewedLimit(v, key); BoundRead(v.fields, ExclusiveMaximum);
      case ExclusiveMinimum => ViewedSwitch(v, key); BoundRead(v.fields, Minimum);
      case ExclusiveMaximum => ViewedSwitch(v, key); BoundRead(v.fields, Maximum);
    }
    SameBounds(view, ViewOf(raw));
  }

  lemma ViewIsObject(v: Json)
    requires v.Obj?
    ensures View(v, Schema, true).Obj?
  {
  }

  lemma SameBounds(a: RawBounds, b: RawBounds)
    requires forall key :: Bound(a, key) == Bound(b, key)
    ensures a == b
  {
    assert forall key :: key in a <==> Bound(a, key).Some?;
    assert forall key :: key in b <==> Bound(b, key).Some?;
    forall key | key in a ensures a[key] == b[key] {
      assert Bound(a, key) == Bound(b, key);
    }
  }

  /** In a 3.0 operation every schema, however nested, has in the view the range it has in the document. */
  lemma SchemaRangesKept(v: Json, kind: Kind, path: seq<JsonPointer.Token>, x: real)
    requires KindAt(kind, path) == Schema && JsonPointer.Navigate(v, path).Some?
    requires JsonPointer.Navigate(v, path).value.Obj?
    ensures JsonPointer.Navigate(View(v, kind, true), path).Some?
    ensures var schema, view := JsonPointer.Navigate(v, path).value,
            JsonPointer.Navigate(View(v, kind, true), path).value;
            view.Obj? && (WithinBounds(x, Limits(BoundsIn(view.fields))) <==> LegacyAccepts(BoundsIn(schema.fields), x))
  {
    ViewCommutes(v, kind, true, path);
    var schema := JsonPointer.Navigate(v, path).value;
    ViewedBounds(schema);
    DialectViewKeepsRange(BoundsIn(schema.fields), x);
  }

  /** In a 3.1 operation every schema keeps its bounds and its other keywords, and loses `nullable` alone. */
  lemma NullableForgotten(v: Json, kind: Kind, path: seq<JsonPointer.Token>)
    requires KindAt(kind, path) == Schema && JsonPointer.Navigate(v, path).Some?
    requires JsonPointer.Navigate(v, path).value.Obj?
    ensures JsonPointer.Navigate(View(v, kind, false), path).Some?
    ensures var schema, view := JsonPointer.Navigate(v, path).value,
            JsonPointer.Navigate(View(v, kind, false), path).value;
            && view.Obj? && view.fields.Keys == schema.fields.Keys - {"nullable"}
            && BoundsIn(view.fields) == BoundsIn(schema.fields)
            && forall k | k in view.fields && ChildKind(Schema, k) == Literal :: view.fields[k] == schema.fields[k]
  {
    ViewCommutes(v, kind, false, path);
    var schema := JsonPointer.Navigate(v, path).value;
    var view := View(schema, Schema, false);
    forall key | key in {Minimum, ExclusiveMinimum, Maximum, ExclusiveMaximum} ensures ChildKind(Schema,
        KeyText(key)) == Literal {
      LimitsAreLiteral(KeyText(key));
    }
  }
}

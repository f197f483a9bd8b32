/**
 Where a resolved document has been resolved: services/vdoc/openapi.go, openAPIResolver.value and
 childRefKind. Schema and operation objects get a shape of their own here, written down as JSON by
 `Render`, so that a position of the shape says whether a `$ref` found there is a reference, and what
 the answer holds at that position.
 */

module RefPositions {
  import opened Wrappers
  import opened JsonTrees
  import opened RefResolver
  import opened RefExpansion

  import JsonPointer
  import JsonNumbers

  // A reference with keywords beside it

  /** In OpenAPI 3.1 a schema reference keeps the keywords beside it, and its target is put first among
      what all has to hold. */
  lemma ReferenceWithSiblings(root: Document, v: Json, seen: set<string>, ref: string)
    returns (target: Json, resolved: Json, siblings: map<string, Json>)
    requires Is31(root) && v.Obj? && v.fields.Keys > {"$ref"} && v.fields["$ref"] == Str(ref)
    requires Unfold(root, v, seen, Schema).Some?
    ensures JsonPointer.Lookup(root, ref) == Some(target)
            && Unfold(root, target, seen + {ref}, Schema) == Some(resolved)
    ensures Unfold(root, Obj(v.fields - {"$ref"}), seen, Schema) == Some(Obj(siblings))
            && siblings.Keys == v.fields.Keys - {"$ref"}
    ensures var r := Unfold(root, v, seen, Schema).value;
            && r.Obj? && r.fields.Keys == siblings.Keys + {"allOf"}
            && (forall k | k in siblings && k != "allOf" :: r.fields[k] == siblings[k])
            && r.fields["allOf"].Arr? && |r.fields["allOf"].elements| > 0
            && r.fields["allOf"].elements[0] == resolved
            && r.fields["allOf"].elements[1..] ==
               if "allOf" in siblings && siblings["allOf"].Arr? then siblings["allOf"].elements else []
  {
    hide ChildKind;
    hide JsonPointer.Lookup;
    hide JsonNumbers.Number;
    target := JsonPointer.Lookup(root, ref).value;
    assert RefAt(v, Schema) == Some(ref);
    assert Siblings(v).fields.Keys == v.fields.Keys - {"$ref"} != {};
    ReferenceParts(root, v, seen, Schema, target);
    resolved := Unfold(root, target, seen + {ref}, Schema).value;
    UnfoldGathers(root, Siblings(v), seen);
    siblings := Unfold(root, Siblings(v), seen, Schema).value.fields;
  }

  lemma UnfoldGathers(root: Document, v: Json, seen: set<string>)
    requires v.Obj? && "$ref" !in v.fields && Unfold(root, v, seen, Schema).Some?
    ensures Unfold(root, v, seen, Schema).value.Obj?
    ensures Unfold(root, v, seen, Schema).value.fields.Keys == v.fields.Keys
  {
    hide ChildKind;
    hide JsonPointer.Lookup;
    hide JsonNumbers.Number;
    RefExpansion.UnfoldGathers(root, v, seen, Schema);
  }

  /** A schema accepts a value if the keywords beside its `allOf` do, as `meaning` has it, and all of its
      `allOf` do. */
  ghost predicate Accepts(schema: Json, value: Json, meaning: (Json, Json) -> bool) {
    if schema.Obj? && "allOf" in schema.fields && schema.fields["allOf"].Arr? then
      var all := schema.fields["allOf"].elements;
      meaning(Obj(schema.fields - {"allOf"}), value) && forall i | 0 <= i < |all| :: Accepts(all[i], value, meaning)
    else meaning(schema, value)
  }

  /** Whatever the other keywords mean, a resolved reference accepts what its target and its siblings do. */
  lemma ReferenceAccepts(root: Document, v: Json, seen: set<string>, ref: string, value: Json,
                         meaning: (Json, Json) -> bool)
    requires Is31(root) && v.Obj? && v.fields.Keys > {"$ref"} && v.fields["$ref"] == Str(ref)
    requires Unfold(root, v, seen, Schema).Some? && ("allOf" in v.fields ==> v.fields["allOf"].Arr?)
    ensures JsonPointer.Lookup(root, ref).Some?
    ensures var target := Unfold(root, JsonPointer.Lookup(root, ref).value, seen + {ref}, Schema);
            var siblings := Unfold(root, Obj(v.fields - {"$ref"}), seen, Schema);
            && target.Some? && siblings.Some?
            && (Accepts(Unfold(root, v, seen, Schema).value, value, meaning) <==>
                Accepts(target.value, value, meaning) && Accepts(siblings.value, value, meaning))
  {
    var target, resolved, siblings := ReferenceWithSiblings(root, v, seen, ref);
    if "allOf" in v.fields {
      ListStays(root, Obj(v.fields - {"$ref"}), seen);
    }
    hide Unfold;
    hide JsonPointer.Lookup;
    MergedAccepts(siblings, Unfold(root, v, seen, Schema).value.fields, resolved, value, meaning);
  }

  lemma MergedAccepts(siblings: map<string, Json>, merged: map<string, Json>, target: Json, value: Json,
                      meaning: (Json, Json) -> bool)
    requires "allOf" in siblings ==> siblings["allOf"].Arr?
    requires merged.Keys == siblings.Keys + {"allOf"} && merged["allOf"].Arr? && merged["allOf"].elements != []
    requires forall k | k in siblings && k != "allOf" :: merged[k] == siblings[k]
    requires merged["allOf"].elements[0] == target
    requires merged["allOf"].elements[1..] == if "allOf" in siblings then siblings["allOf"].elements else []
    ensures Accepts(Obj(merged), value, meaning) <==>
            Accepts(target, value, meaning) && Accepts(Obj(siblings), value, meaning)
  {
    var all := merged["allOf"].elements;
    assert merged - {"allOf"} == siblings - {"allOf"};
    assert "allOf" !in siblings ==> siblings - {"allOf"} == siblings;
    assert forall i | 1 <= i < |all| :: all[i] == all[1..][i - 1];
    assert forall i | 0 <= i < |all[1..]| :: all[1..][i] == all[i + 1];
  }

  lemma ListStays(root: Document, v: Json, seen: set<string>)
    requires v.Obj? && "$ref" !in v.fields && "allOf" in v.fields && v.fields["allOf"].Arr?
    requires Unfold(root, v, seen, Schema).Some?
    ensures Unfold(root, v, seen, Schema).value.Obj? && "allOf" in Unfold(root, v, seen, Schema).value.fields
    ensures Unfold(root, v, seen, Schema).value.fields["allOf"].Arr?
  {
    hide JsonPointer.Lookup;
    hide JsonNumbers.Number;
    RefExpansion.UnfoldGathers(root, v, seen, Schema);
    assert UnfoldFields(root, v, seen, Schema)["allOf"].Some?;
    RefExpansion.UnfoldGathers(root, v.fields["allOf"], seen, SchemaArray);
  }

  // The shape of schemas

  datatype SchemaTree = Flag(value: bool) | Tree(ref: Option<string>, parts: map<string, Part>)

  datatype Part =
    | Single(schema: SchemaTree)
    | Named(schemas: map<string, SchemaTree>)
    | Listed(list: seq<SchemaTree>)
    | Data(json: Json)

  const NAMED := {"properties", "patternProperties", "$defs", "definitions", "dependentSchemas"}
  const LISTED := {"allOf", "anyOf", "oneOf", "prefixItems"}
  const SINGLE := {"items", "additionalItems", "additionalProperties", "unevaluatedProperties", "unevaluatedItems",
                   "propertyNames", "contains", "not", "if", "then", "else"}

  /** Each keyword holds what it is for. */
  ghost predicate Shaped(t: SchemaTree) {
    t.Tree? ==> "$ref" !in t.parts && forall k | k in t.parts :: PartShaped(k, t.parts[k])
  }

  ghost predicate PartShaped(k: string, part: Part)
    decreases part
  {
    match part
    case Single(schema) => k in SINGLE && Shaped(schema)
    case Named(schemas) => k in NAMED && forall j | j in schemas :: Shaped(schemas[j])
    case Listed(list) => k in LISTED && forall i | 0 <= i < |list| :: Shaped(list[i])
    case Data(_) => k !in SINGLE + NAMED + LISTED
  }

  function Render(t: SchemaTree): Json {
    match t
    case Flag(value) => Bool(value)
    case Tree(ref, parts) =>
      var fields := map k | k in parts :: RenderPart(parts[k]);
      Obj(if ref.Some? then fields["$ref" := Str(ref.value)] else fields)
  }

  function RenderPart(part: Part): Json {
    match part
    case Single(schema) => Render(schema)
    case Named(schemas) => Obj(map j | j in schemas :: Render(schemas[j]))
    case Listed(list) => Arr(seq(|list|, i requires 0 <= i < |list| => Render(list[i])))
    case Data(json) => json
  }

  /** The same data, each number in its one spelling. */
  ghost predicate SameData(v: Json, r: Json) {
    match v
    case Number(text) => r.Number? && JsonNumbers.Number(text) == Some(r.text)
    case Obj(fields) => r.Obj? && r.fields.Keys == fields.Keys && forall k | k in fields ::
      SameData(fields[k], r.fields[k])
    case Arr(elements) =>
      r.Arr? && |r.elements| == |elements| && forall i | 0 <= i < |elements| :: SameData(elements[i], r.elements[i])
    case _ => r == v
  }

  /** What the reference alone resolves to. */
  ghost predicate Answers(root: Document, ref: string, kind: Kind, r: Json) {
    JsonPointer.Lookup(root, ref).Some? && Unfold(root, JsonPointer.Lookup(root, ref).value, {}, kind) == Some(r)
  }

  /** The answer for a schema: what a reference points to where there is one, and else the same keywords,
      with schemas answered in turn and everything else as it was. */
  ghost predicate Answered(root: Document, t: SchemaTree, r: Json) {
    match t
    case Flag(value) => r == Bool(value)
    case Tree(None, parts) =>
      r.Obj? && r.fields.Keys == parts.Keys && forall k | k in parts :: PartAnswered(root, parts[k], r.fields[k])
    case Tree(Some(ref), parts) =>
      if Is31(root) && parts != map[] then
        && r.Obj? && r.fields.Keys == parts.Keys + {"allOf"}
        && (forall k | k in parts && k != "allOf" :: PartAnswered(root, parts[k], r.fields[k]))
        && r.fields["allOf"].Arr? && |r.fields["allOf"].elements| > 0
        && Answers(root, ref, Schema, r.fields["allOf"].elements[0])
        && if "allOf" in parts then PartAnswered(root, parts["allOf"], Arr(r.fields["allOf"].elements[1..]))
           else |r.fields["allOf"].elements| == 1
      else Answers(root, ref, Schema, r)
  }

  ghost predicate PartAnswered(root: Document, part: Part, r: Json) {
    match part
    case Single(schema) => Answered(root, schema, r)
    case Named(schemas) =>
      r.Obj? && r.fields.Keys == schemas.Keys && forall j | j in schemas :: Answered(root, schemas[j], r.fields[j])
    case Listed(list) =>
      r.Arr? && |r.elements| == |list| && forall i | 0 <= i < |list| :: Answered(root, list[i], r.elements[i])
    case Data(json) => SameData(json, r)
  }

  lemma FieldResolved(root: Document, v: Json, seen: set<string>, kind: Kind, r: Json, k: string)
    requires v.Obj? && RefAt(v, kind).None? && Unfold(root, v, seen, kind) == Some(r)
    ensures r.Obj? && r.fields.Keys == v.fields.Keys
    ensures k in v.fields ==> Unfold(root, v.fields[k], seen, ChildKind(kind, k)) == Some(r.fields[k])
  {
    hide ChildKind;
    hide JsonPointer.Lookup;
    hide JsonNumbers.Number;
    RefExpansion.UnfoldGathers(root, v, seen, kind);
    hide Unfold;
    assert k in v.fields ==> UnfoldFields(root, v, seen, kind)[k].Some?;
  }

  lemma ElementResolved(root: Document, v: Json, seen: set<string>, kind: Kind, r: Json, i: nat)
    requires v.Arr? && Unfold(root, v, seen, kind) == Some(r)
    ensures r.Arr? && |r.elements| == |v.elements|
    ensures i < |v.elements| ==> Unfold(root, v.elements[i], seen, ElementKind(kind)) == Some(r.elements[i])
  {
    hide ChildKind;
    hide JsonPointer.Lookup;
    hide JsonNumbers.Number;
    RefExpansion.UnfoldGathers(root, v, seen, kind);
    hide Unfold;
    assert i < |v.elements| ==> UnfoldElements(root, v, seen, kind)[i].Some?;
  }

  lemma LeafResolved(root: Document, v: Json, seen: set<string>, kind: Kind, r: Json)
    requires !v.Obj? && !v.Arr? && Unfold(root, v, seen, kind) == Some(r)
    ensures SameData(v, r)
  {
    hide JsonPointer.Lookup;
    hide JsonNumbers.Number;
  }

  lemma {:induction false} LiteralStays(root: Document, v: Json, seen: set<string>, r: Json)
    requires Unfold(root, v, seen, Literal) == Some(r)
    ensures SameData(v, r)
  {
    hide Unfold;
    match v
    case Obj(fields) =>
      FieldResolved(root, v, seen, Literal, r, "");
      forall k | k in fields ensures SameData(fields[k], r.fields[k]) {
        FieldResolved(root, v, seen, Literal, r, k);
        LiteralStays(root, fields[k], seen, r.fields[k]);
      }
    case Arr(elements) =>
      ElementResolved(root, v, seen, Literal, r, 0);
      forall i | 0 <= i < |elements| ensures SameData(elements[i], r.elements[i]) {
        ElementResolved(root, v, seen, Literal, r, i);
        LiteralStays(root, elements[i], seen, r.elements[i]);
      }
    case _ => LeafResolved(root, v, seen, Literal, r);
  }

  lemma SchemaKinds(k: string)
    ensures k in NAMED ==> ChildKind(Schema, k) == SchemaMap
    ensures k in LISTED ==> ChildKind(Schema, k) == SchemaArray
    ensures k in SINGLE ==> ChildKind(Schema, k) == Schema
    ensures k !in SINGLE + NAMED + LISTED ==> ChildKind(Schema, k) == Literal
  {
  }

  /** The fields that stand for the parts of a schema, its reference left aside. */
  lemma {:induction false} PartsAnswered(root: Document, t: SchemaTree, seen: set<string>, r: Json)
    requires t.Tree? && Shaped(t) && Unfold(root, Render(Tree(None, t.parts)), seen, Schema) == Some(r)
    ensures Answered(root, Tree(None, t.parts), r)
    decreases t, 0
  {
    hide Unfold;
    hide ChildKind;
    var v := Render(Tree(None, t.parts));
    FieldResolved(root, v, seen, Schema, r, "");
    forall k | k in t.parts ensures PartAnswered(root, t.parts[k], r.fields[k]) {
      FieldResolved(root, v, seen, Schema, r, k);
      PartIsAnswered(root, k, t.parts[k], seen, r.fields[k]);
    }
  }

  lemma {:induction false} PartIsAnswered(root: Document, k: string, part: Part, seen: set<string>, r: Json)
    requires PartShaped(k, part) && Unfold(root, RenderPart(part), seen, ChildKind(Schema, k)) == Some(r)
    ensures PartAnswered(root, part, r)
    decreases part, 1
  {
    hide Unfold;
    hide Shaped;
    hide Answered;
    SchemaKinds(k);
    hide ChildKind;
    match part
    case Single(schema) => SchemaAnswered(root, schema, seen, r);
    case Data(json) => LiteralStays(root, json, seen, r);
    case Named(schemas) => NamedAnswered(root, k, part, seen, r);
    case Listed(list) => ListedAnswered(root, k, part, seen, r);
  }

  lemma {:induction false} NamedAnswered(root: Document, k: string, part: Part, seen: set<string>, r: Json)
    requires PartShaped(k, part) && part.Named? && Unfold(root, RenderPart(part), seen, SchemaMap) == Some(r)
    ensures PartAnswered(root, part, r)
    decreases part, 0
  {
    hide Unfold;
    hide ChildKind;
    hide Shaped;
    hide Answered;
    hide Render;
    var v := RenderPart(part);
    FieldResolved(root, v, seen, SchemaMap, r, "");
    forall j | j in part.schemas ensures Answered(root, part.schemas[j], r.fields[j]) {
      FieldResolved(root, v, seen, SchemaMap, r, j);
      MapKind(j);
      SchemaAnswered(root, part.schemas[j], seen, r.fields[j]);
    }
  }

  lemma {:induction false} ListedAnswered(root: Document, k: string, part: Part, seen: set<string>, r: Json)
    requires PartShaped(k, part) && part.Listed? && Unfold(root, RenderPart(part), seen, SchemaArray) == Some(r)
    ensures PartAnswered(root, part, r)
    decreases part, 0
  {
    hide Unfold;
    hide Shaped;
    hide Answered;
    hide Render;
    var v := RenderPart(part);
    ElementResolved(root, v, seen, SchemaArray, r, 0);
    forall i | 0 <= i < |part.list| ensures Answered(root, part.list[i], r.elements[i]) {
      ElementResolved(root, v, seen, SchemaArray, r, i);
      SchemaAnswered(root, part.list[i], seen, r.elements[i]);
    }
  }

  /** Every position of a schema is answered as its shape says. */
  lemma {:induction false} SchemaAnswered(root: Document, t: SchemaTree, seen: set<string>, r: Json)
    requires Shaped(t) && Unfold(root, Render(t), seen, Schema) == Some(r)
    ensures Answered(root, t, r)
    decreases t, 2
  {
    hide Unfold;
    match t
    case Flag(value) => LeafResolved(root, Render(t), seen, Schema, r);
    case Tree(None, parts) => PartsAnswered(root, t, seen, r);
    case Tree(Some(ref), parts) => ReferenceAnswered(root, t, seen, r);
  }

  lemma {:induction false} ReferenceAnswered(root: Document, t: SchemaTree, seen: set<string>, r: Json)
    requires t.Tree? && t.ref.Some? && Shaped(t) && Unfold(root, Render(t), seen, Schema) == Some(r)
    ensures Answered(root, t, r)
    decreases t, 1
  {
    hide Unfold;
    assert "$ref" !in t.parts;
    hide Shaped;
    hide Answered;
    hide ChildKind;
    hide JsonPointer.Lookup;
    var v, ref := Render(t), t.ref.value;
    assert v.fields - {"$ref"} == Render(Tree(None, t.parts)).fields;
    if Is31(root) && t.parts != map[] {
      var k :| k in t.parts;
      assert k in v.fields && k != "$ref";
      var target, resolved, siblings := ReferenceWithSiblings(root, v, seen, ref);
      SeenOnlyRefuses(root, target, seen + {ref}, {}, Schema);
      PartsAnswered(root, t, seen, Obj(siblings));
      assert Answers(root, ref, Schema, resolved);
      SiblingsAnswered(root, t, r, siblings);
    } else {
      NothingBeside(root, t);
      var answer := ReferenceAlone(root, v, seen, Schema, r);
      TargetAnswered(root, t, r);
    }
  }

  lemma NothingBeside(root: Document, t: SchemaTree)
    requires t.Tree? && !(Is31(root) && t.parts != map[])
             && Render(t).fields - {"$ref"} == Render(Tree(None, t.parts)).fields
    ensures !KeepsSiblings(root, Render(t), Schema)
  {
    assert Siblings(Render(t)).fields.Keys == t.parts.Keys;
  }

  lemma TargetAnswered(root: Document, t: SchemaTree, r: Json)
    requires t.Tree? && t.ref.Some? && !(Is31(root) && t.parts != map[]) && Answers(root, t.ref.value, Schema, r)
    ensures Answered(root, t, r)
  {
    hide Answers;
  }

  lemma SiblingsAnswered(root: Document, t: SchemaTree, r: Json, siblings: map<string, Json>)
    requires t.Tree? && t.ref.Some? && Shaped(t) && Is31(root) && t.parts != map[]
    requires Answered(root, Tree(None, t.parts), Obj(siblings)) && r.Obj? && r.fields.Keys == siblings.Keys + {"allOf"}
    requires forall k | k in siblings && k != "allOf" :: r.fields[k] == siblings[k]
    requires r.fields["allOf"].Arr? && |r.fields["allOf"].elements| > 0
    requires Answers(root, t.ref.value, Schema, r.fields["allOf"].elements[0])
    requires r.fields["allOf"].elements[1..] ==
             if "allOf" in siblings && siblings["allOf"].Arr? then siblings["allOf"].elements else []
    ensures Answered(root, t, r)
  {
    hide Answers;
    if "allOf" in t.parts {
      assert PartShaped("allOf", t.parts["allOf"]);
      assert PartAnswered(root, t.parts["allOf"], siblings["allOf"]);
      assert Arr(r.fields["allOf"].elements[1..]) == siblings["allOf"];
    } else {
      assert r.fields["allOf"].elements[1..] == [];
    }
  }

  /** A reference with nothing kept beside it. */
  lemma ReferenceAlone(root: Document, v: Json, seen: set<string>, kind: Kind, r: Json) returns (answer: Json)
    requires RefAt(v, kind).Some? && Unfold(root, v, seen, kind) == Some(r) && !KeepsSiblings(root, v, kind)
    ensures Answers(root, RefAt(v, kind).value, kind, answer) && r == Described(root, answer, v, kind)
  {
    hide ChildKind;
    hide JsonPointer.Lookup;
    hide JsonNumbers.Number;
    hide Described;
    var ref := RefAt(v, kind).value;
    var target := JsonPointer.Lookup(root, ref).value;
    ReferenceParts(root, v, seen, kind, target);
    answer := Unfold(root, target, seen + {ref}, kind).value;
    SeenOnlyRefuses(root, target, seen + {ref}, {}, kind);
  }

  // The shape of operation objects and what hangs below them

  datatype ObjectTree =
    | Plain(json: Json)
    | Entries(entries: seq<ObjectTree>)
    | Node(ref: Option<string>, members: map<string, Member>)

  datatype Member =
    | SchemaMember(schema: SchemaTree)
    | Objects(objects: map<string, ObjectTree>)
    | ResponseMember(responses: map<string, ObjectTree>, extensions: map<string, Json>)
    | Verbatim(json: Json)
    | Inner(inner: ObjectTree)

  const OBJECT_MAPS := {"content", "headers", "examples", "encoding"}
  const VERBATIM := {"example", "default", "enum", "const", "value"}

  predicate IsExtension(key: string) {
    |key| >= 2 && key[0] == 'x' && key[1] == '-'
  }

  ghost predicate ObjectShaped(t: ObjectTree) {
    match t
    case Plain(json) => !json.Obj? && !json.Arr?
    case Entries(entries) => forall i | 0 <= i < |entries| :: ObjectShaped(entries[i])
    case Node(_, members) => "$ref" !in members && forall k | k in members :: MemberShaped(k, members[k])
  }

  ghost predicate MemberShaped(k: string, member: Member)
    decreases member
  {
    match member
    case SchemaMember(schema) => k == "schema" && Shaped(schema)
    case Objects(objects) => k in OBJECT_MAPS && forall j | j in objects :: ObjectShaped(objects[j])
    case ResponseMember(responses, extensions) =>
      && k == "responses"
      && (forall j | j in responses :: !IsExtension(j) && ObjectShaped(responses[j]))
      && forall j | j in extensions :: IsExtension(j)
    case Verbatim(_) => IsExtension(k) || k in VERBATIM
    case Inner(inner) =>
      !IsExtension(k) && k !in OBJECT_MAPS + VERBATIM + {"schema", "responses"} && ObjectShaped(inner)
  }

  function RenderObject(t: ObjectTree): Json {
    match t
    case Plain(json) => json
    case Entries(entries) => Arr(seq(|entries|, i requires 0 <= i < |entries| => RenderObject(entries[i])))
    case Node(ref, members) =>
      var fields := map k | k in members :: RenderMember(members[k]);
      Obj(if ref.Some? then fields["$ref" := Str(ref.value)] else fields)
  }

  function RenderMember(member: Member): Json {
    match member
    case SchemaMember(schema) => Render(schema)
    case Objects(objects) => Obj(map j | j in objects :: RenderObject(objects[j]))
    case ResponseMember(responses, extensions) => Obj(extensions + map j | j in responses :: RenderObject(responses[j]))
    case Verbatim(json) => json
    case Inner(inner) => RenderObject(inner)
  }

  /** The texts that a reference object of OpenAPI 3.1 may bring along. */
  const TEXTS := {"summary", "description"}

  /** The answer for an object: what a reference points to, under the texts beside it, and else the same
      members, with schemas and references answered in turn and everything else as it was. */
  ghost predicate ObjectAnswered(root: Document, t: ObjectTree, r: Json) {
    match t
    case Plain(json) => SameData(json, r)
    case Entries(entries) =>
      r.Arr? && |r.elements| == |entries| && forall i | 0 <= i < |entries| ::
        ObjectAnswered(root, entries[i], r.elements[i])
    case Node(None, members) =>
      r.Obj? && r.fields.Keys == members.Keys && forall k | k in members ::
        MemberAnswered(root, members[k], r.fields[k])
    case Node(Some(ref), members) =>
      exists answer ::
        && Answers(root, ref, Object, answer)
        && if Is31(root) && answer.Obj? then
             && r.Obj? && r.fields.Keys == answer.fields.Keys + TEXTS * members.Keys
             && forall k | k in r.fields ::
                  r.fields[k] == if k in TEXTS && k in members then JsonNumbers.Normalize(RenderMember(members[k]))
                                 else answer.fields[k]
           else r == answer
  }

  ghost predicate MemberAnswered(root: Document, member: Member, r: Json) {
    match member
    case SchemaMember(schema) => Answered(root, schema, r)
    case Objects(objects) =>
      r.Obj? && r.fields.Keys == objects.Keys && forall j | j in objects ::
        ObjectAnswered(root, objects[j], r.fields[j])
    case ResponseMember(responses, extensions) =>
      && r.Obj? && r.fields.Keys == responses.Keys + extensions.Keys
      && (forall j | j in responses :: ObjectAnswered(root, responses[j], r.fields[j]))
      && forall j | j in extensions :: SameData(extensions[j], r.fields[j])
    case Verbatim(json) => SameData(json, r)
    case Inner(inner) => ObjectAnswered(root, inner, r)
  }

  lemma ObjectKinds(k: string)
    ensures IsExtension(k) ==> ChildKind(Object, k) == Literal && ChildKind(Responses, k) == Literal
    ensures !IsExtension(k) ==> ChildKind(Responses, k) == Object
    ensures k in VERBATIM ==> ChildKind(Object, k) == Literal
    ensures k in OBJECT_MAPS ==> ChildKind(Object, k) == ObjectMap
    ensures k == "schema" ==> ChildKind(Object, k) == Schema
    ensures k == "responses" ==> ChildKind(Object, k) == Responses
    ensures !IsExtension(k) && k !in OBJECT_MAPS + VERBATIM + {"schema", "responses"} ==> ChildKind(Object, k) == Object
  {
    assert IsExtension(k) <==> HasPrefix(k, "x-");
  }

  lemma {:induction false} MemberIsAnswered(root: Document, k: string, member: Member, seen: set<string>, r: Json)
    requires MemberShaped(k, member) && Unfold(root, RenderMember(member), seen, ChildKind(Object, k)) == Some(r)
    ensures MemberAnswered(root, member, r)
    decreases member
  {
    hide Unfold;
    ObjectKinds(k);
    var v := RenderMember(member);
    match member
    case SchemaMember(schema) => SchemaAnswered(root, schema, seen, r);
    case Verbatim(json) => LiteralStays(root, json, seen, r);
    case Inner(inner) => ObjectIsAnswered(root, inner, seen, r);
    case Objects(objects) =>
      hide ChildKind;
      FieldResolved(root, v, seen, ObjectMap, r, "");
      forall j | j in objects ensures ObjectAnswered(root, objects[j], r.fields[j]) {
        FieldResolved(root, v, seen, ObjectMap, r, j);
        MapKind(j);
        ObjectIsAnswered(root, objects[j], seen, r.fields[j]);
      }
    case ResponseMember(responses, extensions) =>
      hide ChildKind;
      FieldResolved(root, v, seen, Responses, r, "");
      forall j | j in responses ensures ObjectAnswered(root, responses[j], r.fields[j]) {
        FieldResolved(root, v, seen, Responses, r, j);
        ObjectKinds(j);
        ObjectIsAnswered(root, responses[j], seen, r.fields[j]);
      }
      forall j | j in extensions ensures SameData(extensions[j], r.fields[j]) {
        FieldResolved(root, v, seen, Responses, r, j);
        ObjectKinds(j);
        LiteralStays(root, extensions[j], seen, r.fields[j]);
      }
  }

  lemma MapKind(k: string)
    ensures ChildKind(ObjectMap, k) == Object && ChildKind(SchemaMap, k) == Schema
  {
  }

  /** Every position of an operation object is answered as its shape says. */
  lemma {:induction false} ObjectIsAnswered(root: Document, t: ObjectTree, seen: set<string>, r: Json)
    requires ObjectShaped(t) && Unfold(root, RenderObject(t), seen, Object) == Some(r)
    ensures ObjectAnswered(root, t, r)
    decreases t
  {
    hide Unfold;
    hide ChildKind;
    var v := RenderObject(t);
    match t
    case Plain(json) => LeafResolved(root, v, seen, Object, r);
    case Entries(entries) =>
      ElementResolved(root, v, seen, Object, r, 0);
      forall i | 0 <= i < |entries| ensures ObjectAnswered(root, entries[i], r.elements[i]) {
        ElementResolved(root, v, seen, Object, r, i);
        ObjectIsAnswered(root, entries[i], seen, r.elements[i]);
      }
    case Node(None, members) =>
      FieldResolved(root, v, seen, Object, r, "");
      forall k | k in members ensures MemberAnswered(root, members[k], r.fields[k]) {
        FieldResolved(root, v, seen, Object, r, k);
        MemberIsAnswered(root, k, members[k], seen, r.fields[k]);
      }
    case Node(Some(ref), members) =>
      var answer := ReferenceAlone(root, v, seen, Object, r);
      hide Answers;
      TextsKept(root, t, answer);
  }

  /** What a reference object adds to its target. */
  lemma TextsKept(root: Document, t: ObjectTree, answer: Json)
    requires t.Node? && t.ref.Some? && Answers(root, t.ref.value, Object, answer) && "$ref" !in t.members
    ensures ObjectAnswered(root, t, Described(root, answer, RenderObject(t), Object))
  {
    hide Answers;
    hide JsonNumbers.Normalize;
    hide RenderMember;
    var siblings := Siblings(RenderObject(t)).fields;
    assert siblings == map k | k in t.members :: RenderMember(t.members[k]);
    var r := Described(root, answer, RenderObject(t), Object);
    if Is31(root) && answer.Obj? {
      assert r.fields.Keys == answer.fields.Keys + TEXTS * t.members.Keys;
    }
  }

  // No reference is left

  /** No `$ref` at this schema nor at any schema below its keywords. */
  ghost predicate Closed(v: Json) {
    match v
    case Obj(fields) =>
      && !("$ref" in fields && fields["$ref"].Str?)
      && forall k | k in fields ::
           && (k in NAMED && fields[k].Obj? ==> forall j | j in fields[k].fields :: Closed(fields[k].fields[j]))
           && (k in LISTED && fields[k].Arr? ==>
                 forall i | 0 <= i < |fields[k].elements| :: Closed(fields[k].elements[i]))
           && (k in SINGLE ==> Closed(fields[k]))
    case Arr(elements) => forall i | 0 <= i < |elements| :: Closed(elements[i])
    case _ => true
  }

  ghost predicate ClosedAs(v: Json, kind: Kind) {
    match kind
    case Schema => Closed(v)
    case SchemaMap => v.Obj? ==> forall j | j in v.fields :: Closed(v.fields[j])
    case SchemaArray => v.Arr? ==> forall i | 0 <= i < |v.elements| :: Closed(v.elements[i])
    case _ => true
  }

  /** Whatever a schema holds, no reference is left in its resolution, nor in what its references led to. */
  lemma {:induction false} SchemaClosed(root: Document, v: Json, seen: set<string>, kind: Kind, r: Json)
    requires Unfold(root, v, seen, kind) == Some(r)
    ensures ClosedAs(r, kind)
    decreases Unseen(root, v, seen), Size(v), 1
  {
    hide Unfold;
    if kind == Schema || kind == SchemaMap || kind == SchemaArray {
      if RefAt(v, kind).Some? {
        ReferenceClosed(root, v, seen, kind, r);
      } else {
        ChildrenSmaller(root, v, seen);
        match v
        case Obj(fields) =>
          FieldResolved(root, v, seen, kind, r, "");
          forall k | k in fields ensures ClosedAs(r.fields[k], ChildKind(kind, k)) {
            FieldResolved(root, v, seen, kind, r, k);
            SchemaClosed(root, fields[k], seen, ChildKind(kind, k), r.fields[k]);
          }
          FieldsClosed(root, v, seen, kind, r);
        case Arr(elements) =>
          ElementResolved(root, v, seen, kind, r, 0);
          forall i | 0 <= i < |elements| ensures ClosedAs(r.elements[i], ElementKind(kind)) {
            ElementResolved(root, v, seen, kind, r, i);
            SchemaClosed(root, elements[i], seen, ElementKind(kind), r.elements[i]);
          }
        case _ => LeafResolved(root, v, seen, kind, r);
      }
    }
  }

  /** The results below an object make it closed: a `$ref` that was no text is none afterwards. */
  lemma FieldsClosed(root: Document, v: Json, seen: set<string>, kind: Kind, r: Json)
    requires v.Obj? && RefAt(v, kind).None? && Unfold(root, v, seen, kind) == Some(r)
    requires r.Obj? && forall k | k in r.fields :: ClosedAs(r.fields[k], ChildKind(kind, k))
    ensures ClosedAs(r, kind)
  {
    hide Unfold;
    if kind == SchemaMap {
      forall k | k in r.fields ensures Closed(r.fields[k]) {
        MapKind(k);
      }
    } else if kind == Schema {
      if "$ref" in r.fields {
        FieldResolved(root, v, seen, kind, r, "$ref");
        SchemaKinds("$ref");
        LiteralStays(root, v.fields["$ref"], seen, r.fields["$ref"]);
      }
      forall k | k in r.fields
        ensures k in NAMED && r.fields[k].Obj? ==> forall j | j in r.fields[k].fields :: Closed(r.fields[k].fields[j])
        ensures k in LISTED && r.fields[k].Arr? ==>
                  forall i | 0 <= i < |r.fields[k].elements| :: Closed(r.fields[k].elements[i])
        ensures k in SINGLE ==> Closed(r.fields[k])
      {
        SchemaKinds(k);
        assert ClosedAs(r.fields[k], ChildKind(kind, k));
        hide ChildKind;
      }
    }
  }

  lemma {:induction false} ReferenceClosed(root: Document, v: Json, seen: set<string>, kind: Kind, r: Json)
    requires RefAt(v, kind).Some? && kind in {Schema, SchemaArray} && Unfold(root, v, seen, kind) == Some(r)
    ensures ClosedAs(r, kind)
    decreases Unseen(root, v, seen), Size(v), 0
  {
    hide ChildKind;
    hide JsonPointer.Lookup;
    hide JsonNumbers.Number;
    hide UnderAllOf;
    var ref := RefAt(v, kind).value;
    var target := JsonPointer.Lookup(root, ref).value;
    ReferenceParts(root, v, seen, kind, target);
    TargetSmaller(root, v, kind, seen);
    SiblingsSmaller(root, v, kind, seen);
    var first := Unfold(root, target, seen + {ref}, kind).value;
    SchemaClosed(root, target, seen + {ref}, kind, first);
    if KeepsSiblings(root, v, kind) {
      var second := Unfold(root, Siblings(v), seen, Schema).value;
      SchemaClosed(root, Siblings(v), seen, Schema, second);
      UnderAllOfClosed(first, second);
    }
  }

  lemma UnderAllOfClosed(target: Json, siblings: Json)
    requires Closed(target) && Closed(siblings) && siblings.Obj?
    ensures Closed(UnderAllOf(target, siblings))
  {
    var r := UnderAllOf(target, siblings);
    forall i | 0 <= i < |r.fields["allOf"].elements| ensures Closed(r.fields["allOf"].elements[i]) {
      assert "allOf" in LISTED;
    }
  }

  /** No `$ref` at this object nor at any object or schema below it. */
  ghost predicate ObjectClosed(v: Json) {
    match v
    case Obj(fields) =>
      && !("$ref" in fields && fields["$ref"].Str?)
      && forall k | k in fields && !IsExtension(k) ::
           && (k == "schema" ==> Closed(fields[k]))
           && (k in OBJECT_MAPS && fields[k].Obj? ==>
                 forall j | j in fields[k].fields :: ObjectClosed(fields[k].fields[j]))
           && (k == "responses" && fields[k].Obj? ==>
                 forall j | j in fields[k].fields && !IsExtension(j) :: ObjectClosed(fields[k].fields[j]))
           && (k !in OBJECT_MAPS + VERBATIM + {"schema", "responses"} ==> ObjectClosed(fields[k]))
    case Arr(elements) => forall i | 0 <= i < |elements| :: ObjectClosed(elements[i])
    case _ => true
  }

  lemma {:induction false} ResolvedSchema(v: Json)
    requires Resolved(v, Schema)
    ensures Closed(v)
  {
    if v.Obj? {
      forall k | k in v.fields
        ensures k in NAMED && v.fields[k].Obj? ==> forall j | j in v.fields[k].fields :: Closed(v.fields[k].fields[j])
        ensures k in LISTED && v.fields[k].Arr? ==>
                  forall i | 0 <= i < |v.fields[k].elements| :: Closed(v.fields[k].elements[i])
        ensures k in SINGLE ==> Closed(v.fields[k])
      {
        SchemaKinds(k);
        assert Resolved(v.fields[k], ChildKind(Schema, k));
        if k in NAMED && v.fields[k].Obj? {
          forall j | j in v.fields[k].fields ensures Closed(v.fields[k].fields[j]) {
            MapKind(j);
            ResolvedSchema(v.fields[k].fields[j]);
          }
        } else if k in LISTED && v.fields[k].Arr? {
          forall i | 0 <= i < |v.fields[k].elements| ensures Closed(v.fields[k].elements[i]) {
            ResolvedSchema(v.fields[k].elements[i]);
          }
        } else if k in SINGLE {
          ResolvedSchema(v.fields[k]);
        }
      }
    } else if v.Arr? {
      forall i | 0 <= i < |v.elements| ensures Closed(v.elements[i]) {
        ResolvedSchema(v.elements[i]);
      }
    }
  }

  lemma {:induction false} ResolvedObject(v: Json)
    requires Resolved(v, Object)
    ensures ObjectClosed(v)
  {
    hide ChildKind;
    if v.Obj? {
      forall k | k in v.fields && !IsExtension(k)
        ensures k == "schema" ==> Closed(v.fields[k])
        ensures k in OBJECT_MAPS && v.fields[k].Obj? ==>
                  forall j | j in v.fields[k].fields :: ObjectClosed(v.fields[k].fields[j])
        ensures k == "responses" && v.fields[k].Obj? ==>
                  forall j | j in v.fields[k].fields && !IsExtension(j) :: ObjectClosed(v.fields[k].fields[j])
        ensures k !in OBJECT_MAPS + VERBATIM + {"schema", "responses"} ==> ObjectClosed(v.fields[k])
      {
        ObjectKinds(k);
        assert Resolved(v.fields[k], ChildKind(Object, k));
        if k == "schema" {
          ResolvedSchema(v.fields[k]);
        } else if k in OBJECT_MAPS && v.fields[k].Obj? {
          forall j | j in v.fields[k].fields ensures ObjectClosed(v.fields[k].fields[j]) {
            MapKind(j);
            ResolvedObject(v.fields[k].fields[j]);
          }
        } else if k == "responses" && v.fields[k].Obj? {
          forall j | j in v.fields[k].fields && !IsExtension(j) ensures ObjectClosed(v.fields[k].fields[j]) {
            ObjectKinds(j);
            ResolvedObject(v.fields[k].fields[j]);
          }
        } else if k !in OBJECT_MAPS + VERBATIM + {"schema", "responses"} {
          ResolvedObject(v.fields[k]);
        }
      }
    } else if v.Arr? {
      forall i | 0 <= i < |v.elements| ensures ObjectClosed(v.elements[i]) {
        ResolvedObject(v.elements[i]);
      }
    }
  }

  /** In a resolved operation object no reference is left at an object or a schema, provided that
      references and the texts beside them are text. */
  lemma OperationClosed(root: Document, v: Json, seen: set<string>, r: Json)
    requires Unfold(root, v, seen, Object) == Some(r) && TextEverywhere(root, Position(v, Object))
    ensures ObjectClosed(r)
  {
    hide Unfold;
    hide Expand;
    hide Visits;
    hide Resolved;
    hide TextEverywhere;
    hide ObjectClosed;
    var fuel := Visits(root, v, seen, Object);
    UnfoldIsExpansion(root, v, seen, Object, fuel);
    NoReferenceLeft(root, Position(v, Object), fuel);
    ResolvedObject(r);
  }
}

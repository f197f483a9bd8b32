/**
 Complete documents that show where services/vdoc/openapi.go, openAPIResolver.value, differs from a
 reader of the document.

 The first is an OpenAPI 3.0 document in which a parameter refers to itself from its own schema: read
 as a schema it holds no further reference, so its expansion is finite, yet it is refused as a cycle.
 The second is a 3.1 document in which text beside a reference is put into the output unvisited.
 */
module RefWitnesses {
  import opened Wrappers
  import opened JsonTrees
  import opened RefResolver
  import opened RefExpansion
  import JsonPointer
  import JsonNumbers

  /** A document with one operation, these parameters, and one component named x. */
  function Spec(version: string, parameters: seq<Json>, section: string, part: Json): Document {
    map["openapi" := Str(version),
        "info" := Obj(map["title" := Str("API"), "version" := Str("1")]),
        "paths" := Obj(map["/x" := Obj(map["get" := Obj(map[
          "parameters" := Arr(parameters),
          "responses" := Obj(map["200" := Obj(map["description" := Str("OK")])])])])]),
        "components" := Obj(map[section := Obj(map["x" := part])])]
  }

  function Parameter(key: string, content: Json): Json {
    Obj(map["name" := Str("x"), "in" := Str("query"), key := content])
  }

  lemma {:induction false} PlainText(s: string)
    requires '%' !in s
    ensures JsonPointer.PercentEncode(s) == s
  {
    if s != "" {
      PlainText(s[1..]);
      assert s == [s[0]] + s[1..];
    }
  }

  lemma {:induction false} PlainKey(s: string)
    requires '~' !in s && '/' !in s
    ensures JsonPointer.EscapeKey(s) == s
  {
    if s != "" {
      PlainKey(s[1..]);
      assert s == [s[0]] + s[1..];
    }
  }

  function ComponentPointer(section: string): string {
    "/" + "components" + ("/" + section + ("/" + "x" + ""))
  }

  lemma LookupPart(version: string, parameters: seq<Json>, section: string, part: Json)
    requires '~' !in section && '/' !in section && '%' !in section
    ensures JsonPointer.Lookup(Spec(version, parameters, section, part), "#" + ComponentPointer(section)) == Some(part)
  {
    hide JsonPointer.Lookup;
    hide JsonPointer.Navigate;
    hide JsonPointer.PointerText;
    var root := Spec(version, parameters, section, part);
    var tokens := [JsonPointer.Key("components")] + ([JsonPointer.Key(section)] + ([JsonPointer.Key("x")] + []));
    ComponentPath(root, section, part);
    JsonPointer.PointerRoundTrip(root, tokens);
    PointerStep("x", []);
    PointerStep(section, [JsonPointer.Key("x")] + []);
    PointerStep("components", [JsonPointer.Key(section)] + ([JsonPointer.Key("x")] + []));
    PlainText(ComponentPointer(section));
  }

  lemma PointerStep(name: string, rest: seq<JsonPointer.Token>)
    requires '~' !in name && '/' !in name
    ensures JsonPointer.PointerText([JsonPointer.Key(name)] + rest) == "/" + name + JsonPointer.PointerText(rest)
    ensures JsonPointer.PointerText([]) == ""
  {
    PlainKey(name);
    assert ([JsonPointer.Key(name)] + rest)[1..] == rest;
  }

  lemma NavigateStep(fields: map<string, Json>, name: string, rest: seq<JsonPointer.Token>)
    requires name in fields
    ensures JsonPointer.Navigate(Obj(fields), [JsonPointer.Key(name)] + rest) ==
            JsonPointer.Navigate(fields[name], rest)
    ensures JsonPointer.Navigate(Obj(fields), []) == Some(Obj(fields))
  {
    assert ([JsonPointer.Key(name)] + rest)[1..] == rest;
  }

  lemma ComponentPath(root: Document, section: string, part: Json)
    requires "components" in root && root["components"] == Obj(map[section := Obj(map["x" := part])])
    ensures JsonPointer.Navigate(Obj(root), [JsonPointer.Key("components")] +
                                 ([JsonPointer.Key(section)] + ([JsonPointer.Key("x")] + [])))
            == Some(part)
  {
    hide JsonPointer.Navigate;
    NavigateStep(map["x" := part], "x", []);
    NavigateStep(map[section := Obj(map["x" := part])], section, [JsonPointer.Key("x")] + []);
    NavigateStep(root, "components", [JsonPointer.Key(section)] + ([JsonPointer.Key("x")] + []));
    assert JsonPointer.Navigate(part, []) == Some(part) by {
      NavigateEnd(part);
    }
  }

  lemma NavigateEnd(v: Json)
    ensures JsonPointer.Navigate(v, []) == Some(v)
  {
  }

  lemma FollowReference(root: Document, v: Json, kind: Kind, fuel: nat, target: Json)
    requires fuel > 0 && !Is31(root) && !HasNul(v) && RefAt(v, kind).Some?
    requires JsonPointer.Lookup(root, RefAt(v, kind).value) == Some(target)
    requires Expand(root, target, kind, fuel - 1).Some?
    ensures Expand(root, v, kind, fuel) == Expand(root, target, kind, fuel - 1)
  {
    hide JsonPointer.Lookup;
    hide ChildKind;
  }

  // The cycle check looks at the reference alone, not at the kind it is met under

  function ReferenceX(): Json {
    Obj(map["$ref" := Str("#" + ComponentPointer("parameters"))])
  }

  /** x, whose schema refers to x again. */
  function ParameterX(): Json {
    Parameter("schema", ReferenceX())
  }

  function CyclicSpec(): Document {
    Spec("3.0.3", [ReferenceX()], "parameters", ParameterX())
  }

  lemma SchemaKinds()
    ensures ChildKind(Object, "schema") == Schema && ChildKind(Schema, "schema") == Literal
  {
    var key := "schema";
    assert key[0] == 's' && "x-"[0] == 'x';
    assert forall k | k in {"properties", "patternProperties", "$defs", "definitions", "dependentSchemas"} ::
      k[0] != 's';
    assert forall k | k in {"allOf", "anyOf", "oneOf", "prefixItems"} :: k[0] != 's';
    assert forall k | k in {"items", "additionalItems", "additionalProperties", "unevaluatedProperties",
      "unevaluatedItems", "propertyNames", "contains", "not", "if", "then", "else"} :: k[0] != 's';
  }

  lemma TextExpands(root: Document, s: string, kind: Kind, fuel: nat)
    requires fuel > 0 && '\0' !in s
    ensures Expand(root, Str(s), kind, fuel) == Some(Str(s))
  {
    hide JsonPointer.Lookup;
  }

  lemma ObjectExpands(root: Document, v: Json, kind: Kind, fuel: nat, out: map<string, Json>)
    requires fuel > 0 && v.Obj? && !HasNul(v) && RefAt(v, kind).None? && out.Keys == v.fields.Keys
    requires forall k | k in out :: Expand(root, v.fields[k], ChildKind(kind, k), fuel - 1) == Some(out[k])
    ensures Expand(root, v, kind, fuel) == Some(Obj(out))
  {
    hide ChildKind;
    hide JsonPointer.Lookup;
    hide JsonNumbers.Number;
    GatherExact(ExpandFields(root, v, kind, fuel), out);
  }

  lemma NoNul(section: string)
    requires '\0' !in section
    ensures '\0' !in "#" + ComponentPointer(section) && '\0' !in "$ref"
  {
    assert '\0' !in "components" && '\0' !in "/x";
  }

  lemma PlainParameter(content: Json, kind: Kind)
    ensures !HasNul(Parameter("schema", content)) && RefAt(Parameter("schema", content), kind).None?
    ensures Parameter("schema", content).fields == map["name" := Str("x"), "in" := Str("query"), "schema" := content]
  {
    assert '\0' !in "name" && '\0' !in "in" && '\0' !in "schema";
    assert |"name"| == |"$ref"| && "name"[0] != "$ref"[0] && |"in"| < |"$ref"| < |"schema"|;
  }

  /** Only the schema of the parameter is expanded further. */
  lemma ParameterExpands(root: Document, kind: Kind, fuel: nat, r: Json)
    requires fuel > 1 && Expand(root, ReferenceX(), ChildKind(kind, "schema"), fuel - 1) == Some(r)
    ensures Expand(root, ParameterX(), kind, fuel) == Some(Parameter("schema", r))
  {
    hide ChildKind;
    hide Expand;
    hide JsonPointer.Lookup;
    hide ComponentPointer;
    PlainParameter(ReferenceX(), kind);
    PlainParameter(r, kind);
    TextExpands(root, "x", ChildKind(kind, "name"), fuel - 1);
    TextExpands(root, "query", ChildKind(kind, "in"), fuel - 1);
    ObjectExpands(root, ParameterX(), kind, fuel, Parameter("schema", r).fields);
  }

  /** Text that only looks like a reference stays as it is. */
  lemma LiteralX(root: Document)
    ensures Expand(root, ReferenceX(), Literal, 2) == Some(ReferenceX())
  {
    hide Expand;
    hide JsonPointer.Lookup;
    hide ComponentPointer;
    NoNul("parameters");
    TextExpands(root, "#" + ComponentPointer("parameters"), Literal, 1);
    ObjectExpands(root, ReferenceX(), Literal, 2, ReferenceX().fields);
  }

  lemma FiniteX()
    ensures Finite(CyclicSpec(), ReferenceX(), Object)
  {
    hide JsonPointer.Lookup;
    hide Expand;
    hide ChildKind;
    var root, v, x := CyclicSpec(), ReferenceX(), ParameterX();
    hide ComponentPointer;
    FollowX();
    NoNul("parameters");
    assert !Is31(root) by { assert "3.0.3"[2] == '0' && "3.1."[2] == '1'; }
    SchemaKinds();
    LiteralX(root);
    ParameterExpands(root, Schema, 3, v);
    FollowReference(root, v, Schema, 4, x);
    ParameterExpands(root, Object, 5, x);
    FollowReference(root, v, Object, 6, x);
  }

  lemma FollowX()
    ensures JsonPointer.Lookup(CyclicSpec(), "#" + ComponentPointer("parameters")) == Some(ParameterX())
  {
    hide JsonPointer.Lookup;
    hide ComponentPointer;
    LookupPart("3.0.3", [ReferenceX()], "parameters", ParameterX());
  }

  /** A finite document is refused: x is met as a parameter and again as a schema inside itself. */
  lemma FiniteYetRefused()
    ensures Finite(CyclicSpec(), ReferenceX(), Object) && Unfold(CyclicSpec(), ReferenceX(), {}, Object).None?
  {
    hide JsonPointer.Lookup;
    hide Finite;
    hide Unfold;
    var root, v, x := CyclicSpec(), ReferenceX(), ParameterX();
    FiniteX();
    FollowX();
    SchemaKinds();
    hide ChildKind;
    assert RefAt(x, Object).None?;
    var p := Position(v, Object);
    var steps := [Target, Field("schema")];
    assert steps[1..] == [Field("schema")] && steps[1..][1..] == [];
    assert Go(root, p, Target) == Some(Position(x, Object));
    assert Go(root, Position(x, Object), Field("schema")) == Some(Position(v, Schema));
    assert Travel(root, p, steps) == Some(Position(v, Schema));
    assert Repeats(root, p, steps, {});
    if Unfold(root, v, {}, Object).Some? {
      UnfoldNeverRepeats(root, p, steps, {});
    }
  }

  // Text beside a 3.1 reference object is not visited

  function DescribedExample(): Json {
    Obj(map["$ref" := Str("#" + ComponentPointer("examples")), "summary" := Str("short"), "description" := Str("long")])
  }

  function ExampleSpec(): Document {
    Spec("3.1.0", [Parameter("examples", Obj(map["one" := DescribedExample()]))], "examples", Obj(map[]))
  }

  /** Two visits put three values into the output. */
  lemma OutputExceeds()
    ensures Unfold(ExampleSpec(), DescribedExample(), {}, Object).Some?
    ensures Visits(ExampleSpec(), DescribedExample(), {}, Object) == 2
    ensures Size(Unfold(ExampleSpec(), DescribedExample(), {}, Object).value) == 3
  {
    hide JsonPointer.Lookup;
    hide ChildKind;
    hide Unfold;
    hide Weigh;
    hide Described;
    hide Is31;
    hide Shallow;
    var root, v, x := ExampleSpec(), DescribedExample(), Obj(map[]);
    FollowExample();
    ReferenceParts(root, v, {}, Object, x);
    EmptyObject(root, {} + {"#" + ComponentPointer("examples")}, Object);
    DescribedOutput();
  }

  lemma FollowExample()
    ensures JsonPointer.Lookup(ExampleSpec(), "#" + ComponentPointer("examples")) == Some(Obj(map[]))
    ensures !HasNul(DescribedExample())
  {
    hide JsonPointer.Lookup;
    hide ComponentPointer;
    LookupPart("3.1.0", [Parameter("examples", Obj(map["one" := DescribedExample()]))], "examples", Obj(map[]));
    assert '\0' !in "$ref" && '\0' !in "summary" && '\0' !in "description";
  }

  lemma DescribedOutput()
    ensures Size(Described(ExampleSpec(), Obj(map[]), DescribedExample(), Object)) == 3
  {
    hide ComponentPointer;
    hide Spec;
    VersionOfExample();
    assert |"summary"| == 7 && |"description"| == 11 && |"$ref"| == 4;
    var siblings := Siblings(DescribedExample()).fields;
    assert siblings == map["summary" := Str("short"), "description" := Str("long")];
    assert Override(map[], siblings, "summary") == map["summary" := Str("short")];
    TwoFields("summary", "short", "description", "long");
  }

  lemma VersionOfExample()
    ensures Is31(ExampleSpec())
  {
    assert "3.1.0"[..4] == "3.1.";
  }

  lemma TwoFields(a: string, x: string, b: string, y: string)
    requires a != b
    ensures Size(Obj(map[a := Str(x)][b := Str(y)])) == 3
  {
    var first := map[a := Str(x)];
    var both := first[b := Str(y)];
    FieldSize(both, b);
    assert both - {b} == first;
    FieldSize(first, a);
    assert first - {a} == map[];
    assert Sizes(map[], Obj(map[])) == map[];
  }

  lemma EmptyObject(root: Document, seen: set<string>, kind: Kind)
    ensures Unfold(root, Obj(map[]), seen, kind) == Some(Obj(map[])) && Visits(root, Obj(map[]), seen, kind) == 1
    ensures Size(Obj(map[])) == 1
  {
    hide ChildKind;
    var v := Obj(map[]);
    assert !HasNul(v) && RefAt(v, kind).None?;
    UnfoldGathers(root, v, seen, kind);
    GatherExact(UnfoldFields(root, v, seen, kind), map[]);
    WeighObject(root, v, seen, kind);
    assert FieldWeights(root, v, seen, kind, OneNode) == map[];
    assert Sizes(map[], v) == map[];
  }
}

/**
 * The worked example of `src/resolve.rs`: the 200 response of `GET /` is a
 * two-hop response chain, and the JSON media type's schema a two-hop schema
 * chain ending in the schema titled `schema_2`. Plus two small documents: a
 * key containing `/`, and a two-entry reference cycle.
 */
module ResolveExample {
  import opened Wrappers
  import opened OpenApi
  import opened Resolve
  import opened ResolveSpec
  import opened ResolveProperties

  const Schema2: Schema := Schema(Some("schema_2"))

  const Response2: Response :=
    Response(map["application/json" := MediaType(Some(Reference("#/components/schemas/schema_1")))])

  const ExampleComponents: Components :=
    EmptyComponents.(
      responses := map[
        "response_1" := Reference("#/components/responses/response_2"),
        "response_2" := Item(Response2)],
      schemas := map[
        "schema_1" := Reference("#/components/schemas/schema_2"),
        "schema_2" := Item(Schema2)])

  const ExampleDocument: OpenAPI :=
    OpenAPI(
      map["/" := Item(PathItem(Some(Operation(map[Code(200) := Reference("#/components/responses/response_1")]))))],
      Some(ExampleComponents))

  /** The response pointers of the worked example, spelled out. */
  lemma ResponsePointerLiterals()
    ensures PointerTo(ResponseCategory, "response_1") == "#/components/responses/response_1"
    ensures PointerTo(ResponseCategory, "response_2") == "#/components/responses/response_2"
  {
    ComponentsPrefixLiteral();
    assert "#/components/" + "responses" + "/" == "#/components/responses/";
    assert "#/components/responses/" + "response_1" == "#/components/responses/response_1";
    assert "#/components/responses/" + "response_2" == "#/components/responses/response_2";
  }

  /** The schema pointers of the worked example, spelled out. */
  lemma SchemaChainLiterals()
    ensures PointerTo(SchemaCategory, "schema_1") == "#/components/schemas/schema_1"
    ensures PointerTo(SchemaCategory, "schema_2") == "#/components/schemas/schema_2"
  {
    ComponentsPrefixLiteral();
    assert "#/components/" + "schemas" + "/" == "#/components/schemas/";
    assert "#/components/schemas/" + "schema_1" == "#/components/schemas/schema_1";
    assert "#/components/schemas/" + "schema_2" == "#/components/schemas/schema_2";
  }

  lemma ResponseChainShape()
    ensures IsChain(ExampleDocument, ResponseCategory, ["response_1", "response_2"], Response2)
  {
    ResponsePointerLiterals();
  }

  lemma SchemaChainShape()
    ensures IsChain(ExampleDocument, SchemaCategory, ["schema_1", "schema_2"], Schema2)
  {
    SchemaChainLiterals();
  }

  /** The 200 response of `GET /` is reached through `response_1 -> response_2`. */
  lemma ResponseChainExample()
    ensures
      var get := ExampleDocument.paths["/"].item.get.value;
      var response200 := get.responses[Code(200)];
      && ResolveNode(ExampleDocument, ResponseCategory, response200, 0) == None
      && ResolveNode(ExampleDocument, ResponseCategory, response200, 1) == Some(Response2)
  {
    ResponsePointerLiterals();
    ResponseChainShape();
    ChainResolves(ExampleDocument, ResponseCategory, ["response_1", "response_2"], Response2, 0);
    ChainResolves(ExampleDocument, ResponseCategory, ["response_1", "response_2"], Response2, 1);
  }

  /** The JSON media type's schema is reached through `schema_1 -> schema_2`. */
  lemma SchemaChainExample()
    ensures
      var schema := Response2.content["application/json"].schema;
      && ResolveOptional(ExampleDocument, SchemaCategory, schema, 0) == None
      && ResolveOptional(ExampleDocument, SchemaCategory, schema, 1) == Some(Schema2)
  {
    SchemaChainLiterals();
    SchemaChainShape();
    ChainResolves(ExampleDocument, SchemaCategory, ["schema_1", "schema_2"], Schema2, 0);
    ChainResolves(ExampleDocument, SchemaCategory, ["schema_1", "schema_2"], Schema2, 1);
  }

  /**
   * Resolving the 200 response and then its JSON schema yields the schema
   * titled `schema_2`.
   */
  lemma ExampleScenario()
    ensures
      var get := ExampleDocument.paths["/"].item.get.value;
      var response := ResolveNode(ExampleDocument, ResponseCategory, get.responses[Code(200)], 1);
      && response.Some?
      && "application/json" in response.value.content
      && var schema := ResolveOptional(ExampleDocument, SchemaCategory, response.value.content["application/json"].schema, 1);
      && schema.Some?
      && schema.value.title == Some("schema_2")
  {
    ResponseChainExample();
    SchemaChainExample();
  }

  /** The schema pointers the examples below spell out as literals. */
  lemma SchemaPointerLiterals()
    ensures PointerTo(SchemaCategory, "a") == "#/components/schemas/a"
    ensures PointerTo(SchemaCategory, "b") == "#/components/schemas/b"
    ensures PointerTo(SchemaCategory, "a/b") == "#/components/schemas/a/b"
    ensures PointerTo(SchemaCategory, "a/c") == "#/components/schemas/a/c"
  {
    ComponentsPrefixLiteral();
    assert "#/components/" + "schemas" + "/" == "#/components/schemas/";
    assert "#/components/schemas/" + "a" == "#/components/schemas/a";
    assert "#/components/schemas/" + "b" == "#/components/schemas/b";
    assert "#/components/schemas/" + "a/b" == "#/components/schemas/a/b";
    assert "#/components/schemas/" + "a/c" == "#/components/schemas/a/c";
  }

  /** A document whose schemas hold both a key `a` and a key `a/b`. */
  function SlashKeyDocument(short: Schema, long: Schema): OpenAPI
  {
    OpenAPI(map[], Some(EmptyComponents.(schemas := map["a" := Item(short), "a/b" := Item(long)])))
  }

  /** `#/components/schemas/a/b` finds the key `a/b`; it does not descend into `a`. */
  lemma SlashKeyExample(short: Schema, long: Schema, fuel: nat)
    ensures ResolvePath(SlashKeyDocument(short, long), SchemaCategory, "#/components/schemas/a/b", fuel) == Some(long)
    ensures ResolvePath(SlashKeyDocument(short, long), SchemaCategory, "#/components/schemas/a/c", fuel) == None
  {
    SchemaPointerLiterals();
    VerbatimKey(SlashKeyDocument(short, long), SchemaCategory, "a/b", fuel);
    VerbatimKey(SlashKeyDocument(short, long), SchemaCategory, "a/c", fuel);
  }

  /** Schemas `a -> b -> a`, which the unguarded source would follow forever. */
  const CycleDocument: OpenAPI :=
    OpenAPI(map[], Some(EmptyComponents.(schemas := map[
      "a" := Reference("#/components/schemas/b"),
      "b" := Reference("#/components/schemas/a")])))

  lemma CycleExample()
    ensures forall fuel: nat :: ResolvePath(CycleDocument, SchemaCategory, "#/components/schemas/a", fuel) == None
  {
    SchemaPointerLiterals();
    TwoCycleNeverResolves(CycleDocument, SchemaCategory, "a", "b");
  }
}

/**
 * The slice of the OpenAPI 3.0 document model the resolver reads: the
 * Reference Object / inline alternative, the Components Object with its nine
 * category maps, and the document root. Entity payloads keep only the fields
 * the worked example of `src/resolve.rs` walks through.
 */
module OpenApi {
  import opened Wrappers

  /** An inline object, or a `$ref` pointer string to one elsewhere in the document. */
  datatype ReferenceOr<T> = Item(item: T) | Reference(reference: string)

  datatype Schema = Schema(title: Option<string>)
  datatype MediaType = MediaType(schema: Option<ReferenceOr<Schema>>)
  datatype Response = Response(content: map<string, MediaType>)
  datatype RequestBody = RequestBody(content: map<string, MediaType>)
  datatype Parameter = Parameter(name: string)
  datatype Header = Header(description: Option<string>)
  datatype Example = Example(summary: Option<string>)
  datatype Link = Link(operationId: Option<string>)
  datatype SecurityScheme = SecurityScheme(description: Option<string>)

  datatype StatusCode = Code(code: nat) | Range(range: nat)
  datatype Operation = Operation(responses: map<StatusCode, ReferenceOr<Response>>)
  datatype PathItem = PathItem(get: Option<Operation>)
  /** A callback maps runtime expressions to path items. */
  datatype Callback = Callback(paths: map<string, PathItem>)

  /** The Components Object: one name-keyed map per category. */
  datatype Components = Components(
    callbacks: map<string, ReferenceOr<Callback>>,
    examples: map<string, ReferenceOr<Example>>,
    headers: map<string, ReferenceOr<Header>>,
    links: map<string, ReferenceOr<Link>>,
    parameters: map<string, ReferenceOr<Parameter>>,
    request_bodies: map<string, ReferenceOr<RequestBody>>,
    responses: map<string, ReferenceOr<Response>>,
    schemas: map<string, ReferenceOr<Schema>>,
    security_schemes: map<string, ReferenceOr<SecurityScheme>>)

  /** The document root; `components` is optional. */
  datatype OpenAPI = OpenAPI(
    paths: map<string, ReferenceOr<PathItem>>,
    components: Option<Components>)

  const EmptyComponents: Components :=
    Components(map[], map[], map[], map[], map[], map[], map[], map[], map[])
}

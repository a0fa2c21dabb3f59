/**
 * The `$ref` resolver: given a pointer `#/components/<category>/<name>` it
 * returns the inline object the pointer denotes, following a map entry that is
 * itself a reference by starting again from the document root.
 *
 * The source expands three macros once per entity type; here one generic
 * resolver is parameterised by a `Category<T>` descriptor: the literal segment
 * the category is addressed by and the map of `Components` it reads.
 *
 * The source has no guard against reference cycles. `fuel` is a hop budget:
 * each map entry that is a reference costs one unit, and an exhausted budget
 * fails like every other step.
 */
module Resolve {
  import opened Wrappers
  import opened Strings
  import opened OpenApi

  /** A category segment: non-empty and free of the `/` separator. */
  predicate IsSegment(s: string)
  {
    |s| > 0 && '/' !in s
  }

  /** Which category an entity type `T` is resolved in: the literal its segment must equal, and its map. */
  datatype CategoryDescriptor<T> = CategoryDescriptor(segment: string, select: Components -> map<string, ReferenceOr<T>>)

  type Category<T> = d: CategoryDescriptor<T> | IsSegment(d.segment)
    witness CategoryDescriptor("schemas", (c: Components) => map[])

  /** A descriptor for the category addressed by `segment`. */
  function MakeCategory<T>(segment: string, select: Components -> map<string, ReferenceOr<T>>): (cat: Category<T>)
    requires IsSegment(segment)
  {
    CategoryDescriptor(segment, select)
  }

  /*
   * The nine descriptors. Each literal is the Rust field name as `stringify!`
   * spells it, snake_case included.
   */
  const CallbackCategory: Category<Callback> := MakeCategory("callbacks", (c: Components) => c.callbacks)
  const ExampleCategory: Category<Example> := MakeCategory("examples", (c: Components) => c.examples)
  const HeaderCategory: Category<Header> := MakeCategory("headers", (c: Components) => c.headers)
  const LinkCategory: Category<Link> := MakeCategory("links", (c: Components) => c.links)
  const ParameterCategory: Category<Parameter> := MakeCategory("parameters", (c: Components) => c.parameters)
  const RequestBodyCategory: Category<RequestBody> :=
    MakeCategory("request_bodies", (c: Components) => c.request_bodies)
  const ResponseCategory: Category<Response> := MakeCategory("responses", (c: Components) => c.responses)
  const SchemaCategory: Category<Schema> := MakeCategory("schemas", (c: Components) => c.schemas)
  const SecuritySchemeCategory: Category<SecurityScheme> :=
    MakeCategory("security_schemes", (c: Components) => c.security_schemes)

  /** The segments of the nine descriptors, in the order the source wires them. */
  const Segments: seq<string> := [
    CallbackCategory.segment, ExampleCategory.segment, HeaderCategory.segment,
    LinkCategory.segment, ParameterCategory.segment, RequestBodyCategory.segment,
    ResponseCategory.segment, SchemaCategory.segment, SecuritySchemeCategory.segment]

  /** The fragment prefix every pointer starts with. */
  const FragmentPrefix: string := "#/"
  /** The only top-level section pointers may address. */
  const RootSegment: string := "components"

  /** Document level: strip `#/`, split off the root segment, require `components`. */
  function ResolvePath<T>(doc: OpenAPI, cat: Category<T>, path: string, fuel: nat): Option<T>
    decreases fuel, 2
  {
    match StripPrefix(path, FragmentPrefix)
    case None => None
    case Some(rest) =>
      match SplitOnce(rest, '/')
      case None => None
      case Some((root, sub)) =>
        if root == RootSegment then
          match doc.components
          case None => None
          case Some(components) => ResolveInComponents(doc, components, cat, sub, fuel)
        else None
  }

  /** Components level: split off the category segment, require this category's literal. */
  function ResolveInComponents<T>(doc: OpenAPI, components: Components, cat: Category<T>, path: string, fuel: nat)
    : Option<T>
    decreases fuel, 1
  {
    match SplitOnce(path, '/')
    case None => None
    case Some((segment, name)) =>
      if segment == cat.segment then ResolveInMap(doc, cat.select(components), cat, name, fuel)
      else None
  }

  /** Map level: look the whole remaining tail up verbatim; follow a stored reference from the root. */
  function ResolveInMap<T>(doc: OpenAPI, m: map<string, ReferenceOr<T>>, cat: Category<T>, name: string, fuel: nat)
    : Option<T>
    decreases fuel, 0
  {
    if name !in m then None
    else
      match m[name]
      case Item(item) => Some(item)
      case Reference(reference) =>
        if fuel == 0 then None else ResolvePath(doc, cat, reference, fuel - 1)
  }

  /** `ReferenceOr<T>::resolve`: an inline node is its own answer; a reference goes to the root. */
  function ResolveNode<T>(doc: OpenAPI, cat: Category<T>, node: ReferenceOr<T>, fuel: nat): Option<T>
  {
    match node
    case Reference(reference) => ResolvePath(doc, cat, reference, fuel)
    case Item(item) => Some(item)
  }

  /** `Option<ReferenceOr<T>>::resolve`: an absent node resolves to nothing. */
  function ResolveOptional<T>(doc: OpenAPI, cat: Category<T>, node: Option<ReferenceOr<T>>, fuel: nat): Option<T>
  {
    match node
    case None => None
    case Some(n) => ResolveNode(doc, cat, n, fuel)
  }
}

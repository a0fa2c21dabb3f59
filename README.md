# openapiv3 `$ref` resolver in Dafny

This project models the `$ref` resolver of the `openapiv3` Rust crate (`src/resolve.rs`) and proves what it does. A pointer has the form `#/components/<category>/<name>`, the Reference Object pointing into the Components Object (sections 4.7.23 and 4.7.7 of the OpenAPI Specification 3.0.3). The resolver returns the inline object the pointer denotes. When the map entry it finds is itself a reference, it starts again from the document root.

The source builds the resolver from three macros, expanded once for each of the nine entity types:
- `resolve_root_optional` strips `#/`, splits off the root segment and requires `components`, which must be present.
- `resolve_with_openapi` splits off the category segment and requires the literal bound to the entity type.
- `resolve_with_openapi_index_map` looks up the remaining tail verbatim. It returns an inline item or resolves a stored reference from the root.

Every failure is `None`.

Files:
- `wrappers.dfy`: `Option`.
- `strings.dfy`: `str::strip_prefix` and `str::split_once`, with their contracts.
- `openapi.dfy`: `ReferenceOr<T>`, the Components Object with its nine maps, the document root, and minimal entity records.
- `resolve.dfy`: the resolver.
  - One generic function per macro layer (`ResolvePath`, `ResolveInComponents`, `ResolveInMap`), parameterised by a `Category<T>` descriptor. The descriptor holds the literal segment and the map it reads.
  - Nine descriptors, one per entity type.
  - `ResolveNode` and `ResolveOptional` for `ReferenceOr<T>` and `Option<ReferenceOr<T>>`.
- `resolve_spec.dfy`: an independent reference definition.
  - `Lookup` tests one prefix `#/components/<segment>/` and then makes one map lookup.
  - `Follow` repeats `Lookup` hop by hop.
  - Predicates for stored items, reference chains and reference-closed sets.
- `resolve_properties.dfy`: the properties.
  - The resolver equals the reference definition.
  - Failure cases, type-directed dispatch, verbatim keys, monotonicity in the hop budget, uniqueness, provenance, chains and cycles.
- `resolve_example.dfy`: the crate's own test document.
  - Its two-hop response chain and two-hop schema chain end in the schema titled `schema_2`.
  - A key containing `/`.
  - A two-entry cycle.

The source has no cycle guard: `openapi.resolve(reference)` at `src/resolve.rs:81` recurses without bound. The model adds a hop budget `fuel`. Each stored reference followed costs one unit, and an exhausted budget fails like any other step. A result the source returns is therefore a result `ResolvePath` returns for some budget (`ResolveSpec.ResolvesTo`). Running out of budget and a real failure both give `None`. So where the source recurses forever, as in a cycle, every budget fails (`ClosedNeverResolves`). The converse does not hold: a pointer that fails at every budget may also be one the source rejects outright, such as a missing key.

The category literals are what `stringify!` makes of the Rust field names: `request_bodies` and `security_schemes` in snake_case. Section 4.7.7 of the OpenAPI Specification 3.0.3 names the Components keys `requestBodies` and `securitySchemes`, so a pointer written that way never resolves a request body or a security scheme. The model follows the code (`SnakeCaseSegments`, `CamelCaseRequestBodiesRejected`).

## Model

| member | source | states |
|---|---|---|
| Strings.StripPrefix | src/resolve.rs:62 | There is a result exactly when `prefix` is a prefix of `s`, and then `s` is `prefix` followed by the result. |
| Strings.SplitOnce | src/resolve.rs:47 | It fails exactly when the separator does not occur. Otherwise the input is head, separator, tail, and the head has no separator, so the split is at the first occurrence. |
| Strings.SplitOnceJoin | src/resolve.rs:63 | Splitting undoes joining with a separator the head does not contain. |
| ResolveProperties.InlineIdentity | src/resolve.rs:21-26 | An inline node resolves to exactly its own item, whatever the document and budget. |
| ResolveProperties.OptionalNode | src/resolve.rs:33-35 | An absent optional node resolves to `None`. A present one resolves like the inner node. |
| ResolveProperties.MalformedPointer | src/resolve.rs:62-63 | A pointer not starting with `#/` fails. So does one whose remainder contains no `/`. |
| ResolveProperties.WrongRootSegment | src/resolve.rs:63-70 | A first segment other than exactly `components` fails, whatever follows it. |
| ResolveProperties.NoComponentsNeverResolves | src/resolve.rs:67 | Without a Components Object every pointer fails. |
| ResolveProperties.ForeignCategorySegment | src/resolve.rs:47-52 | A category segment other than the one bound to the target type fails, even one valid for another type. |
| ResolveProperties.SegmentsDistinct | src/resolve.rs:101-109 | There are nine category literals, pairwise distinct. |
| ResolveProperties.SnakeCaseSegments | src/resolve.rs:106-109 | The request-body and security-scheme literals are `request_bodies` and `security_schemes`. Neither camelCase key is a category literal. |
| ResolveProperties.CamelCaseRequestBodiesRejected | src/resolve.rs:106 | `#/components/requestBodies/<name>` never resolves a request body, whatever the document holds. |
| ResolveProperties.OnlyOwnCategory | src/resolve.rs:90-109 | Dispatch is type-directed. A pointer that resolves for two categories names the same segment in both. |
| ResolveProperties.ResolvedHasCategoryPrefix | src/resolve.rs:47-70 | A result exists only if components are present and the pointer starts with `#/components/<segment>/`. |
| ResolveProperties.ResolvePrefixed | src/resolve.rs:47-67 | A pointer `#/components/<segment>/<name>` reaches the map layer with `<name>` as the key. |
| ResolveProperties.ResolvePathShape | src/resolve.rs:41-87 | The three parsing layers amount to one prefix test. A pointer with the category prefix is looked up with its whole tail as the key; every other pointer fails. |
| ResolveProperties.ResolveStep | src/resolve.rs:61-83 | One hop of the resolver agrees with the reference `Lookup`. No entry fails, an inline entry is the result, and a reference entry continues from its target. |
| ResolveProperties.ResolveIsFollow | src/resolve.rs:61-83 | The resolver equals the hop-by-hop reference definition `Follow` for every pointer and budget. |
| ResolveProperties.VerbatimKey | src/resolve.rs:80-82 | The key is the whole tail after the segment, taken verbatim, even when it contains `/`. A stored inline item is found under its own pointer; a missing key fails. |
| ResolveProperties.ZeroFuelDirectOnly | src/resolve.rs:80-83 | With no hops to spend, a pointer resolves to `x` exactly when it designates a stored inline `x`. |
| ResolveProperties.Monotonic | src/resolve.rs:81 | A result found with some budget is found, unchanged, with every larger budget. |
| ResolveProperties.ResolvesToUnique | src/resolve.rs:80-83 | A pointer denotes at most one object, whatever budget finds it. |
| ResolveProperties.ResolvedIsStored | src/resolve.rs:80-83 | Every result is an inline item stored in the matching category map. Nothing is fabricated or altered. |
| ResolveProperties.ResolvedNodeProvenance | src/resolve.rs:22-25 | Resolving a node yields either the caller's own inline item or an item stored in the document. |
| ResolveProperties.ChainResolves | src/resolve.rs:80-83 | A chain of stored references ending in an inline item yields that item once the budget covers the chain's hops, and nothing before. |
| ResolveProperties.ClosedNeverResolves | src/resolve.rs:81 | Pointers that only lead to further stored references never resolve, for any budget. |
| ResolveProperties.TwoCycleNeverResolves | src/resolve.rs:81 | For a cycle `a -> b -> a`, no budget yields a result from either end, and neither pointer denotes anything. |
| ResolveExample.ResponseChainShape | src/resolve.rs:150-173 | The test's responses form the chain `response_1 -> response_2 -> Response2`. |
| ResolveExample.SchemaChainShape | src/resolve.rs:174-193 | The test's schemas form the chain `schema_1 -> schema_2 -> Schema2`. |
| ResolveExample.ResponseChainExample | src/resolve.rs:207-216 | The 200 response of `GET /` needs one stored hop. It fails with none and yields `response_2` with one. |
| ResolveExample.SchemaChainExample | src/resolve.rs:221-224 | The JSON media type's schema needs one stored hop. It fails with none and yields `schema_2` with one. |
| ResolveExample.ExampleScenario | src/resolve.rs:127-226 | Resolving the 200 response and then its JSON schema gives title `schema_2`. |
| ResolveExample.SlashKeyExample | src/resolve.rs:80 | `#/components/schemas/a/b` finds the key `a/b` next to a key `a`, and `#/components/schemas/a/c` fails. |
| ResolveExample.CycleExample | src/resolve.rs:81 | In a document with schemas `a -> b -> a`, `#/components/schemas/a` never resolves. |

## Left out

- ResolvePath: the source's recursion through `openapi.resolve` at `src/resolve.rs:81` is unbounded. On a reference cycle it does not terminate (it overflows the stack). The model has a hop budget instead, so nontermination shows up as "`None` for every budget" (`ClosedNeverResolves`, `TwoCycleNeverResolves`), not as a crash.
- Rust lifetimes and borrowed return handles (`Option<&'a T>`): the model returns values. "The result is an item stored in the document" (`ResolvedIsStored`, `ResolvedNodeProvenance`) stands in for "it borrows from the document".
- Macro mechanics (`macro_rules!`, `stringify!`): the nine expansions of each macro are one generic function over nine `Category<T>` descriptors. The traits `Resolve`, `ResolveWithOpenAPIAndPath` and `ResolveWithOpenAPI` are plain functions.
- `IndexMap` insertion order: lookup does not depend on it, so category maps are Dafny `map`s.
- The full OpenAPI data model: entity records keep only the fields the test walks (`Response.content`, `MediaType.schema`, `Schema.title`, `Operation.responses`, `PathItem.get`). The other entity types keep one representative field. Extensions, `Paths` wrappers and `Responses.default` are not part of this model.
- Serde deserialisation and I/O: not used by the resolver.
- JSON Pointer `~0`/`~1` unescaping (section 4 of RFC 6901): the source does not perform it either. Keys are compared verbatim in both.
- The test's navigation through `expect`/`as_item`/`unwrap` (`src/resolve.rs:199-226`) is written as direct field access on the known document. Its panics on a missing value are not modelled.

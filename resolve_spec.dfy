/**
 * A reference definition of what a pointer denotes, written independently of
 * the strip/split/split/get pipeline in `Resolve`: a pointer into category
 * `k` is the fixed prefix `#/components/<segment>/` followed by a key of that
 * category's map, and resolution is one such lookup per hop.
 */
module ResolveSpec {
  import opened Wrappers
  import opened OpenApi
  import opened Resolve

  /** Every pointer into category `cat` starts with `#/components/<segment>/`. */
  function CategoryPrefix<T>(cat: Category<T>): string
  {
    FragmentPrefix + RootSegment + "/" + cat.segment + "/"
  }

  /** The prefix shared by every category, spelled out. */
  lemma ComponentsPrefixLiteral()
    ensures FragmentPrefix + RootSegment + "/" == "#/components/"
  {
  }

  /** The pointer string that designates the key `name` of category `cat`. */
  function PointerTo<T>(cat: Category<T>, name: string): (p: string)
    ensures CategoryPrefix(cat) <= p && p[|CategoryPrefix(cat)|..] == name
  {
    CategoryPrefix(cat) + name
  }

  /** The category map `cat` reads in `doc`; an absent Components Object has no entries. */
  function Entries<T>(doc: OpenAPI, cat: Category<T>): map<string, ReferenceOr<T>>
  {
    match doc.components
    case None => map[]
    case Some(components) => cat.select(components)
  }

  /** One hop: the entry a pointer designates, if it has this category's prefix and a stored key. */
  function Lookup<T>(doc: OpenAPI, cat: Category<T>, path: string): Option<ReferenceOr<T>>
  {
    var prefix := CategoryPrefix(cat);
    if prefix <= path && path[|prefix|..] in Entries(doc, cat) then
      Some(Entries(doc, cat)[path[|prefix|..]])
    else None
  }

  /** Hop from entry to entry until an inline item, spending one unit of fuel per stored reference. */
  function Follow<T>(doc: OpenAPI, cat: Category<T>, path: string, fuel: nat): Option<T>
    decreases fuel
  {
    match Lookup(doc, cat, path)
    case None => None
    case Some(Item(item)) => Some(item)
    case Some(Reference(reference)) =>
      if fuel == 0 then None else Follow(doc, cat, reference, fuel - 1)
  }

  /** `x` is an inline item stored under some key of the category map `cat` reads. */
  ghost predicate StoredItem<T>(doc: OpenAPI, cat: Category<T>, x: T)
  {
    exists name :: name in Entries(doc, cat) && Entries(doc, cat)[name] == Item(x)
  }

  /** `path` designates `x` with some hop budget: what the unguarded source returns when it returns. */
  ghost predicate ResolvesTo<T>(doc: OpenAPI, cat: Category<T>, path: string, x: T)
  {
    exists fuel: nat :: ResolvePath(doc, cat, path, fuel) == Some(x)
  }

  /** A set of pointers each of which designates a stored reference to another pointer of the set. */
  ghost predicate ReferenceClosed<T>(doc: OpenAPI, cat: Category<T>, paths: set<string>)
  {
    forall p :: p in paths ==>
      var entry := Lookup(doc, cat, p);
      entry.Some? && entry.value.Reference? && entry.value.reference in paths
  }

  /**
   * `names[0] -> names[1] -> ... -> x`: every key but the last holds a
   * reference to the pointer of the next key, and the last holds `x` inline.
   */
  ghost predicate IsChain<T>(doc: OpenAPI, cat: Category<T>, names: seq<string>, x: T)
  {
    var m := Entries(doc, cat);
    && |names| > 0
    && (forall i :: 0 <= i < |names| - 1 ==>
          names[i] in m && m[names[i]] == Reference(PointerTo(cat, names[i + 1])))
    && names[|names| - 1] in m
    && m[names[|names| - 1]] == Item(x)
  }

  /** The resolver and the reference definition give the same answer for `path` with budget `fuel`. */
  ghost predicate Agree<T>(doc: OpenAPI, cat: Category<T>, path: string, fuel: nat)
  {
    ResolvePath(doc, cat, path, fuel) == Follow(doc, cat, path, fuel)
  }
}

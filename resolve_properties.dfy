/** What the resolver of `Resolve` promises, proved against `ResolveSpec`. */
module ResolveProperties {
  import opened Wrappers
  import opened Strings
  import opened OpenApi
  import opened Resolve
  import opened ResolveSpec

  /** Reassembles a pointer from the pieces the three parsing layers split it into. */
  lemma JoinPointer(path: string, rest: string, sub: string, segment: string, name: string)
    requires path == FragmentPrefix + rest
    requires rest == RootSegment + "/" + sub
    requires sub == segment + "/" + name
    ensures path == FragmentPrefix + RootSegment + "/" + segment + "/" + name
  {
  }

  /** A result other than `None` is only ever produced for a pointer with this category's prefix. */
  lemma ResolvedHasCategoryPrefix<T>(doc: OpenAPI, cat: Category<T>, path: string, fuel: nat)
    ensures ResolvePath(doc, cat, path, fuel).Some? ==>
      doc.components.Some? && CategoryPrefix(cat) <= path
  {
    match StripPrefix(path, FragmentPrefix)
    case None =>
    case Some(rest) =>
      match SplitOnce(rest, '/')
      case None =>
      case Some((root, sub)) =>
        if root == RootSegment && doc.components.Some? {
          assert ResolvePath(doc, cat, path, fuel) == ResolveInComponents(doc, doc.components.value, cat, sub, fuel);
          match SplitOnce(sub, '/')
          case None =>
          case Some((segment, name)) =>
            if segment == cat.segment {
              JoinPointer(path, rest, sub, segment, name);
              assert path == CategoryPrefix(cat) + name;
            }
        }
  }

  /** The pieces the three parsing layers cut a well-formed pointer into. */
  lemma PointerSplits(segment: string, name: string)
    requires '/' !in segment
    ensures StripPrefix(FragmentPrefix + RootSegment + "/" + segment + "/" + name, FragmentPrefix)
      == Some(RootSegment + "/" + (segment + "/" + name))
    ensures SplitOnce(RootSegment + "/" + (segment + "/" + name), '/') == Some((RootSegment, segment + "/" + name))
    ensures SplitOnce(segment + "/" + name, '/') == Some((segment, name))
  {
    var sub := segment + "/" + name;
    var rest := RootSegment + "/" + sub;
    assert FragmentPrefix + RootSegment + "/" + segment + "/" + name == FragmentPrefix + rest;
    assert '/' !in RootSegment;
    SplitOnceJoin(RootSegment, '/', sub);
    SplitOnceJoin(segment, '/', name);
  }

  /** A pointer with this category's prefix is looked up with its whole remaining tail as the key. */
  lemma ResolvePrefixed<T>(doc: OpenAPI, cat: Category<T>, name: string, fuel: nat)
    requires doc.components.Some?
    ensures ResolvePath(doc, cat, CategoryPrefix(cat) + name, fuel) ==
      ResolveInMap(doc, Entries(doc, cat), cat, name, fuel)
  {
    var segment := cat.segment;
    assert CategoryPrefix(cat) + name == FragmentPrefix + RootSegment + "/" + segment + "/" + name;
    PointerSplits(segment, name);
    assert ResolveInComponents(doc, doc.components.value, cat, segment + "/" + name, fuel)
      == ResolveInMap(doc, Entries(doc, cat), cat, name, fuel);
  }

  /**
   * The three parsing layers amount to one prefix test: a pointer with this
   * category's prefix is looked up with its whole remaining tail as the key,
   * and every other pointer fails.
   */
  lemma ResolvePathShape<T>(doc: OpenAPI, cat: Category<T>, path: string, fuel: nat)
    ensures ResolvePath(doc, cat, path, fuel) ==
      if doc.components.Some? && CategoryPrefix(cat) <= path
      then ResolveInMap(doc, Entries(doc, cat), cat, path[|CategoryPrefix(cat)|..], fuel)
      else None
  {
    var prefix := CategoryPrefix(cat);
    if doc.components.Some? && prefix <= path {
      var name := path[|prefix|..];
      assert path == prefix + name;
      ResolvePrefixed(doc, cat, name, fuel);
    } else {
      ResolvedHasCategoryPrefix(doc, cat, path, fuel);
    }
  }

  /** The outcome of the map layer, given the entry the key selects. */
  lemma MapHop<T>(doc: OpenAPI, cat: Category<T>, m: map<string, ReferenceOr<T>>, name: string, fuel: nat)
    requires name in m
    ensures m[name].Item? ==> ResolveInMap(doc, m, cat, name, fuel) == Some(m[name].item)
    ensures m[name].Reference? ==>
      ResolveInMap(doc, m, cat, name, fuel) ==
        if fuel == 0 then None else ResolvePath(doc, cat, m[name].reference, fuel - 1)
  {
  }

  /** One hop of the resolver, in terms of the one-hop reference lookup. */
  lemma ResolveStep<T>(doc: OpenAPI, cat: Category<T>, path: string, fuel: nat)
    ensures Lookup(doc, cat, path).None? ==> ResolvePath(doc, cat, path, fuel) == None
    ensures Lookup(doc, cat, path).Some? && Lookup(doc, cat, path).value.Item? ==>
      ResolvePath(doc, cat, path, fuel) == Some(Lookup(doc, cat, path).value.item)
    ensures Lookup(doc, cat, path).Some? && Lookup(doc, cat, path).value.Reference? ==>
      ResolvePath(doc, cat, path, fuel) ==
        if fuel == 0 then None else ResolvePath(doc, cat, Lookup(doc, cat, path).value.reference, fuel - 1)
  {
    ResolvePathShape(doc, cat, path, fuel);
    var prefix := CategoryPrefix(cat);
    var m := Entries(doc, cat);
    if doc.components.Some? && prefix <= path && path[|prefix|..] in m {
      var name := path[|prefix|..];
      assert Lookup(doc, cat, path) == Some(m[name]);
      MapHop(doc, cat, m, name, fuel);
    } else {
      assert Lookup(doc, cat, path) == None;
    }
  }

  /** Where no stored reference is followed, the resolver and the reference definition agree outright. */
  lemma AgreeWithoutHop<T>(doc: OpenAPI, cat: Category<T>, path: string, fuel: nat)
    requires !(Lookup(doc, cat, path).Some? && Lookup(doc, cat, path).value.Reference? && fuel > 0)
    ensures Agree(doc, cat, path, fuel)
  {
    ResolveStep(doc, cat, path, fuel);
  }

  /** Where a stored reference is followed, they agree if they agree on its target with one hop less. */
  lemma AgreeAfterHop<T>(doc: OpenAPI, cat: Category<T>, path: string, fuel: nat)
    requires Lookup(doc, cat, path).Some? && Lookup(doc, cat, path).value.Reference? && fuel > 0
    requires Agree(doc, cat, Lookup(doc, cat, path).value.reference, fuel - 1)
    ensures Agree(doc, cat, path, fuel)
  {
    ResolveStep(doc, cat, path, fuel);
  }

  /**
   * Induction on a hop budget: `P` holds wherever `next` names no further
   * hop, and holds at a point whose next hop it holds at with one unit of
   * budget less; then it holds everywhere.
   */
  lemma {:induction false} HopInduction<S>(P: (S, nat) -> bool, next: (S, nat) -> Option<S>, x: S, fuel: nat)
    requires forall y: S, f: nat :: next(y, f).None? ==> P(y, f)
    requires forall y: S, f: nat :: next(y, f).Some? ==> f > 0 && (P(next(y, f).value, f - 1) ==> P(y, f))
    ensures P(x, fuel)
    decreases fuel
  {
    if next(x, fuel).Some? {
      HopInduction(P, next, next(x, fuel).value, fuel - 1);
    }
  }

  /** The resolver computes exactly the hop-by-hop reference definition, for every budget. */
  lemma ResolveIsFollow<T>(doc: OpenAPI, cat: Category<T>, path: string, fuel: nat)
    ensures ResolvePath(doc, cat, path, fuel) == Follow(doc, cat, path, fuel)
  {
    var next := (p: string, f: nat) =>
      var entry := Lookup(doc, cat, p);
      if entry.Some? && entry.value.Reference? && f > 0 then Some(entry.value.reference) else None;
    var agree := (p: string, f: nat) => Agree(doc, cat, p, f);
    forall p: string, f: nat | next(p, f).None?
      ensures agree(p, f)
    {
      AgreeWithoutHop(doc, cat, p, f);
    }
    forall p: string, f: nat | next(p, f).Some?
      ensures f > 0 && (agree(next(p, f).value, f - 1) ==> agree(p, f))
    {
      if agree(next(p, f).value, f - 1) {
        AgreeAfterHop(doc, cat, p, f);
      }
    }
    HopInduction(agree, next, path, fuel);
  }

  /** A pointer built by `PointerTo` designates exactly the entry stored under its key. */
  lemma LookupPointerTo<T>(doc: OpenAPI, cat: Category<T>, name: string)
    ensures Lookup(doc, cat, PointerTo(cat, name)) ==
      if name in Entries(doc, cat) then Some(Entries(doc, cat)[name]) else None
  {
  }

  /** An inline node resolves to its own item, whatever the document and the budget. */
  lemma InlineIdentity<T>(doc: OpenAPI, cat: Category<T>, x: T, fuel: nat)
    ensures ResolveNode(doc, cat, Item(x), fuel) == Some(x)
  {
  }

  /** An absent optional node resolves to nothing; a present one as the node itself. */
  lemma OptionalNode<T>(doc: OpenAPI, cat: Category<T>, node: Option<ReferenceOr<T>>, fuel: nat)
    ensures node.None? ==> ResolveOptional(doc, cat, node, fuel) == None
    ensures node.Some? ==> ResolveOptional(doc, cat, node, fuel) == ResolveNode(doc, cat, node.value, fuel)
  {
  }

  /**
   * Malformed pointers fail: one not starting with `#/`, one whose remainder
   * has no `/`, one whose first segment is not exactly `components`.
   */
  lemma MalformedPointer<T>(doc: OpenAPI, cat: Category<T>, path: string, fuel: nat)
    ensures !(FragmentPrefix <= path) ==> ResolvePath(doc, cat, path, fuel) == None
    ensures FragmentPrefix <= path && '/' !in path[|FragmentPrefix|..] ==>
      ResolvePath(doc, cat, path, fuel) == None
  {
  }

  /** A first segment other than `components` fails, whatever follows it. */
  lemma WrongRootSegment<T>(doc: OpenAPI, cat: Category<T>, root: string, sub: string, fuel: nat)
    requires '/' !in root && root != RootSegment
    ensures ResolvePath(doc, cat, FragmentPrefix + root + "/" + sub, fuel) == None
  {
    var path := FragmentPrefix + root + "/" + sub;
    assert path == FragmentPrefix + (root + "/" + sub);
    assert StripPrefix(path, FragmentPrefix) == Some(root + "/" + sub);
    SplitOnceJoin(root, '/', sub);
  }

  /** Without a Components Object no pointer resolves. */
  lemma NoComponentsNeverResolves<T>(doc: OpenAPI, cat: Category<T>, path: string, fuel: nat)
    requires doc.components.None?
    ensures ResolvePath(doc, cat, path, fuel) == None
  {
    ResolvedHasCategoryPrefix(doc, cat, path, fuel);
  }

  /**
   * A category segment other than the literal bound to `cat` fails, even one
   * that another category accepts: there is no cross-category fallback.
   */
  lemma ForeignCategorySegment<T>(doc: OpenAPI, cat: Category<T>, segment: string, name: string, fuel: nat)
    requires '/' !in segment && segment != cat.segment
    ensures ResolvePath(doc, cat, FragmentPrefix + RootSegment + "/" + segment + "/" + name, fuel) == None
  {
    PointerSplits(segment, name);
  }

  /** The nine literals are pairwise distinct, so each entity type is reached through one segment only. */
  lemma SegmentsDistinct()
    ensures |Segments| == 9
    ensures forall i, j :: 0 <= i < j < |Segments| ==> Segments[i] != Segments[j]
  {
  }

  /**
   * The literals are the snake_case Rust field names: the camelCase keys of
   * the Components Object are no category segment at all.
   */
  lemma SnakeCaseSegments()
    ensures RequestBodyCategory.segment == "request_bodies"
    ensures SecuritySchemeCategory.segment == "security_schemes"
    ensures "requestBodies" !in Segments && "securitySchemes" !in Segments
  {
  }

  lemma CamelCasePointerLiteral(name: string)
    ensures FragmentPrefix + RootSegment + "/" + "requestBodies" + "/" + name == "#/components/requestBodies/" + name
  {
    ComponentsPrefixLiteral();
    assert "#/components/" + "requestBodies" + "/" == "#/components/requestBodies/";
  }

  /** So a `#/components/requestBodies/...` pointer never resolves a request body, whatever the map holds. */
  lemma CamelCaseRequestBodiesRejected(doc: OpenAPI, name: string, fuel: nat)
    ensures ResolvePath(doc, RequestBodyCategory, "#/components/requestBodies/" + name, fuel) == None
  {
    ForeignCategorySegment(doc, RequestBodyCategory, "requestBodies", name, fuel);
    CamelCasePointerLiteral(name);
  }

  /**
   * Resolution is type-directed: a pointer that succeeds for two categories
   * names the same segment in both, and the nine segments are distinct.
   */
  lemma OnlyOwnCategory<T, U>(doc: OpenAPI, cat: Category<T>, other: Category<U>, path: string, n: nat, m: nat)
    requires ResolvePath(doc, cat, path, n).Some? && ResolvePath(doc, other, path, m).Some?
    ensures cat.segment == other.segment
  {
    ResolvedHasCategoryPrefix(doc, cat, path, n);
    ResolvedHasCategoryPrefix(doc, other, path, m);
    var head := FragmentPrefix + RootSegment + "/";
    var a := path[|head|..];
    assert a == cat.segment + "/" + path[|CategoryPrefix(cat)|..];
    assert a == other.segment + "/" + path[|CategoryPrefix(other)|..];
    SplitOnceJoin(cat.segment, '/', path[|CategoryPrefix(cat)|..]);
    SplitOnceJoin(other.segment, '/', path[|CategoryPrefix(other)|..]);
  }

  /**
   * The key is the whole tail after the category segment, taken verbatim: a
   * stored inline item is found under its own pointer, and a key that is not
   * stored is not found, even when the tail contains `/`.
   */
  lemma VerbatimKey<T>(doc: OpenAPI, cat: Category<T>, name: string, fuel: nat)
    ensures name !in Entries(doc, cat) ==> ResolvePath(doc, cat, PointerTo(cat, name), fuel) == None
    ensures name in Entries(doc, cat) && Entries(doc, cat)[name].Item? ==>
      ResolvePath(doc, cat, PointerTo(cat, name), fuel) == Some(Entries(doc, cat)[name].item)
  {
    ResolvePathShape(doc, cat, PointerTo(cat, name), fuel);
  }

  /** With no hops to spend, exactly the pointers to stored inline items resolve. */
  lemma ZeroFuelDirectOnly<T>(doc: OpenAPI, cat: Category<T>, path: string, x: T)
    ensures ResolvePath(doc, cat, path, 0) == Some(x) <==> Lookup(doc, cat, path) == Some(Item(x))
  {
    ResolveIsFollow(doc, cat, path, 0);
  }

  lemma {:induction false} FollowMonotonic<T>(doc: OpenAPI, cat: Category<T>, path: string, n: nat, m: nat)
    requires n <= m
    ensures Follow(doc, cat, path, n).Some? ==> Follow(doc, cat, path, m) == Follow(doc, cat, path, n)
    decreases n
  {
    match Lookup(doc, cat, path)
    case Some(Reference(reference)) =>
      if n > 0 {
        FollowMonotonic(doc, cat, reference, n - 1, m - 1);
      }
    case _ =>
  }

  /** A result found with some budget is found, unchanged, with every larger budget. */
  lemma Monotonic<T>(doc: OpenAPI, cat: Category<T>, path: string, n: nat, m: nat)
    requires n <= m
    ensures ResolvePath(doc, cat, path, n).Some? ==> ResolvePath(doc, cat, path, m) == ResolvePath(doc, cat, path, n)
  {
    ResolveIsFollow(doc, cat, path, n);
    ResolveIsFollow(doc, cat, path, m);
    FollowMonotonic(doc, cat, path, n, m);
  }

  /** Whatever budget finds it, a pointer denotes at most one object. */
  lemma ResolvesToUnique<T>(doc: OpenAPI, cat: Category<T>, path: string, x: T, y: T)
    requires ResolvesTo(doc, cat, path, x) && ResolvesTo(doc, cat, path, y)
    ensures x == y
  {
    var n: nat :| ResolvePath(doc, cat, path, n) == Some(x);
    var m: nat :| ResolvePath(doc, cat, path, m) == Some(y);
    if n <= m {
      Monotonic(doc, cat, path, n, m);
    } else {
      Monotonic(doc, cat, path, m, n);
    }
  }

  lemma {:induction false} FollowedIsStored<T>(doc: OpenAPI, cat: Category<T>, path: string, fuel: nat)
    ensures Follow(doc, cat, path, fuel).Some? ==> StoredItem(doc, cat, Follow(doc, cat, path, fuel).value)
    decreases fuel
  {
    match Lookup(doc, cat, path)
    case None =>
    case Some(Item(x)) =>
      var name := path[|CategoryPrefix(cat)|..];
      assert name in Entries(doc, cat) && Entries(doc, cat)[name] == Item(x);
    case Some(Reference(reference)) =>
      if fuel > 0 {
        FollowedIsStored(doc, cat, reference, fuel - 1);
      }
  }

  /** Nothing is fabricated: every result is an inline item stored in the matching category map. */
  lemma ResolvedIsStored<T>(doc: OpenAPI, cat: Category<T>, path: string, fuel: nat)
    ensures ResolvePath(doc, cat, path, fuel).Some? ==> StoredItem(doc, cat, ResolvePath(doc, cat, path, fuel).value)
  {
    ResolveIsFollow(doc, cat, path, fuel);
    FollowedIsStored(doc, cat, path, fuel);
  }

  /** Resolving a node yields the caller's own inline item or an item stored in the document. */
  lemma ResolvedNodeProvenance<T>(doc: OpenAPI, cat: Category<T>, node: ReferenceOr<T>, fuel: nat)
    ensures ResolveNode(doc, cat, node, fuel).Some? ==>
      var x := ResolveNode(doc, cat, node, fuel).value;
      node == Item(x) || StoredItem(doc, cat, x)
  {
    if node.Reference? {
      ResolvedIsStored(doc, cat, node.reference, fuel);
    }
  }

  lemma {:induction false} FollowChain<T>(doc: OpenAPI, cat: Category<T>, names: seq<string>, x: T, fuel: nat)
    requires IsChain(doc, cat, names, x)
    ensures Follow(doc, cat, PointerTo(cat, names[0]), fuel) ==
      if fuel >= |names| - 1 then Some(x) else None
    decreases |names|
  {
    LookupPointerTo(doc, cat, names[0]);
    if |names| > 1 {
      var tail := names[1..];
      assert forall i :: 0 <= i < |tail| ==> tail[i] == names[i + 1];
      assert IsChain(doc, cat, tail, x);
      assert Lookup(doc, cat, PointerTo(cat, names[0])) == Some(Reference(PointerTo(cat, tail[0])));
      if fuel > 0 {
        FollowChain(doc, cat, tail, x, fuel - 1);
        assert Follow(doc, cat, PointerTo(cat, names[0]), fuel)
          == Follow(doc, cat, PointerTo(cat, tail[0]), fuel - 1);
      }
    }
  }

  /**
   * A chain of stored references ending in an inline item yields that item
   * once the budget covers its hops, and nothing before.
   */
  lemma ChainResolves<T>(doc: OpenAPI, cat: Category<T>, names: seq<string>, x: T, fuel: nat)
    requires IsChain(doc, cat, names, x)
    ensures ResolvePath(doc, cat, PointerTo(cat, names[0]), fuel) ==
      if fuel >= |names| - 1 then Some(x) else None
  {
    ResolveIsFollow(doc, cat, PointerTo(cat, names[0]), fuel);
    FollowChain(doc, cat, names, x, fuel);
  }

  lemma {:induction false} FollowClosedNone<T>(doc: OpenAPI, cat: Category<T>, paths: set<string>, path: string, fuel: nat)
    requires ReferenceClosed(doc, cat, paths) && path in paths
    ensures Follow(doc, cat, path, fuel) == None
    decreases fuel
  {
    if fuel > 0 {
      FollowClosedNone(doc, cat, paths, Lookup(doc, cat, path).value.reference, fuel - 1);
    }
  }

  /** Pointers that only ever lead to further stored references never resolve, whatever the budget. */
  lemma ClosedNeverResolves<T>(doc: OpenAPI, cat: Category<T>, paths: set<string>, path: string, fuel: nat)
    requires ReferenceClosed(doc, cat, paths) && path in paths
    ensures ResolvePath(doc, cat, path, fuel) == None
  {
    ResolveIsFollow(doc, cat, path, fuel);
    FollowClosedNone(doc, cat, paths, path, fuel);
  }

  /** The two-entry cycle `a -> b -> a`: no budget produces a result from either end. */
  lemma TwoCycleNeverResolves<T>(doc: OpenAPI, cat: Category<T>, a: string, b: string)
    requires a in Entries(doc, cat) && Entries(doc, cat)[a] == Reference(PointerTo(cat, b))
    requires b in Entries(doc, cat) && Entries(doc, cat)[b] == Reference(PointerTo(cat, a))
    ensures forall fuel: nat :: ResolvePath(doc, cat, PointerTo(cat, a), fuel) == None
    ensures forall fuel: nat :: ResolvePath(doc, cat, PointerTo(cat, b), fuel) == None
    ensures forall x: T :: !ResolvesTo(doc, cat, PointerTo(cat, a), x)
    ensures forall x: T :: !ResolvesTo(doc, cat, PointerTo(cat, b), x)
  {
    var cycle := {PointerTo(cat, a), PointerTo(cat, b)};
    LookupPointerTo(doc, cat, a);
    LookupPointerTo(doc, cat, b);
    assert ReferenceClosed(doc, cat, cycle);
    forall fuel: nat ensures ResolvePath(doc, cat, PointerTo(cat, a), fuel) == None {
      ClosedNeverResolves(doc, cat, cycle, PointerTo(cat, a), fuel);
    }
    forall fuel: nat ensures ResolvePath(doc, cat, PointerTo(cat, b), fuel) == None {
      ClosedNeverResolves(doc, cat, cycle, PointerTo(cat, b), fuel);
    }
  }
}

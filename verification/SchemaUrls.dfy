/**
 When the bundle of agent/schemas.go keeps the URLs under which its documents refer to one another. A
 document is found under the URL that its `$id` declares, and the bundle moves an `$id` under the base
 of the root's definitions.
 */
module SchemaUrls {
  import opened Wrappers
  import opened Json
  import opened SchemaReferences
  import opened SchemaGraph
  import opened SchemaBundle
  import opened SchemaClosure

  // ----- Documents whose base does not move -----

  /** Every reference of a document is to another one of them, and every one but the root is referred to. */
  ghost predicate Complete(w: World, documents: map<Url, Members>, rootUrl: Url) {
    && rootUrl in documents
    && (forall u, v :: u in documents && Refers(w, documents[u], u, v) ==> v in documents)
    && (forall v :: v in documents && v != rootUrl ==> exists u :: u in documents && Refers(w, documents[u], u, v))
  }

  /** The bundle keeps all of the document and puts it under the base that it has where it came from. */
  ghost predicate Stays(w: World, documents: map<Url, Members>, rootUrl: Url, d: Url)
    requires rootUrl in documents && d in documents
  {
    && Kept(documents, rootUrl, d) == documents[d]
    && BaseInBundle(w, documents, rootUrl, d) == BaseOf(w, Document(documents[d], d))
  }

  ghost predicate AllStay(w: World, documents: map<Url, Members>, rootUrl: Url)
    requires rootUrl in documents
  {
    forall d :: d in documents ==> Stays(w, documents, rootUrl, d)
  }

  /**
   An external document stays under its base exactly when it declares no `$id`, or one that is a
   string and resolves alike against the base of the root's definitions and its own URL, or the two
   are the same.
   */
  lemma StaysExactly(w: World, documents: map<Url, Members>, rootUrl: Url, d: Url)
    requires rootUrl in documents && RootOk(w, documents[rootUrl], rootUrl)
    requires d in documents && d != rootUrl && IsUrl(w, d)
    ensures var m, inner := documents[d], InnerBase(w, documents[rootUrl], rootUrl).value;
            Stays(w, documents, rootUrl, d) <==>
              || "$id" !in m
              || (Text(m, "$id").Some? && w.resolve(Text(m, "$id").value, inner) == w.resolve(Text(m, "$id").value, d))
              || inner == d
  {
    RootInnerBase(w, documents[rootUrl], rootUrl);
  }

  ghost predicate YieldsAlone(w: World, walk: Walk, documents: map<Url, Members>, d: Url, u: Url)
    requires d in documents
  {
    Yields(w, walk, Document(documents[d], d), u)
  }

  /** What a document that stays yields in the bundle, against what it yields alone. */
  lemma StayingYields(w: World, walk: Walk, documents: map<Url, Members>, rootUrl: Url, d: Url, u: Url)
    requires rootUrl in documents && d in documents && IsUrl(w, d) && Stays(w, documents, rootUrl, d)
    ensures (walk.Resources? && u == d) || YieldsInBundle(w, walk, documents, rootUrl, d, u) <==>
            (walk.Resources? && u == d) || YieldsAlone(w, walk, documents, d, u)
  {
    ContentYields(w, walk, documents[d], d, u);
  }

  // ----- Their URLs -----

  ghost predicate AllUrls(w: World, documents: map<Url, Members>) {
    forall d :: d in documents ==> IsUrl(w, d)
  }

  /** Some part of the documents other than the whole document `u` has `u` as its URL. */
  ghost predicate FoundElsewhere(w: World, documents: map<Url, Members>, u: Url)
    requires u in documents
  {
    || (exists d :: d in documents && d != u && YieldsAlone(w, Resources, documents, d, u))
    || (var base := BaseOf(w, Document(documents[u], u));
        base.Some? && Inside(w, Resources, documents[u], base.value, u))
  }

  /** The URL that a document was retrieved from is still that of the document, or of another part. */
  ghost predicate KeepsUrl(w: World, documents: map<Url, Members>, u: Url)
    requires u in documents
  {
    BaseOf(w, Document(documents[u], u)) == Some(u) || FoundElsewhere(w, documents, u)
  }

  lemma LocatedExactly(w: World, documents: map<Url, Members>, rootUrl: Url, u: Url)
    requires rootUrl in documents && AllUrls(w, documents) && AllStay(w, documents, rootUrl)
    requires u in documents && u != rootUrl
    ensures Located(w, documents, rootUrl, u) <==> KeepsUrl(w, documents, u)
  {
    assert Stays(w, documents, rootUrl, u);
    if d :| d in documents && d != u && YieldsAlone(w, Resources, documents, d, u) {
      StayingYields(w, Resources, documents, rootUrl, d, u);
    } else if KeepsUrl(w, documents, u) {
      assert YieldsInBundle(w, Resources, documents, rootUrl, u, u);
    }
    if d :| d in documents && d != u && YieldsInBundle(w, Resources, documents, rootUrl, d, u) {
      StayingYields(w, Resources, documents, rootUrl, d, u);
    }
  }

  /** The URL of an external document that stays is that of a part of the bundle exactly when it is kept. */
  lemma UrlIsKept(w: World, documents: map<Url, Members>, rootUrl: Url, bundled: Members, u: Url)
    requires BundleOf(documents, rootUrl, bundled) && RootOk(w, documents[rootUrl], rootUrl)
    requires AllUrls(w, documents) && AllStay(w, documents, rootUrl)
    requires u in documents && u != rootUrl
    ensures Yields(w, Resources, Document(bundled, rootUrl), u) <==> KeepsUrl(w, documents, u)
  {
    BundleOfDocuments(w, Resources, documents, rootUrl, bundled, u);
    LocatedExactly(w, documents, rootUrl, u);
  }

  lemma EveryUrlIsMentioned(w: World, documents: map<Url, Members>, rootUrl: Url, u: Url)
    requires Complete(w, documents, rootUrl) && AllUrls(w, documents) && AllStay(w, documents, rootUrl)
    requires u in documents && u != rootUrl
    ensures Mentioned(w, documents, rootUrl, u)
  {
    var d :| d in documents && Refers(w, documents[d], d, u);
    assert YieldsAlone(w, References, documents, d, u);
    StayingYields(w, References, documents, rootUrl, d, u);
  }

  lemma MentionedIsLocated(w: World, documents: map<Url, Members>, rootUrl: Url, u: Url)
    requires Complete(w, documents, rootUrl) && AllUrls(w, documents) && AllStay(w, documents, rootUrl)
    requires Mentioned(w, documents, rootUrl, u)
    ensures u in documents || Located(w, documents, rootUrl, u)
  {
    var d :| d in documents && YieldsInBundle(w, References, documents, rootUrl, d, u);
    StayingYields(w, References, documents, rootUrl, d, u);
    StayingYields(w, Resources, documents, rootUrl, d, u);
    assert Refers(w, documents[d], d, u) || YieldsAlone(w, Resources, documents, d, u);
  }

  /**
   When no base moves, the bundle of a complete set of documents contains whatever it refers to,
   exactly when every external document keeps its URL: it declares no `$id`, or one that resolves to
   that URL, or some other part has that URL.
   */
  lemma ClosedByUrls(w: World, documents: map<Url, Members>, rootUrl: Url, bundled: Members)
    requires BundleOf(documents, rootUrl, bundled) && RootOk(w, documents[rootUrl], rootUrl)
    requires Complete(w, documents, rootUrl) && AllUrls(w, documents) && AllStay(w, documents, rootUrl)
    ensures SelfContained(w, bundled, rootUrl) <==>
            forall u :: u in documents && u != rootUrl ==> KeepsUrl(w, documents, u)
  {
    ClosedExactly(w, documents, rootUrl, bundled);
    forall u | u in documents && u != rootUrl
      ensures Mentioned(w, documents, rootUrl, u)
      ensures Located(w, documents, rootUrl, u) <==> KeepsUrl(w, documents, u)
    {
      EveryUrlIsMentioned(w, documents, rootUrl, u);
      LocatedExactly(w, documents, rootUrl, u);
    }
    forall u | Mentioned(w, documents, rootUrl, u)
      ensures u in documents || Located(w, documents, rootUrl, u)
    {
      MentionedIsLocated(w, documents, rootUrl, u);
    }
  }

  // ----- A loaded graph -----

  lemma ReachableNext(g: Graph, root: Url, u: Url, v: Url)
    requires Reachable(g, root, u) && g.edge(u, v)
    ensures Reachable(g, root, v)
  {
    var path :| PathTo(g, root, u, path);
    PathSnoc(g, root, path, v);
  }

  lemma ReachedFrom(g: Graph, root: Url, v: Url)
    requires Reachable(g, root, v) && v != root
    ensures exists u :: Reachable(g, root, u) && g.edge(u, v)
  {
    var path :| PathTo(g, root, v, path);
    var n := |path| - 1;
    ReachedOnTheWay(g, root, path, n - 1);
    assert EdgeAt(g, path, n - 1);
  }

  /** What the loader returns is complete. */
  lemma LoadedIsComplete(w: World, g: Graph, root: Url, documents: map<Url, Members>)
    requires Describes(g, w) && forall u :: u in documents <==> Reachable(g, root, u)
    requires forall u :: u in documents ==> w.fetch(u) == Some(documents[u])
    ensures Complete(w, documents, root)
  {
    assert PathTo(g, root, root, [root]);
    forall u, v | u in documents && Refers(w, documents[u], u, v) ensures v in documents {
      assert Edge(w, u, v);
      ReachableNext(g, root, u, v);
    }
    forall v | v in documents && v != root ensures exists u :: u in documents && Refers(w, documents[u], u, v) {
      ReachedFrom(g, root, v);
      var u :| Reachable(g, root, u) && g.edge(u, v);
      assert Edge(w, u, v);
    }
  }

  lemma ReferenceIsUrl(w: World, m: Members, url: Url, u: Url)
    requires Resolves(w) && Refers(w, m, url, u)
    ensures IsUrl(w, u)
  {
  }

  lemma LoadedAreUrls(w: World, documents: map<Url, Members>, root: Url)
    requires Resolves(w) && IsUrl(w, root) && Complete(w, documents, root)
    ensures AllUrls(w, documents)
  {
    forall u | u in documents && u != root ensures IsUrl(w, u) {
      var d :| d in documents && Refers(w, documents[d], d, u);
      ReferenceIsUrl(w, documents[d], d, u);
    }
  }

  /**
   Loading and bundling. What is given to the compiler contains whatever it refers to, exactly when
   each URL referred to from the documents, where they stand in the bundle, is that of a part of one;
   when no base moves, exactly when every external document keeps its URL.
   */
  method ResolveSchema(w: World, ghost g: Graph, root: Url)
    returns (r: Result<Members, SchemaError>, documents: map<Url, Members>)
    requires Describes(g, w)
    ensures r.Err? ==> Loaded(w, g, root) == Err(r.error) && Witnessed(w, g, root, r.error)
    ensures r.Ok? ==>
              && (forall u :: u in documents <==> Reachable(g, root, u))
              && (forall u :: u in documents ==> w.fetch(u) == Some(documents[u]) && Usable(w, u))
              && Complete(w, documents, root) && BundleOf(documents, root, r.value)
    ensures r.Ok? && Resolves(w) && IsUrl(w, root) ==>
              && (SelfContained(w, r.value, root) <==>
                    forall u :: Mentioned(w, documents, root, u) ==> Located(w, documents, root, u))
              && (AllStay(w, documents, root) ==>
                    (SelfContained(w, r.value, root) <==>
                       forall u :: u in documents && u != root ==> KeepsUrl(w, documents, u)))
  {
    var loaded, fetched := LoadGraph(w, g, root);
    if loaded.Err? {
      return Err(loaded.error), map[];
    }
    documents := loaded.value;
    LoadedIsComplete(w, g, root, documents);
    var bundled, externals, keys := Bundle(documents[root], root, documents);
    BundleIsClosed(w, documents, root, bundled);
    r := Ok(bundled);
  }

  lemma BundleIsClosed(w: World, documents: map<Url, Members>, root: Url, bundled: Members)
    requires BundleOf(documents, root, bundled) && Complete(w, documents, root)
    requires w.fetch(root) == Some(documents[root]) && Usable(w, root)
    ensures Resolves(w) && IsUrl(w, root) ==>
              && (SelfContained(w, bundled, root) <==>
                    forall u :: Mentioned(w, documents, root, u) ==> Located(w, documents, root, u))
              && (AllStay(w, documents, root) ==>
                    (SelfContained(w, bundled, root) <==>
                       forall u :: u in documents && u != root ==> KeepsUrl(w, documents, u)))
  {
    if Resolves(w) && IsUrl(w, root) {
      UsableRoot(w, documents[root], root);
      ClosedExactly(w, documents, root, bundled);
      if AllStay(w, documents, root) {
        LoadedAreUrls(w, documents, root);
        ClosedByUrls(w, documents, root, bundled);
      }
    }
  }

  // ----- A document that declares an identifier -----

  function Reference(url: Url): Members {
    map["$schema" := String(DIALECT), "$ref" := String(url)]
  }

  function Identified(id: string): Members {
    map["$schema" := String(DIALECT), "$id" := String(id)]
  }

  lemma LeavesInside(w: World, walk: Walk, m: Members, base: Url, u: Url)
    requires IsUrl(w, base) && "$schema" in m && forall k :: k in m ==> m[k].String?
    ensures Inside(w, walk, m, base, u) <==> walk.Resources? && u == base
  {
    forall k | k in m ensures Yields(w, walk, Place(m[k], base), u) <==> walk.Resources? && u == base {
      LeafFinds(w, walk, Place(m[k], base), u);
    }
  }

  lemma ReferenceContent(w: World, walk: Walk, root: Url, a: Url, u: Url)
    requires Resolves(w) && IsUrl(w, root) && IsUrl(w, a)
    ensures Content(w, walk, Reference(a), root, u) <==> u == if walk.References? then a else root
    ensures Yields(w, walk, Document(Reference(a), root), u) <==> u == if walk.References? then a else root
  {
    ContentYields(w, walk, Reference(a), root, u);
    LeavesInside(w, walk, Reference(a), root, u);
  }

  lemma IdentifiedContent(w: World, walk: Walk, id: string, base: Url, u: Url)
    requires IsUrl(w, base)
    ensures Content(w, walk, Identified(id), base, u) <==> walk.Resources? && u == base
  {
    LeavesInside(w, walk, Identified(id), base, u);
  }

  /** A root that refers to `a`, where a document is found that declares the identifier `id`. */
  ghost predicate Identifying(w: World, documents: map<Url, Members>, root: Url, a: Url, id: string) {
    && Resolves(w) && IsUrl(w, root) && IsUrl(w, a) && root != a
    && documents.Keys == {root, a} && documents[root] == Reference(a) && documents[a] == Identified(id)
  }

  lemma IdentifyingIsComplete(w: World, documents: map<Url, Members>, root: Url, a: Url, id: string)
    requires Identifying(w, documents, root, a, id)
    ensures Complete(w, documents, root) && RootOk(w, documents[root], root)
  {
    forall v ensures Refers(w, Reference(a), root, v) <==> v == a {
      ReferenceContent(w, References, root, a, v);
      ReferenceContent(w, Resources, root, a, v);
    }
    forall v ensures !Refers(w, Identified(id), a, v) {
      ContentYields(w, References, Identified(id), a, v);
      var base := BaseOf(w, Document(Identified(id), a));
      if base.Some? {
        IdentifiedContent(w, References, id, base.value, v);
      }
    }
    assert Refers(w, documents[root], root, a);
  }

  lemma IdentifyingYields(w: World, walk: Walk, documents: map<Url, Members>, root: Url, a: Url, id: string, u: Url)
    requires Identifying(w, documents, root, a, id)
    ensures YieldsInBundle(w, walk, documents, root, root, u) <==> u == if walk.References? then a else root
    ensures YieldsInBundle(w, walk, documents, root, a, u) <==> walk.Resources? && w.resolve(id, root) == Some(u)
  {
    ReferenceContent(w, walk, root, a, u);
    assert BaseInBundle(w, documents, root, a) == w.resolve(id, root);
    if w.resolve(id, root).Some? {
      IdentifiedContent(w, walk, id, w.resolve(id, root).value, u);
    }
  }

  lemma IdentifyingMentions(w: World, documents: map<Url, Members>, root: Url, a: Url, id: string, u: Url)
    requires Identifying(w, documents, root, a, id)
    ensures Mentioned(w, documents, root, u) <==> u == a
  {
    IdentifyingYields(w, References, documents, root, a, id, u);
    assert u == a ==> YieldsInBundle(w, References, documents, root, root, u);
  }

  lemma IdentifyingLocates(w: World, documents: map<Url, Members>, root: Url, a: Url, id: string)
    requires Identifying(w, documents, root, a, id)
    ensures Located(w, documents, root, a) <==> w.resolve(id, root) == Some(a)
  {
    IdentifyingYields(w, Resources, documents, root, a, id, a);
    assert w.resolve(id, root) == Some(a) ==> YieldsInBundle(w, Resources, documents, root, a, a);
  }

  /** The reference leads to the document exactly when the identifier, read against the root, is its URL. */
  lemma IdentifierDecides(w: World, documents: map<Url, Members>, root: Url, a: Url, id: string, bundled: Members)
    requires Identifying(w, documents, root, a, id) && BundleOf(documents, root, bundled)
    ensures Complete(w, documents, root)
    ensures SelfContained(w, bundled, root) <==> w.resolve(id, root) == Some(a)
  {
    IdentifyingIsComplete(w, documents, root, a, id);
    ClosedExactly(w, documents, root, bundled);
    forall u ensures Mentioned(w, documents, root, u) <==> u == a {
      IdentifyingMentions(w, documents, root, a, id, u);
    }
    IdentifyingLocates(w, documents, root, a, id);
  }

  /** A document that declares another URL: it is fetched and bundled, and the reference to it leads nowhere. */
  lemma RenamedIsLost(w: World, documents: map<Url, Members>, root: Url, a: Url, b: Url, bundled: Members)
    requires Identifying(w, documents, root, a, b) && BundleOf(documents, root, bundled)
    requires IsUrl(w, b) && b != a
    ensures Complete(w, documents, root) && !SelfContained(w, bundled, root)
  {
    IdentifierDecides(w, documents, root, a, b, bundled);
  }

  /**
   A document that declares its own URL by a relative identifier, such as "a.json" at
   https://s.example/dir/a.json: under a root elsewhere the identifier means another URL, and the
   reference leads nowhere although the document keeps its URL.
   */
  lemma RelativeIsLost(w: World, documents: map<Url, Members>, root: Url, a: Url, id: string, bundled: Members)
    requires Identifying(w, documents, root, a, id) && BundleOf(documents, root, bundled)
    requires w.resolve(id, a) == Some(a) && w.resolve(id, root) != Some(a)
    ensures Complete(w, documents, root) && KeepsUrl(w, documents, a) && !SelfContained(w, bundled, root)
  {
    IdentifierDecides(w, documents, root, a, id, bundled);
  }
}

/**
 What the bundle of agent/schemas.go refers to. The compiler is given the bundle alone, so every
 reference in it has to be the URL of one of its own parts.
 */
module SchemaClosure {
  import opened Wrappers
  import opened Json
  import opened SchemaReferences
  import opened SchemaGraph
  import opened SchemaBundle

  // ----- URLs -----

  ghost predicate IsUrl(w: World, u: Url) {
    w.resolve("", u) == Some(u)
  }

  /** A resolved reference is a URL, and a URL resolves to itself against any other. */
  ghost predicate Resolves(w: World) {
    && (forall reference, base :: w.resolve(reference, base).Some? ==> IsUrl(w, w.resolve(reference, base).value))
    && (forall u, base :: IsUrl(w, u) && IsUrl(w, base) ==> w.resolve(u, base) == Some(u))
  }

  // ----- What an object contributes -----

  ghost predicate Inside(w: World, walk: Walk, m: Members, base: Url, u: Url) {
    exists k :: k in m && !(walk.References? && k == "$ref") && Yields(w, walk, Place(m[k], base), u)
  }

  /** What the walk finds in an object whose base is already in force. */
  ghost predicate Content(w: World, walk: Walk, m: Members, base: Url, u: Url) {
    || (walk.References? && Text(m, "$ref").Some? && w.resolve(Text(m, "$ref").value, base) == Some(u))
    || (walk.Resources? && Text(m, "$id").Some? && u == base)
    || Inside(w, walk, m, base, u)
  }

  lemma ContentYields(w: World, walk: Walk, m: Members, at: Url, u: Url)
    ensures var base := BaseOf(w, Place(Object(m), at));
            Yields(w, walk, Place(Object(m), at), u) <==>
              || (walk.Resources? && w.resolve("", at) == Some(u))
              || (base.Some? && Content(w, walk, m, base.value, u))
  {
    var place := Place(Object(m), at);
    YieldsHere(w, walk, place, u);
    if next :| Below(w, walk, place, next) && Yields(w, walk, next, u) {
      var k :| k in m && m[k] == next.value && !(walk.References? && k == "$ref");
      assert next == Place(m[k], next.base);
    }
    if BaseOf(w, place).Some? && Inside(w, walk, m, BaseOf(w, place).value, u) {
      var base := BaseOf(w, place).value;
      var k :| k in m && !(walk.References? && k == "$ref") && Yields(w, walk, Place(m[k], base), u);
      assert Below(w, walk, place, Place(m[k], base));
    }
  }

  lemma InsideAfter(w: World, walk: Walk, m: Members, key: string, value: Json, base: Url, u: Url)
    requires key !in m && key != "$ref"
    ensures Inside(w, walk, m[key := value], base, u) <==>
            Inside(w, walk, m, base, u) || Yields(w, walk, Place(value, base), u)
  {
    var longer := m[key := value];
    if k :| k in m && !(walk.References? && k == "$ref") && Yields(w, walk, Place(m[k], base), u) {
      assert longer[k] == m[k];
    }
    if Yields(w, walk, Place(value, base), u) {
      assert longer[key] == value;
    }
  }

  /** An object with an `$id`, whatever it is, has a part with the base in force. */
  lemma OwnBase(w: World, m: Members, base: Url)
    requires "$id" in m && IsUrl(w, base)
    ensures Content(w, Resources, m, base, base)
  {
    YieldsHere(w, Resources, Place(m["$id"], base), base);
  }

  lemma WithIdContent(w: World, walk: Walk, m: Members, url: Url, base: Url, u: Url)
    requires IsUrl(w, base)
    ensures Content(w, walk, WithId(m, url), base, u) <==>
            Content(w, walk, m, base, u) || (walk.Resources? && u == base)
  {
    if "$id" in m {
      OwnBase(w, m, base);
    } else {
      InsideAfter(w, walk, m, "$id", String(url), base, u);
      LeafFinds(w, walk, Place(String(url), base), u);
      assert WithId(m, url) == m["$id" := String(url)];
    }
  }

  // ----- The definitions of the bundle -----

  /** Some external document, in its place among definitions whose base is `base`, yields `u`. */
  ghost predicate FromExternals(w: World, walk: Walk, externals: seq<External>, base: Url, u: Url) {
    exists i :: 0 <= i < |externals| && Yields(w, walk, Embedded(externals[i], base), u)
  }

  function Embedded(x: External, base: Url): Place {
    Place(Object(WithId(x.document, x.url)), base)
  }

  lemma CandidateKey(index: nat, key: string)
    requires IsCandidate(index, key)
    ensures key != "$ref" && key != "$id"
  {
    assert key[0] == 'o';
  }

  lemma AddedText(own: Members, externals: seq<External>, keys: seq<string>, definitions: Members)
    requires Added(own, externals, keys, definitions)
    ensures Text(definitions, "$ref") == Text(own, "$ref") && Text(definitions, "$id") == Text(own, "$id")
    ensures forall k :: k in keys ==> k != "$ref"
  {
    forall k | k in keys ensures k != "$ref" && k != "$id" {
      var i :| 0 <= i < |keys| && keys[i] == k;
      CandidateKey(i, k);
    }
  }

  lemma AddedContent(w: World, walk: Walk, own: Members, externals: seq<External>, keys: seq<string>,
                     definitions: Members, base: Url, u: Url)
    requires Added(own, externals, keys, definitions)
    ensures Content(w, walk, definitions, base, u) <==>
            Content(w, walk, own, base, u) || FromExternals(w, walk, externals, base, u)
  {
    AddedText(own, externals, keys, definitions);
    if k :| k in definitions && !(walk.References? && k == "$ref") && Yields(w, walk, Place(definitions[k], base), u) {
      if k in own {
        assert definitions[k] == own[k];
      } else {
        var i :| 0 <= i < |keys| && keys[i] == k;
        assert Yields(w, walk, Embedded(externals[i], base), u);
      }
    }
    if k :| k in own && !(walk.References? && k == "$ref") && Yields(w, walk, Place(own[k], base), u) {
      assert definitions[k] == own[k];
    }
    if i :| 0 <= i < |externals| && Yields(w, walk, Embedded(externals[i], base), u) {
      assert definitions[keys[i]] == Embedded(externals[i], base).value && keys[i] in keys;
    }
  }

  lemma ContentAfter(w: World, walk: Walk, m: Members, value: Json, base: Url, u: Url)
    requires "$defs" !in m
    ensures Content(w, walk, m["$defs" := value], base, u) <==>
            Content(w, walk, m, base, u) || Yields(w, walk, Place(value, base), u)
  {
    InsideAfter(w, walk, m, "$defs", value, base, u);
  }

  predicate DefinitionsAreMembers(root: Members) {
    "$defs" in root ==> root["$defs"].Object?
  }

  /** The base in force for the definitions of a root whose own base is `base`. */
  function DefinitionsBase(w: World, root: Members, base: Url): Option<Url> {
    BaseOf(w, Place(Object(Definitions(root)), base))
  }

  lemma BundleContent(w: World, walk: Walk, root: Members, externals: seq<External>, keys: seq<string>,
                      definitions: Members, base: Url, u: Url)
    requires Added(Definitions(root), externals, keys, definitions) && DefinitionsAreMembers(root)
    requires "$id" in root && IsUrl(w, base) && DefinitionsBase(w, root, base).Some?
    ensures Content(w, walk, root["$defs" := Object(definitions)], base, u) <==>
            || Content(w, walk, root, base, u)
            || FromExternals(w, walk, externals, DefinitionsBase(w, root, base).value, u)
  {
    var without := root - {"$defs"};
    assert root["$defs" := Object(definitions)] == without["$defs" := Object(definitions)];
    ContentAfter(w, walk, without, Object(definitions), base, u);
    AddedText(Definitions(root), externals, keys, definitions);
    ContentYields(w, walk, definitions, base, u);
    AddedContent(w, walk, Definitions(root), externals, keys, definitions, DefinitionsBase(w, root, base).value, u);
    if "$defs" in root {
      assert root == without["$defs" := root["$defs"]];
      ContentAfter(w, walk, without, root["$defs"], base, u);
      ContentYields(w, walk, Definitions(root), base, u);
    } else {
      assert root == without;
      OwnBase(w, root, base);
    }
  }

  // ----- The bundle -----

  /** The base in force for the definitions of the root. */
  ghost function InnerBase(w: World, root: Members, rootUrl: Url): Option<Url> {
    var base := BaseOf(w, Document(root, rootUrl));
    if base.None? then None else DefinitionsBase(w, root, base.value)
  }

  /** The bases in force in the root and in its definitions are URLs. */
  ghost predicate RootOk(w: World, root: Members, rootUrl: Url) {
    Resolves(w) && IsUrl(w, rootUrl) && InnerBase(w, root, rootUrl).Some?
  }

  lemma RootBase(w: World, root: Members, rootUrl: Url)
    requires RootOk(w, root, rootUrl)
    ensures var base := BaseOf(w, Document(root, rootUrl));
            && base.Some? && IsUrl(w, base.value) && BaseOf(w, Document(WithId(root, rootUrl), rootUrl)) == base
            && Yields(w, Resources, Document(root, rootUrl), base.value)
  {
    var place := Document(root, rootUrl);
    YieldsHere(w, Resources, place, BaseOf(w, place).value);
  }

  lemma RootInnerBase(w: World, root: Members, rootUrl: Url)
    requires RootOk(w, root, rootUrl)
    ensures var inner := InnerBase(w, root, rootUrl).value;
            IsUrl(w, inner) && Yields(w, Resources, Document(root, rootUrl), inner)
  {
    RootBase(w, root, rootUrl);
    if "$defs" in root && root["$defs"].Object? {
      var place, inner := Document(root, rootUrl), InnerBase(w, root, rootUrl).value;
      var next := Place(root["$defs"], BaseOf(w, place).value);
      assert next.value == Object(Definitions(root));
      assert Below(w, Resources, place, next);
      YieldsHere(w, Resources, next, inner);
      YieldsHere(w, Resources, place, inner);
    }
  }

  /** A root that the loader accepts is such a root. */
  lemma UsableRoot(w: World, root: Members, rootUrl: Url)
    requires Resolves(w) && IsUrl(w, rootUrl) && !Unresolvable(w, root, rootUrl)
    ensures RootOk(w, root, rootUrl)
  {
    var place := Document(root, rootUrl);
    FailsHere(w, Resources, place);
    if "$defs" in root && root["$defs"].Object? {
      var next := Place(root["$defs"], BaseOf(w, place).value);
      assert next.value == Object(Definitions(root));
      assert Below(w, Resources, place, next);
      FailsHere(w, Resources, next);
    }
  }

  lemma BundledContent(w: World, walk: Walk, root: Members, rootUrl: Url, externals: seq<External>, keys: seq<string>,
                       bundled: Members, base: Url, u: Url)
    requires Bundled(root, rootUrl, externals, keys, bundled) && (externals != [] ==> DefinitionsAreMembers(root))
    requires IsUrl(w, base) && DefinitionsBase(w, root, base).Some?
    ensures Content(w, walk, bundled, base, u) <==>
            || Content(w, walk, WithId(root, rootUrl), base, u)
            || FromExternals(w, walk, externals, DefinitionsBase(w, root, base).value, u)
  {
    if externals != [] {
      var own := WithId(root, rootUrl);
      assert bundled == own["$defs" := bundled["$defs"]];
      assert Definitions(own) == Definitions(root);
      BundleContent(w, walk, own, externals, keys, bundled["$defs"].members, base, u);
    }
  }

  lemma RootYieldsContent(w: World, walk: Walk, root: Members, rootUrl: Url, base: Url, u: Url)
    requires RootOk(w, root, rootUrl) && BaseOf(w, Document(root, rootUrl)) == Some(base)
    ensures Yields(w, walk, Document(root, rootUrl), u) <==>
            (walk.Resources? && u == rootUrl) || Content(w, walk, WithId(root, rootUrl), base, u)
  {
    RootBase(w, root, rootUrl);
    ContentYields(w, walk, root, rootUrl, u);
    WithIdContent(w, walk, root, rootUrl, base, u);
  }

  lemma BundleBase(w: World, root: Members, rootUrl: Url, externals: seq<External>, keys: seq<string>, bundled: Members)
    requires RootOk(w, root, rootUrl) && Bundled(root, rootUrl, externals, keys, bundled)
    ensures BaseOf(w, Document(bundled, rootUrl)) == BaseOf(w, Document(root, rootUrl))
  {
    RootBase(w, root, rootUrl);
  }

  /** What a walk over the bundle finds: what it finds in the root, and in the external documents. */
  lemma BundleYields(w: World, walk: Walk, root: Members, rootUrl: Url, externals: seq<External>, keys: seq<string>,
                     bundled: Members, u: Url)
    requires Bundled(root, rootUrl, externals, keys, bundled) && (externals != [] ==> DefinitionsAreMembers(root))
    requires RootOk(w, root, rootUrl)
    ensures Yields(w, walk, Document(bundled, rootUrl), u) <==>
            || Yields(w, walk, Document(root, rootUrl), u)
            || FromExternals(w, walk, externals, InnerBase(w, root, rootUrl).value, u)
  {
    RootBase(w, root, rootUrl);
    var base := BaseOf(w, Document(root, rootUrl)).value;
    RootYieldsContent(w, walk, root, rootUrl, base, u);
    BundleBase(w, root, rootUrl, externals, keys, bundled);
    ContentYields(w, walk, bundled, rootUrl, u);
    BundledContent(w, walk, root, rootUrl, externals, keys, bundled, base, u);
  }

  // ----- The documents of the bundle -----

  /** `bundled` is the bundle of the documents. */
  ghost predicate BundleOf(documents: map<Url, Members>, rootUrl: Url, bundled: Members) {
    && rootUrl in documents
    && exists externals: seq<External>, keys: seq<string> ::
         Externals(documents, rootUrl, externals) && Bundled(documents[rootUrl], rootUrl, externals, keys, bundled)
  }

  /** What the bundle keeps of a document: a `$defs` of the root that is no object gives way to the externals. */
  function Kept(documents: map<Url, Members>, rootUrl: Url, d: Url): Members
    requires d in documents
  {
    if d == rootUrl && |documents| > 1 && !DefinitionsAreMembers(documents[d]) then documents[d] - {"$defs"}
    else documents[d]
  }

  /** The base in force for a document where it stands in the bundle. */
  ghost function BaseInBundle(w: World, documents: map<Url, Members>, rootUrl: Url, d: Url): Option<Url>
    requires rootUrl in documents && d in documents
  {
    var inner := InnerBase(w, documents[rootUrl], rootUrl);
    if d == rootUrl then BaseOf(w, Document(documents[d], d))
    else if inner.None? then None
    else BaseOf(w, Embedded(External(d, documents[d]), inner.value))
  }

  /** The walk finds `u` in what the bundle keeps of the document, under the base in force there. */
  ghost predicate YieldsInBundle(w: World, walk: Walk, documents: map<Url, Members>, rootUrl: Url, d: Url, u: Url)
    requires rootUrl in documents && d in documents
  {
    var base := BaseInBundle(w, documents, rootUrl, d);
    && base.Some?
    && ((walk.Resources? && u == base.value) || Content(w, walk, Kept(documents, rootUrl, d), base.value, u))
  }

  /** Some document refers to `u` from where it stands in the bundle. */
  ghost predicate Mentioned(w: World, documents: map<Url, Members>, rootUrl: Url, u: Url)
    requires rootUrl in documents
  {
    exists d :: d in documents && YieldsInBundle(w, References, documents, rootUrl, d, u)
  }

  /** Some part of a document has the URL `u` where it stands in the bundle. */
  ghost predicate Located(w: World, documents: map<Url, Members>, rootUrl: Url, u: Url)
    requires rootUrl in documents
  {
    u == rootUrl || exists d :: d in documents && YieldsInBundle(w, Resources, documents, rootUrl, d, u)
  }

  lemma ExternalsAre(documents: map<Url, Members>, rootUrl: Url, externals: seq<External>)
    requires Externals(documents, rootUrl, externals)
    ensures forall x :: x in externals ==> x.url in documents && x.url != rootUrl && x.document == documents[x.url]
    ensures forall d :: d in documents && d != rootUrl ==> External(d, documents[d]) in externals
  {
    forall x | x in externals ensures x.url != rootUrl {
      var i :| 0 <= i < |externals| && externals[i] == x;
      assert Urls(externals)[i] in Urls(externals);
    }
    forall d | d in documents && d != rootUrl ensures External(d, documents[d]) in externals {
      var i :| 0 <= i < |externals| && Urls(externals)[i] == d;
      assert externals[i] in externals;
    }
  }

  lemma EmbeddedYields(w: World, walk: Walk, x: External, base: Url, u: Url)
    requires Resolves(w) && IsUrl(w, base)
    ensures var here := BaseOf(w, Embedded(x, base));
            Yields(w, walk, Embedded(x, base), u) <==>
              || (walk.Resources? && u == base)
              || (here.Some? && ((walk.Resources? && u == here.value) || Content(w, walk, x.document, here.value, u)))
  {
    var here := BaseOf(w, Embedded(x, base));
    ContentYields(w, walk, WithId(x.document, x.url), base, u);
    if here.Some? {
      WithIdContent(w, walk, x.document, x.url, here.value, u);
    }
  }

  lemma BundledWithout(root: Members, rootUrl: string, externals: seq<External>, keys: seq<string>, bundled: Members)
    requires Bundled(root, rootUrl, externals, keys, bundled) && externals != [] && !DefinitionsAreMembers(root)
    ensures Bundled(root - {"$defs"}, rootUrl, externals, keys, bundled)
  {
    var without := root - {"$defs"};
    assert Definitions(without) == Definitions(root);
    assert WithId(without, rootUrl)["$id"] == WithId(root, rootUrl)["$id"];
  }

  /** The root of the bundle may as well be what the bundle keeps of it. */
  lemma RootIsKept(documents: map<Url, Members>, rootUrl: Url, externals: seq<External>, keys: seq<string>,
                   bundled: Members)
    requires rootUrl in documents && Externals(documents, rootUrl, externals)
    requires Bundled(documents[rootUrl], rootUrl, externals, keys, bundled)
    ensures var root := Kept(documents, rootUrl, rootUrl);
            Bundled(root, rootUrl, externals, keys, bundled) && (externals != [] ==> DefinitionsAreMembers(root))
  {
    if externals != [] && !DefinitionsAreMembers(documents[rootUrl]) {
      BundledWithout(documents[rootUrl], rootUrl, externals, keys, bundled);
    }
  }

  lemma KeptBases(w: World, documents: map<Url, Members>, rootUrl: Url)
    requires rootUrl in documents
    ensures var root := Kept(documents, rootUrl, rootUrl);
            && BaseOf(w, Document(root, rootUrl)) == BaseOf(w, Document(documents[rootUrl], rootUrl))
            && InnerBase(w, root, rootUrl) == InnerBase(w, documents[rootUrl], rootUrl)
  {
    assert Definitions(Kept(documents, rootUrl, rootUrl)) == Definitions(documents[rootUrl]);
  }

  lemma RootYields(w: World, walk: Walk, documents: map<Url, Members>, rootUrl: Url, u: Url)
    requires rootUrl in documents && RootOk(w, documents[rootUrl], rootUrl)
    ensures Yields(w, walk, Document(Kept(documents, rootUrl, rootUrl), rootUrl), u) <==>
            (walk.Resources? && u == rootUrl) || YieldsInBundle(w, walk, documents, rootUrl, rootUrl, u)
  {
    ContentYields(w, walk, Kept(documents, rootUrl, rootUrl), rootUrl, u);
  }

  /**
   What a walk over the bundle finds: what it finds in each of the documents, under the base in force
   where the document stands, and the URL of the root.
   */
  lemma BundleOfDocuments(w: World, walk: Walk, documents: map<Url, Members>, rootUrl: Url, bundled: Members, u: Url)
    requires BundleOf(documents, rootUrl, bundled) && RootOk(w, documents[rootUrl], rootUrl)
    ensures Yields(w, walk, Document(bundled, rootUrl), u) <==>
            if walk.References? then Mentioned(w, documents, rootUrl, u) else Located(w, documents, rootUrl, u)
  {
    var externals: seq<External>, keys: seq<string> :|
      Externals(documents, rootUrl, externals) && Bundled(documents[rootUrl], rootUrl, externals, keys, bundled);
    var root, base := Kept(documents, rootUrl, rootUrl), InnerBase(w, documents[rootUrl], rootUrl).value;
    RootIsKept(documents, rootUrl, externals, keys, bundled);
    KeptBases(w, documents, rootUrl);
    BundleYields(w, walk, root, rootUrl, externals, keys, bundled, u);
    RootInnerBase(w, root, rootUrl);
    RootYields(w, walk, documents, rootUrl, u);
    RootYields(w, Resources, documents, rootUrl, base);
    if FromExternals(w, walk, externals, base, u) && !(walk.Resources? && u == base) {
      var d := FromExternal(w, walk, documents, rootUrl, externals, base, u);
    }
    if d :| d in documents && d != rootUrl && YieldsInBundle(w, walk, documents, rootUrl, d, u) {
      FromDocument(w, walk, documents, rootUrl, externals, base, u, d);
    }
  }

  lemma FromExternal(w: World, walk: Walk, documents: map<Url, Members>, rootUrl: Url, externals: seq<External>,
                     base: Url, u: Url) returns (d: Url)
    requires rootUrl in documents && Externals(documents, rootUrl, externals)
    requires Resolves(w) && IsUrl(w, base) && InnerBase(w, documents[rootUrl], rootUrl) == Some(base)
    requires FromExternals(w, walk, externals, base, u) && !(walk.Resources? && u == base)
    ensures d in documents && YieldsInBundle(w, walk, documents, rootUrl, d, u)
  {
    ExternalsAre(documents, rootUrl, externals);
    var i :| 0 <= i < |externals| && Yields(w, walk, Embedded(externals[i], base), u);
    assert externals[i] in externals;
    EmbeddedYields(w, walk, externals[i], base, u);
    d := externals[i].url;
  }

  lemma FromDocument(w: World, walk: Walk, documents: map<Url, Members>, rootUrl: Url, externals: seq<External>,
                     base: Url, u: Url, d: Url)
    requires rootUrl in documents && Externals(documents, rootUrl, externals)
    requires Resolves(w) && IsUrl(w, base) && InnerBase(w, documents[rootUrl], rootUrl) == Some(base)
    requires d in documents && d != rootUrl && YieldsInBundle(w, walk, documents, rootUrl, d, u)
    ensures FromExternals(w, walk, externals, base, u)
  {
    ExternalsAre(documents, rootUrl, externals);
    var i :| 0 <= i < |externals| && externals[i] == External(d, documents[d]);
    EmbeddedYields(w, walk, externals[i], base, u);
  }

  // ----- Closure -----

  /** Every reference of the document is the URL of a part of it. */
  ghost predicate SelfContained(w: World, m: Members, url: Url) {
    forall u :: !Refers(w, m, url, u)
  }

  /**
   The bundle contains whatever it refers to, exactly when each URL that one of the documents refers
   to, from where it stands in the bundle, is the URL of a part of one of them there.
   */
  lemma ClosedExactly(w: World, documents: map<Url, Members>, rootUrl: Url, bundled: Members)
    requires BundleOf(documents, rootUrl, bundled) && RootOk(w, documents[rootUrl], rootUrl)
    ensures SelfContained(w, bundled, rootUrl) <==>
            forall u :: Mentioned(w, documents, rootUrl, u) ==> Located(w, documents, rootUrl, u)
  {
    forall u
      ensures Refers(w, bundled, rootUrl, u) <==>
              Mentioned(w, documents, rootUrl, u) && !Located(w, documents, rootUrl, u)
    {
      BundleOfDocuments(w, References, documents, rootUrl, bundled, u);
      BundleOfDocuments(w, Resources, documents, rootUrl, bundled, u);
    }
  }
}

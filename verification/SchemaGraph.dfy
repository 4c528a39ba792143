/**
 The Attribute Schema loader of agent/schemas.go: a depth-first fetch of a graph of schema
 documents with document, depth and byte ceilings.
 */
module SchemaGraph {
  import opened Wrappers
  import opened Sequences
  import opened Json
  import opened SchemaReferences
  import T = Text

  const MAX_DOCUMENTS := 16
  const MAX_GRAPH_BYTES := 1_048_576
  const MAX_DEPTH := 8

  // ----- The graph -----

  /** Which document refers to which, and which documents the loader can use. */
  datatype Graph = Graph(edge: (Url, Url) -> bool, usable: Url -> bool)

  ghost predicate Edge(w: World, u: Url, v: Url) {
    w.fetch(u).Some? && Refers(w, w.fetch(u).value, u, v)
  }

  /** Retrievable, conforming, with supported vocabularies and resolvable references. */
  ghost predicate Usable(w: World, u: Url) {
    && w.fetch(u).Some? && Conforms(w, w.fetch(u).value) && w.vocabulary(w.fetch(u).value)
    && !Unresolvable(w, w.fetch(u).value, u)
  }

  /** The document declares the dialect, and passes the checks of dynamic references and vocabularies. */
  ghost predicate InDialect(w: World, m: Members) {
    && "$schema" in m && m["$schema"] == String("https://json-schema.org/draft/2020-12/schema")
    && w.dynamic(m) && w.vocabulary(m)
  }

  /** A document is usable exactly when it is there, in the dialect, and every reference in it resolves. */
  lemma UsableExactly(w: World, u: Url)
    ensures Usable(w, u) <==>
            && w.fetch(u).Some?
            && var m := w.fetch(u).value;
               && InDialect(w, m)
               && !Fails(w, Walk.References, Document(m, u)) && !Fails(w, Walk.Resources, Document(m, u))
  {
  }

  /** `g` is the graph of the documents in the world `w`. */
  ghost predicate Describes(g: Graph, w: World) {
    && (forall u, v {:trigger Edge(w, u, v)} :: g.edge(u, v) <==> Edge(w, u, v))
    && (forall u {:trigger Usable(w, u)} :: g.usable(u) <==> Usable(w, u))
  }

  ghost predicate EdgeAt(g: Graph, path: seq<Url>, k: nat)
    requires k + 1 < |path|
  {
    g.edge(path[k], path[k + 1])
  }

  /** A walk along references from `root`. */
  ghost predicate Path(g: Graph, root: Url, path: seq<Url>) {
    path != [] && path[0] == root && forall k: nat :: k + 1 < |path| ==> EdgeAt(g, path, k)
  }

  ghost predicate PathTo(g: Graph, root: Url, v: Url, path: seq<Url>) {
    Path(g, root, path) && path[|path| - 1] == v
  }

  ghost predicate Reachable(g: Graph, root: Url, v: Url) {
    exists path :: PathTo(g, root, v, path)
  }

  ghost predicate ReachableIn(g: Graph, root: Url, v: Url, edges: nat) {
    exists path :: PathTo(g, root, v, path) && |path| <= edges + 1
  }

  function SizeOf(w: World, url: Url): nat {
    if w.fetch(url).Some? then w.size(w.fetch(url).value) else 0
  }

  function TotalSize(w: World, urls: seq<Url>): nat {
    if urls == [] then 0 else TotalSize(w, urls[..|urls| - 1]) + SizeOf(w, urls[|urls| - 1])
  }

  datatype SchemaError = TooManyDocuments | TooDeep | TooLarge | Unusable(url: Url)

  /** What an error of the loader has to point at in the graph. */
  ghost predicate Witnessed(w: World, g: Graph, root: Url, e: SchemaError) {
    match e
    case TooManyDocuments => exists urls :: AllReachable(g, root, urls) && |urls| == 17
    case TooDeep => exists path :: Path(g, root, path) && Distinct(path) && |path| == 10
    case TooLarge => exists urls :: AllReachable(g, root, urls) && TotalSize(w, urls) > 1_048_576
    case Unusable(u) => Reachable(g, root, u) && !g.usable(u)
  }

  /** No walk without repetition is longer than eight references. */
  ghost predicate Shallow(g: Graph, root: Url) {
    forall path :: Path(g, root, path) && Distinct(path) ==> |path| <= 9
  }

  /** Nothing but depth can stand in the way of a load. */
  ghost predicate Unobstructed(w: World, g: Graph, root: Url) {
    forall e: SchemaError :: !e.TooDeep? ==> !Witnessed(w, g, root, e)
  }

  ghost predicate AllReachable(g: Graph, root: Url, urls: seq<Url>) {
    Distinct(urls) && forall u :: u in urls ==> Reachable(g, root, u)
  }

  lemma PathSnoc(g: Graph, root: Url, path: seq<Url>, v: Url)
    requires if path == [] then v == root else Path(g, root, path) && g.edge(path[|path| - 1], v)
    ensures PathTo(g, root, v, path + [v])
  {
    var longer := path + [v];
    forall k: nat | k + 1 < |longer| ensures EdgeAt(g, longer, k) {
      if k + 1 < |path| {
        assert EdgeAt(g, path, k);
      }
    }
  }

  /** `stack` is the walk from the root through the open documents, the innermost last. */
  ghost predicate Following(g: Graph, root: Url, open: set<Url>, stack: seq<Url>) {
    (stack != [] ==> Path(g, root, stack)) && Distinct(stack) && forall u :: u in stack <==> u in open
  }

  lemma FollowingSnoc(g: Graph, root: Url, open: set<Url>, stack: seq<Url>, url: Url)
    requires Following(g, root, open, stack) && PathTo(g, root, url, stack + [url]) && url !in open
    ensures Following(g, root, open + {url}, stack + [url])
  {
  }

  lemma ReachableSnoc(g: Graph, root: Url, urls: seq<Url>, v: Url)
    requires AllReachable(g, root, urls) && v !in urls && Reachable(g, root, v)
    ensures AllReachable(g, root, urls + [v])
  {
  }

  lemma TotalSnoc(w: World, urls: seq<Url>, url: Url)
    ensures TotalSize(w, urls + [url]) == TotalSize(w, urls) + SizeOf(w, url)
  {
    assert (urls + [url])[..|urls|] == urls;
  }

  lemma UnusableWitness(w: World, g: Graph, root: Url, url: Url, path: seq<Url>)
    requires Describes(g, w) && PathTo(g, root, url, path)
    ensures !Usable(w, url) ==> Witnessed(w, g, root, Unusable(url))
    ensures Usable(w, url) <==> g.usable(url)
  {
  }

  ghost predicate AllIn(s: seq<Url>, within: set<Url>) {
    forall u :: u in s ==> u in within
  }

  lemma PrefixSnoc(s: seq<Url>, i: nat, within: set<Url>)
    requires i < |s| && AllIn(s[..i], within) && s[i] in within
    ensures AllIn(s[..i + 1], within)
  {
    assert s[..i + 1] == s[..i] + [s[i]];
  }

  lemma WholePrefix(s: seq<Url>, within: set<Url>)
    requires AllIn(s[..|s|], within)
    ensures AllIn(s, within)
  {
    assert s[..|s|] == s;
  }

  // ----- The order of the walk -----

  /** The references of a document in the order in which they are followed. */
  ghost predicate IsReferences(g: Graph, url: Url, references: seq<Url>) {
    T.Increasing(references) && forall v :: v in references <==> g.edge(url, v)
  }

  ghost function References(g: Graph, url: Url): seq<Url> {
    if exists s :: IsReferences(g, url, s) then var s :| IsReferences(g, url, s); s else []
  }

  lemma ReferencesAre(g: Graph, url: Url, references: seq<Url>)
    requires IsReferences(g, url, references)
    ensures References(g, url) == references
  {
    T.SortedIsUnique(References(g, url), references);
  }

  /** Why a document does not count as the next one at this depth, if it does not. */
  ghost function Refused(w: World, g: Graph, url: Url, done: seq<Url>, depth: nat): Option<SchemaError> {
    if |done| >= MAX_DOCUMENTS then Some(TooManyDocuments)
    else if depth > MAX_DEPTH then Some(TooDeep)
    else if w.fetch(url).None? || !Conforms(w, w.fetch(url).value) then Some(Unusable(url))
    else if TotalSize(w, done + [url]) > MAX_GRAPH_BYTES then Some(TooLarge)
    else if !g.usable(url) then Some(Unusable(url))
    else None
  }

  /** A document that is retrieved and conforms is refused for its size, or because it is not usable. */
  lemma RefusedLate(w: World, g: Graph, url: Url, done: seq<Url>, depth: nat)
    requires Describes(g, w) && |done| < MAX_DOCUMENTS && depth <= MAX_DEPTH
    requires w.fetch(url).Some? && Conforms(w, w.fetch(url).value)
    ensures var m := w.fetch(url).value;
            && TotalSize(w, done + [url]) == TotalSize(w, done) + w.size(m)
            && Refused(w, g, url, done, depth)
                 == if TotalSize(w, done) + w.size(m) > MAX_GRAPH_BYTES then Some(TooLarge)
                    else if !w.vocabulary(m) || Unresolvable(w, m, url) then Some(Unusable(url))
                    else None
  {
    TotalSnoc(w, done, url);
    assert g.usable(url) <==> Usable(w, url);
  }

  /** The documents once `url` has been loaded, `done` being there already: its references follow it, depth first. */
  ghost function Visit(w: World, g: Graph, url: Url, done: seq<Url>, depth: nat): Result<seq<Url>, SchemaError>
    requires depth <= MAX_DEPTH + 1
    decreases MAX_DEPTH + 1 - depth, 0
  {
    if url in done then Ok(done)
    else
      match Refused(w, g, url, done, depth)
      case Some(e) => Err(e)
      case None => VisitAll(w, g, References(g, url), done + [url], depth + 1)
  }

  ghost function VisitAll(w: World, g: Graph, urls: seq<Url>, done: seq<Url>, depth: nat)
    : Result<seq<Url>, SchemaError>
    requires depth <= MAX_DEPTH + 1
    decreases MAX_DEPTH + 1 - depth, 1 + |urls|
  {
    if urls == [] then Ok(done)
    else
      match Visit(w, g, urls[0], done, depth)
      case Err(e) => Err(e)
      case Ok(next) => VisitAll(w, g, urls[1..], next, depth)
  }

  /** The whole walk: the documents in the order in which they are loaded. */
  ghost function Loaded(w: World, g: Graph, root: Url): Result<seq<Url>, SchemaError> {
    Visit(w, g, root, [], 0)
  }

  /** The walk with the references from the `i`-th on still to follow. */
  ghost function VisitFrom(w: World, g: Graph, urls: seq<Url>, i: nat, done: seq<Url>, depth: nat)
    : Result<seq<Url>, SchemaError>
    requires depth <= MAX_DEPTH + 1 && i <= |urls|
  {
    VisitAll(w, g, urls[i..], done, depth)
  }

  lemma VisitNext(w: World, g: Graph, urls: seq<Url>, i: nat, done: seq<Url>, depth: nat)
    requires depth <= MAX_DEPTH + 1 && i < |urls|
    ensures VisitFrom(w, g, urls, i, done, depth)
         == match Visit(w, g, urls[i], done, depth)
            case Err(e) => Err(e)
            case Ok(next) => VisitFrom(w, g, urls, i + 1, next, depth)
  {
    assert urls[i..][0] == urls[i] && urls[i..][1..] == urls[i + 1..];
  }

  lemma VisitBegins(w: World, g: Graph, url: Url, done: seq<Url>, depth: nat, references: seq<Url>)
    requires depth <= MAX_DEPTH && url !in done && Refused(w, g, url, done, depth).None?
    requires IsReferences(g, url, references)
    ensures Visit(w, g, url, done, depth) == VisitFrom(w, g, references, 0, done + [url], depth + 1)
  {
    ReferencesAre(g, url, references);
    assert references[0..] == references;
  }

  lemma VisitEnds(w: World, g: Graph, urls: seq<Url>, done: seq<Url>, depth: nat)
    requires depth <= MAX_DEPTH + 1
    ensures VisitFrom(w, g, urls, |urls|, done, depth) == Ok(done)
  {
  }

  lemma EdgesAre(w: World, g: Graph, url: Url, references: seq<Url>)
    requires Describes(g, w) && w.fetch(url).Some? && T.Increasing(references)
    requires forall v :: v in references <==> Refers(w, w.fetch(url).value, url, v)
    ensures IsReferences(g, url, references)
  {
    forall v ensures v in references <==> g.edge(url, v) {
      assert g.edge(url, v) <==> Edge(w, url, v);
    }
  }

  // ----- The loader -----

  /** The state that the recursive closure of the source captures. */
  class Loader {
    const w: World
    ghost const g: Graph
    const root: Url
    var documents: map<Url, Members>
    var graphBytes: nat
    var fetched: seq<Url>        // every URL retrieved, in order, whatever came of it
    ghost var stored: seq<Url>   // every document that counts, in order

    constructor (w: World, ghost g: Graph, root: Url)
      ensures this.w == w && this.g == g && this.root == root
      ensures documents == map[] && graphBytes == 0 && fetched == [] && stored == []
    {
      this.w, this.g, this.root := w, g, root;
      documents, graphBytes, fetched, stored := map[], 0, [], [];
    }

    ghost predicate DocumentOk(u: Url)
      reads this`documents
      requires u in documents
    {
      w.fetch(u) == Some(documents[u]) && g.usable(u) && ReachableIn(g, root, u, MAX_DEPTH)
    }

    /** Every document that `u` refers to is loaded. */
    ghost predicate Closed(u: Url)
      reads this`documents
    {
      forall v :: g.edge(u, v) ==> v in documents
    }

    /** The documents are those stored, each once, and the ceilings hold. */
    ghost predicate WithinCeilings()
      reads this`documents, this`graphBytes, this`stored
    {
      && Distinct(stored) && |stored| == |documents| <= MAX_DOCUMENTS
      && (forall u :: u in stored <==> u in documents)
      && graphBytes == TotalSize(w, stored) <= MAX_GRAPH_BYTES
    }

    /** `open` is the set of documents whose references are still being followed. */
    ghost predicate Valid(open: set<Url>)
      reads this`documents, this`graphBytes, this`stored
    {
      && WithinCeilings()
      && open <= documents.Keys
      && (forall u {:trigger DocumentOk(u)} :: u in documents ==> DocumentOk(u))
      && (forall u {:trigger Closed(u)} :: u in documents && u !in open ==> Closed(u))
    }

    /** No URL has been retrieved twice, and no more URLs than the documents allowed. */
    ghost predicate FetchedOnce()
      reads this`fetched
    {
      Distinct(fetched) && |fetched| <= MAX_DOCUMENTS
    }

    /** The ceilings and checks before a document counts, and its retrieval. */
    method Retrieve(url: Url, ghost open: set<Url>, ghost stack: seq<Url>, depth: nat)
      returns (r: Result<Members, SchemaError>)
      requires Describes(g, w) && Valid(open) && fetched == stored && url !in documents
      requires Following(g, root, open, stack) && PathTo(g, root, url, stack + [url])
      requires depth == |stack| <= MAX_DEPTH + 1
      modifies this`fetched
      ensures Valid(open) && FetchedOnce()
      ensures r.Err? ==> Witnessed(w, g, root, r.error)
      ensures r.Ok? ==> depth <= MAX_DEPTH && |documents| < MAX_DOCUMENTS && fetched == stored + [url]
      ensures r.Ok? ==> w.fetch(url) == Some(r.value) && Conforms(w, r.value)
      ensures r.Err? ==> Refused(w, g, url, stored, depth) == Some(r.error)
    {
      if |documents| >= MAX_DOCUMENTS {
        StoredReachable(open);
        assert Reachable(g, root, url);
        ReachableSnoc(g, root, stored, url);
        return Err(TooManyDocuments);
      }
      if depth > MAX_DEPTH {
        TooDeepWitness(open, stack, url);
        return Err(TooDeep);
      }
      UnusableWitness(w, g, root, url, stack + [url]);
      DistinctSnoc(fetched, url);
      fetched := fetched + [url];
      var retrieved := w.fetch(url);
      if retrieved.None? {
        return Err(Unusable(url));
      }
      if !Conforms(w, retrieved.value) {
        return Err(Unusable(url));
      }
      return Ok(retrieved.value);
    }

    /** The byte ceiling and the remaining checks, which store the document and find its references. */
    method Store(url: Url, document: Members, ghost open: set<Url>, ghost path: seq<Url>, ghost depth: nat)
      returns (r: Result<seq<Url>, SchemaError>)
      requires Describes(g, w) && Valid(open) && url !in documents && |documents| < MAX_DOCUMENTS
      requires PathTo(g, root, url, path) && |path| <= MAX_DEPTH + 1
      requires w.fetch(url) == Some(document) && Conforms(w, document) && depth <= MAX_DEPTH
      modifies this`documents, this`graphBytes, this`stored
      ensures r.Err? ==> Witnessed(w, g, root, r.error)
      ensures r.Ok? ==> Valid(open + {url}) && stored == old(stored) + [url]
      ensures r.Ok? ==> documents.Keys == old(documents).Keys + {url}
      ensures Refused(w, g, url, old(stored), depth) == if r.Err? then Some(r.error) else None
      ensures r.Ok? ==> IsReferences(g, url, r.value)
    {
      UnusableWitness(w, g, root, url, path);
      RefusedLate(w, g, url, stored, depth);
      var total := graphBytes + w.size(document);
      if total > MAX_GRAPH_BYTES {
        TooLargeWitness(open, url, path);
        return Err(TooLarge);
      }
      if !w.vocabulary(document) {
        return Err(Unusable(url));
      }
      var references := ExternalReferences(w, document, url);
      if references.None? {
        return Err(Unusable(url));
      }
      EdgesAre(w, g, url, references.value);
      Remember(url, document, total, open, path);
      return Ok(references.value);
    }

    method Remember(url: Url, document: Members, total: nat, ghost open: set<Url>, ghost path: seq<Url>)
      requires Valid(open) && url !in documents && |documents| < MAX_DOCUMENTS
      requires PathTo(g, root, url, path) && |path| <= MAX_DEPTH + 1
      requires w.fetch(url) == Some(document) && g.usable(url)
      requires total == TotalSize(w, stored + [url]) <= MAX_GRAPH_BYTES
      modifies this`documents, this`graphBytes, this`stored
      ensures Valid(open + {url}) && documents.Keys == old(documents).Keys + {url}
      ensures stored == old(stored) + [url]
    {
      documents, graphBytes, stored := documents[url := document], total, stored + [url];
      assert DocumentOk(url);
      forall u | u in old(documents) ensures DocumentOk(u) {
        assert old(DocumentOk(u));
      }
      forall u | u in old(documents) && u !in open ensures Closed(u) {
        assert old(Closed(u));
      }
    }

    /** One new document: retrieved, checked and stored, with the references that it makes. */
    method Take(url: Url, ghost open: set<Url>, ghost stack: seq<Url>, depth: nat)
      returns (r: Result<seq<Url>, SchemaError>)
      requires Describes(g, w) && Valid(open) && fetched == stored && url !in documents
      requires Following(g, root, open, stack) && PathTo(g, root, url, stack + [url])
      requires depth == |stack| <= MAX_DEPTH + 1
      modifies this`documents, this`graphBytes, this`stored, this`fetched
      ensures FetchedOnce()
      ensures r.Err? ==> Witnessed(w, g, root, r.error)
      ensures r.Ok? ==> depth <= MAX_DEPTH && Valid(open + {url}) && fetched == stored
      ensures r.Ok? ==> documents.Keys == old(documents).Keys + {url} && stored == old(stored) + [url]
      ensures Refused(w, g, url, old(stored), depth) == if r.Err? then Some(r.error) else None
      ensures r.Ok? ==> IsReferences(g, url, r.value)
    {
      var retrieved := Retrieve(url, open, stack, depth);
      if retrieved.Err? {
        return Err(retrieved.error);
      }
      r := Store(url, retrieved.value, open, stack + [url], depth);
    }

    method Load(url: Url, ghost open: set<Url>, ghost stack: seq<Url>, depth: nat) returns (e: Option<SchemaError>)
      requires Describes(g, w)
      requires Valid(open) && fetched == stored && Following(g, root, open, stack)
      requires depth == |stack| <= MAX_DEPTH + 1
      requires if stack == [] then url == root else g.edge(stack[|stack| - 1], url)
      modifies this`documents, this`graphBytes, this`stored, this`fetched
      ensures FetchedOnce()
      ensures e.None? ==> Valid(open) && fetched == stored && url in documents && old(documents).Keys <= documents.Keys
      ensures e.Some? ==> Witnessed(w, g, root, e.value)
      ensures Visit(w, g, url, old(stored), depth) == if e.Some? then Err(e.value) else Ok(stored)
      decreases MAX_DEPTH + 1 - depth, 0
    {
      if url in documents {
        return None;
      }
      PathSnoc(g, root, stack, url);
      FollowingSnoc(g, root, open, stack, url);
      var taken := Take(url, open, stack, depth);
      if taken.Err? {
        return Some(taken.error);
      }
      var references := taken.value;
      VisitBegins(w, g, url, old(stored), depth, references);
      e := LoadAll(references, open + {url}, stack + [url], depth + 1);
      assert e.None? ==> Closed(url);
    }

    /** The loop over the references of the innermost open document. */
    method LoadAll(references: seq<Url>, ghost open: set<Url>, ghost stack: seq<Url>, depth: nat)
      returns (e: Option<SchemaError>)
      requires Describes(g, w)
      requires Valid(open) && fetched == stored && Following(g, root, open, stack)
      requires 0 < depth == |stack| <= MAX_DEPTH + 1
      requires forall v :: v in references ==> g.edge(stack[|stack| - 1], v)
      modifies this`documents, this`graphBytes, this`stored, this`fetched
      ensures FetchedOnce()
      ensures e.None? ==> Valid(open) && fetched == stored && old(documents).Keys <= documents.Keys
      ensures e.None? ==> AllIn(references, documents.Keys)
      ensures e.Some? ==> Witnessed(w, g, root, e.value)
      ensures VisitFrom(w, g, references, 0, old(stored), depth) == if e.Some? then Err(e.value) else Ok(stored)
      decreases MAX_DEPTH + 1 - depth, 1
    {
      ghost var visited := VisitFrom(w, g, references, 0, stored, depth);
      for i := 0 to |references|
        invariant Valid(open) && fetched == stored && old(documents).Keys <= documents.Keys
        invariant AllIn(references[..i], documents.Keys)
        invariant visited == VisitFrom(w, g, references, i, stored, depth)
      {
        assert references[i] in references;
        VisitNext(w, g, references, i, stored, depth);
        var error := Load(references[i], open, stack, depth);
        if error.Some? {
          return error;
        }
        PrefixSnoc(references, i, documents.Keys);
      }
      VisitEnds(w, g, references, stored, depth);
      WholePrefix(references, documents.Keys);
      return None;
    }

    lemma TooLargeWitness(open: set<Url>, url: Url, path: seq<Url>)
      requires Valid(open) && url !in documents && PathTo(g, root, url, path)
      requires TotalSize(w, stored + [url]) > MAX_GRAPH_BYTES
      ensures Witnessed(w, g, root, TooLarge)
    {
      StoredReachable(open);
      assert Reachable(g, root, url);
      ReachableSnoc(g, root, stored, url);
    }

    lemma StoredReachable(open: set<Url>)
      requires Valid(open)
      ensures AllReachable(g, root, stored)
    {
      forall u | u in stored ensures Reachable(g, root, u) {
        assert DocumentOk(u);
      }
    }

    lemma TooDeepWitness(open: set<Url>, stack: seq<Url>, url: Url)
      requires Valid(open) && url !in documents && Following(g, root, open, stack)
      requires PathTo(g, root, url, stack + [url]) && |stack| == MAX_DEPTH + 1
      ensures Witnessed(w, g, root, TooDeep)
    {
      assert Distinct(stack + [url]);
    }
  }

  /** A set of documents that contains the root and is closed under references contains every path. */
  lemma {:induction false} ClosedContainsPath(g: Graph, root: Url, path: seq<Url>, documents: set<Url>)
    requires root in documents && forall u, v :: u in documents && g.edge(u, v) ==> v in documents
    requires Path(g, root, path)
    ensures path[|path| - 1] in documents
    decreases |path|
  {
    if |path| > 1 {
      var n := |path| - 1;
      forall k: nat | k + 1 < n ensures EdgeAt(g, path[..n], k) {
        assert EdgeAt(g, path, k);
      }
      ClosedContainsPath(g, root, path[..n], documents);
      assert EdgeAt(g, path, n - 1);
    }
  }

  /**
   Loading from the root is the depth-first walk that follows references in sorted order. On success
   the documents are exactly those reachable through references, each usable, within the ceilings, and
   each at most eight references from the root; a failure points at its cause in the graph. In a graph
   without a long walk, success means exactly that there is no such cause. No URL is retrieved twice,
   whether the load succeeds or fails.
   */
  method LoadGraph(w: World, ghost g: Graph, root: Url)
    returns (r: Result<map<Url, Members>, SchemaError>, fetched: seq<Url>)
    requires Describes(g, w)
    ensures Loaded(w, g, root) == if r.Err? then Err(r.error) else Ok(fetched)
    ensures r.Err? ==> Witnessed(w, g, root, r.error)
    ensures Distinct(fetched) && |fetched| <= 16
    ensures r.Ok? ==> Unobstructed(w, g, root)
    ensures Shallow(g, root) ==> (r.Ok? <==> Unobstructed(w, g, root))
    ensures r.Ok? ==>
              && (forall u :: u in r.value <==> Reachable(g, root, u))
              && (forall u :: u in r.value ==> w.fetch(u) == Some(r.value[u]) && Usable(w, u)
                                               && ReachableIn(g, root, u, 8))
              && (forall u :: u in r.value ==> InDialect(w, r.value[u]))
              && (forall u :: u in fetched <==> u in r.value)
              && |r.value| <= 16 && TotalSize(w, fetched) <= 1_048_576
  {
    var loader := new Loader(w, g, root);
    assert loader.Valid({});
    var error := loader.Load(root, {}, [], 0);
    if error.Some? {
      assert Shallow(g, root) ==> !error.value.TooDeep?;
      return Err(error.value), loader.fetched;
    }
    var documents := loader.documents;
    forall u | u in documents
      ensures w.fetch(u) == Some(documents[u]) && Usable(w, u) && ReachableIn(g, root, u, MAX_DEPTH)
      ensures InDialect(w, documents[u])
    {
      UsableExactly(w, u);
      assert loader.DocumentOk(u) && (g.usable(u) <==> Usable(w, u));
    }
    forall u, v | u in documents && g.edge(u, v) ensures v in documents {
      assert loader.Closed(u);
    }
    forall u ensures u in documents <==> Reachable(g, root, u) {
      if Reachable(g, root, u) {
        var path :| PathTo(g, root, u, path);
        ClosedContainsPath(g, root, path, documents.Keys);
      }
    }
    WitnessExactly(w, g, root, loader.fetched);
    return Ok(documents), loader.fetched;
  }

  lemma {:induction false} DistinctWithin(urls: seq<Url>, s: set<Url>)
    requires Distinct(urls) && forall u :: u in urls ==> u in s
    ensures |urls| <= |s|
    decreases |urls|
  {
    if urls != [] {
      var last := urls[|urls| - 1];
      DistinctWithin(urls[..|urls| - 1], s - {last});
    }
  }

  lemma {:induction false} TotalWithout(w: World, urls: seq<Url>, i: nat)
    requires i < |urls|
    ensures TotalSize(w, urls) == TotalSize(w, urls[..i] + urls[i + 1..]) + SizeOf(w, urls[i])
    decreases |urls|
  {
    var n := |urls| - 1;
    if i == n {
      assert urls[..i] + urls[i + 1..] == urls[..n];
    } else {
      TotalWithout(w, urls[..n], i);
      assert urls[..n][..i] + urls[..n][i + 1..] == (urls[..i] + urls[i + 1..])[..n - 1];
    }
  }

  lemma {:induction false} TotalOfSome(w: World, some: seq<Url>, all: seq<Url>)
    requires Distinct(some) && Distinct(all) && forall u :: u in some ==> u in all
    ensures TotalSize(w, some) <= TotalSize(w, all)
    decreases |some|
  {
    if some != [] {
      var n := |some| - 1;
      assert some[n] in all;
      var i :| 0 <= i < |all| && all[i] == some[n];
      var rest := all[..i] + all[i + 1..];
      TotalWithout(w, all, i);
      forall u | u in some[..n] ensures u in rest {
        assert u in some && u in all;
        var k :| 0 <= k < |all| && all[k] == u;
        assert k != i;
        assert rest[if k < i then k else k - 1] == u;
      }
      TotalOfSome(w, some[..n], rest);
    }
  }

  lemma ReachedOnTheWay(g: Graph, root: Url, path: seq<Url>, k: nat)
    requires Path(g, root, path) && k < |path|
    ensures Reachable(g, root, path[k])
  {
    var part := path[..k + 1];
    forall i: nat | i + 1 < |part| ensures EdgeAt(g, part, i) {
      assert EdgeAt(g, path, i);
    }
    assert PathTo(g, root, path[k], part);
  }

  lemma NoMoreThan(g: Graph, root: Url, all: seq<Url>, urls: seq<Url>)
    requires Distinct(urls) && forall u :: u in urls ==> u in all
    ensures |urls| <= |all|
  {
    DistinctWithin(urls, set u | u in all);
    SetWithin(all);
  }

  lemma WitnessIn(w: World, g: Graph, root: Url, all: seq<Url>, urls: seq<Url>)
    requires (forall u :: u in all <==> Reachable(g, root, u)) && Distinct(all) && AllReachable(g, root, urls)
    ensures |urls| <= |all| && TotalSize(w, urls) <= TotalSize(w, all)
  {
    NoMoreThan(g, root, all, urls);
    TotalOfSome(w, urls, all);
  }

  lemma FewAreShallow(g: Graph, root: Url, all: seq<Url>)
    requires (forall u :: u in all <==> Reachable(g, root, u)) && |all| <= 9
    ensures Shallow(g, root)
  {
    forall path | Path(g, root, path) && Distinct(path) ensures |path| <= 9 {
      forall u | u in path ensures u in all {
        var k :| 0 <= k < |path| && path[k] == u;
        ReachedOnTheWay(g, root, path, k);
      }
      NoMoreThan(g, root, all, path);
    }
  }

  /**
   What stands in the way of a load, read off a list `all` of the reachable documents: there are more
   than sixteen, they are more than 1 MiB together, or one of them is unusable. Nine or fewer have no
   long walk among them.
   */
  lemma WitnessExactly(w: World, g: Graph, root: Url, all: seq<Url>)
    requires Distinct(all) && forall u :: u in all <==> Reachable(g, root, u)
    ensures Witnessed(w, g, root, TooManyDocuments) <==> |all| > 16
    ensures Witnessed(w, g, root, TooLarge) <==> TotalSize(w, all) > 1_048_576
    ensures forall u :: Witnessed(w, g, root, Unusable(u)) <==> u in all && !g.usable(u)
    ensures |all| <= 9 ==> Shallow(g, root)
    ensures Unobstructed(w, g, root) <==>
            |all| <= 16 && TotalSize(w, all) <= 1_048_576 && forall u :: u in all ==> g.usable(u)
  {
    forall urls | AllReachable(g, root, urls)
      ensures |urls| <= |all| && TotalSize(w, urls) <= TotalSize(w, all)
    {
      WitnessIn(w, g, root, all, urls);
    }
    assert AllReachable(g, root, all);
    if |all| > 16 {
      assert AllReachable(g, root, all[..17]);
    }
    if |all| <= 9 {
      FewAreShallow(g, root, all);
    }
    forall u ensures Witnessed(w, g, root, Unusable(u)) <==> u in all && !g.usable(u) {
    }
    if |all| <= 16 && TotalSize(w, all) <= 1_048_576 && forall u :: u in all ==> g.usable(u) {
      assert forall e: SchemaError :: Witnessed(w, g, root, e) ==> e.TooDeep?;
    }
  }

  lemma {:induction false} SetWithin(urls: seq<Url>)
    ensures |set u | u in urls| <= |urls|
    decreases |urls|
  {
    if urls != [] {
      var n := |urls| - 1;
      SetWithin(urls[..n]);
      assert (set u | u in urls) == (set u | u in urls[..n]) + {urls[n]} by {
        assert urls == urls[..n] + [urls[n]];
      }
    }
  }
}

/**
 The relationship check of the static catalog, service/static_catalog.go: a memoised depth-first
 search over Collection parents decides whether the hierarchy is closed, acyclic and at most
 32 edges deep.
 */
module Hierarchy {
  import opened Wrappers

  const MAX_EDGES := 32

  datatype Collection = Collection(id: string, parentIds: seq<string>)

  datatype Offering = Offering(id: string, collectionIds: seq<string>)

  datatype CatalogError =
    | DuplicateOffering
    | DuplicateCollection
    | UnknownCollection(offering: string, collection: string)
    | UnknownParent(collection: string, parent: string)
    | Cyclic
    | TooDeep

  type Graph = map<string, Collection>

  /** `byId` is the identifier index of `collections`. */
  ghost predicate IsIndex(byId: Graph, collections: seq<Collection>) {
    && (forall c :: c in collections ==> c.id in byId && byId[c.id] == c)
    && (forall id :: id in byId ==> byId[id] in collections && byId[id].id == id)
  }

  // ----- The declarative specification -----

  /** A walk from a Collection to a parent, to a parent of that parent, and so on. */
  ghost predicate Chain(byId: Graph, path: seq<string>) {
    && path != []
    && (forall k :: 0 <= k < |path| ==> path[k] in byId)
    && (forall k :: 0 <= k < |path| - 1 ==> path[k + 1] in byId[path[k]].parentIds)
  }

  ghost predicate ChainFrom(byId: Graph, id: string, path: seq<string>) {
    Chain(byId, path) && path[0] == id
  }

  ghost predicate HasCycle(byId: Graph) {
    exists path :: Chain(byId, path) && |path| > 1 && path[0] == path[|path| - 1]
  }

  ghost predicate ChainsWithin(byId: Graph, edges: nat) {
    forall path :: Chain(byId, path) ==> |path| <= edges + 1
  }

  /** The longest chain from `id` has exactly `edges` edges. */
  ghost predicate Longest(byId: Graph, id: string, edges: nat) {
    && (exists path :: ChainFrom(byId, id, path) && |path| == edges + 1)
    && (forall path :: ChainFrom(byId, id, path) ==> |path| <= edges + 1)
  }

  ghost predicate ParentsKnown(byId: Graph) {
    forall id :: id in byId ==> forall p :: p in byId[id].parentIds ==> p in byId
  }

  ghost predicate MembersKnown(byId: Graph, offerings: seq<Offering>) {
    forall o :: o in offerings ==> forall id :: id in o.collectionIds ==> id in byId
  }

  ghost predicate WellRelated(byId: Graph, offerings: seq<Offering>) {
    MembersKnown(byId, offerings) && ParentsKnown(byId) && !HasCycle(byId) && ChainsWithin(byId, 32)
  }

  /** What an error of the search has to point at in the graph. */
  ghost predicate Witnessed(byId: Graph, error: CatalogError) {
    match error
    case UnknownParent(id, p) => id in byId && p in byId[id].parentIds && p !in byId
    case Cyclic => HasCycle(byId)
    case TooDeep => exists path :: Chain(byId, path) && |path| == 34
    case _ => false
  }

  // ----- The memo table -----

  type Memo = map<string, nat>

  /** `depth` is one more than the deepest of `parents`, and zero when there are none. */
  ghost predicate Above(depths: Memo, parents: seq<string>, depth: nat) {
    && (forall p :: p in parents ==> p in depths && depths[p] < depth)
    && (depth > 0 ==> exists p :: p in parents && p in depths && depths[p] + 1 == depth)
  }

  ghost predicate EntryOk(byId: Graph, depths: Memo, id: string)
    requires id in depths
  {
    id in byId && depths[id] <= MAX_EDGES && Above(depths, byId[id].parentIds, depths[id])
  }

  ghost predicate MemoOk(byId: Graph, depths: Memo) {
    forall id {:trigger EntryOk(byId, depths, id)} :: id in depths ==> EntryOk(byId, depths, id)
  }

  ghost predicate Keeps(before: Memo, after: Memo) {
    forall id :: id in before ==> id in after && after[id] == before[id]
  }

  lemma AboveKept(before: Memo, after: Memo, parents: seq<string>, depth: nat)
    requires Keeps(before, after) && Above(before, parents, depth)
    ensures Above(after, parents, depth)
  {
    if depth > 0 {
      var p :| p in parents && p in before && before[p] + 1 == depth;
      assert p in after && after[p] + 1 == depth;
    }
  }

  /** The loop over the parents, one parent further. */
  lemma AboveNext(before: Memo, after: Memo, parents: seq<string>, i: nat, depth: nat)
    requires i < |parents| && Keeps(before, after) && Above(before, parents[..i], depth)
    requires parents[i] in after
    ensures Above(after, parents[..i + 1],
                  if depth < after[parents[i]] + 1 then after[parents[i]] + 1 else depth)
  {
    var p := parents[i];
    assert parents[..i + 1] == parents[..i] + [p];
    AboveKept(before, after, parents[..i], depth);
    if after[p] + 1 <= depth {
      var q :| q in parents[..i] && q in after && after[q] + 1 == depth;
      assert q in parents[..i + 1];
    } else {
      assert p in parents[..i + 1];
    }
  }

  /** Along a chain that starts in the table the depth falls by at least one an edge. */
  lemma {:induction false} DepthFalls(byId: Graph, depths: Memo, path: seq<string>)
    requires MemoOk(byId, depths) && Chain(byId, path) && path[0] in depths
    ensures path[|path| - 1] in depths
    ensures depths[path[|path| - 1]] + |path| - 1 <= depths[path[0]]
    decreases |path|
  {
    if |path| > 1 {
      assert EntryOk(byId, depths, path[0]);
      assert path[1] in byId[path[0]].parentIds;
      assert Chain(byId, path[1..]) by {
        forall k | 0 <= k < |path[1..]| - 1 ensures path[1..][k + 1] in byId[path[1..][k]].parentIds {
          assert path[k + 1 + 1] in byId[path[k + 1]].parentIds;
        }
      }
      DepthFalls(byId, depths, path[1..]);
    }
  }

  lemma ChainCons(byId: Graph, id: string, path: seq<string>)
    requires Chain(byId, path) && id in byId && path[0] in byId[id].parentIds
    ensures ChainFrom(byId, id, [id] + path)
  {
    var longer := [id] + path;
    forall k | 0 <= k < |longer| - 1 ensures longer[k + 1] in byId[longer[k]].parentIds {
      if k > 0 {
        assert path[k - 1 + 1] in byId[path[k - 1]].parentIds;
      }
    }
  }

  lemma {:induction false} DeepestChain(byId: Graph, depths: Memo, id: string) returns (path: seq<string>)
    requires MemoOk(byId, depths) && id in depths
    ensures ChainFrom(byId, id, path) && |path| == depths[id] + 1
    decreases depths[id]
  {
    assert EntryOk(byId, depths, id);
    if depths[id] == 0 {
      path := [id];
    } else {
      var p :| p in byId[id].parentIds && p in depths && depths[p] + 1 == depths[id];
      path := DeepestChain(byId, depths, p);
      ChainCons(byId, id, path);
      path := [id] + path;
    }
  }

  /** A memoised depth is the exact length of the longest parent chain. */
  lemma MemoIsLongest(byId: Graph, depths: Memo, id: string)
    requires MemoOk(byId, depths) && id in depths
    ensures Longest(byId, id, depths[id]) && depths[id] <= MAX_EDGES
  {
    assert EntryOk(byId, depths, id);
    var path := DeepestChain(byId, depths, id);
    forall path | ChainFrom(byId, id, path) ensures |path| <= depths[id] + 1 {
      DepthFalls(byId, depths, path);
    }
  }

  /** A table that covers the graph proves it closed, acyclic and shallow. */
  lemma FullMemo(byId: Graph, depths: Memo)
    requires MemoOk(byId, depths) && byId.Keys <= depths.Keys
    ensures ParentsKnown(byId) && !HasCycle(byId) && ChainsWithin(byId, MAX_EDGES)
  {
    forall id | id in byId ensures forall p :: p in byId[id].parentIds ==> p in byId {
      assert EntryOk(byId, depths, id);
      forall p | p in byId[id].parentIds ensures p in byId {
        assert EntryOk(byId, depths, p);
      }
    }
    forall path | Chain(byId, path)
      ensures |path| <= MAX_EDGES + 1
      ensures |path| > 1 ==> path[0] != path[|path| - 1]
    {
      assert EntryOk(byId, depths, path[0]);
      DepthFalls(byId, depths, path);
    }
  }

  lemma MemoGrows(byId: Graph, depths: Memo, id: string, depth: nat)
    requires MemoOk(byId, depths) && id in byId && id !in depths && depth <= MAX_EDGES
    requires Above(depths, byId[id].parentIds, depth)
    ensures MemoOk(byId, depths[id := depth])
  {
    var after := depths[id := depth];
    AboveKept(depths, after, byId[id].parentIds, depth);
    forall x | x in depths ensures EntryOk(byId, after, x) {
      assert EntryOk(byId, depths, x);
      AboveKept(depths, after, byId[x].parentIds, depths[x]);
    }
  }

  // ----- The search -----

  /** Exactly the Collections of the stack are marked as being visited. */
  ghost predicate Marks(visiting: map<string, bool>, stack: seq<string>) {
    forall id :: (id in visiting && visiting[id]) <==> id in stack
  }

  ghost predicate Disjoint(depths: Memo, stack: seq<string>) {
    forall id :: id in stack ==> id !in depths
  }

  lemma MarkEnter(visiting: map<string, bool>, stack: seq<string>, id: string)
    requires Marks(visiting, stack)
    ensures Marks(visiting[id := true], stack + [id])
  {
  }

  lemma MarkLeave(visiting: map<string, bool>, depths: Memo, stack: seq<string>, id: string, depth: nat)
    requires Marks(visiting, stack + [id]) && Disjoint(depths, stack + [id]) && id !in stack
    ensures Marks(visiting[id := false], stack)
    ensures id !in depths && Disjoint(depths[id := depth], stack)
  {
    assert forall x :: x in stack + [id] <==> x in stack || x == id;
  }

  ghost function Unvisited(byId: Graph, stack: seq<string>): set<string> {
    set id | id in byId && id !in stack
  }

  lemma VisitShrinks(byId: Graph, stack: seq<string>, id: string)
    requires id in byId && id !in stack
    ensures Unvisited(byId, stack + [id]) < Unvisited(byId, stack)
  {
    assert id in Unvisited(byId, stack);
    assert id in stack + [id];
  }

  /** The state that the recursive closure of the source captures. */
  class Search {
    const byId: Graph
    var depths: Memo
    var visiting: map<string, bool>

    constructor (byId: Graph)
      ensures this.byId == byId && depths == map[] && visiting == map[]
    {
      this.byId := byId;
      depths := map[];
      visiting := map[];
    }

    /** `stack` lists the Collections whose visit is in progress, the innermost last. */
    ghost predicate Valid(stack: seq<string>)
      reads this
    {
      && MemoOk(byId, depths)
      && (stack != [] ==> Chain(byId, stack))
      && Marks(visiting, stack)
      && Disjoint(depths, stack)
    }

    method Depth(collection: Collection, ghost stack: seq<string>) returns (r: Result<nat, CatalogError>)
      requires forall id :: id in byId ==> byId[id].id == id
      requires Valid(stack)
      requires collection.id in byId && byId[collection.id] == collection
      requires stack != [] ==> collection.id in byId[stack[|stack| - 1]].parentIds
      modifies this`depths, this`visiting
      ensures r.Ok? ==> Valid(stack)
      ensures r.Ok? ==> collection.id in depths && depths[collection.id] == r.value
      ensures r.Ok? ==> Longest(byId, collection.id, r.value) && r.value <= MAX_EDGES
      ensures Keeps(old(depths), depths)
      ensures r.Err? ==> Witnessed(byId, r.error)
      decreases Unvisited(byId, stack)
    {
      ghost var id := collection.id;
      if collection.id in depths {
        MemoIsLongest(byId, depths, id);
        return Ok(depths[collection.id]);
      }
      if collection.id in visiting && visiting[collection.id] {
        CycleOf(byId, stack, id);
        return Err(Cyclic);
      }
      MarkEnter(visiting, stack, id);
      visiting := visiting[collection.id := true];
      ghost var inner := stack + [id];
      ChainSnoc(byId, stack, id);
      VisitShrinks(byId, stack, id);
      var maximum: nat := 0;
      for i := 0 to |collection.parentIds|
        invariant Valid(inner)
        invariant Keeps(old(depths), depths)
        invariant Above(depths, collection.parentIds[..i], maximum)
      {
        var parentId := collection.parentIds[i];
        if parentId !in byId {
          return Err(UnknownParent(collection.id, parentId));
        }
        ghost var before := depths;
        var parentDepth := Depth(byId[parentId], inner);
        if parentDepth.Err? {
          return Err(parentDepth.error);
        }
        AboveNext(before, depths, collection.parentIds, i, maximum);
        maximum := if maximum < parentDepth.value + 1 then parentDepth.value + 1 else maximum;
      }
      assert collection.parentIds[..|collection.parentIds|] == collection.parentIds;
      MarkLeave(visiting, depths, stack, id, maximum);
      visiting := visiting[collection.id := false];
      if maximum > MAX_EDGES {
        ChainTooLong(byId, depths, id, maximum);
        return Err(TooDeep);
      }
      MemoGrows(byId, depths, id, maximum);
      depths := depths[collection.id := maximum];
      MemoIsLongest(byId, depths, id);
      return Ok(maximum);
    }
  }

  lemma ChainSnoc(byId: Graph, stack: seq<string>, id: string)
    requires stack != [] ==> Chain(byId, stack) && id in byId[stack[|stack| - 1]].parentIds
    requires id in byId
    ensures Chain(byId, stack + [id])
  {
  }

  lemma ChainTooLong(byId: Graph, depths: Memo, id: string, depth: nat)
    requires MemoOk(byId, depths) && id in byId
    requires Above(depths, byId[id].parentIds, depth) && depth > MAX_EDGES
    ensures Witnessed(byId, TooDeep)
  {
    var p :| p in byId[id].parentIds && p in depths && depths[p] + 1 == depth;
    assert EntryOk(byId, depths, p);
    var path := DeepestChain(byId, depths, p);
    ChainCons(byId, id, path);
    assert Chain(byId, [id] + path);
  }

  lemma CycleOf(byId: Graph, stack: seq<string>, id: string)
    requires Chain(byId, stack) && id in stack && id in byId[stack[|stack| - 1]].parentIds
    ensures HasCycle(byId)
  {
    var k :| 0 <= k < |stack| && stack[k] == id;
    var cycle := stack[k..] + [id];
    ChainSnoc(byId, stack, id);
    forall j | 0 <= j < |cycle| - 1 ensures cycle[j + 1] in byId[cycle[j]].parentIds {
      assert (stack + [id])[k + j + 1] in byId[(stack + [id])[k + j]].parentIds;
    }
    assert Chain(byId, cycle);
  }

  /** The whole check: Offerings first, then the depth of every Collection. */
  method ValidateRelationships(offerings: seq<Offering>, collections: seq<Collection>, byId: Graph)
    returns (r: Result<Memo, CatalogError>)
    requires IsIndex(byId, collections)
    ensures r.Ok? <==> WellRelated(byId, offerings)
    ensures r.Ok? ==> r.value.Keys == byId.Keys && forall id :: id in r.value ==> Longest(byId, id, r.value[id])
    ensures r.Err? && r.error.UnknownCollection? <==> !MembersKnown(byId, offerings)
    ensures r.Err? && r.error.UnknownCollection? ==>
              exists o :: o in offerings && o.id == r.error.offering && r.error.collection in o.collectionIds
                       && r.error.collection !in byId
    ensures r.Err? && !r.error.UnknownCollection? ==> Witnessed(byId, r.error)
  {
    for i := 0 to |offerings|
      invariant MembersKnown(byId, offerings[..i])
    {
      var ids := offerings[i].collectionIds;
      for j := 0 to |ids|
        invariant forall id :: id in ids[..j] ==> id in byId
      {
        if ids[j] !in byId {
          assert offerings[i] in offerings && ids[j] in offerings[i].collectionIds;
          return Err(UnknownCollection(offerings[i].id, ids[j]));
        }
      }
    }
    assert offerings[..|offerings|] == offerings;
    var search := new Search(byId);
    for i := 0 to |collections|
      invariant search.byId == byId && search.Valid([])
      invariant forall c :: c in collections[..i] ==> c.id in search.depths
    {
      var depth := search.Depth(collections[i], []);
      if depth.Err? {
        WitnessRefutes(byId, offerings, depth.error);
        return Err(depth.error);
      }
    }
    assert collections[..|collections|] == collections;
    forall id | id in byId ensures id in search.depths {
      assert byId[id] in collections;
    }
    FullMemo(byId, search.depths);
    forall id | id in search.depths ensures id in byId && Longest(byId, id, search.depths[id]) {
      assert EntryOk(byId, search.depths, id);
      MemoIsLongest(byId, search.depths, id);
    }
    return Ok(search.depths);
  }

  lemma WitnessRefutes(byId: Graph, offerings: seq<Offering>, error: CatalogError)
    requires Witnessed(byId, error)
    ensures !WellRelated(byId, offerings)
  {
  }

  ghost predicate UniqueOfferings(offerings: seq<Offering>) {
    forall i, j :: 0 <= i < j < |offerings| ==> offerings[i].id != offerings[j].id
  }

  ghost predicate UniqueCollections(collections: seq<Collection>) {
    forall i, j :: 0 <= i < j < |collections| ==> collections[i].id != collections[j].id
  }

  /**
   What NewStaticCatalog accepts, apart from the schema of each resource: unique identifiers on
   both sides and a well-related hierarchy. The index it returns serves `GetCollection`.
   */
  method CheckCatalog(offerings: seq<Offering>, collections: seq<Collection>)
    returns (r: Result<Graph, CatalogError>)
    ensures r.Ok? ==>
              && UniqueOfferings(offerings) && UniqueCollections(collections)
              && IsIndex(r.value, collections) && WellRelated(r.value, offerings)
    ensures r.Err? && r.error.DuplicateOffering? <==> !UniqueOfferings(offerings)
    ensures r.Err? && r.error.DuplicateCollection? <==>
              UniqueOfferings(offerings) && !UniqueCollections(collections)
    ensures r.Err? && !r.error.DuplicateOffering? && !r.error.DuplicateCollection? ==>
              forall byId :: IsIndex(byId, collections) ==> !WellRelated(byId, offerings)
  {
    var seen: set<string> := {};
    for i := 0 to |offerings|
      invariant UniqueOfferings(offerings[..i])
      invariant seen == set k | 0 <= k < i :: offerings[k].id
    {
      if offerings[i].id in seen {
        return Err(DuplicateOffering);
      }
      seen := seen + {offerings[i].id};
    }
    var byId: Graph := map[];
    for i := 0 to |collections|
      invariant UniqueCollections(collections[..i])
      invariant byId.Keys == set k | 0 <= k < i :: collections[k].id
      invariant forall k :: 0 <= k < i ==> collections[k].id in byId && byId[collections[k].id] == collections[k]
    {
      if collections[i].id in byId {
        return Err(DuplicateCollection);
      }
      byId := byId[collections[i].id := collections[i]];
    }
    assert collections[..|collections|] == collections && offerings[..|offerings|] == offerings;
    assert IsIndex(byId, collections);
    var checked := ValidateRelationships(offerings, collections, byId);
    if checked.Err? {
      forall other | IsIndex(other, collections) ensures other == byId {
        SameIndex(byId, other, collections);
      }
      return Err(checked.error);
    }
    return Ok(byId);
  }

  lemma SameIndex(a: Graph, b: Graph, collections: seq<Collection>)
    requires IsIndex(a, collections) && IsIndex(b, collections)
    ensures a == b
  {
    assert forall id :: id in a ==> a[id] in collections;
    assert forall id :: id in b ==> b[id] in collections;
  }

  /** A cycle gives chains of every length, so the depth limit alone already refuses it. */
  lemma {:induction false} CycleIsUnbounded(byId: Graph, edges: nat)
    requires HasCycle(byId)
    ensures !ChainsWithin(byId, edges)
  {
    var cycle :| Chain(byId, cycle) && |cycle| > 1 && cycle[0] == cycle[|cycle| - 1];
    var path := cycle;
    while |path| <= edges + 1
      invariant Chain(byId, path) && path[0] == cycle[0] && |path| > 1
      decreases edges + 1 - |path|
    {
      var longer := cycle + path[1..];
      forall k | 0 <= k < |longer| - 1 ensures longer[k + 1] in byId[longer[k]].parentIds {
        if k < |cycle| - 1 {
          assert cycle[k + 1] in byId[cycle[k]].parentIds;
        } else {
          var j := k - (|cycle| - 1);
          assert path[j + 1] in byId[path[j]].parentIds;
        }
      }
      path := longer;
    }
  }
}

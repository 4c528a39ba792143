/**
 The composition of search capabilities, agent/capabilities.go: filters and sorts come from the
 Service and from a Collection, inline or linked; a source is taken whole or not at all, and an
 identifier that both publish is dropped from both.
 */
module Capabilities {
  import opened Wrappers
  import opened Sequences
  import T = Text

  const MAX_PAGES := 16
  const MAX_FILTERS := 1024
  const MAX_SORTS := 128

  // ----- Linked sources -----

  type Reference = string
  type Url = string

  datatype Page<D> = Page(items: seq<D>, next: Option<Reference>)

  datatype LoadError = Unresolvable(reference: Reference) | Unavailable(url: Url) | Loop(url: Url) | OverBudget
                     | TooManyPages

  /** The server, an arbitrary function of the number of the request and its address. */
  type Server<!D> = (nat, Url) -> Option<Page<D>>

  function Items<D>(pages: seq<Page<D>>): seq<D> {
    if pages == [] then [] else Items(pages[..|pages| - 1]) + pages[|pages| - 1].items
  }

  /** The reference that request `k` follows: the source's own, or the continuation of the page before. */
  function Followed<D>(reference: Option<Reference>, pages: seq<Page<D>>, k: nat): Option<Reference>
    requires k <= |pages|
  {
    if k == 0 then reference else pages[k - 1].next
  }

  /** Page `k` is what the server answers at the address that its reference resolves to. */
  ghost predicate Retrieved<D>(reference: Option<Reference>, server: Server<D>, resolve: Reference -> Option<Url>,
                               pages: seq<Page<D>>, urls: seq<Url>, k: nat)
    requires k < |pages| && k < |urls|
  {
    && Followed(reference, pages, k).Some?
    && resolve(Followed(reference, pages, k).value) == Some(urls[k])
    && server(k, urls[k]) == Some(pages[k])
  }

  ghost predicate Chain<D>(reference: Option<Reference>, server: Server<D>, resolve: Reference -> Option<Url>,
                           pages: seq<Page<D>>, urls: seq<Url>)
  {
    |pages| == |urls| && forall k: nat :: k < |pages| ==> Retrieved(reference, server, resolve, pages, urls, k)
  }

  lemma ChainSnoc<D>(reference: Option<Reference>, server: Server<D>, resolve: Reference -> Option<Url>,
                     pages: seq<Page<D>>, urls: seq<Url>, page: Page<D>, url: Url)
    requires Chain(reference, server, resolve, pages, urls)
    requires Followed(reference, pages, |pages|).Some?
    requires resolve(Followed(reference, pages, |pages|).value) == Some(url) && server(|pages|, url) == Some(page)
    ensures Chain(reference, server, resolve, pages + [page], urls + [url])
    ensures Items(pages + [page]) == Items(pages) + page.items
    ensures Followed(reference, pages + [page], |pages| + 1) == page.next
  {
    assert (pages + [page])[..|pages|] == pages;
    forall k: nat | k < |pages| + 1 ensures Retrieved(reference, server, resolve, pages + [page], urls + [url], k) {
      if k < |pages| {
        assert Retrieved(reference, server, resolve, pages, urls, k);
      }
    }
  }

  /** The outcome of loading a linked source, with the pages received and the addresses requested. */
  ghost predicate Loaded<D>(reference: Option<Reference>, budget: int, server: Server<D>,
                            resolve: Reference -> Option<Url>, r: Result<seq<D>, LoadError>,
                            pages: seq<Page<D>>, urls: seq<Url>)
  {
    && Chain(reference, server, resolve, pages, urls[..if |pages| <= |urls| then |pages| else |urls|])
    && |pages| <= |urls| <= |pages| + 1 && |urls| <= 16 && Distinct(urls)
    && var next := Followed(reference, pages, |pages|);
       match r
       case Ok(values) =>
         values == Items(pages) && next.None? && |urls| == |pages| && (pages != [] ==> |values| <= budget)
       case Err(OverBudget) => pages != [] && |urls| == |pages| && |Items(pages)| > budget
       case Err(TooManyPages) => next.Some? && |pages| == 16
       case Err(Unresolvable(ref)) => next == Some(ref) && resolve(ref).None?
       case Err(Loop(url)) => next.Some? && resolve(next.value) == Some(url) && url in urls && |urls| == |pages|
       case Err(Unavailable(url)) =>
         next.Some? && resolve(next.value) == Some(url) && urls == urls[..|pages|] + [url] && server(|pages|, url).None?
  }

  ghost predicate LoadedWithin<D(!new)>(reference: Option<Reference>, budget: int, server: Server<D>,
                                  resolve: Reference -> Option<Url>, r: Result<seq<D>, LoadError>)
  {
    exists pages, urls :: Loaded(reference, budget, server, resolve, r, pages, urls)
  }

  /** The load ends with as many pages as requests. */
  lemma LoadEnds<D>(reference: Option<Reference>, budget: int, server: Server<D>, resolve: Reference -> Option<Url>,
                    r: Result<seq<D>, LoadError>, pages: seq<Page<D>>, urls: seq<Url>)
    requires Chain(reference, server, resolve, pages, urls) && |urls| <= MAX_PAGES && Distinct(urls)
    requires var next := Followed(reference, pages, |pages|);
             match r
             case Ok(values) => values == Items(pages) && next.None? && (pages != [] ==> |values| <= budget)
             case Err(OverBudget) => pages != [] && |Items(pages)| > budget
             case Err(TooManyPages) => next.Some? && |pages| == MAX_PAGES
             case Err(Unresolvable(ref)) => next == Some(ref) && resolve(ref).None?
             case Err(Loop(url)) => next.Some? && resolve(next.value) == Some(url) && url in urls
             case Err(Unavailable(_)) => false
    ensures Loaded(reference, budget, server, resolve, r, pages, urls)
  {
    assert urls[..|pages|] == urls;
  }

  /** The load ends with a request that fails. */
  lemma LoadFails<D>(reference: Option<Reference>, budget: int, server: Server<D>, resolve: Reference -> Option<Url>,
                     pages: seq<Page<D>>, urls: seq<Url>, url: Url)
    requires Chain(reference, server, resolve, pages, urls) && |urls| < MAX_PAGES && Distinct(urls) && url !in urls
    requires var next := Followed(reference, pages, |pages|);
             next.Some? && resolve(next.value) == Some(url) && server(|pages|, url).None?
    ensures Loaded(reference, budget, server, resolve, Err(Unavailable(url)), pages, urls + [url])
  {
    assert (urls + [url])[..|pages|] == urls;
    DistinctSnoc(urls, url);
  }

  /** The loop over the pages of a linked source. */
  method LoadPages<D>(reference: Option<Reference>, budget: int, server: Server<D>, resolve: Reference -> Option<Url>)
    returns (r: Result<seq<D>, LoadError>, pages: seq<Page<D>>, urls: seq<Url>)
    ensures Loaded(reference, budget, server, resolve, r, pages, urls)
  {
    var values: seq<D> := [];
    var visited: set<Url> := {};
    var next := reference;
    var page := 0;
    pages, urls := [], [];
    while next.Some? && page < MAX_PAGES
      invariant page == |pages| == |urls| <= MAX_PAGES
      invariant forall u :: u in visited <==> u in urls
      invariant Chain(reference, server, resolve, pages, urls) && Distinct(urls)
      invariant next == Followed(reference, pages, |pages|)
      invariant values == Items(pages) && (pages != [] ==> |values| <= budget)
      decreases MAX_PAGES - page
    {
      var target := resolve(next.value);
      if target.None? {
        r := Err(Unresolvable(next.value));
        LoadEnds(reference, budget, server, resolve, r, pages, urls);
        return;
      }
      var address := target.value;
      if address in visited {
        r := Err(Loop(address));
        LoadEnds(reference, budget, server, resolve, r, pages, urls);
        return;
      }
      visited := visited + {address};
      ghost var before := urls;
      urls := urls + [address];
      var result := server(page, address);
      if result.None? {
        LoadFails(reference, budget, server, resolve, pages, before, address);
        return Err(Unavailable(address)), pages, urls;
      }
      DistinctSnoc(before, address);
      ChainSnoc(reference, server, resolve, pages, before, result.value, address);
      pages := pages + [result.value];
      values := values + result.value.items;
      if |values| > budget {
        r := Err(OverBudget);
        LoadEnds(reference, budget, server, resolve, r, pages, urls);
        return;
      }
      next := result.value.next;
      page := page + 1;
    }
    r := if next.Some? then Err(TooManyPages) else Ok(values);
    LoadEnds(reference, budget, server, resolve, r, pages, urls);
  }

  // ----- One source -----

  datatype Definition = Definition(id: string, keys: seq<string>, content: string)

  type Catalog = map<string, Definition>

  datatype Kind = Filters | Sorts

  datatype Scope = Service | Collection

  datatype Message =
    | CannotLoad(error: LoadError)
    | Repeats(id: string)
    | LimitExceeded
    | Duplicates(ids: seq<string>)
    | MissingFilter(id: string)
    | NeedsSearch

  datatype Issue = Issue(kind: Kind, message: Message, scope: Scope)

  /** Inline definitions, or a link that takes their place. */
  datatype Source = Source(inline: seq<Definition>, linked: Option<Reference>)

  function Ids(values: seq<Definition>): set<string> {
    set v | v in values :: v.id
  }

  ghost predicate UniqueIds(values: seq<Definition>) {
    forall i, j :: 0 <= i < j < |values| ==> values[i].id != values[j].id
  }

  /** The first identifier that occurs a second time. */
  method FirstRepeated(values: seq<Definition>) returns (repeated: Option<string>)
    ensures repeated.None? <==> UniqueIds(values)
    ensures repeated.Some? ==>
              exists i, j :: 0 <= i < j < |values| && values[i].id == values[j].id == repeated.value
                          && UniqueIds(values[..j])
  {
    var seen: set<string> := {};
    for i := 0 to |values|
      invariant seen == Ids(values[..i]) && UniqueIds(values[..i])
    {
      if values[i].id in seen {
        assert UniqueIds(values[..i]);
        return Some(values[i].id);
      }
      assert values[..i + 1] == values[..i] + [values[i]];
      seen := seen + {values[i].id};
    }
    assert values[..|values|] == values;
    return None;
  }

  /** A source that is taken: it could be loaded, repeats nothing, and fits beside what is there. */
  ghost predicate Accepted(before: Catalog, values: Result<seq<Definition>, LoadError>, max: nat) {
    values.Ok? && UniqueIds(values.value) && |before| + |values.value| <= max
  }

  ghost function ById(values: seq<Definition>): Catalog
    requires UniqueIds(values)
  {
    map v | v in values :: v.id := v
  }

  /** The symmetric difference: an identifier of both sides is in neither. */
  function Combine(a: Catalog, b: Catalog): Catalog {
    map id | id in a.Keys + b.Keys && !(id in a && id in b) :: if id in a then a[id] else b[id]
  }

  /** The identifiers that both sides publish. */
  method Conflicts(before: Catalog, values: seq<Definition>) returns (conflicts: set<string>)
    ensures conflicts == before.Keys * Ids(values)
  {
    conflicts := {};
    for i := 0 to |values|
      invariant conflicts == before.Keys * Ids(values[..i])
    {
      assert values[..i + 1] == values[..i] + [values[i]];
      if values[i].id in before {
        conflicts := conflicts + {values[i].id};
      }
    }
    assert values[..|values|] == values;
  }

  /** Deleting the conflicts, in whatever order the map yields them. */
  method Quarantine(before: Catalog, conflicts: set<string>) returns (after: Catalog)
    ensures after == before - conflicts
  {
    after := before;
    var doomed := conflicts;
    while doomed != {}
      invariant doomed <= conflicts && after == before - (conflicts - doomed)
      decreases doomed
    {
      var id :| id in doomed;
      after := after - {id};
      doomed := doomed - {id};
    }
  }

  method TakeSource(before: Catalog, values: seq<Definition>)
    returns (after: Catalog, conflicts: set<string>)
    requires UniqueIds(values)
    ensures after == Combine(before, ById(values))
    ensures conflicts == before.Keys * Ids(values)
  {
    conflicts := Conflicts(before, values);
    after := Quarantine(before, conflicts);
    for i := 0 to |values|
      invariant forall id :: id in after <==>
                  (id in before && id !in conflicts) || (id in Ids(values[..i]) && id !in conflicts)
      invariant forall id :: id in before && id !in conflicts ==> id in after && after[id] == before[id]
      invariant forall k :: 0 <= k < i && values[k].id !in conflicts ==>
                  values[k].id in after && after[values[k].id] == values[k]
    {
      assert values[..i + 1] == values[..i] + [values[i]];
      if values[i].id !in conflicts {
        assert values[i].id !in before;
        after := after[values[i].id := values[i]];
      }
    }
    assert values[..|values|] == values;
    CombineIs(before, values, conflicts, after);
  }

  lemma CombineIs(before: Catalog, values: seq<Definition>, conflicts: set<string>, after: Catalog)
    requires UniqueIds(values) && conflicts == before.Keys * Ids(values)
    requires forall id :: id in after <==>
               (id in before && id !in conflicts) || (id in Ids(values) && id !in conflicts)
    requires forall id :: id in before && id !in conflicts ==> id in after && after[id] == before[id]
    requires forall k :: 0 <= k < |values| && values[k].id !in conflicts ==>
               values[k].id in after && after[values[k].id] == values[k]
    ensures after == Combine(before, ById(values))
  {
  }

  // ----- Adding a source -----

  /** The catalog once a source has been offered to it. */
  ghost function Offered(before: Catalog, values: Result<seq<Definition>, LoadError>, max: nat): Catalog {
    if Accepted(before, values, max) then Combine(before, ById(values.value)) else before
  }

  /** What is reported about a source: nothing, one reason for refusing it, or the conflicts. */
  ghost predicate Reported(before: Catalog, values: Result<seq<Definition>, LoadError>, max: nat,
                           kind: Kind, scope: Scope, issues: seq<Issue>)
  {
    if values.Err? then issues == [Issue(kind, CannotLoad(values.error), scope)]
    else if !UniqueIds(values.value) then RepeatReported(values.value, kind, scope, issues)
    else if |before| + |values.value| > max then issues == [Issue(kind, LimitExceeded, scope)]
    else ConflictsReported(before.Keys * Ids(values.value), kind, scope, issues)
  }

  /** The first identifier to occur a second time, in one issue. */
  ghost predicate RepeatReported(values: seq<Definition>, kind: Kind, scope: Scope, issues: seq<Issue>) {
    && |issues| == 1 && issues[0].kind == kind && issues[0].scope == scope && issues[0].message.Repeats?
    && exists i, j :: 0 <= i < j < |values| && UniqueIds(values[..j])
                   && values[i].id == values[j].id == issues[0].message.id
  }

  /** The conflicts, in order, in one issue; no issue when there are none. */
  ghost predicate ConflictsReported(conflicts: set<string>, kind: Kind, scope: Scope, issues: seq<Issue>) {
    if conflicts == {} then issues == []
    else
      && |issues| == 1 && issues[0].kind == kind && issues[0].scope == scope && issues[0].message.Duplicates?
      && T.Increasing(issues[0].message.ids) && forall id :: id in issues[0].message.ids <==> id in conflicts
  }

  method ReportConflicts(conflicts: set<string>, kind: Kind, scope: Scope) returns (issues: seq<Issue>)
    ensures ConflictsReported(conflicts, kind, scope, issues)
  {
    if conflicts == {} {
      return [];
    }
    var ids := T.Sorted(conflicts);
    issues := [Issue(kind, Duplicates(ids), scope)];
  }

  /** How many more definitions a catalog may take. */
  function Room(before: Catalog, max: nat): int {
    max - |before|
  }

  /** What a source brings: its inline definitions, or those of its link. */
  method ObtainSource(source: Source, budget: nat, server: Server<Definition>, resolve: Reference -> Option<Url>)
    returns (values: Result<seq<Definition>, LoadError>)
    ensures source.linked.None? ==> values == Ok(source.inline)
    ensures source.linked.Some? ==> LoadedWithin(source.linked, budget, server, resolve, values)
    ensures source.linked.Some? && values.Ok? ==> |values.value| <= budget
  {
    if source.linked.None? {
      return Ok(source.inline);
    }
    var pages, urls;
    values, pages, urls := LoadPages(source.linked, budget, server, resolve);
  }

  /** What follows once the values of a source are known, or known to be unavailable. */
  method AddValues(before: Catalog, values: Result<seq<Definition>, LoadError>, kind: Kind, scope: Scope, max: nat)
    returns (after: Catalog, issues: seq<Issue>)
    requires |before| <= max
    ensures after == Offered(before, values, max) && |after| <= max
    ensures Reported(before, values, max, kind, scope, issues)
  {
    after, issues := before, [];
    if values.Err? {
      issues := [Issue(kind, CannotLoad(values.error), scope)];
    } else {
      var repeated := FirstRepeated(values.value);
      if repeated.Some? {
        issues := [Issue(kind, Repeats(repeated.value), scope)];
      } else if |before| + |values.value| > max {
        issues := [Issue(kind, LimitExceeded, scope)];
      } else {
        var conflicts;
        after, conflicts := TakeSource(before, values.value);
        CombineSize(before, values.value);
        issues := ReportConflicts(conflicts, kind, scope);
      }
    }
  }

  method AddSource(before: Catalog, source: Source, kind: Kind, scope: Scope, max: nat,
                   server: Server<Definition>, resolve: Reference -> Option<Url>)
    returns (after: Catalog, issues: seq<Issue>, values: Result<seq<Definition>, LoadError>)
    requires |before| <= max
    ensures source.linked.None? ==> values == Ok(source.inline)
    ensures source.linked.Some? ==> LoadedWithin(source.linked, Room(before, max), server, resolve, values)
    ensures source.linked.Some? && values.Ok? ==> |before| + |values.value| <= max
    ensures after == Offered(before, values, max) && |after| <= max
    ensures Reported(before, values, max, kind, scope, issues)
  {
    values := ObtainSource(source, Room(before, max), server, resolve);
    after, issues := AddValues(before, values, kind, scope, max);
  }

  lemma {:induction false} IdsCount(values: seq<Definition>)
    ensures |Ids(values)| <= |values|
    decreases |values|
  {
    if values != [] {
      var n := |values| - 1;
      IdsCount(values[..n]);
      assert Ids(values) == Ids(values[..n]) + {values[n].id} by {
        assert values == values[..n] + [values[n]];
      }
    }
  }

  lemma CombineSize(before: Catalog, values: seq<Definition>)
    requires UniqueIds(values)
    ensures |Combine(before, ById(values))| <= |before| + |values|
  {
    IdsCount(values);
    var union := before.Keys + Ids(values);
    assert |union| <= |before| + |values| by {
      assert |before.Keys + Ids(values)| <= |before.Keys| + |Ids(values)|;
    }
    Within(Combine(before, ById(values)).Keys, union);
  }

  lemma {:induction false} Within(a: set<string>, b: set<string>)
    requires a <= b
    ensures |a| <= |b|
    decreases a
  {
    if x :| x in a {
      Within(a - {x}, b - {x});
    }
  }

  // ----- The whole composition -----

  datatype SearchCapabilities = SearchCapabilities(filters: Option<Source>, sorts: Option<Source>)

  datatype ResolvedSort = ResolvedSort(definition: Definition, filters: seq<Definition>)

  datatype Resolution = Resolution(filters: Catalog, sorts: map<string, ResolvedSort>, issues: seq<Issue>)

  /** A source as it was offered to the composition: absent, or with the values it brought. */
  type Offer = Option<Result<seq<Definition>, LoadError>>

  ghost function AfterOffer(before: Catalog, offer: Offer, max: nat): Catalog {
    if offer.None? then before else Offered(before, offer.value, max)
  }

  /** The definitions a source publishes, if it is taken after `before`. */
  ghost function Published(before: Catalog, offer: Offer, max: nat): Catalog {
    if offer.Some? && Accepted(before, offer.value, max) then ById(offer.value.value) else map[]
  }

  ghost predicate ReportedOffer(before: Catalog, offer: Offer, max: nat, kind: Kind, scope: Scope, issues: seq<Issue>) {
    if offer.None? then issues == [] else Reported(before, offer.value, max, kind, scope, issues)
  }

  /**
   An identifier is in the catalog of the two sources exactly when one accepted source, and only one,
   publishes it, and then with that source's definition.
   */
  lemma ExactlyOnePublishes(service: Offer, collection: Offer, max: nat, id: string)
    ensures var first := Published(map[], service, max);
            var after := AfterOffer(map[], service, max);
            var second := Published(after, collection, max);
            var both := AfterOffer(after, collection, max);
            && (id in both <==> !(id in first <==> id in second))
            && (id in both && id in first ==> both[id] == first[id])
            && (id in both && id in second ==> both[id] == second[id])
            && (id in both ==> both[id].id == id)
  {
    assert AfterOffer(map[], service, max) == Published(map[], service, max);
  }

  /** A sort can be used when each of its keys names a filter of the catalog. */
  predicate Available(sort: Definition, filters: Catalog) {
    forall k :: k in sort.keys ==> k in filters
  }

  /** One filter for each key, in order, and it is the catalog's filter for that key. */
  ghost predicate FiltersOf(sort: Definition, filters: Catalog, found: seq<Definition>) {
    && |found| == |sort.keys|
    && forall i :: 0 <= i < |found| ==> sort.keys[i] in filters && found[i] == filters[sort.keys[i]]
  }

  method ResolveSort(sort: Definition, filters: Catalog) returns (r: Option<seq<Definition>>)
    ensures r.Some? <==> Available(sort, filters)
    ensures r.Some? ==> FiltersOf(sort, filters, r.value)
  {
    var found: seq<Definition> := [];
    for i := 0 to |sort.keys|
      invariant |found| == i
      invariant forall k :: 0 <= k < i ==> sort.keys[k] in filters && found[k] == filters[sort.keys[k]]
    {
      if sort.keys[i] !in filters {
        return None;
      }
      found := found + [filters[sort.keys[i]]];
    }
    return Some(found);
  }

  /** The issues about unusable sorts, in the order of their identifiers. */
  function MissingIssues(ids: seq<string>, sorts: Catalog, filters: Catalog, scopes: map<string, Scope>): seq<Issue>
    requires forall id :: id in ids ==> id in sorts && id in scopes
  {
    if ids == [] then []
    else
      var last := ids[|ids| - 1];
      MissingIssues(ids[..|ids| - 1], sorts, filters, scopes) +
      if Available(sorts[last], filters) then [] else [Issue(Sorts, MissingFilter(last), scopes[last])]
  }

  /** Each of the sorts `ids` whose filters are all there, and no other, with its filters. */
  ghost predicate SortsResolved(ids: seq<string>, sorts: Catalog, filters: Catalog, r: map<string, ResolvedSort>)
    requires forall id :: id in ids ==> id in sorts
  {
    && (forall id :: id in r <==> id in ids && Available(sorts[id], filters))
    && (forall id :: id in r ==> id in sorts && r[id].definition == sorts[id]
                                 && FiltersOf(sorts[id], filters, r[id].filters))
  }

  lemma ResolvedNext(ids: seq<string>, sorts: Catalog, filters: Catalog, r: map<string, ResolvedSort>,
                     id: string, found: Option<seq<Definition>>)
    requires (forall x :: x in ids ==> x in sorts) && SortsResolved(ids, sorts, filters, r) && id in sorts && id !in ids
    requires found.Some? <==> Available(sorts[id], filters)
    requires found.Some? ==> FiltersOf(sorts[id], filters, found.value)
    ensures SortsResolved(ids + [id], sorts, filters,
                          if found.Some? then r[id := ResolvedSort(sorts[id], found.value)] else r)
  {
  }

  lemma MissingNext(ids: seq<string>, id: string, sorts: Catalog, filters: Catalog, scopes: map<string, Scope>)
    requires forall x :: x in ids + [id] ==> x in sorts && x in scopes
    ensures id in sorts && id in scopes && forall x :: x in ids ==> x in ids + [id]
    ensures MissingIssues(ids + [id], sorts, filters, scopes)
         == MissingIssues(ids, sorts, filters, scopes)
            + if Available(sorts[id], filters) then [] else [Issue(Sorts, MissingFilter(id), scopes[id])]
  {
    assert id in ids + [id];
    assert (ids + [id])[..|ids|] == ids;
  }

  lemma NextId(ids: seq<string>, i: nat)
    requires T.Increasing(ids) && i < |ids|
    ensures ids[..i + 1] == ids[..i] + [ids[i]] && ids[i] !in ids[..i]
  {
    T.IncreasingIsDistinct(ids, i);
  }

  method ResolveSorts(sorts: Catalog, filters: Catalog, scopes: map<string, Scope>)
    returns (r: map<string, ResolvedSort>, issues: seq<Issue>, ids: seq<string>)
    requires scopes.Keys == sorts.Keys
    ensures T.Increasing(ids) && forall id :: id in ids <==> id in sorts
    ensures SortsResolved(ids, sorts, filters, r)
    ensures issues == MissingIssues(ids, sorts, filters, scopes)
  {
    ids := T.Sorted(sorts.Keys);
    r, issues := map[], [];
    for i := 0 to |ids|
      invariant SortsResolved(ids[..i], sorts, filters, r)
      invariant issues == MissingIssues(ids[..i], sorts, filters, scopes)
    {
      var id := ids[i];
      NextId(ids, i);
      var found := ResolveSort(sorts[id], filters);
      ResolvedNext(ids[..i], sorts, filters, r, id, found);
      MissingNext(ids[..i], id, sorts, filters, scopes);
      if found.None? {
        issues := issues + [Issue(Sorts, MissingFilter(id), scopes[id])];
      } else {
        r := r[id := ResolvedSort(sorts[id], found.value)];
      }
    }
    assert ids[..|ids|] == ids;
  }

  /** The scope of each sort: the source that published it. */
  function ScopesAfter(scopes: map<string, Scope>, after: Catalog, scope: Scope): map<string, Scope> {
    map id | id in after :: if id in scopes then scopes[id] else scope
  }

  /** What a source brought: nothing when absent, its own definitions, or those of a chain of pages. */
  ghost predicate Brought(source: Option<Source>, budget: int, server: Server<Definition>,
                          resolve: Reference -> Option<Url>, offer: Offer)
  {
    match source
    case None => offer.None?
    case Some(from) =>
      && offer.Some?
      && if from.linked.None? then offer.value == Ok(from.inline)
         else LoadedWithin(from.linked, budget, server, resolve, offer.value)
  }

  method AddOffered(before: Catalog, source: Option<Source>, kind: Kind, scope: Scope, max: nat,
                    server: Server<Definition>, resolve: Reference -> Option<Url>)
    returns (after: Catalog, issues: seq<Issue>, offer: Offer)
    requires |before| <= max
    ensures Brought(source, Room(before, max), server, resolve, offer)
    ensures source.Some? && source.value.linked.Some? && offer.value.Ok? ==> |before| + |offer.value.value| <= max
    ensures after == AfterOffer(before, offer, max) && |after| <= max
    ensures ReportedOffer(before, offer, max, kind, scope, issues)
  {
    if source.None? {
      return before, [], None;
    }
    var values;
    after, issues, values := AddSource(before, source.value, kind, scope, max, server, resolve);
    offer := Some(values);
  }

  /** The issues of a composition, by where they come from, and the order of the sorts. */
  datatype Report = Report(serviceFilters: seq<Issue>, serviceSorts: seq<Issue>, collectionFilters: seq<Issue>,
                           collectionSorts: seq<Issue>, sortIds: seq<string>)

  /** What the four sources brought, in the order in which they are offered. */
  datatype Offers = Offers(serviceFilters: Offer, serviceSorts: Offer, collectionFilters: Offer, collectionSorts: Offer)

  ghost function FirstFilters(o: Offers): Catalog {
    AfterOffer(map[], o.serviceFilters, MAX_FILTERS)
  }

  ghost function AllFilters(o: Offers): Catalog {
    AfterOffer(FirstFilters(o), o.collectionFilters, MAX_FILTERS)
  }

  ghost function FirstSorts(o: Offers): Catalog {
    AfterOffer(map[], o.serviceSorts, MAX_SORTS)
  }

  ghost function AllSorts(o: Offers): Catalog {
    AfterOffer(FirstSorts(o), o.collectionSorts, MAX_SORTS)
  }

  ghost function SortScopes(o: Offers): map<string, Scope> {
    ScopesAfter(ScopesAfter(map[], FirstSorts(o), Service), AllSorts(o), Collection)
  }

  /** The issues about each offer, made when it was offered. */
  ghost predicate OffersReported(o: Offers, report: Report) {
    && ReportedOffer(map[], o.serviceFilters, MAX_FILTERS, Filters, Service, report.serviceFilters)
    && ReportedOffer(map[], o.serviceSorts, MAX_SORTS, Sorts, Service, report.serviceSorts)
    && ReportedOffer(FirstFilters(o), o.collectionFilters, MAX_FILTERS, Filters, Collection, report.collectionFilters)
    && ReportedOffer(FirstSorts(o), o.collectionSorts, MAX_SORTS, Sorts, Collection, report.collectionSorts)
  }

  /**
   What the composition of two sources promises: each catalog is what its two offers leave, within
   its limit; the sorts are resolved against the filters; and the issues come in source order,
   followed by the unusable sorts in the order of their identifiers.
   */
  ghost predicate Composed(o: Offers, report: Report, r: Resolution) {
    && r.filters == AllFilters(o) && |AllFilters(o)| <= 1024 && |AllSorts(o)| <= 128
    && T.Increasing(report.sortIds) && (forall id :: id in report.sortIds <==> id in AllSorts(o))
    && SortsResolved(report.sortIds, AllSorts(o), AllFilters(o), r.sorts)
    && OffersReported(o, report)
    && r.issues == report.serviceFilters + report.serviceSorts + report.collectionFilters + report.collectionSorts
                   + MissingIssues(report.sortIds, AllSorts(o), AllFilters(o), SortScopes(o))
  }

  /** The offers are what the four sources brought, each within what the source before it left. */
  ghost predicate OffersMatch(service: SearchCapabilities, collection: SearchCapabilities,
                              server: (Scope, Kind) -> Server<Definition>, resolve: Reference -> Option<Url>, o: Offers)
  {
    && Brought(service.filters, MAX_FILTERS, server(Service, Filters), resolve, o.serviceFilters)
    && Brought(service.sorts, MAX_SORTS, server(Service, Sorts), resolve, o.serviceSorts)
    && Brought(collection.filters, Room(FirstFilters(o), MAX_FILTERS), server(Collection, Filters), resolve,
               o.collectionFilters)
    && Brought(collection.sorts, Room(FirstSorts(o), MAX_SORTS), server(Collection, Sorts), resolve, o.collectionSorts)
  }

  /** The filters and then the sorts of one side. */
  method OfferSide(filters: Catalog, sorts: Catalog, side: SearchCapabilities, scope: Scope,
                   server: (Scope, Kind) -> Server<Definition>, resolve: Reference -> Option<Url>)
    returns (nextFilters: Catalog, nextSorts: Catalog, offered: Offer, offeredSorts: Offer,
             issues: seq<Issue>, sortIssues: seq<Issue>)
    requires |filters| <= MAX_FILTERS && |sorts| <= MAX_SORTS
    ensures Brought(side.filters, Room(filters, MAX_FILTERS), server(scope, Filters), resolve, offered)
    ensures Brought(side.sorts, Room(sorts, MAX_SORTS), server(scope, Sorts), resolve, offeredSorts)
    ensures nextFilters == AfterOffer(filters, offered, MAX_FILTERS) && |nextFilters| <= MAX_FILTERS
    ensures nextSorts == AfterOffer(sorts, offeredSorts, MAX_SORTS) && |nextSorts| <= MAX_SORTS
    ensures ReportedOffer(filters, offered, MAX_FILTERS, Filters, scope, issues)
    ensures ReportedOffer(sorts, offeredSorts, MAX_SORTS, Sorts, scope, sortIssues)
  {
    nextFilters, issues, offered :=
      AddOffered(filters, side.filters, Filters, scope, MAX_FILTERS, server(scope, Filters), resolve);
    nextSorts, sortIssues, offeredSorts :=
      AddOffered(sorts, side.sorts, Sorts, scope, MAX_SORTS, server(scope, Sorts), resolve);
  }

  /** The two sides, the Service first. */
  method GatherSources(service: SearchCapabilities, collection: SearchCapabilities,
                       server: (Scope, Kind) -> Server<Definition>, resolve: Reference -> Option<Url>)
    returns (filters: Catalog, sorts: Catalog, scopes: map<string, Scope>, o: Offers, report: Report)
    ensures OffersMatch(service, collection, server, resolve, o)
    ensures filters == AllFilters(o) && |filters| <= MAX_FILTERS
    ensures sorts == AllSorts(o) && |sorts| <= MAX_SORTS
    ensures scopes == SortScopes(o)
    ensures OffersReported(o, report)
  {
    var f1, s1, o1, o2, i1, i2 := OfferSide(map[], map[], service, Service, server, resolve);
    assert Brought(service.filters, MAX_FILTERS, server(Service, Filters), resolve, o1);
    assert Brought(service.sorts, MAX_SORTS, server(Service, Sorts), resolve, o2);
    var f2, s2, o3, o4, i3, i4 := OfferSide(f1, s1, collection, Collection, server, resolve);
    filters, sorts := f2, s2;
    scopes := ScopesAfter(ScopesAfter(map[], s1, Service), s2, Collection);
    o := Offers(o1, o2, o3, o4);
    assert FirstFilters(o) == f1 && FirstSorts(o) == s1;
    report := Report(i1, i2, i3, i4, []);
  }

  method ResolveSearchCapabilities(searchable: bool, service: Option<SearchCapabilities>,
                                   collection: Option<SearchCapabilities>,
                                   server: (Scope, Kind) -> Server<Definition>, resolve: Reference -> Option<Url>)
    returns (r: Resolution, o: Offers, report: Report)
    ensures !searchable ==>
              r == Resolution(map[], map[], if collection.Some? then [Issue(Filters, NeedsSearch, Collection)] else [])
    ensures searchable ==> Composed(o, report, r)
    ensures searchable ==> OffersMatch(Capabilities(service), Capabilities(collection), server, resolve, o)
  {
    o := Offers(None, None, None, None);
    report := Report([], [], [], [], []);
    if !searchable {
      r := Resolution(map[], map[], if collection.Some? then [Issue(Filters, NeedsSearch, Collection)] else []);
      return;
    }
    var filters, published, scopes;
    filters, published, scopes, o, report :=
      GatherSources(Capabilities(service), Capabilities(collection), server, resolve);
    var sorts, missing, ids := ResolveSorts(published, filters, scopes);
    report := report.(sortIds := ids);
    r := Resolution(filters, sorts, report.serviceFilters + report.serviceSorts + report.collectionFilters
                                    + report.collectionSorts + missing);
  }

  function Capabilities(source: Option<SearchCapabilities>): SearchCapabilities {
    if source.Some? then source.value else SearchCapabilities(None, None)
  }

  /**
   The filters that a composition ends with are those that exactly one accepted source publishes, and
   a sort is usable exactly when one accepted source, and only one, publishes it and every filter it
   names is among them; it then carries those filters, key by key.
   */
  lemma WhatIsComposed(o: Offers, report: Report, r: Resolution, id: string)
    requires Composed(o, report, r)
    ensures var first := Published(map[], o.serviceFilters, 1024);
            var second := Published(FirstFilters(o), o.collectionFilters, 1024);
            id in r.filters <==> !(id in first <==> id in second)
    ensures var first := Published(map[], o.serviceSorts, 128);
            var second := Published(FirstSorts(o), o.collectionSorts, 128);
            && (id in r.sorts && id in first ==> r.sorts[id].definition == first[id])
            && (id in r.sorts && id in second ==> r.sorts[id].definition == second[id])
            && (id in r.sorts <==> || (id in first && id !in second && Available(first[id], r.filters))
                                   || (id in second && id !in first && Available(second[id], r.filters)))
    ensures id in r.sorts ==> FiltersOf(r.sorts[id].definition, r.filters, r.sorts[id].filters)
  {
    ExactlyOnePublishes(o.serviceFilters, o.collectionFilters, MAX_FILTERS, id);
    ExactlyOnePublishes(o.serviceSorts, o.collectionSorts, MAX_SORTS, id);
  }

  lemma ResolvedIsUnique(ids: seq<string>, sorts: Catalog, filters: Catalog,
                         a: map<string, ResolvedSort>, b: map<string, ResolvedSort>)
    requires forall id :: id in ids ==> id in sorts
    requires SortsResolved(ids, sorts, filters, a) && SortsResolved(ids, sorts, filters, b)
    ensures a == b
  {
    forall id | id in a ensures id in b && a[id] == b[id] {
      assert FiltersOf(sorts[id], filters, a[id].filters) && FiltersOf(sorts[id], filters, b[id].filters);
      assert a[id].filters == b[id].filters;
    }
  }

  /** The order in which a map yields the conflicts does not show in the issues. */
  lemma ReportIsUnique(conflicts: set<string>, kind: Kind, scope: Scope, a: seq<Issue>, b: seq<Issue>)
    requires ConflictsReported(conflicts, kind, scope, a) && ConflictsReported(conflicts, kind, scope, b)
    ensures a == b
  {
    if conflicts != {} {
      T.SortedIsUnique(a[0].message.ids, b[0].message.ids);
      assert a[0] == b[0];
    }
  }

  lemma NoEarlierRepeat(values: seq<Definition>, n: nat, i: nat, j: nat)
    requires i < j < n <= |values| && UniqueIds(values[..n])
    ensures values[i].id != values[j].id
  {
    assert values[..n][i] == values[i] && values[..n][j] == values[j];
  }

  /** The first repeated identifier is the only one that a source can be refused for. */
  lemma RepeatIsUnique(values: seq<Definition>, i: nat, j: nat, k: nat, l: nat)
    requires i < j < |values| && k < l < |values|
    requires values[i].id == values[j].id && UniqueIds(values[..j])
    requires values[k].id == values[l].id && UniqueIds(values[..l])
    ensures values[i].id == values[k].id
  {
    if j < l {
      NoEarlierRepeat(values, l, i, j);
    } else if l < j {
      NoEarlierRepeat(values, j, k, l);
    }
  }

  lemma RepeatReportIsUnique(values: seq<Definition>, kind: Kind, scope: Scope, a: seq<Issue>, b: seq<Issue>)
    requires RepeatReported(values, kind, scope, a) && RepeatReported(values, kind, scope, b)
    ensures a == b
  {
    var i, j :| 0 <= i < j < |values| && UniqueIds(values[..j]) && values[i].id == values[j].id == a[0].message.id;
    var k, l :| 0 <= k < l < |values| && UniqueIds(values[..l]) && values[k].id == values[l].id == b[0].message.id;
    RepeatIsUnique(values, i, j, k, l);
    assert a[0] == b[0];
  }

  lemma OfferReportIsUnique(before: Catalog, offer: Offer, max: nat, kind: Kind, scope: Scope,
                            a: seq<Issue>, b: seq<Issue>)
    requires ReportedOffer(before, offer, max, kind, scope, a) && ReportedOffer(before, offer, max, kind, scope, b)
    ensures a == b
  {
    if offer.Some? && offer.value.Ok? {
      var values := offer.value.value;
      if !UniqueIds(values) {
        RepeatReportIsUnique(values, kind, scope, a, b);
      } else if |before| + |values| <= max {
        ReportIsUnique(before.Keys * Ids(values), kind, scope, a, b);
      }
    }
  }

  /**
   The composition does not depend on the order in which maps are iterated: the same offers give the
   same filters, the same usable sorts and the same issues in the same order.
   */
  lemma CompositionIsDetermined(o: Offers, a: Resolution, reportA: Report, b: Resolution, reportB: Report)
    requires Composed(o, reportA, a) && Composed(o, reportB, b)
    ensures reportA == reportB && a == b
  {
    T.SortedIsUnique(reportA.sortIds, reportB.sortIds);
    ResolvedIsUnique(reportA.sortIds, AllSorts(o), AllFilters(o), a.sorts, b.sorts);
    ReportsAgree(o, reportA, reportB);
  }

  lemma ReportsAgree(o: Offers, a: Report, b: Report)
    requires OffersReported(o, a) && OffersReported(o, b)
    ensures a.serviceFilters == b.serviceFilters && a.serviceSorts == b.serviceSorts
    ensures a.collectionFilters == b.collectionFilters && a.collectionSorts == b.collectionSorts
  {
    OfferReportIsUnique(map[], o.serviceFilters, MAX_FILTERS, Filters, Service, a.serviceFilters, b.serviceFilters);
    OfferReportIsUnique(map[], o.serviceSorts, MAX_SORTS, Sorts, Service, a.serviceSorts, b.serviceSorts);
    OfferReportIsUnique(FirstFilters(o), o.collectionFilters, MAX_FILTERS, Filters, Collection,
                        a.collectionFilters, b.collectionFilters);
    OfferReportIsUnique(FirstSorts(o), o.collectionSorts, MAX_SORTS, Sorts, Collection,
                        a.collectionSorts, b.collectionSorts);
  }

  // ----- Whose sorts are unusable -----

  lemma {:induction false} MissingExactly(ids: seq<string>, sorts: Catalog, filters: Catalog,
                                          scopes: map<string, Scope>, id: string, scope: Scope)
    requires forall x :: x in ids ==> x in sorts && x in scopes
    ensures Issue(Sorts, MissingFilter(id), scope) in MissingIssues(ids, sorts, filters, scopes) <==>
            id in ids && !Available(sorts[id], filters) && scopes[id] == scope
  {
    if ids != [] {
      var n := |ids| - 1;
      MissingExactly(ids[..n], sorts, filters, scopes, id, scope);
      assert ids == ids[..n] + [ids[n]];
    }
  }

  /** What is reported about a source never speaks of a filter that a sort lacks. */
  lemma OffersLackNothing(before: Catalog, offer: Offer, max: nat, kind: Kind, scope: Scope, issues: seq<Issue>,
                          i: Issue)
    requires ReportedOffer(before, offer, max, kind, scope, issues) && i.message.MissingFilter?
    ensures i !in issues
  {
  }

  lemma FirstSortsAre(o: Offers)
    ensures FirstSorts(o) == Published(map[], o.serviceSorts, MAX_SORTS)
  {
  }

  lemma ScopeIs(o: Offers, id: string)
    requires id in AllSorts(o)
    ensures id in SortScopes(o) && SortScopes(o)[id] == if id in FirstSorts(o) then Service else Collection
  {
  }

  /** The one accepted source that publishes a sort which is left. */
  lemma PublisherOf(o: Offers, id: string)
    requires id in AllSorts(o)
    ensures id in SortScopes(o)
    ensures SortScopes(o)[id] == Service <==> id in Published(map[], o.serviceSorts, 128)
    ensures SortScopes(o)[id] == Collection <==> id in Published(FirstSorts(o), o.collectionSorts, 128)
  {
    ExactlyOnePublishes(o.serviceSorts, o.collectionSorts, MAX_SORTS, id);
    FirstSortsAre(o);
    ScopeIs(o, id);
  }

  /**
   A sort is reported for want of a filter exactly when one accepted source, and only one, publishes it
   and some key of it names no filter; and it is reported under that source.
   */
  lemma UnusableSortIsReported(o: Offers, report: Report, r: Resolution, id: string, scope: Scope)
    requires Composed(o, report, r)
    ensures var first := Published(map[], o.serviceSorts, 128);
            var second := Published(FirstSorts(o), o.collectionSorts, 128);
            Issue(Sorts, MissingFilter(id), scope) in r.issues <==>
              match scope
              case Service => id in first && id !in second && !Available(first[id], r.filters)
              case Collection => id in second && id !in first && !Available(second[id], r.filters)
  {
    var i := Issue(Sorts, MissingFilter(id), scope);
    OffersLackNothing(map[], o.serviceFilters, MAX_FILTERS, Filters, Service, report.serviceFilters, i);
    OffersLackNothing(map[], o.serviceSorts, MAX_SORTS, Sorts, Service, report.serviceSorts, i);
    OffersLackNothing(FirstFilters(o), o.collectionFilters, MAX_FILTERS, Filters, Collection,
                      report.collectionFilters, i);
    OffersLackNothing(FirstSorts(o), o.collectionSorts, MAX_SORTS, Sorts, Collection, report.collectionSorts, i);
    ScopesCover(o, report);
    MissingExactly(report.sortIds, AllSorts(o), AllFilters(o), SortScopes(o), id, scope);
    ExactlyOnePublishes(o.serviceSorts, o.collectionSorts, MAX_SORTS, id);
    if id in AllSorts(o) {
      PublisherOf(o, id);
    }
  }

  lemma ScopesCover(o: Offers, report: Report)
    requires forall id :: id in report.sortIds <==> id in AllSorts(o)
    ensures forall id :: id in report.sortIds ==> id in AllSorts(o) && id in SortScopes(o)
  {
  }

  // ----- What is reported about a source, and why -----

  /** What a source brought. */
  ghost function OfferOf(o: Offers, kind: Kind, scope: Scope): Offer {
    match scope
    case Service => if kind.Filters? then o.serviceFilters else o.serviceSorts
    case Collection => if kind.Filters? then o.collectionFilters else o.collectionSorts
  }

  /** How many definitions of a kind the Service's source left. */
  ghost function Before(o: Offers, kind: Kind, scope: Scope): Catalog {
    if scope.Service? then map[] else if kind.Filters? then FirstFilters(o) else FirstSorts(o)
  }

  function Most(kind: Kind): nat {
    match kind case Filters => 1024 case Sorts => 128
  }

  /** The identifier is the first to occur a second time. */
  ghost predicate FirstToRepeat(values: seq<Definition>, id: string) {
    exists i, j :: 0 <= i < j < |values| && UniqueIds(values[..j]) && values[i].id == values[j].id == id
  }

  /** Why the message is due about a source that brought `offer` beside `before`. */
  ghost predicate IsDue(message: Message, before: Catalog, offer: Offer, most: nat) {
    && offer.Some?
    && match message
       case CannotLoad(error) => offer.value == Err(error)
       case Repeats(id) => offer.value.Ok? && FirstToRepeat(offer.value.value, id)
       case LimitExceeded =>
         offer.value.Ok? && UniqueIds(offer.value.value) && |before| + |offer.value.value| > most
       case Duplicates(ids) =>
         && offer.value.Ok? && UniqueIds(offer.value.value) && |before| + |offer.value.value| <= most
         && ids != [] && T.Increasing(ids)
         && forall id :: id in ids <==> id in before && exists v :: v in offer.value.value && v.id == id
       case _ => false
  }

  lemma RepeatedIsNotUnique(values: seq<Definition>, id: string)
    requires FirstToRepeat(values, id)
    ensures !UniqueIds(values)
  {
    var i, j :| 0 <= i < j < |values| && UniqueIds(values[..j]) && values[i].id == values[j].id == id;
  }

  lemma DuplicatesAre(before: Catalog, values: seq<Definition>, kind: Kind, scope: Scope, issues: seq<Issue>,
                      ids: seq<string>)
    requires ConflictsReported(before.Keys * Ids(values), kind, scope, issues)
    ensures Issue(kind, Duplicates(ids), scope) in issues <==>
            && ids != [] && T.Increasing(ids)
            && forall id :: id in ids <==> id in before && exists v :: v in values && v.id == id
  {
    var conflicts := before.Keys * Ids(values);
    forall id ensures id in conflicts <==> id in before && exists v :: v in values && v.id == id {
    }
    if conflicts == {} {
      NotEmpty(ids);
    } else {
      var one := issues[0].message.ids;
      assert issues == [Issue(kind, Duplicates(one), scope)];
      NotEmpty(one);
      if T.Increasing(ids) && forall id :: id in ids <==> id in conflicts {
        T.SortedIsUnique(one, ids);
      }
    }
  }

  lemma NotEmpty(ids: seq<string>)
    ensures ids != [] <==> exists id :: id in ids
  {
    assert ids != [] ==> ids[0] in ids;
  }

  /** The issues about one source are those that are due, under its kind and its scope. */
  lemma OneSourceExactly(before: Catalog, offer: Offer, max: nat, kind: Kind, scope: Scope, issues: seq<Issue>,
                         i: Issue)
    requires ReportedOffer(before, offer, max, kind, scope, issues)
    ensures i in issues <==> i.kind == kind && i.scope == scope && IsDue(i.message, before, offer, max)
  {
    if offer.Some? && offer.value.Ok? {
      var values := offer.value.value;
      if i.message.Repeats? && FirstToRepeat(values, i.message.id) {
        RepeatedIsNotUnique(values, i.message.id);
      }
      if !UniqueIds(values) {
        RepeatsAre(values, kind, scope, issues, i);
      } else if |before| + |values| <= max {
        if i.message.Duplicates? {
          DuplicatesAre(before, values, kind, scope, issues, i.message.ids);
        }
      }
    }
  }

  lemma RepeatsAre(values: seq<Definition>, kind: Kind, scope: Scope, issues: seq<Issue>, i: Issue)
    requires RepeatReported(values, kind, scope, issues)
    ensures i in issues <==>
            i.kind == kind && i.scope == scope && i.message.Repeats? && FirstToRepeat(values, i.message.id)
  {
    assert FirstToRepeat(values, issues[0].message.id);
    if i.message.Repeats? && FirstToRepeat(values, i.message.id) && i.kind == kind && i.scope == scope {
      RepeatReportIsUnique(values, kind, scope, issues, [i]);
    }
  }

  lemma {:induction false} OnlyMissing(ids: seq<string>, sorts: Catalog, filters: Catalog, scopes: map<string, Scope>,
                                       i: Issue)
    requires forall x :: x in ids ==> x in sorts && x in scopes
    ensures i in MissingIssues(ids, sorts, filters, scopes) ==> i.message.MissingFilter?
  {
    if ids != [] {
      OnlyMissing(ids[..|ids| - 1], sorts, filters, scopes, i);
      assert ids == ids[..|ids| - 1] + [ids[|ids| - 1]];
    }
  }

  /**
   An issue that is not about an unusable sort is reported exactly when it is due about the source of
   its kind and scope: it could not be loaded, repeats an identifier, does not fit beside what is
   there, or publishes what is there already.
   */
  lemma IssuesExactly(o: Offers, report: Report, r: Resolution, i: Issue)
    requires Composed(o, report, r) && !i.message.MissingFilter?
    ensures i in r.issues <==>
            IsDue(i.message, Before(o, i.kind, i.scope), OfferOf(o, i.kind, i.scope), Most(i.kind))
  {
    OneSourceExactly(map[], o.serviceFilters, MAX_FILTERS, Filters, Service, report.serviceFilters, i);
    OneSourceExactly(map[], o.serviceSorts, MAX_SORTS, Sorts, Service, report.serviceSorts, i);
    OneSourceExactly(FirstFilters(o), o.collectionFilters, MAX_FILTERS, Filters, Collection,
                     report.collectionFilters, i);
    OneSourceExactly(FirstSorts(o), o.collectionSorts, MAX_SORTS, Sorts, Collection, report.collectionSorts, i);
    ScopesCover(o, report);
    OnlyMissing(report.sortIds, AllSorts(o), AllFilters(o), SortScopes(o), i);
  }
}

# Verified model of the Offering Protocol SDK for Go

The repository is an SDK for a protocol in which Services publish catalogs of Offerings and
Collections, and Agents find Services through a Directory, inspect them, and read and search their
catalogs. This project models the parts of the SDK that keep state or transform documents, and proves
what they promise. It stands on its own; verify it with `dafny verify dfyconfig.toml`.

| file | what it models |
|---|---|
| `FederatedSearch.dfy` | the federated search: one goroutine per Service, a semaphore, one-slot channels, an ordered collector and two contexts, as a transition system over all interleavings |
| `Hierarchy.dfy` | the memoised depth-first check of the Collection hierarchy |
| `StaticPaging.dfy`, `CursorContexts.dfy` | the stateless cursors of the static catalog, a client that follows them, and which cursors are redeemed |
| `Traversal.dfy`, `ItemTraversal.dfy` | the page iterators of the Agent, the Directory client and the core package, and the item iterators that consume them |
| `DirectoryRequest.dfy` | one request of the Directory client, with its redirects |
| `Freshness.dfy`, `HeaderReading.dfy`, `MemoryCache.dfy` | Cache-Control and expiry, how the fields are read, and the in-memory cache with its byte arrays |
| `CacheMachine.dfy`, `RequestOutcomes.dfy` | the cache, redirect and revalidation machine of `request`, and what a call sends, returns and stores, told from its replies |
| `SupportingDocuments.dfy`, `DocumentOutcomes.dfy` | the second instance of that machine, for schemas and OpenAPI documents, on a shared cache, and its outcomes |
| `SchemaReferences.dfy`, `SchemaGraph.dfy`, `SchemaDetour.dfy` | the walk that finds the references of a schema, the loader of a schema graph under its ceilings, and a family of graphs on which its order decides |
| `SchemaBundle.dfy`, `SchemaClosure.dfy`, `SchemaUrls.dfy` | the bundling step, whether the bundle contains all that it refers to, and under which URLs its documents are found |
| `Vocabulary.dfy` | what an Agent knows, as the protocol's schemas list it |
| `Normalization.dfy`, `NormalizationStability.dfy`, `NormalizationSurvivors.dfy`, `NormalizedMembers.dfy`, `StrictAgreement.dfy` | the Agent's normalisation of documents: what it does, when it is stable, what it leaves of each list and each member, and its agreement with the strict schemas |
| `Capabilities.dfy` | linked capability sources and the composition of filters and sorts |
| `Routing.dfy`, `RoutingResolved.dfy` | building a request path and routing it, before and after the client resolves it |
| `Negotiation.dfy`, `EntryReading.dfy`, `HeaderOutcomes.dfy`, `LookupSingletons.dfy` | the Accept header and the choice of a language, how an entry is read, what a header comes to, and the truncations of a range against those of RFC 4647 |
| `Actions.dfy` | the normalisation of an Offering's Actions |
| `JsonDepth.dfy` | the explicit-stack nesting measure |
| `Json.dfy`, `Text.dfy`, `TextReading.dfy`, `Sequences.dfy`, `Wrappers.dfy` | JSON values, Go's string operations and what they do, small helpers |

Code that works step by step is a method with a loop or a class with fields, proved equal to a
function or to a declarative contract; what holds over whole runs is proved about that function. A
server, a consumer, a clock and a URL resolver are arbitrary functions or arbitrary sequences of
answers, so every statement holds for all of them.

## Where the code departs from what one would expect

Each of these is a property that fails, with a concrete input or an exact condition proved.

- `IteratePages` (pagination.go) requests a seventeenth page and drops it; when that page has no
  continuation it does so without an error. `Traversal.BoundedCompleteness` states for which lengths
  of chain the traversal is complete and for which it is silent.
- `get-offering` and `get-collection` with the identifier `search` build the path of the search
  operation. `Routing.RoutingInvertsBuilding` makes that the only exception, both ways, for the path
  that is built.
- The schema admits an `endpoint_base` with dot segments, such as "/a/../b", and `New`
  (service/service.go:140-175) does not refuse it. The client resolves what it builds
  (references.go:133), which removes them, and the Service compares with the base as it stands.
  `RoutingResolved.RoutingInvertsRequests` makes this the only other exception, both ways, and
  `RoutingResolved.DottedBaseIsUnreachable` is the request that is answered "not found".
- One pass of normalisation can leave `protocols` an empty object.
  `NormalizationStability.EmptiesProtocolsExact` and `ServiceDocumentStable` say exactly for which
  documents.
- An Offering that its strict schema accepts is not always left alone. The schema admits a price of any
  type (schemas/price-preview.schema.json:110-130) and members of an Offering that it does not describe,
  while normalisation deletes a price of another type than the six described, and treats
  `search_capabilities` as it would in a Collection. `StrictAgreement.StrictOfferingIsUnchangedExactly`
  makes these the only exceptions, both ways; `StrictAgreement.UndescribedPriceIsDropped` is one.
- A max-age above 9,223,372,036 seconds overflows a 64-bit duration.
  `Freshness.MaxAgeExpiry` gives the bound as a condition that is necessary and sufficient;
  `Freshness.HugeMaxAgeExpiresInThePast` gives a value that expires in the past.
- A 304 with an unsupported Vary returns the cached body without validating it.
  `CacheMachine.RejectedExactly` says when a call returns a body that its own validator rejects, and
  `CacheMachine.RejectedMeansClash` that another call under the same key must have accepted it.
  `CacheMachine.SharedKeyExactly` makes the condition on a key exact: two validators can share it if
  and only if the second accepts all that the first accepts. The callers do not keep to that. The key
  of `continueRequest` (agent/client.go:715) holds partition, method, URL and language, while its
  validator depends on the representation, on search, and on Collection or Offering
  (agent/client.go:394-400, 542-548); the capability pages (agent/capabilities.go:260-280) use the
  same form of key with a validator of nesting depth only.
- The comment on the clamp in `staticPage` (service/static_catalog.go:149-152) calls an offset past the
  end unreachable. It is not when a process restarts with the same `ContinuationKey` and a shorter
  list: `StaticPaging.RestartClamps` is such a run, and `StaticPaging.ClampsExactly` and
  `StaticPaging.RunsOutExactly` say for which lists it can happen.
- The comment in `lookup` (service/service.go:1031-1032) says that a singleton subtag is dropped with
  its parent rather than matched on alone, after section 3.4 of RFC 4647. The code drops one singleton,
  not a run of them, and never the first subtag. `LookupSingletons.LookupAgreesExactly` says that it
  finds what the RFC finds if and only if the first of several subtags is longer than one character
  and no two singletons in a row come before the last subtag. `LookupSingletons.FirstSingletonFound`
  ("x-foo" finds "X") and `LookupSingletons.PrivateUseFound` ("en-x-a-b-c" finds the well-formed tag
  "en-x-a" where the RFC finds "en") are ranges for which it differs.
- `load` (agent/schemas.go:34-76) counts depth along its walk, not along the shortest way. Ten small
  documents, none more than eight references from the root, are refused or accepted depending on
  which of two URLs sorts first: `SchemaDetour.DetourDecides`.
- The bundle of a schema graph (agent/schemas.go:86-110) need not contain what it refers to.
  `SchemaClosure.ClosedExactly` says for which documents it does, by the base in force for each of
  them where the bundle puts it. Two of the ways in which it fails: a document that declares an `$id`
  other than the URL it was retrieved from is found under that `$id` alone, as in
  `SchemaUrls.RenamedIsLost`; and a relative `$id` is read against the retrieval URL by the loader, but
  against the base of the root's definitions in the bundle, so it can come to mean another URL, as in
  `SchemaUrls.RelativeIsLost` ("a.json" at https://s.example/dir/a.json under a root at
  https://s.example/root.json). `SchemaUrls.IdentifierDecides` covers every `$id` of a document that a
  root refers to, both ways.

## Model

| member | source | states |
|---|---|---|
| `FederatedSearch.ReachableInv` | agent/agent.go:54-88 | the invariant of workers, slots, channels and collector holds in every state that any interleaving reaches |
| `FederatedSearch.OutputIsInDirectoryOrder` | agent/agent.go:74-87 | the consumer always sees a prefix of the blocks put in the channels, in directory order; a drained search delivered all of them, and a context error ends the output only when the caller's context is done |
| `FederatedSearch.BlocksAreSearchResults` | agent/agent.go:61-72 | a worker puts in its channel what its search returned, or one context issue in its place only when work is cancelled |
| `FederatedSearch.SlotBound` | agent/agent.go:57-66 | at most `concurrency` workers hold a slot at any time |
| `FederatedSearch.NoCallAfterReturn` | agent/agent.go:74-87 | once the consumer has refused or the loop returns, no event is handed over |
| `FederatedSearch.DrainedOutput` | agent/agent.go:54-88 | without cancellation or refusal the output is the concatenation of all answers, whatever the schedule and the number of slots |
| `FederatedSearch.Progress` | agent/agent.go:54-88 | no reachable state is stuck: either everything has ended and every slot is free, or some step is possible |
| `FederatedSearch.StepDescends` | agent/agent.go:54-88 | every step lowers a well-founded measure |
| `FederatedSearch.NoInfiniteExecution` | agent/agent.go:54-88 | no execution goes on forever, whether the consumer drains, stops or is cancelled |
| `FederatedSearch.AcceptedRequestProgresses` | agent/agent.go:41-88 | no request whose concurrency is accepted gets stuck, and none has more than 16 searches running at once |
| `Hierarchy.Search.Depth` | service/static_catalog.go:298-327 | the recursive search keeps its memo and its marks correct, returns the depth it stores, and fails only with a witness |
| `Hierarchy.MemoIsLongest` | service/static_catalog.go:298-327 | a memoised depth is the exact length of the longest parent chain |
| `Hierarchy.ValidateRelationships` | service/static_catalog.go:290-334 | succeeds if and only if every reference is known, the parents are acyclic and no chain is longer than 32 edges; an error names a real unknown identifier, cycle or chain |
| `Hierarchy.WitnessRefutes` | service/static_catalog.go:290-334 | any error's witness contradicts a well-related catalog |
| `Hierarchy.CheckCatalog` | service/static_catalog.go:44-79 | a catalog is accepted if and only if its identifiers are unique and it is well related |
| `Hierarchy.CycleIsUnbounded` | service/static_catalog.go:305-324 | a cycle gives parent chains of every length, so the limit of 32 edges alone already refuses it |
| `StaticPaging.ExpiryWindow` | service/static_catalog.go:194-199 | a continuation minted at t expires after t+3600 and no later than t+7200 |
| `StaticPaging.ExpiryIsQuantised` | service/static_catalog.go:194-199 | requests within one lifetime window mint the same expiry |
| `StaticPaging.MintedCursorAccepted` | service/static_catalog.go:175-242 | a minted cursor redeemed in the same context within 3600 seconds yields its offset |
| `StaticPaging.StaticPage` | service/static_catalog.go:140-173 | the page loop serves exactly the slice, the terse copies and the continuation of its specification, and the same errors |
| `StaticPaging.IssuedInside` | service/static_catalog.go:140-192 | an issued cursor names the target of its request and an offset strictly inside the list it was issued over |
| `StaticPaging.ResumesInsideEarlierList` | service/static_catalog.go:140-242 | over every run of processes that share a key, each with its own lists, a request resumes strictly inside a list served before at its target |
| `StaticPaging.NoClampWithoutShrinking` | service/static_catalog.go:149-152 | while the list at a target does not shrink, no offset is clamped and none is at the end |
| `StaticPaging.ClampsExactly` | service/static_catalog.go:149-152 | some run over the lists served at a target, in order, is clamped if and only if a later list is shorter by more than one than an earlier one |
| `StaticPaging.RunsOutExactly` | service/static_catalog.go:149-171 | some run resumes at or past the end if and only if a later list is shorter than an earlier one of at least two items |
| `StaticPaging.RestartClamps` | service/static_catalog.go:27-31 | a restart from 100 items to 3 under one key: the continuation is accepted, clamped and answered with an empty last page |
| `StaticPaging.PageCountExact` | service/static_catalog.go:150-171 | the pages of a list are max(1, ceil(n / limit)): all but the last leave something over |
| `StaticPaging.NextPage` | service/static_catalog.go:140-242 | following the continuation of page k yields page k+1 |
| `StaticPaging.FollowingDeliversTheList` | service/static_catalog.go:140-242 | a client that follows continuations within their lifetime receives every item once and in order, without a refused cursor or a false loop |
| `CursorContexts.RedeemedExactly` | service/static_catalog.go:201-242 | over every run under one key, a request resumes at an offset if and only if an earlier request was given that cursor at that offset, for the same operation, language, representation and effective limit, and it still lasts |
| `CursorContexts.AnsweredExactly` | service/static_catalog.go:140-214 | every request of a run is answered with the page that starts where the run says; that the context changed, if and only if its cursor was issued in another; and otherwise that the continuation expired |
| `Traversal.IterateAgentPages` | agent/client.go:845-876 | hands over linked pages until the consumer refuses, the chain or the budget ends, a reference repeats or a load fails, and requests nothing else |
| `Traversal.AgentDeliversChain` | agent/client.go:444-484 | of a loop-free chain exactly the first `budget` pages are delivered, without an error |
| `Traversal.AgentSilenceIsCompleteness` | agent/client.go:845-876 | no error, no refusal and budget to spare mean that the whole chain was delivered |
| `Traversal.LinkedAgree` | agent/client.go:845-876 | the server's answers determine the chain |
| `Traversal.AgentReportsLoop` | agent/client.go:845-876 | of a chain that comes back to itself every page is delivered once, then the loop is reported |
| `Traversal.IteratePages` | pagination.go:16-45 | the complete contract of the bounded iterator, with its last, dropped page |
| `Traversal.BoundedCompleteness` | pagination.go:16-45 | complete if and only if the chain has at most 16 pages; silent if and only if at most 17 |
| `Traversal.BoundedReportsLoop` | pagination.go:16-45 | the same for the bounded iterator, for chains of at most 16 pages |
| `Traversal.Traverse` | directory/client.go:143-199 | at most `budget` requests, continuations with distinct keys, POST with a body only for the first, an error on a spent budget only at the guard of 10,000 |
| `Traversal.DirectoryDeliversChain` | directory/client.go:143-199 | a chain of addresses with distinct keys is delivered up to the budget, without an error unless the budget is 10,000 and the chain goes beyond it |
| `ItemTraversal.HandOutCounted` | directory/search.go:62-76 | the loop over pages and items takes pages while it wants more and hands over exactly the wanted prefix of their items |
| `ItemTraversal.HandOutItems` | agent/client.go:486-508 | the same for the loop of the Agent, which looks at the item budget before and after each item |
| `ItemTraversal.LoopsAgree` | agent/client.go:338-360 | the item loop takes every page the page iterator offers it, and stops where that iterator is refused |
| `ItemTraversal.AgentItems` | agent/client.go:486-508 | the item loop as the consumer of the page iterator: both contracts hold together and the items are the wanted prefix of all pages offered |
| `ItemTraversal.IterateItems` | pagination.go:49-64 | the same for the bounded iterator, without an item budget |
| `ItemTraversal.DirectoryItems` | directory/search.go:51-78 | the same for the Directory; an item budget out of range is refused before any request |
| `ItemTraversal.AgentItemsAreFirstMax` | agent/client.go:338-360 | a willing consumer receives exactly the first MaxItems of the first `budget` pages of the chain, and no page is requested once they are reached |
| `DirectoryRequest.RequestJson` | directory/client.go:201-284 | at most six requests, all to the client's origin, each following the redirect before; a result if and only if the last reply is a success of JSON in UTF-8 within 512 KiB, and otherwise which error |
| `DirectoryRequest.MethodAfterRedirects` | directory/client.go:237-242 | a request keeps its method and body until a redirect turns it into a GET without one |
| `Freshness.CacheDirectives` | agent/transport.go:300-315 | the map holds a name if and only if some directive of the header has it, with the value of the last one that does |
| `Freshness.CollectHoldsLast` | agent/transport.go:300-315 | the same for the function that specifies the loop: name by name, by the position of the last directive with that name |
| `Freshness.MaxAgeExpiry` | agent/transport.go:276-298 | expiry is now + max(0, max-age − Age) seconds if and only if that many seconds fit a duration |
| `Freshness.MaxAgeReadBack` | agent/transport.go:276-315 | a max-age written in decimal is read back as the same number |
| `Freshness.HugeMaxAgeExpiresInThePast` | agent/transport.go:291-291 | one second more than fits expires before it is stored |
| `HeaderReading.DirectiveIsRead` | agent/transport.go:300-315 | a directive is a name in small letters before the first equals sign and a value without white space and quotes around it |
| `HeaderReading.MaxAgeIsRead` | agent/transport.go:276-298 | a max-age is n seconds if and only if its last directive is a decimal number n within 64 bits, and absent if and only if there is none |
| `HeaderReading.AgeIsRead` | agent/transport.go:288-293 | an Age is a positive number, or counts as none |
| `HeaderReading.HeaderIsRead` | agent/transport.go:300-359 | no-store and no-cache by the directives named so, and Vary is supported if and only if each name it lists is one the cache key covers |
| `MemoryCache.Cache.Get` | agent/cache.go:24-33 | returns the stored record with a fresh copy of its body |
| `MemoryCache.Cache.Set` | agent/cache.go:35-41 | stores a copy: the contents change at one key, and the caller's array stays outside the cache |
| `MemoryCache.Cache.Delete` | agent/cache.go:17-22 | removes one key and nothing else |
| `MemoryCache.Cache.StoreThenScribble` | agent/cache.go:17-41 | overwriting the bytes that were stored or handed out does not change the cache |
| `CacheMachine.Request` | agent/transport.go:44-221 | the loop over redirects and the updates of the record and the cache compute the specification `Perform`: contents, result and requests sent |
| `RequestOutcomes.CallReturns` | agent/transport.go:44-221 | what a call sends and returns, told from the record found and the replies: the chain of redirects, and a response or one of thirteen errors by the reply to the last request |
| `RequestOutcomes.ReturnsIsUnique` | agent/transport.go:44-221 | the record and the replies leave one thing to send and one to return |
| `RequestOutcomes.SucceedsExactly` | agent/transport.go:61-219 | a call succeeds if and only if the record found is fresh and accepted, or the last reply is a readable success with an accepted body, or it confirms the record; and with which body, status and URL |
| `RequestOutcomes.CallLeaves` | agent/transport.go:61-219 | what is stored, renewed, kept or deleted, and when: body, validators, status and expiry by method, Vary, no-store, no-cache, max-age, Expires and fallback |
| `CacheMachine.FollowStaysHome` | agent/transport.go:79-133 | the redirect loop stays on the target's origin and within maxRedirects + 1 requests |
| `CacheMachine.RunKeeps` | agent/transport.go:44-221 | whatever calls overlap, fail or are abandoned between lookup and settlement, every stored record has a success status, a final URL on its origin and a body that some call under its key accepted |
| `CacheMachine.EveryReturnedBodyIsValid` | agent/transport.go:44-221 | when the key determines the validator, every body returned after any interleaving is valid, on every success path, and all requests stay on the origin and within the redirect bound |
| `CacheMachine.RejectedExactly` | agent/transport.go:150-157 | with no discipline at all, a call returns a body that it rejects if and only if a stale record was confirmed by a readable 304 of its own validator with an unsupported Vary, and its body is rejected |
| `CacheMachine.RejectedMeansClash` | agent/transport.go:44-221 | a rejected body that is returned was accepted by another call under the same key |
| `CacheMachine.SharedKeyExactly` | agent/transport.go:150-157 | for any two validators, any key and any URL, two calls in a row can return a rejected body if and only if the first accepts one that the second rejects |
| `CacheMachine.OtherKeysUntouched` | agent/transport.go:44-221 | a call changes no record but that of its own key |
| `CacheMachine.FreshOnlyBeforeExpiry` | agent/transport.go:61-69 | a fresh hit happens only strictly before the expiry, sends nothing and returns the stored body |
| `CacheMachine.NoFreshHitAfterNoCache` | agent/transport.go:164-215 | after a reply with no-store or no-cache there is no fresh hit until another call stores: not after calls to other keys, failures or lookups |
| `CacheMachine.NoFreshHitAfterConfirmations` | agent/transport.go:163-215 | nor after any number of 304s without freshness headers: the record keeps a lifetime of zero until a response is stored |
| `CacheMachine.RevalidationKeepsLifetime` | agent/transport.go:163-184 | a 304 without freshness headers restarts the lifetime and keeps its length |
| `CacheMachine.LifetimeSurvivesConfirmations` | agent/transport.go:163-195 | so does any number of them, with calls to other keys, fresh hits and failures in between: a fresh hit falls strictly within the original lifetime after the last one |
| `SupportingDocuments.SupportingJson` | agent/supporting.go:20-165 | the lookup, the redirect loop and the three ways to settle a reply compute the specification `Perform` |
| `SupportingDocuments.FollowStaysHome` | agent/supporting.go:53-84 | every request uses HTTPS and stays on the target's origin, within maxRedirects + 1 requests |
| `SupportingDocuments.RunKeeps` | agent/supporting.go:20-165 | whatever calls overlap, fail or are abandoned, and whatever others write under keys of their own, every record holds a document that a server delivered to a settled call for its class and target |
| `SupportingDocuments.EveryDocumentIsGenuine` | agent/supporting.go:20-165 | a returned document is the decoding of a body that a server delivered, as a success and in answer to a request that was sent, to a call for the same class and target, within the byte and depth limits of the class |
| `SupportingDocuments.ArrivedIsAnswered` | agent/supporting.go:53-84 | what a call arrives at is the answer to the last request that it sent |
| `DocumentOutcomes.CallReturns` | agent/supporting.go:20-165 | what a call sends and returns, told from the record found and the replies, with the errors |
| `DocumentOutcomes.SucceedsExactly` | agent/supporting.go:46-163 | a document is returned if and only if the record found is fresh or confirmed and decodes, or the last reply is a success of a media type of its class, within the bytes and depth of the class, that decodes; and it is that decoding |
| `DocumentOutcomes.CallLeaves` | agent/supporting.go:46-163 | what is stored, renewed, kept or deleted, and when |
| `SchemaReferences.Collect` | agent/schemas.go:200-279 | the recursive walkers find exactly the references, or the resource URLs, of a document, and fail exactly when one does not resolve |
| `SchemaReferences.ExternalReferences` | agent/schemas.go:181-198 | the references that no part of the document itself has, in order; an error exactly when some reference or identifier does not resolve |
| `SchemaReferences.FlatReferences` | agent/schemas.go:233-267 | a document without nested values refers to its `$ref`, read against its `$id`, read against its URL, and to nothing else |
| `SchemaReferences.FlatResources` | agent/schemas.go:200-231 | its parts have its URL and the one its `$id` declares, and no other |
| `SchemaReferences.RefIsNotEntered` | agent/schemas.go:233-267 | references inside a `$ref` that is no string do not count, though its parts have URLs |
| `SchemaGraph.Loader.Load` | agent/schemas.go:34-76 | the depth-first fetch keeps documents reachable, closed except for those being followed and within the ceilings; no URL is retrieved twice on any outcome; it ends on cyclic graphs, and an error has a witness |
| `SchemaGraph.LoadGraph` | agent/schemas.go:25-79 | the outcome is that of the depth-first walk in sorted order; on success the documents are exactly those reachable, at most 16, within 1 MiB and at most eight references deep; on every outcome each URL is fetched at most once and at most 16 are; without a long walk it succeeds if and only if nothing else stands in the way |
| `SchemaGraph.UsableExactly` | agent/schemas.go:44-76 | a document is usable if and only if it is retrieved, declares the 2020-12 dialect, passes the checks of dynamic references and vocabularies, and its references resolve |
| `SchemaDetour.DetourDecides` | agent/schemas.go:38-76 | ten documents within eight references, with nothing but depth in the way: they load if and only if the URL of the last sorts before that of the second |
| `SchemaGraph.WitnessExactly` | agent/schemas.go:34-76 | what can stand in the way, read off a list of the reachable documents: more than 16, more than 1 MiB together, or an unusable one; nine or fewer have no long walk |
| `SchemaBundle.FreeKey` | agent/schemas.go:97-103 | the loop ends with the first candidate key that is free |
| `SchemaBundle.Bundle` | agent/schemas.go:80-111 | each external document is added once under a fresh distinct key, in URL order; the root's own definitions and other members are unchanged |
| `SchemaClosure.BundleOfDocuments` | agent/schemas.go:86-110 | a walk over the bundle finds what it finds in each of its documents under the base in force there, and the URL of the root, and nothing else |
| `SchemaClosure.ClosedExactly` | agent/schemas.go:80-123 | the bundle contains whatever it refers to if and only if each URL that a document refers to, from where it stands in the bundle, is the URL of a part of a document there |
| `SchemaUrls.StaysExactly` | agent/schemas.go:104-107 | an external document has the base in the bundle that it has alone if and only if it declares no `$id`, or one that resolves alike against both bases, or both bases are one |
| `SchemaUrls.UrlIsKept` | agent/schemas.go:104-107 | when no document's base moves and the root's `$defs`, if any, is kept, the URL of an external document is that of a part of the bundle if and only if its `$id`, if any, resolves to that URL or another part has it |
| `SchemaUrls.ClosedByUrls` | agent/schemas.go:80-123 | when no document's base moves and the root's `$defs`, if any, is kept, the bundle contains whatever it refers to if and only if every external document keeps its URL |
| `SchemaUrls.ResolveSchema` | agent/schemas.go:25-128 | loading and bundling together, with both conditions on the documents loaded |
| `SchemaUrls.IdentifierDecides` | agent/schemas.go:104-107 | a root that refers to a document with any `$id`: the reference leads to it if and only if the `$id`, read against the root, is its URL |
| `SchemaUrls.RenamedIsLost` | agent/schemas.go:104-107 | a document that declares another URL is fetched and bundled, and the reference to it leads nowhere |
| `SchemaUrls.RelativeIsLost` | agent/schemas.go:104-107 | so does the reference to a document that declares its own URL by a relative `$id` which means another under the root |
| `Normalization.Compact` | validation.go:296-321 | writing kept items over the front of the array being read equals pure filtering |
| `Normalization.StripKeys` | validation.go:347-361 | deleting members in any order of iteration leaves exactly the allowed ones |
| `Normalization.KeepExact` | validation.go:403-421 | exactly the kept items remain, and all of them if and only if all are kept |
| `NormalizationStability.RunByMember` | validation.go:215-265 | a pass acts on each member separately: the result for a member is its own helpers in order |
| `NormalizationStability.DefinitionOrderIsIrrelevant` | validation.go:363-393 | filters and sorts can be normalised in either order of the map |
| `NormalizationStability.ServiceDocumentStable` | validation.go:215-238 | for every Service Document three passes equal two, and two equal one if and only if the first did not empty `protocols` |
| `NormalizationStability.EmptiesProtocolsExact` | validation.go:215-221 | the first pass leaves an empty `protocols` if and only if its payments are an empty list or one with a payment known by name, no payment known by name has known authentication, and nothing else in it is known |
| `NormalizationStability.OtherKindsStable` | validation.go:239-265 | one pass settles every other kind of document |
| `NormalizationStability.OnePassIsNotAlwaysEnough` | validation.go:218-221 | a concrete document that a second pass changes |
| `NormalizationSurvivors.OperationsExact` | validation.go:222-229 | an operation survives if and only if its name and authentication are those of the schema and it has no other member; survivors keep their order and number |
| `NormalizationSurvivors.McpExact` | validation.go:228-230 | the same for MCP endpoints, by type and members |
| `NormalizationSurvivors.ActionsExact` | validation.go:459-511 | an Action survives if and only if an Agent knows everything it relies on in it, again in order and number |
| `NormalizationSurvivors.PagesExact` | validation.go:258-264 | pages of filters and sorts and problem documents lose exactly the items that the schemas do not list, and keep an empty list |
| `NormalizationSurvivors.KeepOneMore` | validation.go:403-421 | one filter after others filters by all their rules at once |
| `NormalizationSurvivors.OtherMembersUntouched` | validation.go:215-265 | members that no helper names are unchanged |
| `Vocabulary.KeepsAction` | validation.go:477-508 | the rule for Actions keeps exactly those with the members, methods and authentication of the schemas |
| `Vocabulary.KeepsFilter` | validation.go:537-556 | the rule for filters keeps exactly those with the types, operators and unit systems of the schemas |
| `NormalizedMembers.SchemaAndPrice` | validation.go:459-470 | a schema reference goes if and only if it has another member than `url`, a price if and only if its type is not one of six |
| `NormalizedMembers.Images` | validation.go:234-239 | images of a known type survive, each with the members of an image and no other |
| `NormalizedMembers.BrandingExact` | validation.go:267-293 | branding goes if and only if an image of it is of an unknown type or it has no image; otherwise its images are left, cut down to what is known |
| `NormalizedMembers.CapabilitiesExact` | validation.go:363-393 | search capabilities lose exactly the unknown definitions, a source without any left, and go when nothing is left |
| `NormalizedMembers.ProtocolsExact` | validation.go:218-231 | each category loses exactly its unknown descriptors, payments their unknown options, and protocols go if and only if nothing of a known name is left |
| `NormalizedMembers.ServiceDocumentExact` | validation.go:217-233 | what one pass leaves of every member of a Service Document |
| `NormalizedMembers.ResourcesExact` | validation.go:234-243 | what one pass leaves of every member of a Collection and of an Offering |
| `NormalizedMembers.ResourcePagesExact` | validation.go:244-257 | a page of Collections or Offerings keeps its items, each treated as a document of its own |
| `StrictAgreement.StrictDocumentIsUnchanged` | validation.go:194-200 | a document that meets the strict schema is left unchanged, so both parsers agree on it |
| `StrictAgreement.StrictCollectionIsUnchanged` | validation.go:234-240 | a Collection that meets the strict schema is left unchanged |
| `StrictAgreement.StrictOfferingIsUnchangedExactly` | validation.go:459-511 | an Offering that meets the strict schema is left unchanged if and only if its price, if any, is of a described type and it has no search capabilities with nothing or anything unknown in them |
| `StrictAgreement.UndescribedPriceIsDropped` | validation.go:463-470 | the price type "auction", which the schema admits, is dropped |
| `StrictAgreement.StrictListsAreUnchanged` | validation.go:258-264 | pages of definitions and problem documents that meet the strict schemas are left unchanged |
| `Capabilities.LoadPages` | agent/capabilities.go:259-293 | at most 16 requests to distinct addresses; success is the concatenation of a chain that ended, within the budget, and every error names its cause |
| `Capabilities.FirstRepeated` | agent/capabilities.go:188-197 | finds the first identifier to occur a second time, if there is one |
| `Capabilities.TakeSource` | agent/capabilities.go:123-135 | deleting the conflicts and inserting the rest, in any order, is the symmetric difference of the two catalogs |
| `Capabilities.AddSource` | agent/capabilities.go:94-139 | a source is taken whole or not at all, the limit is kept, one exact issue is reported, and a linked source never exceeds the effective limit |
| `Capabilities.ExactlyOnePublishes` | agent/capabilities.go:118-135 | an identifier is in the catalog if and only if one accepted source, and only one, publishes it, with that source's definition |
| `Capabilities.ResolveSorts` | agent/capabilities.go:66-84 | the usable sorts with one filter for each key, and one issue for each other, in the order of identifiers |
| `Capabilities.ResolveSearchCapabilities` | agent/capabilities.go:41-85 | the composition of the four sources in their order, within 1024 filters and 128 sorts, with its issues in order |
| `Capabilities.WhatIsComposed` | agent/capabilities.go:41-85 | the final filters and sorts, each by an if-and-only-if over the sources, and the filters of each sort |
| `Capabilities.CompositionIsDetermined` | agent/capabilities.go:65-84 | the whole result, with the issues and their order, does not depend on map iteration |
| `Capabilities.UnusableSortIsReported` | agent/capabilities.go:66-84 | a sort is reported for want of a filter if and only if one accepted source, and only one, publishes it and a key of it names no filter; and under that source |
| `Capabilities.IssuesExactly` | agent/capabilities.go:94-139 | any other issue is reported if and only if it is due: the source of that kind and scope could not be loaded, repeats an identifier, does not fit within 1024 filters or 128 sorts, or publishes what is there |
| `Routing.RoutingInvertsBuilding` | service/service.go:219-262 | routing a built path gives the operation and identifier it was built from, if and only if it is not a resource called `search` |
| `Routing.BuiltRequestIsServed` | service/service.go:210-262 | with its method, a built request reaches its operation, or is reported unsupported when that is not provided |
| `Routing.SearchIsShadowed` | service/service.go:237-245 | a resource called `search` is answered by the search operation |
| `Routing.BuildingInvertsRouting` | references.go:125-163 | a path that is routed to an operation is the one path that a client builds for it |
| `Routing.NeverWellKnown` | service/service.go:222-232 | no built path is taken for the well-known document, whatever the endpoint base |
| `Routing.NotAMember` | service/service.go:1118-1131 | a Collection called `offerings`, or anything else, is not read as a member list |
| `Routing.InvalidExactly` | service/service.go:1107-1140 | a request is refused as malformed if and only if one segment stands where an identifier belongs and is not one |
| `Routing.Addresses` | references.go:136-163 | the path and the method of every operation, as the protocol writes them |
| `Routing.IdentifierExactly` | references.go:26-28 | an identifier is 1 to 128 unreserved characters and not a dot segment |
| `Routing.BuildFails` | references.go:125-141 | no path is built if and only if the base is not an absolute path, or an identifier is missing, malformed or superfluous |
| `Routing.VerbDecides` | service/service.go:237-262 | a routed request is answered by its operation if and only if that is provided and read with GET or HEAD, or searched with POST |
| `Routing.DocumentIsServed` | service/service.go:222-232 | the Service Document is at the well-known path under every endpoint base |
| `RoutingResolved.RoutingInvertsRequests` | references.go:125-134 | routing the path that a client requests, once resolved, gives the operation and identifier if and only if it is not a resource called `search` and the base has no dot segments |
| `RoutingResolved.RequestIsServed` | service/service.go:210-262 | a request reaches its operation, or is reported unsupported; under a base with dot segments it never does |
| `RoutingResolved.RequestsInvertRouting` | references.go:125-163 | of the paths without dot segments, the one that is routed to an operation is the one that a client requests for it |
| `RoutingResolved.RemoveDotsResolves` | references.go:133-133 | the algorithm of section 5.2.4 of RFC 3986 has the two properties that stand for resolution here |
| `RoutingResolved.DottedBaseIsUnreachable` | service/service.go:219-232 | every base of the form "/a/../b": the request goes to "/b/offerings" and is not found |
| `Negotiation.AcceptsOdp` | service/service.go:933-965 | accepted if and only if the header is blank or one of the most specific matching ranges has a positive weight |
| `HeaderOutcomes.AcceptedExactly` | service/service.go:933-965 | accepted if and only if an entry wants the exact type; when none weighs it, the wildcard of its type; when none weighs that, any type |
| `EntryReading.QualityIsRead` | service/service.go:1063-1090 | a quality is read if and only if it meets the grammar of section 12.4.2 of RFC 9110, and as the number it stands for |
| `EntryReading.QualityReadBack` | service/service.go:1063-1090 | three decimals are read back as the number of thousandths |
| `EntryReading.EntryIsRead` | service/service.go:1058-1090 | an entry is its range in small letters and the weight of its first `q`, in either case, or full weight |
| `EntryReading.EntryReadBack` | service/service.go:1058-1090 | "range;q=text" is read as that range and that quality |
| `EntryReading.PreferencesAreRead` | service/service.go:975-982 | the preferences are the entries with a range and a well-formed weight, in order, as they are read |
| `Negotiation.Entries` | service/service.go:1044-1056 | the entries looked at are the first 64 of the header, or all of them |
| `Negotiation.Lookup` | service/service.go:1018-1037 | the loop over truncations ends for every range and finds what its specification finds |
| `Negotiation.CandidatesShrink` | service/service.go:1028-1036 | every truncation is a prefix that ends at a subtag, shorter than the one before |
| `Negotiation.LookupIsLongest` | service/service.go:1018-1037 | the tag found is the first that equals the longest truncation with a match, and none is found if and only if no truncation has one |
| `LookupSingletons.SingletonIsTried` | service/service.go:1031-1035 | a truncation that is or ends in a singleton is tried if and only if the first of several subtags is a singleton or two singletons in a row come before the last |
| `LookupSingletons.CandidatesAgreeExactly` | service/service.go:1028-1036 | outside that condition, and only there, the truncations are those of section 3.4 of RFC 4647 |
| `LookupSingletons.LookupAgreesExactly` | service/service.go:1018-1037 | outside that condition, and only there, the tag found is the one the RFC finds, among any tags |
| `LookupSingletons.FirstSingletonFound` | service/service.go:1031-1035 | the range "x-foo" finds the tag "X" |
| `LookupSingletons.PrivateUseFound` | service/service.go:1031-1035 | the range "en-x-a-b-c" finds "en-x-a", and the RFC finds "en" |
| `Negotiation.ByQualityIsStable` | service/service.go:998-998 | the ranges are sorted by descending quality and those of one quality keep their order |
| `Negotiation.FirstFinderDecides` | service/service.go:998-1003 | the first range in that order to find a tag is the one that no other outranks |
| `Negotiation.SelectLanguage` | service/service.go:970-1016 | the loops part the header, try the wanted ranges and then the residual, as the choice is specified |
| `Negotiation.ChoiceIsSound` | service/service.go:967-1016 | the choice is an advertised tag or none, and a wildcard neither outranks a named range nor yields a refused tag |
| `Negotiation.ChoiceIsUnique` | service/service.go:970-1016 | a header has one choice |
| `HeaderOutcomes.SelectedExactly` | service/service.go:970-1016 | the choice told by the entries: what the entry of greatest weight that finds a tag finds; or what a wanted wildcard leaves; or none |
| `HeaderOutcomes.CoversBySubtags` | service/service.go:1039-1042 | a range covers a tag if and only if its subtags are the first subtags of the tag, section 3.3.1 of RFC 4647 |
| `Actions.NormalizeActions` | agent/offerings.go:88-134 | the two loops compute the results and the issues of the specification, in input order |
| `Actions.EachIdentifierOnce` | agent/offerings.go:88-134 | each identifier of the input is accounted for exactly once across results and issues, and a repeated one never as a result |
| `Actions.ResultsKeepOrder` | agent/offerings.go:95-132 | the results are the Actions that come once and resolve, all of them, in input order |
| `Actions.ActionsExactly` | agent/offerings.go:88-158 | the results are the Actions whose identifier comes once, each with where it leads, and the issues those that lead nowhere, each with its reason, and the repeated identifiers |
| `JsonDepth.Depth` | internal/jsonvalue/depth.go:15-36 | the worklist loop ends, and its maximum is the length of the longest chain of nested values, in whatever order members come |
| `JsonDepth.DepthIsRecursive` | internal/jsonvalue/depth.go:15-36 | that depth is one more than the deepest child's |
| `JsonDepth.VisitCovers` | internal/jsonvalue/depth.go:24-34 | one visit keeps the pending values and the maximum sufficient for the depth |
| `JsonDepth.WrappingAddsOne` | internal/jsonvalue/depth.go:24-34 | an array or an object around a value adds one level |
| `JsonDepth.FlatDepth` | internal/jsonvalue/depth.go:15-36 | what holds nothing has depth one |

## Left out

- FederatedSearch.DrainedOutput: each searchService call is one step that returns any list of events; what it does with a Service, and the listing of Services before the workers start, are not modelled.
- SchemaGraph.Loader.Load: retrieval is one function of the URL, so a server that answers the same URL differently within one load is not covered; each URL is fetched at most once.
- StaticPaging.FollowingDeliversTheList: assumes an unchanged request context and a list that does not change while it is followed; the check of `next` against 2048 bytes and printable ASCII is not modelled.
- StaticPaging.ResumesInsideEarlierList: signatures are symbolic, so a cursor that verifies is one that was issued under the key.
- CacheMachine.EveryReturnedBodyIsValid: holds under a discipline that callers do not keep, see above; that the key determines the origin is no assumption on callers, because the key contains the target.
- SupportingDocuments.EveryDocumentIsGenuine: assumes that other users of the cache keep to keys of their own, and that distinct classes or targets have distinct keys.
- CacheMachine.Request: runs one call at a time, the overlapping of calls being stated by RunKeeps; an error of the cache is a call that is abandoned there, and the parsing of problem documents is left out; a URL is its origin and its text.
- CacheMachine.LifetimeSurvivesConfirmations: speaks of calls that follow one another; an overlapping call may store an older response in between.
- ItemTraversal.DirectoryItems: reporting the issues of a page to the caller is not modelled.
- Traversal.IterateAgentPages: validating a page and caching it are part of the abstract load.
- RoutingResolved.RoutingInvertsRequests: resolution is any function with two properties of RFC 3986 on paths that do not begin with two slashes; percent-encoding in an endpoint base is not modelled.
- SchemaClosure.ClosedExactly: resolution is any function whose results are URLs and under which a URL resolves to itself; that a reference which resolves where the loader reads it also resolves in the bundle is not stated, and fragments are not followed.
- Negotiation.SelectLanguage: letters are folded in ASCII only, which is all that language tags use.
- RequestOutcomes.CallLeaves: the expiry under a max-age beyond the range of a duration is left to Freshness.MaxAgeExpiry.
- Negotiation.AcceptsOdp: qualities are exact thousandths instead of floating-point numbers; values of the grammar compare the same.
- Capabilities.ResolveSearchCapabilities: parsing and normalising a capability page are part of the abstract server; the text of issues is a tag with its arguments.
- Actions.NormalizeActions: resolving a reference is an arbitrary function; copying of content types is not modelled.
- NormalizationStability.ServiceDocumentStable: the passes are functions on members; only the compaction of a list and the deletion of keys are shown in place, and aliasing between members of one decoded document does not arise.
- StrictAgreement.StrictDocumentIsUnchanged: only the clauses of the schemas, of this and of the other kinds, for members that normalisation touches are written out; numbers are opaque, and the decoding of large integers through floating point is not modelled.
- The check that a catalog's own continuations stay on the request's authority, a short branch table over URLs.
- Field-by-field validation of documents, representations and options, because one branch settles each.
- Header writing, entity tags, request bodies and problem responses of the Service.
- JSON Schema and OpenAPI evaluation, HTTP, TLS, DNS and URL parsing.
- Additional and optional members of models, which reflection decides.

/**
 Continuation traversals: `iterateOfferingPages` of agent/client.go, `traverse` of
 directory/client.go and `IteratePages` of pagination.go.

 A server is an arbitrary function of the number of the request and the reference requested, so
 it may answer the same reference differently every time. A consumer is an arbitrary function
 from the number of the call to its answer.
 */
module Traversal {
  import opened Wrappers
  import opened Sequences

  const MAX_TRAVERSAL_PAGES := 16     // pagination.go
  const DIRECTORY_GUARD := 10_000     // directory/client.go

  /** `next` is absent where the source has the empty string. */
  datatype Page<T, R> = Page(items: seq<T>, next: Option<R>)

  datatype Failure<E> = PaginationLoop | LoadFailed(error: E) | ContextEnded | LimitExceeded

  /**
   One finished traversal: the pages handed to the consumer, the references requested, and the
   error handed to the consumer after them, if any.
   */
  datatype Trace<T, R, E> = Trace(pages: seq<Page<T, R>>, loads: seq<R>, failure: Option<Failure<E>>)

  type Loader<!T, !R, !E> = (nat, R) -> Result<Page<T, R>, E>

  /** Page `k` has a continuation, and page `k + 1` is the server's answer to it. */
  ghost predicate Link<T, R, E>(load: Loader<T, R, E>, pages: seq<Page<T, R>>, k: nat)
    requires k + 1 < |pages|
  {
    pages[k].next.Some? && load(k, pages[k].next.value) == Ok(pages[k + 1])
  }

  ghost predicate Linked<T, R, E>(first: Page<T, R>, load: Loader<T, R, E>, pages: seq<Page<T, R>>) {
    pages != [] && pages[0] == first && forall k: nat :: k + 1 < |pages| ==> Link(load, pages, k)
  }

  lemma LinkedSnoc<T, R, E>(first: Page<T, R>, load: Loader<T, R, E>, pages: seq<Page<T, R>>, page: Page<T, R>)
    requires if pages == [] then page == first
             else Linked(first, load, pages) && pages[|pages| - 1].next.Some?
                  && load(|pages| - 1, pages[|pages| - 1].next.value) == Ok(page)
    ensures Linked(first, load, pages + [page])
  {
    var longer := pages + [page];
    forall k: nat | k + 1 < |longer| ensures Link(load, longer, k) {
      if k + 1 < |pages| {
        assert Link(load, pages, k);
      }
    }
  }

  lemma LinkedPrefix<T, R, E>(first: Page<T, R>, load: Loader<T, R, E>, pages: seq<Page<T, R>>, n: nat)
    requires Linked(first, load, pages) && 0 < n <= |pages|
    ensures Linked(first, load, pages[..n])
  {
    forall k: nat | k + 1 < n ensures Link(load, pages[..n], k) {
      assert Link(load, pages, k);
    }
  }

  /** The whole chain that a server offers: it is linked and its last page has no continuation. */
  ghost predicate WholeChain<T, R, E>(first: Page<T, R>, load: Loader<T, R, E>, chain: seq<Page<T, R>>) {
    Linked(first, load, chain) && chain[|chain| - 1].next.None?
  }

  /** The continuations of all pages but the last. */
  function References<T, R>(pages: seq<Page<T, R>>): (r: seq<R>)
    requires pages != [] && forall k :: 0 <= k < |pages| - 1 ==> pages[k].next.Some?
    ensures |r| == |pages| - 1 && forall k :: 0 <= k < |r| ==> r[k] == pages[k].next.value
  {
    seq(|pages| - 1, k requires 0 <= k < |pages| - 1 => pages[k].next.value)
  }

  /** A chain whose references are pairwise distinct, and none of them `initial`. */
  ghost predicate LoopFree<T, R>(pages: seq<Page<T, R>>, initial: Option<R>) {
    && pages != [] && (forall k :: 0 <= k < |pages| - 1 ==> pages[k].next.Some?)
    && Distinct(References(pages)) && (initial.Some? ==> initial.value !in References(pages))
  }

  /** Pages and requests of a traversal that has handed over `pages`, and all of them accepted but the last. */
  ghost predicate Walked<T, R, E>(first: Page<T, R>, load: Loader<T, R, E>, accept: nat -> bool,
                                  t: Trace<T, R, E>) {
    && Linked(first, load, t.pages)
    && |t.pages| - 1 <= |t.loads| <= |t.pages|
    && (forall k: nat :: k < |t.loads| ==> t.pages[k].next == Some(t.loads[k]))
    && (forall k: nat :: k < |t.pages| - 1 ==> accept(k))
    && Distinct(t.loads)
  }

  /** A traversal underway: every page in `pages` was accepted and continued, and `page` comes next. */
  ghost predicate Underway<T, R, E>(first: Page<T, R>, load: Loader<T, R, E>, accept: nat -> bool,
                                    pages: seq<Page<T, R>>, loads: seq<R>, page: Page<T, R>)
  {
    && |pages| == |loads| && Distinct(loads)
    && (if pages == [] then page == first
        else Linked(first, load, pages) && load(|loads| - 1, loads[|loads| - 1]) == Ok(page))
    && forall k: nat :: k < |pages| ==> pages[k].next == Some(loads[k]) && accept(k)
  }

  /** The page that comes next is handed over. */
  lemma HandOver<T, R, E>(first: Page<T, R>, load: Loader<T, R, E>, accept: nat -> bool,
                          pages: seq<Page<T, R>>, loads: seq<R>, page: Page<T, R>, failure: Option<Failure<E>>)
    requires Underway(first, load, accept, pages, loads, page)
    ensures Walked(first, load, accept, Trace(pages + [page], loads, failure))
  {
    LinkedSnoc(first, load, pages, page);
  }

  /** It is accepted, and its continuation, not followed before, is requested. */
  lemma RequestNext<T, R, E>(first: Page<T, R>, load: Loader<T, R, E>, accept: nat -> bool,
                             pages: seq<Page<T, R>>, loads: seq<R>, page: Page<T, R>, failure: Option<Failure<E>>)
    requires Underway(first, load, accept, pages, loads, page)
    requires accept(|pages|) && page.next.Some? && page.next.value !in loads
    ensures Walked(first, load, accept, Trace(pages + [page], loads + [page.next.value], failure))
    ensures var loaded := load(|pages|, page.next.value);
            loaded.Ok? ==> Underway(first, load, accept, pages + [page], loads + [page.next.value], loaded.value)
  {
    LinkedSnoc(first, load, pages, page);
    DistinctSnoc(loads, page.next.value);
  }

  // ----- agent/client.go: iterateOfferingPages and yieldCollectionPages -----

  /**
   The complete contract of the Agent's page iterator. The last page decides how it ends: the
   consumer refuses, the chain ends, the budget is spent (silently), the continuation has been
   followed before, or the request for it fails.
   */
  ghost predicate AgentTraversal<T, R, E>(first: Page<T, R>, initial: Option<R>, budget: nat,
                                          load: Loader<T, R, E>, accept: nat -> bool, t: Trace<T, R, E>)
    requires budget > 0
  {
    && Walked(first, load, accept, t)
    && |t.pages| <= budget
    && (initial.Some? ==> initial.value !in t.loads)
    && var n := |t.pages|;
       var next := t.pages[n - 1].next;
       if !accept(n - 1) || next.None? || n >= budget then
         t.failure.None? && |t.loads| == n - 1
       else if next == initial || next.value in t.loads[..n - 1] then
         t.failure == Some(PaginationLoop) && |t.loads| == n - 1
       else
         |t.loads| == n && load(n - 1, next.value).Err?
         && t.failure == Some(LoadFailed(load(n - 1, next.value).error))
  }

  method IterateAgentPages<T, R(==), E>(first: Page<T, R>, initial: Option<R>, budget: nat,
                                       load: Loader<T, R, E>, accept: nat -> bool)
    returns (t: Trace<T, R, E>)
    requires budget > 0
    ensures AgentTraversal(first, initial, budget, load, accept, t)
  {
    var page := first;
    var visited: set<R> := if initial.Some? then {initial.value} else {};
    var pages: seq<Page<T, R>> := [];
    var loads: seq<R> := [];
    for count := 0 to budget
      invariant |pages| == count < budget
      invariant Underway(first, load, accept, pages, loads, page)
      invariant forall r :: r in visited <==> r in loads || initial == Some(r)
      invariant initial.Some? ==> initial.value !in loads
    {
      ghost var before, requested := pages, loads;
      pages := pages + [page];
      if !accept(count) || page.next.None? || count + 1 >= budget {
        HandOver(first, load, accept, before, loads, page, None);
        return Trace(pages, loads, None);
      }
      if page.next.value in visited {
        HandOver(first, load, accept, before, loads, page, Some(PaginationLoop));
        return Trace(pages, loads, Some(PaginationLoop));
      }
      visited := visited + {page.next.value};
      loads := loads + [page.next.value];
      var loaded := load(count, page.next.value);
      RequestNext(first, load, accept, before, requested, page,
                  if loaded.Err? then Some(LoadFailed(loaded.error)) else None);
      if loaded.Err? {
        return Trace(pages, loads, Some(LoadFailed(loaded.error)));
      }
      page := loaded.value;
    }
    assert false;
  }

  /**
   A loop-free chain is delivered exactly: to a consumer that never refuses, the traversal hands
   over the first `budget` pages of it, with no error and no request beyond them.
   */
  lemma AgentDeliversChain<T, R, E>(first: Page<T, R>, initial: Option<R>, budget: nat, load: Loader<T, R, E>,
                                    accept: nat -> bool, t: Trace<T, R, E>, chain: seq<Page<T, R>>)
    requires budget > 0 && AgentTraversal(first, initial, budget, load, accept, t)
    requires WholeChain(first, load, chain) && LoopFree(chain, initial)
    requires forall k :: 0 <= k < |chain| ==> accept(k)
    ensures t.failure.None?
    ensures t.pages == chain[..if |chain| <= budget then |chain| else budget]
    ensures |t.loads| == |t.pages| - 1
  {
    LinkedAgree(first, load, t.pages, chain);
    var n := |t.pages|;
    if n < |chain| {
      NotVisited(t, chain);
      assert Link(load, chain, n - 1);
    }
  }

  lemma NotVisited<T, R, E>(t: Trace<T, R, E>, chain: seq<Page<T, R>>)
    requires LoopFree(chain, None) && 0 < |t.pages| < |chain| && t.pages == chain[..|t.pages|]
    requires |t.pages| - 1 <= |t.loads| <= |t.pages|
    requires forall k: nat :: k < |t.loads| ==> t.pages[k].next == Some(t.loads[k])
    ensures chain[|t.pages| - 1].next.value == References(chain)[|t.pages| - 1]
    ensures chain[|t.pages| - 1].next.value !in t.loads[..|t.pages| - 1]
  {
    var n := |t.pages|;
    forall j | 0 <= j < n - 1 ensures t.loads[j] != chain[n - 1].next.value {
      assert References(chain)[j] == t.loads[j];
    }
  }

  /** The server's answers determine the chain: two linked sequences agree as far as both go. */
  lemma {:induction false} LinkedAgree<T, R, E>(first: Page<T, R>, load: Loader<T, R, E>,
                                                a: seq<Page<T, R>>, chain: seq<Page<T, R>>)
    requires Linked(first, load, a) && WholeChain(first, load, chain)
    ensures |a| <= |chain| && a == chain[..|a|]
    decreases |a|
  {
    if |a| > 1 {
      var n := |a| - 1;
      LinkedPrefix(first, load, a, n);
      LinkedAgree(first, load, a[..n], chain);
      assert chain[n - 1] == a[..n][n - 1];
      assert Link(load, a, n - 1);
      if n < |chain| {
        assert Link(load, chain, n - 1);
      }
    }
  }

  /** With no error, no refusal and budget to spare, the whole chain was delivered. */
  lemma AgentSilenceIsCompleteness<T, R, E>(first: Page<T, R>, initial: Option<R>, budget: nat, load: Loader<T, R, E>,
                                            accept: nat -> bool, t: Trace<T, R, E>)
    requires budget > 0 && AgentTraversal(first, initial, budget, load, accept, t)
    requires t.failure.None? && accept(|t.pages| - 1) && |t.pages| < budget
    ensures WholeChain(first, load, t.pages)
  {
  }

  // ----- Chains that come back to themselves -----

  /** A chain of distinct references whose last page refers to one of them, or to `initial`. */
  ghost predicate Looping<T, R, E>(first: Page<T, R>, load: Loader<T, R, E>, chain: seq<Page<T, R>>,
                                   initial: Option<R>)
  {
    && Linked(first, load, chain) && LoopFree(chain, initial)
    && var next := chain[|chain| - 1].next;
       next.Some? && (next == initial || next.value in References(chain))
  }

  /** Two linked sequences of one server are one as far as both go. */
  lemma {:induction false} LinkedTogether<T, R, E>(first: Page<T, R>, load: Loader<T, R, E>,
                                                   a: seq<Page<T, R>>, b: seq<Page<T, R>>, n: nat)
    requires Linked(first, load, a) && Linked(first, load, b) && 0 < n <= |a| && n <= |b|
    ensures a[..n] == b[..n]
  {
    if n > 1 {
      LinkedTogether(first, load, a, b, n - 1);
      assert a[n - 2] == a[..n - 1][n - 2] && b[n - 2] == b[..n - 1][n - 2];
      assert Link(load, a, n - 2) && Link(load, b, n - 2);
    }
  }

  /** Distinct requests cannot go on to a reference that has been followed. */
  lemma FollowsNoMore<R>(loads: seq<R>, references: seq<R>, next: R, initial: Option<R>)
    requires Distinct(loads) && (initial.Some? ==> initial.value !in loads)
    requires forall k :: 0 <= k < |loads| && k < |references| ==> loads[k] == references[k]
    requires |loads| > |references| ==> loads[|references|] == next
    requires next in references || Some(next) == initial
    ensures |loads| <= |references|
  {
    if next in references {
      var j :| 0 <= j < |references| && references[j] == next;
    }
  }

  /** A walk along a looping chain does not go past its end. */
  lemma LoopIsTheEnd<T, R, E>(first: Page<T, R>, load: Loader<T, R, E>, accept: nat -> bool, t: Trace<T, R, E>,
                              chain: seq<Page<T, R>>, initial: Option<R>)
    requires Walked(first, load, accept, t) && Looping(first, load, chain, initial)
    requires initial.Some? ==> initial.value !in t.loads
    ensures |t.pages| <= |chain| && t.pages == chain[..|t.pages|]
    ensures |t.pages| < |chain| ==> chain[|t.pages| - 1].next.value !in t.loads[..|t.pages| - 1]
  {
    var n := if |t.pages| <= |chain| then |t.pages| else |chain|;
    LinkedTogether(first, load, t.pages, chain, n);
    forall k | 0 <= k < n ensures t.pages[k] == chain[k] {
      assert t.pages[..n][k] == chain[..n][k];
    }
    FollowsNoMore(t.loads, References(chain), chain[|chain| - 1].next.value, initial);
    if |t.pages| < |chain| {
      NotVisited(t, chain);
    }
  }

  lemma EveryLink<T, R, E>(first: Page<T, R>, load: Loader<T, R, E>, chain: seq<Page<T, R>>)
    requires Linked(first, load, chain)
    ensures forall k: nat :: k + 1 < |chain| ==> chain[k].next.Some? && load(k, chain[k].next.value).Ok?
  {
    forall k: nat | k + 1 < |chain| ensures chain[k].next.Some? && load(k, chain[k].next.value).Ok? {
      assert Link(load, chain, k);
    }
  }

  /** The Agent delivers a looping chain once and reports the loop, budget permitting. */
  lemma AgentReportsLoop<T, R, E>(first: Page<T, R>, initial: Option<R>, budget: nat, load: Loader<T, R, E>,
                                  accept: nat -> bool, t: Trace<T, R, E>, chain: seq<Page<T, R>>)
    requires budget > |chain| && AgentTraversal(first, initial, budget, load, accept, t)
    requires Looping(first, load, chain, initial) && forall k :: 0 <= k < |chain| ==> accept(k)
    ensures t.pages == chain && t.failure == Some(PaginationLoop) && |t.loads| == |chain| - 1
  {
    LoopIsTheEnd(first, load, accept, t, chain, initial);
    EveryLink(first, load, chain);
  }

  // ----- pagination.go: IteratePages -----

  /**
   The contract of `IteratePages`. `live(k)` tells whether the context is still alive when it is
   looked at for the k-th time. The page budget is spent only after one further page was loaded:
   that page is dropped, with an error only if it has a continuation of its own.
   */
  ghost predicate BoundedTraversal<T, R, E>(first: Page<T, R>, load: Loader<T, R, E>, live: nat -> bool,
                                            accept: nat -> bool, t: Trace<T, R, E>)
  {
    && Walked(first, load, accept, t)
    && |t.pages| <= MAX_TRAVERSAL_PAGES
    && var n := |t.pages|;
       var next := t.pages[n - 1].next;
       if !accept(n - 1) || next.None? then
         t.failure.None? && |t.loads| == n - 1
       else if next.value in t.loads[..n - 1] then
         t.failure == Some(PaginationLoop) && |t.loads| == n - 1
       else if !live(n - 1) then
         t.failure == Some(ContextEnded) && |t.loads| == n - 1
       else
         && |t.loads| == n
         && match load(n - 1, next.value)
            case Err(e) => t.failure == Some(LoadFailed(e))
            case Ok(dropped) =>
              && n == MAX_TRAVERSAL_PAGES
              && t.failure == if dropped.next.Some? then Some(LimitExceeded) else None
  }

  /** The ways to end before another page is requested. */
  lemma EndsBeforeRequest<T, R, E>(first: Page<T, R>, load: Loader<T, R, E>, live: nat -> bool, accept: nat -> bool,
                                   pages: seq<Page<T, R>>, loads: seq<R>, page: Page<T, R>, failure: Option<Failure<E>>)
    requires Underway(first, load, accept, pages, loads, page) && |pages| < MAX_TRAVERSAL_PAGES
    requires if !accept(|pages|) || page.next.None? then failure.None?
             else if page.next.value in loads then failure == Some(PaginationLoop)
             else !live(|pages|) && failure == Some(ContextEnded)
    ensures BoundedTraversal(first, load, live, accept, Trace(pages + [page], loads, failure))
  {
    HandOver(first, load, accept, pages, loads, page, failure);
  }

  lemma EndsWithFailedRequest<T, R, E>(first: Page<T, R>, load: Loader<T, R, E>, live: nat -> bool, accept: nat -> bool,
                                       pages: seq<Page<T, R>>, loads: seq<R>, page: Page<T, R>, error: E)
    requires Underway(first, load, accept, pages, loads, page) && |pages| < MAX_TRAVERSAL_PAGES
    requires accept(|pages|) && page.next.Some? && page.next.value !in loads && live(|pages|)
    requires load(|pages|, page.next.value) == Err(error)
    ensures BoundedTraversal(first, load, live, accept,
                             Trace(pages + [page], loads + [page.next.value], Some(LoadFailed(error))))
  {
    RequestNext(first, load, accept, pages, loads, page, Some(LoadFailed(error)));
    assert (loads + [page.next.value])[..|pages|] == loads;
  }

  /** The page budget is spent, and one more page has been loaded. */
  lemma EndsSpent<T, R, E>(first: Page<T, R>, load: Loader<T, R, E>, live: nat -> bool, accept: nat -> bool,
                           pages: seq<Page<T, R>>, loads: seq<R>, dropped: Page<T, R>)
    requires Underway(first, load, accept, pages, loads, dropped) && |pages| == MAX_TRAVERSAL_PAGES
    requires live(|pages| - 1)
    ensures BoundedTraversal(first, load, live, accept,
                             Trace(pages, loads, if dropped.next.Some? then Some(LimitExceeded) else None))
  {
    assert loads[|pages| - 1] !in loads[..|pages| - 1];
  }

  method IteratePages<T, R(==), E>(first: Page<T, R>, load: Loader<T, R, E>, live: nat -> bool, accept: nat -> bool)
    returns (t: Trace<T, R, E>)
    ensures BoundedTraversal(first, load, live, accept, t)
  {
    var visited: set<R> := {};
    var page := first;
    var pages: seq<Page<T, R>> := [];
    var loads: seq<R> := [];
    for count := 0 to MAX_TRAVERSAL_PAGES
      invariant |pages| == count
      invariant Underway(first, load, accept, pages, loads, page)
      invariant forall r :: r in visited <==> r in loads
      invariant count > 0 ==> live(count - 1)
    {
      ghost var before, requested := pages, loads;
      pages := pages + [page];
      if !accept(count) || page.next.None? {
        EndsBeforeRequest(first, load, live, accept, before, loads, page, None);
        return Trace(pages, loads, None);
      }
      if page.next.value in visited {
        EndsBeforeRequest(first, load, live, accept, before, loads, page, Some(PaginationLoop));
        return Trace(pages, loads, Some(PaginationLoop));
      }
      if !live(count) {
        EndsBeforeRequest(first, load, live, accept, before, loads, page, Some(ContextEnded));
        return Trace(pages, loads, Some(ContextEnded));
      }
      visited := visited + {page.next.value};
      loads := loads + [page.next.value];
      var loaded := load(count, page.next.value);
      if loaded.Err? {
        EndsWithFailedRequest(first, load, live, accept, before, requested, page, loaded.error);
        return Trace(pages, loads, Some(LoadFailed(loaded.error)));
      }
      RequestNext(first, load, accept, before, requested, page, None);
      page := loaded.value;
    }
    EndsSpent(first, load, live, accept, pages, loads, page);
    t := Trace(pages, loads, if page.next.Some? then Some(LimitExceeded) else None);
  }

  /**
   Over a loop-free chain, with a live context and a willing consumer, `IteratePages` is complete
   and silent exactly for chains of at most 16 pages. The 17th page of a chain of 17 is requested
   and lost without an error; longer chains end with the limit error.
   */
  lemma BoundedCompleteness<T, R, E>(first: Page<T, R>, load: Loader<T, R, E>, live: nat -> bool,
                                     accept: nat -> bool, t: Trace<T, R, E>, chain: seq<Page<T, R>>)
    requires BoundedTraversal(first, load, live, accept, t)
    requires WholeChain(first, load, chain) && LoopFree(chain, None)
    requires forall k :: 0 <= k < |chain| ==> accept(k) && live(k)
    ensures t.pages == chain <==> |chain| <= 16
    ensures |chain| > 16 ==> t.pages == chain[..16] && |t.loads| == 16
    ensures t.failure == if |chain| <= 17 then None else Some(LimitExceeded)
  {
    LinkedAgree(first, load, t.pages, chain);
    var n := |t.pages|;
    if n < |chain| {
      NotVisited(t, chain);
      assert Link(load, chain, n - 1);
    }
  }

  /** So does `IteratePages`, for a chain of at most 16 pages. */
  lemma BoundedReportsLoop<T, R, E>(first: Page<T, R>, load: Loader<T, R, E>, live: nat -> bool, accept: nat -> bool,
                                    t: Trace<T, R, E>, chain: seq<Page<T, R>>)
    requires BoundedTraversal(first, load, live, accept, t) && |chain| <= 16
    requires Looping(first, load, chain, None) && forall k :: 0 <= k < |chain| ==> accept(k) && live(k)
    ensures t.pages == chain && t.failure == Some(PaginationLoop) && |t.loads| == |chain| - 1
  {
    LoopIsTheEnd(first, load, accept, t, chain, None);
    EveryLink(first, load, chain);
  }

  // ----- directory/client.go: traverse -----

  /** The page chain of a Directory: `start` is requested first, and continuations are resolved. */
  ghost predicate Fetched<T, R, U, E>(start: U, load: (nat, U) -> Result<Page<T, R>, E>,
                                      resolve: R -> Result<U, E>, pages: seq<Page<T, R>>, urls: seq<U>)
  {
    && |pages| <= |urls| <= |pages| + 1
    && (forall k: nat :: k < |pages| ==> load(k, urls[k]) == Ok(pages[k]))
    && (forall k: nat :: k < |urls| ==> Requested(start, resolve, pages, urls, k))
  }

  /** Request `k` is the start, or the continuation of the page before it. */
  ghost predicate Requested<T, R, U, E>(start: U, resolve: R -> Result<U, E>, pages: seq<Page<T, R>>, urls: seq<U>,
                                        k: nat)
    requires k < |urls| <= |pages| + 1
  {
    if k == 0 then urls[0] == start
    else pages[k - 1].next.Some? && resolve(pages[k - 1].next.value) == Ok(urls[k])
  }

  lemma FetchedSnoc<T, R, U, E>(start: U, load: (nat, U) -> Result<Page<T, R>, E>, resolve: R -> Result<U, E>,
                                pages: seq<Page<T, R>>, urls: seq<U>, page: Page<T, R>)
    requires Fetched(start, load, resolve, pages, urls) && |urls| == |pages| + 1
    requires load(|pages|, urls[|pages|]) == Ok(page)
    ensures Fetched(start, load, resolve, pages + [page], urls)
  {
    forall k: nat | k < |urls| ensures Requested(start, resolve, pages + [page], urls, k) {
      assert Requested(start, resolve, pages, urls, k);
    }
  }

  lemma RequestedSnoc<T, R, U, E>(start: U, load: (nat, U) -> Result<Page<T, R>, E>, resolve: R -> Result<U, E>,
                                  pages: seq<Page<T, R>>, urls: seq<U>, url: U)
    requires Fetched(start, load, resolve, pages, urls) && |urls| == |pages|
    requires if pages == [] then url == start
             else pages[|pages| - 1].next.Some? && resolve(pages[|pages| - 1].next.value) == Ok(url)
    ensures Fetched(start, load, resolve, pages, urls + [url])
  {
    forall k: nat | k < |urls| + 1 ensures Requested(start, resolve, pages, urls + [url], k) {
      if k < |urls| {
        assert Requested(start, resolve, pages, urls, k);
      }
    }
  }

  /** Continuations have pairwise distinct keys; the start is not recorded. */
  ghost predicate DistinctKeys<U, K>(key: U -> K, urls: seq<U>) {
    forall i, j :: 1 <= i < j < |urls| ==> key(urls[i]) != key(urls[j])
  }

  ghost function KeySet<U, K>(key: U -> K, urls: seq<U>): set<K> {
    set j | 1 <= j < |urls| :: key(urls[j])
  }

  lemma KeySnoc<U, K>(key: U -> K, urls: seq<U>, url: U)
    requires urls != [] && DistinctKeys(key, urls)
    ensures KeySet(key, urls + [url]) == KeySet(key, urls) + {key(url)}
    ensures key(url) !in KeySet(key, urls) ==> DistinctKeys(key, urls + [url])
  {
    var longer := urls + [url];
    assert longer[|urls|] == url;
    forall j | 1 <= j < |urls| ensures key(longer[j]) in KeySet(key, urls) {
      assert longer[j] == urls[j];
    }
    forall v | v in KeySet(key, urls) ensures v in KeySet(key, longer) {
      var j :| 1 <= j < |urls| && key(urls[j]) == v;
      assert longer[j] == urls[j];
    }
  }

  /**
   The contract of the Directory traversal: at most `budget` requests, continuations with
   pairwise distinct keys, and an error on a spent budget only at the guard.
   */
  ghost predicate DirectoryTraversal<T, R, U, K, E>(
    start: U, budget: nat, load: (nat, U) -> Result<Page<T, R>, E>, resolve: R -> Result<U, E>, key: U -> K,
    accept: nat -> bool, t: Trace<T, R, E>, urls: seq<U>)
    requires budget > 0
  {
    && Fetched(start, load, resolve, t.pages, urls)
    && 1 <= |urls| <= budget
    && (forall k: nat :: k < |t.pages| - 1 ==> accept(k))
    && DistinctKeys(key, urls)
    && if |urls| > |t.pages| then
         && (|t.pages| > 0 ==> accept(|t.pages| - 1))
         && load(|t.pages|, urls[|t.pages|]).Err?
         && t.failure == Some(LoadFailed(load(|t.pages|, urls[|t.pages|]).error))
       else
         var n := |t.pages|;
         var next := t.pages[n - 1].next;
         if !accept(n - 1) || next.None? then t.failure.None?
         else if n >= budget then
           t.failure == if budget == 10_000 then Some(LimitExceeded) else None
         else
           match resolve(next.value)
           case Err(e) => t.failure == Some(LoadFailed(e))
           case Ok(u) =>
             && t.failure == Some(PaginationLoop)
             && key(u) in KeySet(key, urls)
  }

  /** One request of a traversal; `post` stands for the method POST with the search as its body. */
  datatype Ask<U> = Ask(url: U, post: bool)

  /** Only the first request of a search is a POST; continuations are read with GET and no body. */
  ghost predicate Asked<U>(urls: seq<U>, post: bool, sent: seq<Ask<U>>) {
    |sent| == |urls| && forall k :: 0 <= k < |urls| ==> sent[k] == Ask(urls[k], k == 0 && post)
  }

  method Traverse<T, R, U, K(==), E>(
    start: U, post: bool, budget: nat, load: (nat, U) -> Result<Page<T, R>, E>, resolve: R -> Result<U, E>,
    key: U -> K, accept: nat -> bool)
    returns (t: Trace<T, R, E>, urls: seq<U>, sent: seq<Ask<U>>)
    requires budget > 0
    ensures DirectoryTraversal(start, budget, load, resolve, key, accept, t, urls)
    ensures Asked(urls, post, sent)
  {
    var current := start;
    var posting := post;
    var visited: set<K> := {};
    var pages: seq<Page<T, R>> := [];
    urls, sent := [], [];
    for pageNumber := 0 to budget
      invariant |pages| == pageNumber == |urls| < budget
      invariant Fetched(start, load, resolve, pages, urls)
      invariant if pageNumber == 0 then current == start
                else pages[pageNumber - 1].next.Some? && resolve(pages[pageNumber - 1].next.value) == Ok(current)
      invariant visited == KeySet(key, urls + [current]) && DistinctKeys(key, urls + [current])
      invariant forall k: nat :: k < pageNumber ==> accept(k)
      invariant Asked(urls, post, sent) && posting == (pageNumber == 0 && post)
    {
      RequestedSnoc(start, load, resolve, pages, urls, current);
      urls, sent := urls + [current], sent + [Ask(current, posting)];
      var loaded := load(pageNumber, current);
      if loaded.Err? {
        t := Trace(pages, [], Some(LoadFailed(loaded.error)));
        return;
      }
      var page := loaded.value;
      FetchedSnoc(start, load, resolve, pages, urls, page);
      pages := pages + [page];
      if !accept(pageNumber) || page.next.None? {
        t := Trace(pages, [], None);
        return;
      }
      if pageNumber + 1 >= budget {
        t := Trace(pages, [], if budget == DIRECTORY_GUARD then Some(LimitExceeded) else None);
        return;
      }
      var next := resolve(page.next.value);
      if next.Err? {
        t := Trace(pages, [], Some(LoadFailed(next.error)));
        return;
      }
      KeySnoc(key, urls, next.value);
      if key(next.value) in visited {
        t := Trace(pages, [], Some(PaginationLoop));
        return;
      }
      visited := visited + {key(next.value)};
      current := next.value;
      posting := false;
    }
    assert false;
  }

  /** The chain that a Directory offers: every page, its address, and no continuation after the last. */
  ghost predicate Offered<T, R, U, K, E>(start: U, load: (nat, U) -> Result<Page<T, R>, E>, resolve: R -> Result<U, E>,
                                         key: U -> K, chain: seq<Page<T, R>>, addresses: seq<U>)
  {
    && chain != [] && |addresses| == |chain| && Fetched(start, load, resolve, chain, addresses)
    && chain[|chain| - 1].next.None? && DistinctKeys(key, addresses)
  }

  /** Request `k` follows the continuation of the page before it. */
  predicate Continues<T, R, U(==), E>(resolve: R -> Result<U, E>, pages: seq<Page<T, R>>, urls: seq<U>, k: nat)
    requires 0 < k < |urls| <= |pages| + 1
  {
    && pages[k - 1].next.Some?
    && var url := resolve(pages[k - 1].next.value);
       url.Ok? && url.value == urls[k]
  }

  lemma FetchedContinues<T, R, U, E>(start: U, load: (nat, U) -> Result<Page<T, R>, E>, resolve: R -> Result<U, E>,
                                     pages: seq<Page<T, R>>, urls: seq<U>)
    requires Fetched(start, load, resolve, pages, urls)
    ensures urls != [] ==> urls[0] == start
    ensures forall k: nat :: 0 < k < |urls| ==> Continues(resolve, pages, urls, k)
  {
    assert urls != [] ==> Requested(start, resolve, pages, urls, 0);
    forall k: nat | 0 < k < |urls| ensures Continues(resolve, pages, urls, k) {
      assert Requested(start, resolve, pages, urls, k);
    }
  }

  /** Two fetches from one server are one as far as both go. */
  lemma {:induction false} FetchedTogether<T, R, U, E>(
    start: U, load: (nat, U) -> Result<Page<T, R>, E>, resolve: R -> Result<U, E>,
    a: seq<Page<T, R>>, u: seq<U>, b: seq<Page<T, R>>, v: seq<U>, n: nat)
    requires Fetched(start, load, resolve, a, u) && Fetched(start, load, resolve, b, v)
    requires n < |u| && n < |v|
    ensures u[n] == v[n] && (n < |a| && n < |b| ==> a[n] == b[n])
  {
    FetchedContinues(start, load, resolve, a, u);
    FetchedContinues(start, load, resolve, b, v);
    if n > 0 {
      FetchedTogether(start, load, resolve, a, u, b, v, n - 1);
      assert Continues(resolve, a, u, n) && Continues(resolve, b, v, n);
    }
  }

  lemma NewKey<U, K>(key: U -> K, urls: seq<U>, k: nat)
    requires DistinctKeys(key, urls) && k < |urls|
    ensures 0 < k ==> key(urls[k]) !in KeySet(key, urls[..k])
  {
  }

  /** A fetch along an offered chain stays within it, page by page. */
  lemma FetchedWithin<T, R, U, K, E>(
    start: U, load: (nat, U) -> Result<Page<T, R>, E>, resolve: R -> Result<U, E>, key: U -> K,
    pages: seq<Page<T, R>>, urls: seq<U>, chain: seq<Page<T, R>>, addresses: seq<U>)
    requires Fetched(start, load, resolve, pages, urls) && urls != []
    requires Offered(start, load, resolve, key, chain, addresses)
    ensures |urls| <= |chain| && urls == addresses[..|urls|] && pages == chain[..|pages|]
    ensures forall k: nat :: k < |urls| ==> load(k, urls[k]).Ok?
  {
    FetchedContinues(start, load, resolve, pages, urls);
    forall k: nat | k < |urls| && k < |addresses|
      ensures urls[k] == addresses[k] && (k < |pages| ==> pages[k] == chain[k])
    {
      FetchedTogether(start, load, resolve, pages, urls, chain, addresses, k);
    }
    assert |chain| < |urls| ==> pages[|chain| - 1] == chain[|chain| - 1] && !Continues(resolve, pages, urls, |chain|);
  }

  /** Where the chain goes on, it goes on to an address of a new key. */
  lemma GoesOn<T, R, U, K, E>(
    start: U, load: (nat, U) -> Result<Page<T, R>, E>, resolve: R -> Result<U, E>, key: U -> K,
    chain: seq<Page<T, R>>, addresses: seq<U>, n: nat)
    requires Offered(start, load, resolve, key, chain, addresses) && 0 < n < |chain|
    ensures chain[n - 1].next.Some? && resolve(chain[n - 1].next.value) == Ok(addresses[n])
    ensures key(addresses[n]) !in KeySet(key, addresses[..n])
  {
    FetchedContinues(start, load, resolve, chain, addresses);
    assert Continues(resolve, chain, addresses, n);
    NewKey(key, addresses, n);
  }

  /**
   A Directory chain whose addresses have distinct keys is delivered to a willing consumer up to the
   budget, without an error unless the budget is the guard and the chain goes beyond it.
   */
  lemma DirectoryDeliversChain<T, R, U, K, E>(
    start: U, budget: nat, load: (nat, U) -> Result<Page<T, R>, E>, resolve: R -> Result<U, E>, key: U -> K,
    accept: nat -> bool, t: Trace<T, R, E>, urls: seq<U>, chain: seq<Page<T, R>>, addresses: seq<U>)
    requires budget > 0 && DirectoryTraversal(start, budget, load, resolve, key, accept, t, urls)
    requires Offered(start, load, resolve, key, chain, addresses)
    requires forall k :: 0 <= k < |chain| ==> accept(k)
    ensures t.pages == chain[..if |chain| <= budget then |chain| else budget]
    ensures urls == addresses[..|t.pages|]
    ensures t.failure == if |chain| > budget && budget == 10_000 then Some(LimitExceeded) else None
  {
    FetchedWithin(start, load, resolve, key, t.pages, urls, chain, addresses);
    var n := |t.pages|;
    assert |urls| == n && t.pages[n - 1] == chain[n - 1];
    if n < |chain| {
      GoesOn(start, load, resolve, key, chain, addresses, n);
    }
  }

  /** The items of the pages, in order. */
  function Flat<T, R>(pages: seq<Page<T, R>>): (items: seq<T>) {
    if pages == [] then [] else Flat(pages[..|pages| - 1]) + pages[|pages| - 1].items
  }
}

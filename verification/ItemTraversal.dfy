/**
 The item iterators built on the page iterators: `offeringItems` and `collectionItems` of
 agent/client.go, `sequence` of directory/search.go and `IterateItems` of pagination.go.

 An item iterator is the consumer of a page iterator. It runs its loop over the items of each page
 inside the page iterator's call, and what it answers to page `k` follows from the pages so far; the
 methods below join the two loops at that answer.
 */
module ItemTraversal {
  import opened Wrappers
  import opened Traversal

  const MAX_ITEMS := 10_000     // directory/client.go

  /**
   An item iterator that has handed over `count` items asks for more: the consumer accepted all of
   them and the item budget, where zero means none, is not reached.
   */
  predicate Wants(count: nat, max: nat, take: nat -> bool) {
    (max != 0 ==> count < max) && forall k: nat :: k < count ==> take(k)
  }

  /** The items an item iterator hands over out of a stream: it stops after the first unwanted state. */
  function Handed<T>(items: seq<T>, max: nat, take: nat -> bool): (r: seq<T>)
    ensures r <= items
    ensures r != [] ==> Wants(|r| - 1, max, take)
    ensures |r| < |items| ==> !Wants(|r|, max, take)
  {
    if items == [] then []
    else
      var n := |items| - 1;
      var before := Handed(items[..n], max, take);
      if |before| == n && Wants(n, max, take) then items else before
  }

  /** The contract of `Handed` leaves one answer. */
  lemma HandedIs<T>(part: seq<T>, items: seq<T>, max: nat, take: nat -> bool)
    requires part <= items
    requires part != [] ==> Wants(|part| - 1, max, take)
    requires |part| < |items| ==> !Wants(|part|, max, take)
    ensures part == Handed(items, max, take)
  {
    assert |part| == |Handed(items, max, take)|;
  }

  // ----- The loops over items -----

  /** The contract of the loop over one page: how many items were handed over, and whether to go on. */
  ghost predicate Yielded<T>(items: seq<T>, count: nat, max: nat, take: nat -> bool, n: nat, going: bool) {
    && n <= |items|
    && (n > 0 ==> Wants(count + n - 1, max, take))
    && (going <==> n == |items| && Wants(count + n, max, take))
    && (n < |items| ==> !Wants(count + n, max, take))
  }

  /** The loop of the Agent, which looks at the item budget before and after each item. */
  method YieldItems<T>(items: seq<T>, count: nat, max: nat, take: nat -> bool) returns (n: nat, going: bool)
    requires Wants(count, max, take)
    ensures Yielded(items, count, max, take, n, going)
  {
    n := 0;
    for i := 0 to |items|
      invariant n == i && Wants(count + n, max, take)
    {
      if max != 0 && count + n >= max {
        return n, false;
      }
      n := n + 1;
      if !take(count + n - 1) {
        return n, false;
      }
      if max != 0 && count + n >= max {
        return n, false;
      }
    }
    return n, true;
  }

  /** The loop of the Directory client, and without an item budget that of `IterateItems`. */
  method YieldCounted<T>(items: seq<T>, count: nat, max: nat, take: nat -> bool) returns (n: nat, going: bool)
    requires Wants(count, max, take)
    ensures Yielded(items, count, max, take, n, going)
  {
    n := 0;
    for i := 0 to |items|
      invariant n == i && Wants(count + n, max, take)
    {
      n := n + 1;
      if !take(count + n - 1) || (max != 0 && count + n >= max) {
        return n, false;
      }
    }
    return n, true;
  }

  // ----- The loops over pages -----

  /**
   The contract of the loop over the pages that an iterator offers: it takes pages as long as it wants
   more after each, and hands over what `Handed` takes out of the stream of their items.
   */
  ghost predicate HandedOut<T, R>(pages: seq<Page<T, R>>, max: nat, take: nat -> bool, handed: seq<T>, used: nat,
                                  going: bool)
  {
    && used <= |pages| && handed == Handed(Flat(pages[..used]), max, take)
    && (forall k :: 0 < k < used ==> Wants(|Flat(pages[..k])|, max, take))
    && (going <==> Wants(|Flat(pages[..used])|, max, take))
    && (used < |pages| ==> !going)
  }

  /** Every page so far was handed over in full, and more is wanted. */
  ghost predicate AllTaken<T, R>(pages: seq<Page<T, R>>, max: nat, take: nat -> bool, handed: seq<T>, used: nat) {
    && used <= |pages| && handed == Flat(pages[..used]) && Wants(|handed|, max, take)
    && forall k :: 0 < k <= used ==> Wants(|Flat(pages[..k])|, max, take)
  }

  lemma FlatNext<T, R>(pages: seq<Page<T, R>>, k: nat)
    requires k < |pages|
    ensures Flat(pages[..k + 1]) == Flat(pages[..k]) + pages[k].items
  {
    assert pages[..k + 1][..k] == pages[..k];
  }

  /** One more page: taken in full, or the last. */
  lemma PageTaken<T, R>(pages: seq<Page<T, R>>, max: nat, take: nat -> bool, handed: seq<T>, used: nat, n: nat,
                        going: bool)
    requires used < |pages| && AllTaken(pages, max, take, handed, used)
    requires Yielded(pages[used].items, |handed|, max, take, n, going)
    ensures going ==> AllTaken(pages, max, take, handed + pages[used].items[..n], used + 1)
    ensures !going ==> HandedOut(pages, max, take, handed + pages[used].items[..n], used + 1, false)
  {
    FlatNext(pages, used);
    var items := pages[used].items;
    if going {
      assert items[..n] == items;
    } else {
      HandedIs(handed + items[..n], Flat(pages[..used + 1]), max, take);
    }
  }

  lemma PagesTaken<T, R>(pages: seq<Page<T, R>>, max: nat, take: nat -> bool, handed: seq<T>)
    requires AllTaken(pages, max, take, handed, |pages|)
    ensures HandedOut(pages, max, take, handed, |pages|, true)
  {
    HandedIs(handed, handed, max, take);
  }

  method HandOutItems<T, R>(pages: seq<Page<T, R>>, max: nat, take: nat -> bool)
    returns (handed: seq<T>, used: nat, going: bool)
    ensures HandedOut(pages, max, take, handed, used, going)
  {
    handed, used, going := [], 0, true;
    while used < |pages|
      invariant AllTaken(pages, max, take, handed, used) && going
    {
      var n;
      ghost var before := handed;
      n, going := YieldItems(pages[used].items, |handed|, max, take);
      handed := handed + pages[used].items[..n];
      PageTaken(pages, max, take, before, used, n, going);
      used := used + 1;
      if !going {
        return;
      }
    }
    PagesTaken(pages, max, take, handed);
  }

  /** `sequence`, whose loop over one page counts first. */
  method HandOutCounted<T, R>(pages: seq<Page<T, R>>, max: nat, take: nat -> bool)
    returns (handed: seq<T>, used: nat, going: bool)
    ensures HandedOut(pages, max, take, handed, used, going)
  {
    handed, used, going := [], 0, true;
    while used < |pages|
      invariant AllTaken(pages, max, take, handed, used) && going
    {
      var n;
      ghost var before := handed;
      n, going := YieldCounted(pages[used].items, |handed|, max, take);
      handed := handed + pages[used].items[..n];
      PageTaken(pages, max, take, before, used, n, going);
      used := used + 1;
      if !going {
        return;
      }
    }
    PagesTaken(pages, max, take, handed);
  }

  // ----- An item iterator as the consumer of a page iterator -----

  /** How a server's answers make a chain: page `k` out of the page before it. */
  type Succession<!T, !R> = (nat, Option<Page<T, R>>) -> Option<Page<T, R>>

  /** The first `n` pages of the chain, or fewer where it ends. */
  function OfferedPages<T, R>(next: Succession<T, R>, n: nat): (pages: seq<Page<T, R>>)
    ensures |pages| <= n
  {
    if n == 0 then []
    else
      var before := OfferedPages(next, n - 1);
      if |before| < n - 1 then before
      else
        match next(n - 1, if n == 1 then None else Some(before[n - 2]))
        case None => before
        case Some(page) => before + [page]
  }

  ghost predicate Succeeds<T, R>(next: Succession<T, R>, pages: seq<Page<T, R>>) {
    forall k: nat :: k < |pages| ==> Successor(next, pages, k)
  }

  ghost predicate Successor<T, R>(next: Succession<T, R>, pages: seq<Page<T, R>>, k: nat)
    requires k < |pages|
  {
    next(k, if k == 0 then None else Some(pages[k - 1])) == Some(pages[k])
  }

  lemma {:induction false} OfferedIs<T, R>(next: Succession<T, R>, pages: seq<Page<T, R>>, n: nat)
    requires Succeeds(next, pages) && n <= |pages|
    ensures OfferedPages(next, n) == pages[..n]
  {
    if n > 0 {
      OfferedIs(next, pages, n - 1);
      assert Successor(next, pages, n - 1);
    }
  }

  /** What an item iterator answers to page `k` of a chain: whether it wants more after that page. */
  function WantsAfter<T, R>(next: Succession<T, R>, max: nat, take: nat -> bool): nat -> bool {
    (k: nat) => Wants(|Flat(OfferedPages(next, k + 1))|, max, take)
  }

  /** The page iterator's consumer is an item iterator: it accepts page `k` when it wants more after it. */
  ghost predicate ConsumedAsItems<T, R, E>(t: Trace<T, R, E>, accept: nat -> bool, max: nat, take: nat -> bool) {
    forall k: nat :: k < |t.pages| ==> (accept(k) <==> Wants(|Flat(t.pages[..k + 1])|, max, take))
  }

  lemma ConsumesItems<T, R, E>(next: Succession<T, R>, t: Trace<T, R, E>, max: nat, take: nat -> bool)
    requires Succeeds(next, t.pages)
    ensures ConsumedAsItems(t, WantsAfter(next, max, take), max, take)
  {
    forall k: nat | k < |t.pages|
      ensures WantsAfter(next, max, take)(k) <==> Wants(|Flat(t.pages[..k + 1])|, max, take)
    {
      OfferedIs(next, t.pages, k + 1);
    }
  }

  /** The two loops agree: the item loop takes every page that the page iterator offers, and stops with it. */
  lemma LoopsAgree<T, R, E>(t: Trace<T, R, E>, accept: nat -> bool, max: nat, take: nat -> bool, handed: seq<T>,
                            used: nat, going: bool)
    requires ConsumedAsItems(t, accept, max, take) && HandedOut(t.pages, max, take, handed, used, going)
    requires forall k: nat :: k + 1 < |t.pages| ==> accept(k)
    ensures used == |t.pages| && handed == Handed(Flat(t.pages), max, take)
    ensures t.pages != [] ==> (going <==> accept(|t.pages| - 1))
  {
    assert t.pages[..0] == [] && t.pages[..|t.pages|] == t.pages;
    forall k | 0 < k < |t.pages| ensures Wants(|Flat(t.pages[..k])|, max, take) {
      assert accept(k - 1);
    }
  }

  // ----- agent/client.go: offeringItems and collectionItems -----

  function AgentSuccession<T, R, E>(first: Page<T, R>, load: Loader<T, R, E>): Succession<T, R> {
    (k: nat, before: Option<Page<T, R>>) =>
      if before.None? || k == 0 then Some(first)
      else if before.value.next.None? then None
      else
        match load(k - 1, before.value.next.value)
        case Ok(page) => Some(page)
        case Err(_) => None
  }

  lemma LinkedSucceeds<T, R, E>(first: Page<T, R>, load: Loader<T, R, E>, pages: seq<Page<T, R>>)
    requires Linked(first, load, pages)
    ensures Succeeds(AgentSuccession(first, load), pages)
  {
    forall k: nat | k < |pages| ensures Successor(AgentSuccession(first, load), pages, k) {
      if k > 0 {
        assert Link(load, pages, k - 1);
      }
    }
  }

  method AgentItems<T, R(==), E>(first: Page<T, R>, initial: Option<R>, budget: nat, load: Loader<T, R, E>,
                                 max: nat, take: nat -> bool)
    returns (t: Trace<T, R, E>, handed: seq<T>)
    requires budget > 0
    ensures AgentTraversal(first, initial, budget, load, WantsAfter(AgentSuccession(first, load), max, take), t)
    ensures ConsumedAsItems(t, WantsAfter(AgentSuccession(first, load), max, take), max, take)
    ensures handed == Handed(Flat(t.pages), max, take)
  {
    var accept := WantsAfter(AgentSuccession(first, load), max, take);
    t := IterateAgentPages(first, initial, budget, load, accept);
    LinkedSucceeds(first, load, t.pages);
    ConsumesItems(AgentSuccession(first, load), t, max, take);
    var used, going;
    handed, used, going := HandOutItems(t.pages, max, take);
    LoopsAgree(t, accept, max, take, handed, used, going);
  }

  // ----- pagination.go: IterateItems -----

  method IterateItems<T, R(==), E>(first: Page<T, R>, load: Loader<T, R, E>, live: nat -> bool, take: nat -> bool)
    returns (t: Trace<T, R, E>, handed: seq<T>)
    ensures BoundedTraversal(first, load, live, WantsAfter(AgentSuccession(first, load), 0, take), t)
    ensures ConsumedAsItems(t, WantsAfter(AgentSuccession(first, load), 0, take), 0, take)
    ensures handed == Handed(Flat(t.pages), 0, take)
  {
    var accept := WantsAfter(AgentSuccession(first, load), 0, take);
    t := IteratePages(first, load, live, accept);
    LinkedSucceeds(first, load, t.pages);
    ConsumesItems(AgentSuccession(first, load), t, 0, take);
    var used, going;
    handed, used, going := HandOutCounted(t.pages, 0, take);
    LoopsAgree(t, accept, 0, take, handed, used, going);
  }

  // ----- directory/search.go: sequence -----

  function DirectorySuccession<T, R, U, E>(start: U, load: (nat, U) -> Result<Page<T, R>, E>,
                                           resolve: R -> Result<U, E>): Succession<T, R>
  {
    (k: nat, before: Option<Page<T, R>>) =>
      var url :=
        if before.None? || k == 0 then Some(start)
        else if before.value.next.None? then None
        else match resolve(before.value.next.value) case Ok(u) => Some(u) case Err(_) => None;
      if url.None? then None else match load(k, url.value) case Ok(page) => Some(page) case Err(_) => None
  }

  lemma FetchedSucceeds<T, R, U, E>(start: U, load: (nat, U) -> Result<Page<T, R>, E>, resolve: R -> Result<U, E>,
                                    pages: seq<Page<T, R>>, urls: seq<U>)
    requires Fetched(start, load, resolve, pages, urls)
    ensures Succeeds(DirectorySuccession(start, load, resolve), pages)
  {
    forall k: nat | k < |pages| ensures Successor(DirectorySuccession(start, load, resolve), pages, k) {
      assert Requested(start, resolve, pages, urls, k);
    }
  }

  /** An item budget out of range is refused before anything is requested. */
  method DirectoryItems<T, R, U, K(==), E>(
    start: U, post: bool, budget: nat, load: (nat, U) -> Result<Page<T, R>, E>, resolve: R -> Result<U, E>,
    key: U -> K, max: int, take: nat -> bool)
    returns (refused: bool, t: Trace<T, R, E>, urls: seq<U>, sent: seq<Ask<U>>, handed: seq<T>)
    requires budget > 0
    ensures refused <==> max < 0 || max > 10_000
    ensures refused ==> urls == [] && sent == [] && handed == []
    ensures !refused ==>
              var accept := WantsAfter(DirectorySuccession(start, load, resolve), max, take);
              && DirectoryTraversal(start, budget, load, resolve, key, accept, t, urls)
              && ConsumedAsItems(t, accept, max, take)
              && handed == Handed(Flat(t.pages), max, take)
    ensures Asked(urls, post, sent)
  {
    if max < 0 || max > MAX_ITEMS {
      return true, Trace([], [], None), [], [], [];
    }
    refused := false;
    var accept := WantsAfter(DirectorySuccession(start, load, resolve), max, take);
    t, urls, sent := Traverse(start, post, budget, load, resolve, key, accept);
    FetchedSucceeds(start, load, resolve, t.pages, urls);
    ConsumesItems(DirectorySuccession(start, load, resolve), t, max, take);
    var used, going;
    handed, used, going := HandOutCounted(t.pages, max, take);
    LoopsAgree(t, accept, max, take, handed, used, going);
  }

  // ----- Which items of a chain are handed over -----

  lemma {:induction false} FlatPrefix<T, R>(pages: seq<Page<T, R>>, n: nat)
    requires n <= |pages|
    ensures Flat(pages[..n]) <= Flat(pages)
    decreases |pages|
  {
    if n < |pages| {
      var m := |pages| - 1;
      FlatPrefix(pages[..m], n);
      assert pages[..m][..n] == pages[..n];
    } else {
      assert pages[..n] == pages;
    }
  }

  function Min(a: nat, b: nat): nat {
    if a <= b then a else b
  }

  /**
   The items of a loop-free chain, handed to a consumer that never refuses, are exactly the first
   `max` items of its first `budget` pages, or all of them without an item budget; and no page is
   requested once the item budget has been reached.
   */
  lemma AgentItemsAreFirstMax<T, R, E>(first: Page<T, R>, initial: Option<R>, budget: nat, load: Loader<T, R, E>,
                                       accept: nat -> bool, t: Trace<T, R, E>, chain: seq<Page<T, R>>,
                                       max: nat, take: nat -> bool)
    requires budget > 0 && AgentTraversal(first, initial, budget, load, accept, t)
    requires WholeChain(first, load, chain) && LoopFree(chain, initial)
    requires ConsumedAsItems(t, accept, max, take) && (forall k: nat :: take(k))
    ensures t.failure.None?
    ensures var all := Flat(chain[..Min(|chain|, budget)]);
            Handed(Flat(t.pages), max, take) == if max == 0 || |all| <= max then all else all[..max]
    ensures max != 0 && |t.pages| > 1 ==> |Flat(t.pages[..|t.pages| - 1])| < max
  {
    var n := |t.pages|;
    var offered := chain[..Min(|chain|, budget)];
    AgentStopsOnlyWhenRefused(first, initial, budget, load, accept, t, chain);
    FlatPrefix(offered, n);
    assert t.pages[..n] == t.pages && offered[..n] == t.pages && offered[..|offered|] == offered;
    assert accept(n - 1) <==> Wants(|Flat(t.pages)|, max, take);
    HandedOfPrefix(Flat(t.pages), Flat(offered), max, take);
    if n > 1 {
      assert accept(n - 2);
    }
  }

  /** A stream cut short only where nothing more is wanted gives the same items as the whole of it. */
  lemma HandedOfPrefix<T>(part: seq<T>, all: seq<T>, max: nat, take: nat -> bool)
    requires part <= all && (part != all ==> !Wants(|part|, max, take)) && forall k: nat :: take(k)
    ensures Handed(part, max, take) == if max == 0 || |all| <= max then all else all[..max]
  {
    HandedIs(if max == 0 || |part| <= max then part else part[..max], part, max, take);
  }

  /** A traversal of a loop-free chain stops short of its page budget only for its consumer. */
  lemma AgentStopsOnlyWhenRefused<T, R, E>(first: Page<T, R>, initial: Option<R>, budget: nat, load: Loader<T, R, E>,
                                           accept: nat -> bool, t: Trace<T, R, E>, chain: seq<Page<T, R>>)
    requires budget > 0 && AgentTraversal(first, initial, budget, load, accept, t)
    requires WholeChain(first, load, chain) && LoopFree(chain, initial)
    ensures |t.pages| <= Min(|chain|, budget) && t.pages == chain[..|t.pages|] && t.failure.None?
    ensures |t.pages| < Min(|chain|, budget) ==> !accept(|t.pages| - 1)
  {
    LinkedAgree(first, load, t.pages, chain);
    var n := |t.pages|;
    if n < |chain| {
      NotVisited(t, chain);
      assert Link(load, chain, n - 1);
    }
  }
}

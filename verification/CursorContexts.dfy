/**
 Which cursors the static catalog redeems, service/static_catalog.go: those that an earlier request
 was given, as long as they last and the request around them is the same.
 */
module CursorContexts {
  import opened Wrappers
  import opened Traversal
  import opened StaticPaging

  /** Two requests for the same list in the same form: the operation, the language, the representation, the limit. */
  predicate SameContext(a: CatalogRequest, b: CatalogRequest) {
    && a.target == b.target && a.language == b.language && a.representation == b.representation
    && (if a.limit == 0 then 50 else a.limit) == if b.limit == 0 then 50 else b.limit
  }

  /** A request as the Service hands it to a catalog. */
  predicate Ordinary(request: CatalogRequest) {
    request.target != "" && (request.representation == "terse" || request.representation == "full")
  }

  function Answer<T>(x: Exchange<T>, terse: T -> T, key: Key): Result<Page<T, Reference>, RequestError> {
    Serve(x.values, x.request, terse, key, x.read, x.minted)
  }

  /** A cursor lasts until the second of its expiry has ended. */
  predicate Lasts<T>(from: Exchange<T>, to: Exchange<T>) {
    to.read < (ContinuationExpiry(from.minted) + 1) * 1_000_000_000
  }

  /** What the exchange issued with its page: the cursor, if there was one. */
  predicate Issues<T>(x: Exchange<T>, terse: T -> T, key: Key, cursor: Cursor) {
    var r := Answer(x, terse, key);
    r.Ok? && r.value.next.Some? && r.value.next.value.cursor == cursor
  }

  /**
   Request `k` presents, in the same context, a cursor that exchange `j` issued with a page from item
   `start` up to item `offset` of its list, and which still lasts.
   */
  ghost predicate Presents<T>(terse: T -> T, key: Key, run: seq<Exchange<T>>, j: nat, start: nat, k: nat, offset: nat)
    requires j < |run| && k < |run|
  {
    && Issues(run[j], terse, key, run[k].request.cursor) && Ordinary(run[j].request) && Lasts(run[j], run[k])
    && SameContext(run[j].request, run[k].request)
    && offset == start + |Answer(run[j], terse, key).value.items|
  }

  /** An offset beyond the end of the list counts as its end. */
  ghost predicate Leads<T>(terse: T -> T, key: Key, run: seq<Exchange<T>>, j: nat, from: nat, k: nat, start: nat)
    requires j < |run| && k < |run|
  {
    exists offset: nat :: Presents(terse, key, run, j, from, k, offset)
                          && start == if offset <= |run[k].values| then offset else |run[k].values|
  }

  /** The page of request `k` starts at the beginning, or where the cursor resumes. */
  ghost predicate Starts<T(!new)>(terse: T -> T, key: Key, run: seq<Exchange<T>>, k: nat, start: nat)
    requires k < |run|
    decreases k
  {
    if run[k].request.cursor == [] then start == 0
    else
      exists j: nat, from: nat {:trigger Leads(terse, key, run, j, from, k, start)} ::
        j < k && Starts(terse, key, run, j, from) && Leads(terse, key, run, j, from, k, start)
  }

  /** Request `k` presents a cursor that exchange `j` was given at this offset. */
  ghost predicate Redeems<T(!new)>(terse: T -> T, key: Key, run: seq<Exchange<T>>, j: nat, k: nat, offset: nat)
    requires j < |run| && k < |run|
  {
    exists start: nat :: Starts(terse, key, run, j, start) && Presents(terse, key, run, j, start, k, offset)
  }

  /** The page of the list that begins at `start`. */
  ghost predicate IsPage<T>(x: Exchange<T>, terse: T -> T, start: nat, page: Page<T, Reference>) {
    var n := |x.values|;
    var limit := if x.request.limit == 0 then 50 else x.request.limit;
    && start <= n && |page.items| == (if limit <= n - start then limit else n - start)
    && (forall i :: 0 <= i < |page.items| ==>
          page.items[i] == if x.request.representation == "terse" then terse(x.values[start + i])
                           else x.values[start + i])
    && (page.next.Some? <==> start + |page.items| < n)
  }

  // ----- One cursor -----

  function Consumed<T>(x: Exchange<T>, key: Key): Result<nat, RequestError> {
    ConsumeCursor(x.request, EffectiveLimit(x.request), key, x.read)
  }

  function StartOf<T>(x: Exchange<T>, key: Key): nat {
    if Consumed(x, key).Ok? then Min(Consumed(x, key).value, |x.values|) else 0
  }

  lemma ServesPage<T>(x: Exchange<T>, terse: T -> T, key: Key)
    ensures match Consumed(x, key)
            case Err(e) => Answer(x, terse, key) == Err(e)
            case Ok(_) => Answer(x, terse, key).Ok? && IsPage(x, terse, StartOf(x, key), Answer(x, terse, key).value)
  {
  }

  /** What an issued cursor holds. */
  lemma IssuedCursor<T>(x: Exchange<T>, terse: T -> T, key: Key, cursor: Cursor)
    requires Issues(x, terse, key, cursor)
    ensures var end := StartOf(x, key) + |Answer(x, terse, key).value.items|;
            && end < |x.values|
            && cursor == Mint(end, x.request, EffectiveLimit(x.request), key, x.minted).cursor
  {
  }

  /** What becomes of an issued cursor in another request. */
  lemma CursorConsumed<T>(from: Exchange<T>, to: Exchange<T>, key: Key, end: nat)
    requires to.request.cursor == Mint(end, from.request, EffectiveLimit(from.request), key, from.minted).cursor
    ensures Consumed(to, key) == if !Ordinary(from.request) || !Lasts(from, to) then Err(ContinuationExpired)
                                 else if !SameContext(from.request, to.request) then Err(ContextChanged)
                                 else Ok(end)
  {
    ExpiryWindow(from.minted);
  }

  // ----- Runs -----

  /** The page of request `k` starts where its cursor is read to say. */
  ghost predicate StartsThere<T(!new)>(terse: T -> T, key: Key, run: seq<Exchange<T>>, k: nat)
    requires k < |run|
  {
    forall start: nat :: Starts(terse, key, run, k, start) <==>
      Consumed(run[k], key).Ok? && start == StartOf(run[k], key)
  }

  lemma PresentedOffset<T>(terse: T -> T, key: Key, run: seq<Exchange<T>>, j: nat, k: nat, offset: nat)
    requires j < k < |run| && Issues(run[j], terse, key, run[k].request.cursor)
    ensures Presents(terse, key, run, j, StartOf(run[j], key), k, offset) <==> Consumed(run[k], key) == Ok(offset)
    ensures Consumed(run[k], key) == Err(ContextChanged) <==>
            && Ordinary(run[j].request) && Lasts(run[j], run[k])
            && !SameContext(run[j].request, run[k].request)
  {
    IssuedCursor(run[j], terse, key, run[k].request.cursor);
    CursorConsumed(run[j], run[k], key, StartOf(run[j], key) + |Answer(run[j], terse, key).value.items|);
  }

  /** An exchange that issued a cursor was itself answered, from where its own cursor said. */
  lemma IssuerStarts<T(!new)>(terse: T -> T, key: Key, run: seq<Exchange<T>>, j: nat, cursor: Cursor, start: nat)
    requires j < |run| && StartsThere(terse, key, run, j) && Issues(run[j], terse, key, cursor)
    ensures Starts(terse, key, run, j, start) <==> start == StartOf(run[j], key)
  {
    ServesPage(run[j], terse, key);
  }

  /** A cursor that is read at all was issued before. */
  lemma ReadWasIssued<T>(terse: T -> T, key: Key, run: seq<Exchange<T>>, k: nat) returns (j: nat)
    requires Unforged(terse, key, run) && k < |run| && run[k].request.cursor != []
    requires Consumed(run[k], key) != Err(ContinuationExpired)
    ensures j < k && Issues(run[j], terse, key, run[k].request.cursor)
  {
    assert CameFrom(terse, key, run, k);
    j :| 0 <= j < k && IssuedBy(run[j], terse, key) == Some(run[k].request.cursor);
  }

  lemma {:induction false} StartsAreRead<T(!new)>(terse: T -> T, key: Key, run: seq<Exchange<T>>, k: nat)
    requires Unforged(terse, key, run) && k < |run|
    ensures StartsThere(terse, key, run, k)
    decreases k
  {
    if run[k].request.cursor != [] {
      forall j: nat | j < k ensures StartsThere(terse, key, run, j) {
        StartsAreRead(terse, key, run, j);
      }
      StartsNext(terse, key, run, k);
    }
  }

  lemma StartsNext<T(!new)>(terse: T -> T, key: Key, run: seq<Exchange<T>>, k: nat)
    requires Unforged(terse, key, run) && k < |run| && run[k].request.cursor != []
    requires forall j: nat :: j < k ==> StartsThere(terse, key, run, j)
    ensures StartsThere(terse, key, run, k)
  {
    forall start: nat
      ensures Starts(terse, key, run, k, start) <==> Consumed(run[k], key).Ok? && start == StartOf(run[k], key)
    {
      if Starts(terse, key, run, k, start) {
        var j: nat, from: nat :|
          j < k && Starts(terse, key, run, j, from) && Leads(terse, key, run, j, from, k, start);
        var offset: nat :| Presents(terse, key, run, j, from, k, offset)
                           && start == if offset <= |run[k].values| then offset else |run[k].values|;
        IssuerStarts(terse, key, run, j, run[k].request.cursor, from);
        PresentedOffset(terse, key, run, j, k, offset);
      }
      if Consumed(run[k], key).Ok? && start == StartOf(run[k], key) {
        var j := ReadWasIssued(terse, key, run, k);
        IssuerStarts(terse, key, run, j, run[k].request.cursor, StartOf(run[j], key));
        PresentedOffset(terse, key, run, j, k, Consumed(run[k], key).value);
        assert Leads(terse, key, run, j, StartOf(run[j], key), k, start);
      }
    }
  }

  /**
   Over every run under one key, a request with a cursor resumes at an offset exactly when an earlier
   request was given that cursor at that offset, in the same context, and it still lasts.
   */
  lemma RedeemedExactly<T(!new)>(terse: T -> T, key: Key, run: seq<Exchange<T>>, k: nat, offset: nat)
    requires Unforged(terse, key, run) && k < |run| && run[k].request.cursor != []
    ensures ResumesAt(key, run[k]) == Some(offset) <==>
            exists j: nat :: j < k && Redeems(terse, key, run, j, k, offset)
  {
    if ResumesAt(key, run[k]) == Some(offset) {
      var j := ReadWasIssued(terse, key, run, k);
      StartsAreRead(terse, key, run, j);
      IssuerStarts(terse, key, run, j, run[k].request.cursor, StartOf(run[j], key));
      PresentedOffset(terse, key, run, j, k, offset);
      assert Redeems(terse, key, run, j, k, offset);
    }
    if j: nat :| j < k && Redeems(terse, key, run, j, k, offset) {
      var start: nat :| Starts(terse, key, run, j, start) && Presents(terse, key, run, j, start, k, offset);
      StartsAreRead(terse, key, run, j);
      IssuerStarts(terse, key, run, j, run[k].request.cursor, start);
      PresentedOffset(terse, key, run, j, k, offset);
    }
  }

  /** The cursor was issued to an earlier request, lasts, and comes back in another context. */
  ghost predicate OutOfContext<T>(terse: T -> T, key: Key, run: seq<Exchange<T>>, k: nat)
    requires k < |run|
  {
    exists j: nat :: j < k && Issues(run[j], terse, key, run[k].request.cursor) && Ordinary(run[j].request)
                     && Lasts(run[j], run[k]) && !SameContext(run[j].request, run[k].request)
  }

  /**
   What every request of a run is answered with: the page that starts where the run says; that the
   context changed, when its cursor was issued in another; and otherwise that the continuation expired.
   */
  lemma AnsweredExactly<T(!new)>(terse: T -> T, key: Key, run: seq<Exchange<T>>, k: nat)
    requires Unforged(terse, key, run) && k < |run|
    ensures var r := Answer(run[k], terse, key);
            && (forall start: nat :: Starts(terse, key, run, k, start) ==>
                  r.Ok? && IsPage(run[k], terse, start, r.value))
            && (r.Ok? ==> exists start: nat :: Starts(terse, key, run, k, start))
            && (r == Err(ContextChanged) <==> run[k].request.cursor != [] && OutOfContext(terse, key, run, k))
  {
    StartsAreRead(terse, key, run, k);
    ServesPage(run[k], terse, key);
    assert Consumed(run[k], key).Ok? ==> Starts(terse, key, run, k, StartOf(run[k], key));
    if run[k].request.cursor != [] {
      ChangedExactly(terse, key, run, k);
    }
  }

  lemma ChangedExactly<T>(terse: T -> T, key: Key, run: seq<Exchange<T>>, k: nat)
    requires Unforged(terse, key, run) && k < |run| && run[k].request.cursor != []
    ensures Consumed(run[k], key) == Err(ContextChanged) <==> OutOfContext(terse, key, run, k)
  {
    if Consumed(run[k], key) == Err(ContextChanged) {
      var j := ReadWasIssued(terse, key, run, k);
      PresentedOffset(terse, key, run, j, k, 0);
    }
    if OutOfContext(terse, key, run, k) {
      var j: nat :| j < k && Issues(run[j], terse, key, run[k].request.cursor) && Ordinary(run[j].request)
                    && Lasts(run[j], run[k]) && !SameContext(run[j].request, run[k].request);
      PresentedOffset(terse, key, run, j, k, 0);
    }
  }
}

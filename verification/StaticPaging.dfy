/**
 The stateless cursors of the static catalog, service/static_catalog.go, and what a client that
 follows them receives.

 Base64, JSON and HMAC-SHA256 are symbolic: a cursor is the sequence of its dot-separated parts,
 and an encoded state and a signature are free constructors, so decoding undoes encoding and a
 signature verifies only for the key and the payload it was made with.
 */
module StaticPaging {
  import opened Wrappers
  import opened Traversal

  const DEFAULT_PAGE_LIMIT := 50
  const SECOND := 1_000_000_000        // times are nanoseconds
  const LIFETIME_SECONDS := 3600
  const LIFETIME := LIFETIME_SECONDS * SECOND

  datatype Continuation = Continuation(expiresAt: int, language: string, limit: int, offset: int,
                                       representation: string, target: string)

  type Key = string

  datatype Part = Encoded(state: Continuation) | Signature(key: Key, payload: Part) | Opaque(text: string)

  /** The parts between the dots of a cursor; no parts is the empty cursor. */
  type Cursor = seq<Part>

  datatype CatalogRequest = CatalogRequest(cursor: Cursor, language: string, limit: nat,
                                           representation: string, target: string)

  /** The `next` of a page: the target's path and its query. */
  datatype Reference = Reference(target: string, cursor: Cursor, limit: nat, representation: string)

  datatype RequestError = ContinuationExpired | ContextChanged

  /** The request a client makes when it follows a reference with an unchanged language. */
  function Follow(next: Reference, language: string): CatalogRequest {
    CatalogRequest(next.cursor, language, next.limit, next.representation, next.target)
  }

  // ----- Cursor arithmetic -----

  function Unix(now: nat): nat {
    now / SECOND
  }

  /** The expiry of a cursor minted at `now`, in seconds: two lifetimes after the last whole one. */
  function ContinuationExpiry(now: nat): nat {
    Unix(now - now % LIFETIME + 2 * LIFETIME)
  }

  /** A cursor lives more than one lifetime and at most two. */
  lemma ExpiryWindow(now: nat)
    ensures now + 3_600_000_000_000 < ContinuationExpiry(now) * 1_000_000_000 <= now + 7_200_000_000_000
    ensures ContinuationExpiry(now) % 3600 == 0
  {
    var hours := now / LIFETIME;
    assert now == hours * LIFETIME + now % LIFETIME;
    assert ContinuationExpiry(now) == (hours + 2) * LIFETIME_SECONDS;
  }

  /** Two cursors minted within the same lifetime slot expire together. */
  lemma ExpiryIsQuantised(a: nat, b: nat)
    ensures ContinuationExpiry(a) == ContinuationExpiry(b) <==> a / LIFETIME == b / LIFETIME
  {
    assert ContinuationExpiry(a) == (a / LIFETIME + 2) * LIFETIME_SECONDS by {
      assert a - a % LIFETIME == a / LIFETIME * LIFETIME;
    }
    assert ContinuationExpiry(b) == (b / LIFETIME + 2) * LIFETIME_SECONDS by {
      assert b - b % LIFETIME == b / LIFETIME * LIFETIME;
    }
  }

  function EffectiveLimit(request: CatalogRequest): (limit: nat)
    ensures limit > 0
  {
    if request.limit == 0 then DEFAULT_PAGE_LIMIT else request.limit
  }

  function Mint(offset: nat, request: CatalogRequest, limit: nat, key: Key, now: nat): Reference {
    var payload := Encoded(Continuation(ContinuationExpiry(now), request.language, limit, offset,
                                        request.representation, request.target));
    Reference(request.target, [payload, Signature(key, payload)], limit, request.representation)
  }

  predicate Verifies(cursor: Cursor, key: Key) {
    |cursor| == 2 && cursor[1] == Signature(key, cursor[0])
  }

  function DecodeContinuation(cursor: Cursor, key: Key): Option<Continuation> {
    if !Verifies(cursor, key) || !cursor[0].Encoded? then None
    else
      var state := cursor[0].state;
      if state.expiresAt <= 0 || state.limit < 1 || state.offset < 0 || state.target == "" then None
      else if state.representation != "terse" && state.representation != "full" then None
      else Some(state)
  }

  function ConsumeCursor(request: CatalogRequest, limit: nat, key: Key, now: nat): Result<nat, RequestError> {
    if request.cursor == [] then Ok(0)
    else
      var state := DecodeContinuation(request.cursor, key);
      if state.None? || state.value.expiresAt < Unix(now) then Err(ContinuationExpired)
      else if state.value.language != request.language || state.value.limit != limit
              || state.value.representation != request.representation || state.value.target != request.target
      then Err(ContextChanged)
      else Ok(state.value.offset)
  }

  /**
   A minted cursor is accepted for the request that minted it exactly until the second after its
   expiry has begun: always within one lifetime, never after two lifetimes and a second.
   */
  lemma MintedCursorAccepted(offset: nat, request: CatalogRequest, key: Key, minted: nat, now: nat)
    requires request.target != "" && (request.representation == "terse" || request.representation == "full")
    ensures var limit := EffectiveLimit(request);
            var back := Follow(Mint(offset, request, limit, key, minted), request.language);
            && EffectiveLimit(back) == limit
            && ConsumeCursor(back, limit, key, now) ==
                 (if now < (ContinuationExpiry(minted) + 1) * SECOND then Ok(offset) else Err(ContinuationExpired))
            && (now <= minted + LIFETIME ==> ConsumeCursor(back, limit, key, now) == Ok(offset))
            && (now >= minted + 2 * LIFETIME + SECOND ==> ConsumeCursor(back, limit, key, now).Err?)
  {
    ExpiryWindow(minted);
  }

  // ----- One page -----

  function Represent<T>(items: seq<T>, representation: string, terse: T -> T): (r: seq<T>)
    ensures |r| == |items|
    ensures forall k :: 0 <= k < |r| ==> r[k] == if representation == "terse" then terse(items[k]) else items[k]
  {
    seq(|items|, k requires 0 <= k < |items| => if representation == "terse" then terse(items[k]) else items[k])
  }

  function Min(a: nat, b: nat): nat {
    if a <= b then a else b
  }

  /** The slice of the list that a request asks for, and a continuation when there is more. */
  function Serve<T>(values: seq<T>, request: CatalogRequest, terse: T -> T, key: Key, read: nat, minted: nat)
    : Result<Page<T, Reference>, RequestError>
  {
    var limit := EffectiveLimit(request);
    match ConsumeCursor(request, limit, key, read)
    case Err(e) => Err(e)
    case Ok(offset) =>
      var start := Min(offset, |values|);
      var end := Min(start + limit, |values|);
      Ok(Page(Represent(values[start..end], request.representation, terse),
              if end < |values| then Some(Mint(end, request, limit, key, minted)) else None))
  }

  /** The page loop of the source, which reads the clock twice: for the cursor and for the next one. */
  method StaticPage<T>(values: seq<T>, request: CatalogRequest, terse: T -> T, key: Key, read: nat, minted: nat)
    returns (r: Result<Page<T, Reference>, RequestError>)
    ensures r == Serve(values, request, terse, key, read, minted)
  {
    var limit := request.limit;
    if limit == 0 {
      limit := DEFAULT_PAGE_LIMIT;
    }
    var consumed := ConsumeCursor(request, limit, key, read);
    if consumed.Err? {
      return Err(consumed.error);
    }
    var offset := Min(consumed.value, |values|);
    var end := Min(offset + limit, |values|);
    var items: seq<T> := [];
    for i := offset to end
      invariant items == Represent(values[offset..i], request.representation, terse)
    {
      var value := values[i];
      if request.representation == "terse" {
        value := terse(value);
      }
      assert values[offset..i + 1] == values[offset..i] + [values[i]];
      items := items + [value];
    }
    var next: Option<Reference> := None;
    if end < |values| {
      next := Some(Mint(end, request, limit, key, minted));
    }
    return Ok(Page(items, next));
  }

  // ----- Where a cursor resumes -----

  /**
   One request, the list that the process which answered it served at the request's target, and the
   two times at which it did. Processes can serve different lists: what they share is the key, which
   an operator may supply so that a cursor outlives the process that issued it.
   */
  datatype Exchange<T> = Exchange(values: seq<T>, request: CatalogRequest, read: nat, minted: nat)

  /** The cursor of the continuation that the exchange was answered with, if there was one. */
  function IssuedBy<T>(x: Exchange<T>, terse: T -> T, key: Key): Option<Cursor> {
    var r := Serve(x.values, x.request, terse, key, x.read, x.minted);
    if r.Ok? && r.value.next.Some? then Some(r.value.next.value.cursor) else None
  }

  /** A client can present anything, but a cursor that verifies must have been issued before, by any process. */
  ghost predicate Unforged<T>(terse: T -> T, key: Key, run: seq<Exchange<T>>) {
    forall k: nat :: k < |run| && Verifies(run[k].request.cursor, key) ==> CameFrom(terse, key, run, k)
  }

  ghost predicate CameFrom<T>(terse: T -> T, key: Key, run: seq<Exchange<T>>, k: nat)
    requires k < |run|
  {
    exists j :: 0 <= j < k && IssuedBy(run[j], terse, key) == Some(run[k].request.cursor)
  }

  /** The offset that request `k` resumes at; absent when it starts afresh or is refused. */
  function ResumesAt<T>(key: Key, x: Exchange<T>): Option<nat> {
    var r := ConsumeCursor(x.request, EffectiveLimit(x.request), key, x.read);
    if x.request.cursor != [] && r.Ok? then Some(r.value) else None
  }

  /** The offset lies beyond the end of the list it is applied to, so that the source clamps it. */
  predicate Clamps<T>(key: Key, x: Exchange<T>) {
    ResumesAt(key, x).Some? && ResumesAt(key, x).value > |x.values|
  }

  /** The offset does not lie strictly inside the list it is applied to. */
  predicate RunsOut<T>(key: Key, x: Exchange<T>) {
    ResumesAt(key, x).Some? && ResumesAt(key, x).value >= |x.values|
  }

  /** What an issued cursor says: the target of its request, and an offset strictly inside its list. */
  lemma IssuedInside<T>(x: Exchange<T>, terse: T -> T, key: Key, cursor: Cursor)
    requires IssuedBy(x, terse, key) == Some(cursor)
    ensures Verifies(cursor, key) && cursor[0].Encoded?
    ensures cursor[0].state.target == x.request.target && 0 < cursor[0].state.offset < |x.values|
  {
  }

  /**
   Over every run under one key, with any cursor a client can come by, a request resumes at an offset
   that lies strictly inside a list which was served before at the same target.
   */
  lemma ResumesInsideEarlierList<T>(terse: T -> T, key: Key, run: seq<Exchange<T>>, k: nat)
    requires Unforged(terse, key, run) && k < |run| && ResumesAt(key, run[k]).Some?
    ensures run[k].request.target != ""
    ensures exists j :: 0 <= j < k && run[j].request.target == run[k].request.target
                     && 0 < ResumesAt(key, run[k]).value < |run[j].values|
  {
    var cursor := run[k].request.cursor;
    assert CameFrom(terse, key, run, k);
    var j :| 0 <= j < k && IssuedBy(run[j], terse, key) == Some(cursor);
    IssuedInside(run[j], terse, key, cursor);
  }

  /** While the list at a target does not shrink, a cursor resumes strictly inside it and no offset is clamped. */
  lemma NoClampWithoutShrinking<T>(terse: T -> T, key: Key, run: seq<Exchange<T>>, k: nat)
    requires Unforged(terse, key, run) && k < |run|
    requires forall j :: 0 <= j < k && run[j].request.target == run[k].request.target ==>
               |run[j].values| <= |run[k].values|
    ensures !Clamps(key, run[k]) && !RunsOut(key, run[k])
  {
    if ResumesAt(key, run[k]).Some? {
      ResumesInsideEarlierList(terse, key, run, k);
    }
  }

  // ----- A walk that reaches a given offset -----

  /** The request of a client that takes one item at a time and is about to receive item `k`. */
  function OneByOne(target: string, key: Key, k: nat): CatalogRequest {
    var start := CatalogRequest([], "", 1, "full", target);
    if k == 0 then start else Follow(Mint(k, start, 1, key, 0), "")
  }

  /** The first `n` exchanges of that client with a process that serves `values`. */
  ghost function Walk<T>(values: seq<T>, target: string, key: Key, n: nat): (run: seq<Exchange<T>>)
    ensures |run| == n && forall k :: 0 <= k < n ==> run[k] == Exchange(values, OneByOne(target, key, k), 0, 0)
  {
    seq(n, k requires 0 <= k < n => Exchange(values, OneByOne(target, key, k), 0, 0))
  }

  lemma OneByOneResumes<T>(values: seq<T>, target: string, key: Key, k: nat)
    requires target != "" && k > 0
    ensures ResumesAt(key, Exchange(values, OneByOne(target, key, k), 0, 0)) == Some(k)
  {
  }

  lemma OneByOneIssues<T>(values: seq<T>, target: string, terse: T -> T, key: Key, k: nat)
    requires target != "" && k + 1 < |values|
    ensures IssuedBy(Exchange(values, OneByOne(target, key, k), 0, 0), terse, key)
         == Some(OneByOne(target, key, k + 1).cursor)
  {
    if k > 0 {
      OneByOneResumes(values, target, key, k);
    }
  }

  /** The walk over one list, and then the next request answered from another list. */
  ghost function Restarted<T>(before: seq<T>, after: seq<T>, target: string, key: Key, n: nat): seq<Exchange<T>> {
    Walk(before, target, key, n) + [Exchange(after, OneByOne(target, key, n), 0, 0)]
  }

  lemma RestartedIsUnforged<T>(before: seq<T>, after: seq<T>, target: string, terse: T -> T, key: Key, n: nat)
    requires target != "" && n < |before|
    ensures Unforged(terse, key, Restarted(before, after, target, key, n))
  {
    var run := Restarted(before, after, target, key, n);
    forall k: nat | k < |run| && Verifies(run[k].request.cursor, key) ensures CameFrom(terse, key, run, k) {
      assert run[k].request == OneByOne(target, key, k) && k > 0;
      OneByOneIssues(before, target, terse, key, k - 1);
      assert IssuedBy(run[k - 1], terse, key) == Some(run[k].request.cursor);
    }
  }

  // ----- Exactly when an offset is clamped -----

  /** Each exchange is answered from one of the lists that were served at the target, in their order. */
  ghost predicate ServedFrom<T>(lists: seq<seq<T>>, target: string, run: seq<Exchange<T>>, at: seq<nat>) {
    && |at| == |run|
    && (forall k :: 0 <= k < |run| ==>
          at[k] < |lists| && run[k].values == lists[at[k]] && run[k].request.target == target)
    && (forall j, k :: 0 <= j < k < |at| ==> at[j] <= at[k])
  }

  /** A run over the lists, under one key, that ends with a request of interest. */
  ghost predicate RunTo<T>(lists: seq<seq<T>>, target: string, terse: T -> T, key: Key, run: seq<Exchange<T>>,
                           at: seq<nat>)
  {
    run != [] && ServedFrom(lists, target, run, at) && Unforged(terse, key, run)
  }

  /** Some run over these lists ends with an offset beyond the end of its list, which the source clamps. */
  ghost predicate CanClamp<T(!new)>(lists: seq<seq<T>>, target: string, terse: T -> T, key: Key) {
    exists run: seq<Exchange<T>>, at: seq<nat> ::
      RunTo(lists, target, terse, key, run, at) && Clamps(key, run[|run| - 1])
  }

  /** Some run over these lists ends with an offset that does not lie strictly inside its list. */
  ghost predicate CanRunOut<T(!new)>(lists: seq<seq<T>>, target: string, terse: T -> T, key: Key) {
    exists run: seq<Exchange<T>>, at: seq<nat> ::
      RunTo(lists, target, terse, key, run, at) && RunsOut(key, run[|run| - 1])
  }

  /** The last request of a run resumes strictly inside its own list or one that came before. */
  lemma ResumesInside<T>(lists: seq<seq<T>>, target: string, terse: T -> T, key: Key, run: seq<Exchange<T>>,
                         at: seq<nat>)
    returns (c: nat, d: nat)
    requires RunTo(lists, target, terse, key, run, at) && ResumesAt(key, run[|run| - 1]).Some?
    ensures target != "" && c <= d < |lists| && run[|run| - 1].values == lists[d]
    ensures 0 < ResumesAt(key, run[|run| - 1]).value < |lists[c]|
  {
    var k := |run| - 1;
    ResumesInsideEarlierList(terse, key, run, k);
    var j :| 0 <= j < k && 0 < ResumesAt(key, run[k]).value < |run[j].values|;
    c, d := at[j], at[k];
  }

  /** And every such offset can be reached. */
  lemma ReachOffset<T>(lists: seq<seq<T>>, target: string, terse: T -> T, key: Key, c: nat, d: nat, offset: nat)
    returns (run: seq<Exchange<T>>, at: seq<nat>)
    requires target != "" && c <= d < |lists| && 0 < offset < |lists[c]|
    ensures RunTo(lists, target, terse, key, run, at)
    ensures run[|run| - 1].values == lists[d] && ResumesAt(key, run[|run| - 1]) == Some(offset)
  {
    run := Restarted(lists[c], lists[d], target, key, offset);
    at := seq(offset + 1, k requires 0 <= k < offset + 1 => if k < offset then c else d);
    RestartedIsUnforged(lists[c], lists[d], target, terse, key, offset);
    OneByOneResumes(lists[d], target, key, offset);
  }

  /**
   The clamp can act exactly when a list served later at the target is shorter by more than one item
   than one served before it.
   */
  lemma ClampsExactly<T(!new)>(lists: seq<seq<T>>, target: string, terse: T -> T, key: Key)
    ensures CanClamp(lists, target, terse, key) <==>
            target != "" && exists c, d :: 0 <= c < d < |lists| && |lists[d]| + 1 < |lists[c]|
  {
    if CanClamp(lists, target, terse, key) {
      var run: seq<Exchange<T>>, at: seq<nat> :|
        RunTo(lists, target, terse, key, run, at) && Clamps(key, run[|run| - 1]);
      var c, d := ResumesInside(lists, target, terse, key, run, at);
      assert |lists[d]| + 1 < |lists[c]|;
    }
    if c, d :| target != "" && 0 <= c < d < |lists| && |lists[d]| + 1 < |lists[c]| {
      var run, at := ReachOffset(lists, target, terse, key, c, d, |lists[d]| + 1);
    }
  }

  /**
   A continuation can come back empty exactly when a list served later is shorter at all, and the
   earlier one had a second item to continue with.
   */
  lemma RunsOutExactly<T(!new)>(lists: seq<seq<T>>, target: string, terse: T -> T, key: Key)
    ensures CanRunOut(lists, target, terse, key) <==>
            target != "" && exists c, d :: 0 <= c < d < |lists| && |lists[d]| < |lists[c]| && 1 < |lists[c]|
  {
    if CanRunOut(lists, target, terse, key) {
      var run: seq<Exchange<T>>, at: seq<nat> :|
        RunTo(lists, target, terse, key, run, at) && RunsOut(key, run[|run| - 1]);
      var c, d := ResumesInside(lists, target, terse, key, run, at);
      assert |lists[d]| < |lists[c]| && 1 < |lists[c]|;
    }
    if c, d :| target != "" && 0 <= c < d < |lists| && |lists[d]| < |lists[c]| && 1 < |lists[c]| {
      var run, at := ReachOffset(lists, target, terse, key, c, d, if |lists[d]| == 0 then 1 else |lists[d]|);
    }
  }

  /** A request that is clamped, or that resumes at the very end, gets an empty page without a continuation. */
  lemma RunsOutEmpty<T>(x: Exchange<T>, terse: T -> T, key: Key)
    requires RunsOut(key, x)
    ensures Serve(x.values, x.request, terse, key, x.read, x.minted) == Ok(Page([], None))
  {
  }

  /**
   The source calls an offset past the end unreachable. It is not: a hundred items under one key, a
   restart with three, and the continuation of the first page is accepted, clamped and answered with
   an empty last page.
   */
  lemma RestartClamps<T(!new)>(hundred: seq<T>, three: seq<T>, terse: T -> T, key: Key)
    requires |hundred| == 100 && |three| == 3
    ensures exists run: seq<Exchange<T>> ::
              && |run| == 2 && run[0].values == hundred && run[1].values == three
              && Unforged(terse, key, run) && ResumesAt(key, run[1]) == Some(50) && Clamps(key, run[1])
              && Serve(three, run[1].request, terse, key, run[1].read, run[1].minted) == Ok(Page([], None))
  {
    var first := CatalogRequest([], "en", 50, "full", "/offerings");
    var second := Follow(Mint(50, first, 50, key, 0), "en");
    var run := [Exchange(hundred, first, 0, 0), Exchange(three, second, 0, 0)];
    assert IssuedBy(run[0], terse, key) == Some(second.cursor);
    assert Unforged(terse, key, run) by {
      assert CameFrom(terse, key, run, 1);
    }
    RunsOutEmpty(run[1], terse, key);
  }

  // ----- Following continuations delivers the list -----

  /** A client's traversal: request `k` is read at `read(k)` and answered at `minted(k)`. */
  datatype Visit<!T> = Visit(values: seq<T>, start: CatalogRequest, terse: T -> T, key: Key,
                             read: nat -> nat, minted: nat -> nat)

  /**
   The request context the catalog demands, and a client that follows each continuation within
   one lifetime of its page.
   */
  ghost predicate Timely<T>(v: Visit<T>) {
    && v.start.cursor == [] && v.start.target != ""
    && (v.start.representation == "terse" || v.start.representation == "full")
    && forall k: nat :: v.read(k + 1) <= v.minted(k) + LIFETIME
  }

  ghost function First<T>(v: Visit<T>): (r: Result<Page<T, Reference>, RequestError>)
    ensures Timely(v) ==> r.Ok?
  {
    Serve(v.values, v.start, v.terse, v.key, v.read(0), v.minted(0))
  }

  /** The service as the loader of the client's page iterator. */
  ghost function Service<T(!new)>(v: Visit<T>): Loader<T, Reference, RequestError> {
    (k: nat, next: Reference) =>
      Serve(v.values, Follow(next, v.start.language), v.terse, v.key, v.read(k + 1), v.minted(k + 1))
  }

  /** The offset of page `k`. */
  function Offset<T>(v: Visit<T>, k: nat): nat {
    Min(k * EffectiveLimit(v.start), |v.values|)
  }

  function PageCount<T>(v: Visit<T>): nat {
    var limit := EffectiveLimit(v.start);
    if v.values == [] then 1 else (|v.values| + limit - 1) / limit
  }

  ghost function ExpectedPage<T>(v: Visit<T>, k: nat): Page<T, Reference>
    requires Offset(v, k) <= Offset(v, k + 1)
  {
    var limit := EffectiveLimit(v.start);
    Page(Represent(v.values[Offset(v, k)..Offset(v, k + 1)], v.start.representation, v.terse),
         if Offset(v, k + 1) < |v.values| then Some(Mint(Offset(v, k + 1), v.start, limit, v.key, v.minted(k)))
         else None)
  }

  lemma OffsetGrows<T>(v: Visit<T>, k: nat)
    ensures Offset(v, k) <= Offset(v, k + 1) <= |v.values|
    ensures Offset(v, k + 1) == Min(Offset(v, k) + EffectiveLimit(v.start), |v.values|)
    ensures Offset(v, k + 1) < |v.values| ==> Offset(v, k) < Offset(v, k + 1)
  {
    assert (k + 1) * EffectiveLimit(v.start) == k * EffectiveLimit(v.start) + EffectiveLimit(v.start);
  }

  /** Exactly the first `PageCount` pages are needed: all but the last leave something over. */
  lemma PageCountExact<T>(v: Visit<T>)
    ensures PageCount(v) > 0
    ensures Offset(v, PageCount(v)) == |v.values|
    ensures v.values != [] ==> Offset(v, PageCount(v) - 1) < |v.values|
  {
    var limit, n := EffectiveLimit(v.start), |v.values|;
    if v.values != [] {
      var count := (n + limit - 1) / limit;
      assert count * limit + (n + limit - 1) % limit == n + limit - 1;
      assert (count - 1) * limit == count * limit - limit;
    }
  }

  lemma {:induction false} OffsetBelow<T>(v: Visit<T>, k: nat, m: nat)
    requires k <= m
    ensures Offset(v, k) <= Offset(v, m)
    ensures k < m && Offset(v, m) < |v.values| ==> Offset(v, k) < Offset(v, m)
    decreases m - k
  {
    if k < m {
      OffsetGrows(v, k);
      OffsetBelow(v, k + 1, m);
    }
  }

  lemma FirstPage<T>(v: Visit<T>)
    requires Timely(v)
    ensures Offset(v, 0) <= Offset(v, 1) && First(v) == Ok(ExpectedPage(v, 0))
  {
    OffsetGrows(v, 0);
  }

  /** Following the continuation of page `k` yields page `k + 1`. */
  lemma NextPage<T(!new)>(v: Visit<T>, k: nat)
    requires Timely(v)
    ensures Offset(v, k) <= Offset(v, k + 1) <= Offset(v, k + 2)
    ensures Offset(v, k + 1) < |v.values| ==>
              Service(v)(k, ExpectedPage(v, k).next.value) == Ok(ExpectedPage(v, k + 1))
  {
    OffsetGrows(v, k);
    OffsetGrows(v, k + 1);
    if Offset(v, k + 1) < |v.values| {
      var limit := EffectiveLimit(v.start);
      MintedCursorAccepted(Offset(v, k + 1), v.start, v.key, v.minted(k), v.read(k + 1));
      assert Follow(ExpectedPage(v, k).next.value, v.start.language) ==
             Follow(Mint(Offset(v, k + 1), v.start, limit, v.key, v.minted(k)), v.start.language);
      MintIgnoresCursor(Offset(v, k + 2), v.start, ExpectedPage(v, k).next.value, limit, v.key, v.minted(k + 1));
    }
  }

  /** A continuation names the request's context, not the cursor the request came with. */
  lemma MintIgnoresCursor(offset: nat, request: CatalogRequest, next: Reference, limit: nat, key: Key, now: nat)
    requires next.target == request.target && next.representation == request.representation
    ensures Mint(offset, Follow(next, request.language), limit, key, now) == Mint(offset, request, limit, key, now)
  {
  }

  ghost function ExpectedPages<T>(v: Visit<T>, count: nat): (pages: seq<Page<T, Reference>>)
    ensures |pages| == count
  {
    seq(count, k requires 0 <= k < count => (OffsetGrows(v, k); ExpectedPage(v, k)))
  }

  lemma ExpectedLink<T(!new)>(v: Visit<T>, k: nat)
    requires Timely(v) && k + 1 < PageCount(v)
    ensures Offset(v, k + 1) < |v.values|
    ensures Link(Service(v), ExpectedPages(v, PageCount(v)), k)
  {
    PageCountExact(v);
    OffsetBelow(v, k + 1, PageCount(v) - 1);
    NextPage(v, k);
    var pages := ExpectedPages(v, PageCount(v));
    assert pages[k] == ExpectedPage(v, k) && pages[k + 1] == ExpectedPage(v, k + 1);
  }

  /** The continuation of an expected page names the offset at which the next one begins. */
  lemma ExpectedNext<T(!new)>(v: Visit<T>, k: nat)
    requires Timely(v) && k + 1 < PageCount(v)
    ensures var next := ExpectedPages(v, PageCount(v))[k].next;
            next.Some? && next.value.cursor[0].state.offset == Offset(v, k + 1)
    ensures Offset(v, k + 1) < |v.values|
  {
    ExpectedLink(v, k);
  }

  lemma NextsDiffer<T(!new)>(v: Visit<T>, i: nat, j: nat)
    requires Timely(v) && i < j && j + 1 < PageCount(v)
    ensures ExpectedPages(v, PageCount(v))[i].next != ExpectedPages(v, PageCount(v))[j].next
  {
    ExpectedNext(v, i);
    ExpectedNext(v, j);
    OffsetBelow(v, i + 1, j + 1);
  }

  lemma ExpectedReferences<T(!new)>(v: Visit<T>)
    requires Timely(v)
    ensures LoopFree(ExpectedPages(v, PageCount(v)), None)
  {
    var pages := ExpectedPages(v, PageCount(v));
    PageCountExact(v);
    forall k: nat | k < |pages| - 1 ensures pages[k].next.Some? {
      ExpectedNext(v, k);
    }
    forall i, j | 0 <= i < j < |pages| - 1 ensures pages[i].next != pages[j].next {
      NextsDiffer(v, i, j);
    }
  }

  lemma ExpectedChain<T(!new)>(v: Visit<T>)
    requires Timely(v)
    ensures First(v).Ok?
    ensures WholeChain(First(v).value, Service(v), ExpectedPages(v, PageCount(v)))
  {
    var pages := ExpectedPages(v, PageCount(v));
    PageCountExact(v);
    FirstPage(v);
    forall k: nat | k + 1 < |pages| ensures Link(Service(v), pages, k) {
      ExpectedLink(v, k);
    }
  }

  lemma RepresentAppend<T>(values: seq<T>, i: nat, j: nat, representation: string, terse: T -> T)
    requires i <= j <= |values|
    ensures Represent(values[..j], representation, terse)
         == Represent(values[..i], representation, terse) + Represent(values[i..j], representation, terse)
  {
    assert values[..j] == values[..i] + values[i..j];
  }

  lemma {:induction false} ExpectedItems<T>(v: Visit<T>, count: nat)
    ensures Flat(ExpectedPages(v, count)) == Represent(v.values[..Offset(v, count)], v.start.representation, v.terse)
    decreases count
  {
    if count > 0 {
      ExpectedItems(v, count - 1);
      OffsetGrows(v, count - 1);
      assert ExpectedPages(v, count)[..count - 1] == ExpectedPages(v, count - 1);
      RepresentAppend(v.values, Offset(v, count - 1), Offset(v, count), v.start.representation, v.terse);
    }
  }

  /**
   A client that follows continuations within their lifetime receives every item of the list once
   and in order, in max(1, ceil(n / limit)) pages or as many of them as its page budget allows;
   no cursor is refused, and the client's loop detection never fires.
   */
  lemma FollowingDeliversTheList<T(!new)>(v: Visit<T>, budget: nat, accept: nat -> bool,
                                          t: Trace<T, Reference, RequestError>)
    requires Timely(v) && budget > 0
    requires AgentTraversal(First(v).value, None, budget, Service(v), accept, t)
    requires forall k: nat :: accept(k)
    ensures t.failure.None?
    ensures |t.pages| == Min(PageCount(v), budget)
    ensures Flat(t.pages) == Represent(v.values[..Offset(v, |t.pages|)], v.start.representation, v.terse)
    ensures PageCount(v) <= budget ==> Flat(t.pages) == Represent(v.values, v.start.representation, v.terse)
  {
    ExpectedChain(v);
    ExpectedReferences(v);
    AgentDeliversChain(First(v).value, None, budget, Service(v), accept, t, ExpectedPages(v, PageCount(v)));
    ExpectedItems(v, |t.pages|);
    assert t.pages == ExpectedPages(v, |t.pages|);
    PageCountExact(v);
    assert v.values[..|v.values|] == v.values;
  }
}

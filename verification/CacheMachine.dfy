/**
 The Agent's request: a cache lookup, a redirect loop, revalidation and storage, as `request` of
 agent/transport.go carries them out.

 A server is an arbitrary function from the number of the request to the reply, so it may answer
 differently every time. The method `Request` is proved equal to the function `Perform`, and what
 holds over whole runs, of calls one at a time or interleaved, is proved about that function.
 */
module CacheMachine {
  import opened Wrappers
  import opened Freshness
  import opened MemoryCache

  const PROBLEM_BYTES := 16_384

  /** Where a redirect leads; a server can send no Location, or one that does not parse. */
  datatype Location = Omitted | Unparsable | To(url: Url)

  /** `declared` is the content length, or negative when unknown. */
  datatype Reply = Reply(status: int, location: Location, header: Header, body: Body, declared: int,
                         utf8: bool, odp: bool)

  datatype Failure =
    | InvalidTarget
    | Unreachable
    | TooManyRedirects
    | LocationOmitted
    | LocationUnparsable
    | OriginChanged
    | LimitExceeded
    | NotUtf8
    | UnsupportedMediaType
    | NothingToRevalidate
    | ForeignValidator
    | HttpStatus(status: int)
    | Invalid

  datatype Origin = Fetched | Fresh | Revalidated

  datatype Response = Response(body: Body, finalURL: Url, freshness: Origin, status: int)

  /** One request on the wire. */
  datatype Sent = Sent(method_: Method, url: Url, hasBody: bool, ifNoneMatch: string, ifModifiedSince: string)

  /**
   The arguments of one call. `replies(k)` answers the k-th request, or is absent when it fails.
   `lookedUp` is when the cached record's expiry is compared, `answered`
   when a reply is stored. An empty key stands for a call without a cache.
   */
  datatype Call = Call(method_: Method, target: Url, hasBody: bool, maxRedirects: nat, maximumBytes: int,
                       key: string, fallback: Duration, validate: Body -> bool,
                       replies: nat -> Option<Reply>, lookedUp: Time, answered: Time)

  predicate Success(status: int) {
    200 <= status <= 299
  }

  predicate RedirectStatus(status: int) {
    status in {301, 302, 303, 307, 308}
  }

  predicate SwitchesToGet(status: int, method_: Method) {
    status == 303 || (status in {301, 302} && method_.Post?)
  }

  /** Why a reply cannot be consumed, if it cannot. */
  function ConsumeError(reply: Reply, maximumBytes: int): Option<Failure>
  {
    var limit := if Success(reply.status) || maximumBytes < PROBLEM_BYTES then maximumBytes else PROBLEM_BYTES;
    if reply.declared > limit || |reply.body| > limit then Some(LimitExceeded)
    else if !reply.utf8 then Some(NotUtf8)
    else if Success(reply.status) && !reply.odp then Some(UnsupportedMediaType)
    else None
  }

  // ----- The lookup -----

  /** A usable record comes from the target's own origin, or has no final URL. */
  predicate Usable(record: CacheRecord, target: Url) {
    record.finalURL.None? || (target.origin.Some? && record.finalURL.value.origin == target.origin)
  }

  function Cached(records: Records, call: Call): Option<CacheRecord> {
    if call.key != "" && call.key in records && Usable(records[call.key], call.target)
    then Some(records[call.key]) else None
  }

  /** The records once an unusable one has been dropped. */
  function AfterLookup(records: Records, call: Call): Records {
    if call.key != "" && call.key in records && !Usable(records[call.key], call.target)
    then records - {call.key} else records
  }

  function StartURL(call: Call, cached: Option<CacheRecord>): Url {
    if cached.Some? && cached.value.finalURL.Some? then cached.value.finalURL.value else call.target
  }

  // ----- The redirect loop -----

  datatype Fetch =
    | Stopped(error: Failure, sent: seq<Sent>)
    | Arrived(reply: Reply, url: Url, method_: Method, sent: seq<Sent>)

  function Conditional(method_: Method, url: Url, hasBody: bool, cached: Option<CacheRecord>): Sent {
    Sent(method_, url, hasBody, if cached.Some? then cached.value.etag else "",
         if cached.Some? then cached.value.lastModified else "")
  }

  function Follow(call: Call, cached: Option<CacheRecord>, method_: Method, url: Url, hasBody: bool, redirects: nat)
    : Fetch
    decreases call.maxRedirects + 1 - redirects
  {
    var sent := [Conditional(method_, url, hasBody, cached)];
    if call.replies(redirects).None? then Stopped(Unreachable, sent)
    else
    var reply := call.replies(redirects).value;
    if !RedirectStatus(reply.status) then Arrived(reply, url, method_, sent)
    else if redirects >= call.maxRedirects then Stopped(TooManyRedirects, sent)
    else if reply.location.Omitted? then Stopped(LocationOmitted, sent)
    else if reply.location.Unparsable? then Stopped(LocationUnparsable, sent)
    else if reply.location.url.origin.None? || reply.location.url.origin != call.target.origin
    then Stopped(OriginChanged, sent)
    else
      var get := SwitchesToGet(reply.status, method_);
      var rest := Follow(call, cached, if get then Get else method_, reply.location.url, !get && hasBody,
                         redirects + 1);
      Prepend(sent, rest)
  }

  function Prepend(sent: seq<Sent>, fetch: Fetch): Fetch {
    fetch.(sent := sent + fetch.sent)
  }

  lemma PrependTwice(a: seq<Sent>, b: seq<Sent>, fetch: Fetch)
    ensures Prepend(a, Prepend(b, fetch)) == Prepend(a + b, fetch)
  {
    assert a + (b + fetch.sent) == a + b + fetch.sent;
  }

  // ----- What a reply does to the cache -----

  datatype Outcome = Outcome(records: Records, result: Result<Response, Failure>, sent: seq<Sent>)

  function Lifetime(record: CacheRecord): (d: Duration)
    ensures d >= 0
  {
    if record.storedAt.None? then 0
    else
      var d := Sub(record.expiresAt, record.storedAt.value);
      if d < 0 then 0 else d
  }

  /** A record that a 304 confirmed at `now`. */
  function Refreshed(record: CacheRecord, header: Header, url: Url, fallback: Duration, now: Time): CacheRecord {
    CacheRecord(record.body,
                if header.etag != "" then header.etag else record.etag,
                if HasFreshnessDirective(header) then Expiry(header, fallback, now) else now + Lifetime(record),
                Some(url),
                if header.lastModified != "" then header.lastModified else record.lastModified,
                record.status, Some(now))
  }

  function OnNotModified(records: Records, call: Call, record: CacheRecord, reply: Reply, url: Url)
    : (Records, Result<Response, Failure>)
  {
    var served := Ok(Response(record.body, url, Revalidated, record.status));
    if reply.header.etag != "" && reply.header.etag != record.etag then (records - {call.key}, Err(ForeignValidator))
    else if !reply.header.supportedVary then (records - {call.key}, served)
    else if !call.validate(record.body) then (records - {call.key}, Err(Invalid))
    else if reply.header.noStore then (records - {call.key}, served)
    else (records[call.key := Refreshed(record, reply.header, url, call.fallback, call.answered)], served)
  }

  function OnSuccess(records: Records, call: Call, reply: Reply, url: Url, method_: Method)
    : (Records, Result<Response, Failure>)
  {
    if !call.validate(reply.body) then (records, Err(Invalid))
    else
      var response := Ok(Response(reply.body, url, Fetched, reply.status));
      if call.key == "" then (records, response)
      else if Cacheable(method_, reply.header, call.fallback) then
        var record := CacheRecord(reply.body, reply.header.etag, Expiry(reply.header, call.fallback, call.answered),
                                  Some(url), reply.header.lastModified, reply.status, Some(call.answered));
        (records[call.key := record], response)
      else (records - {call.key}, response)
  }

  function OnReply(records: Records, call: Call, cached: Option<CacheRecord>, reply: Reply, url: Url, method_: Method)
    : (Records, Result<Response, Failure>)
  {
    var unreadable := ConsumeError(reply, call.maximumBytes);
    if unreadable.Some? then (records, Err(unreadable.value))
    else if reply.status == 304 then
      if cached.None? then (records, Err(NothingToRevalidate))
      else OnNotModified(records, call, cached.value, reply, url)
    else if !Success(reply.status) then (records, Err(HttpStatus(reply.status)))
    else OnSuccess(records, call, reply, url, method_)
  }

  /** What follows the lookup that found `cached`: a fresh hit, or a fetch and its settlement. */
  function Finish(kept: Records, call: Call, cached: Option<CacheRecord>): Outcome {
    if cached.Some? && call.lookedUp < cached.value.expiresAt then
      if !call.validate(cached.value.body) then Outcome(kept - {call.key}, Err(Invalid), [])
      else Outcome(kept, Ok(Response(cached.value.body, StartURL(call, cached), Fresh, cached.value.status)), [])
    else if call.target.origin.None? then Outcome(kept, Err(InvalidTarget), [])
    else Conclude(kept, call, cached, Follow(call, cached, call.method_, StartURL(call, cached), call.hasBody, 0))
  }

  /** The whole call: what it leaves in the cache, what it returns, and what it sends. */
  function Perform(records: Records, call: Call): Outcome {
    Finish(AfterLookup(records, call), call, Cached(records, call))
  }

  function Conclude(kept: Records, call: Call, cached: Option<CacheRecord>, fetch: Fetch): Outcome {
    match fetch
    case Stopped(error, sent) => Outcome(kept, Err(error), sent)
    case Arrived(reply, url, method_, sent) =>
      var (after, result) := OnReply(kept, call, cached, reply, url, method_);
      Outcome(after, result, sent)
  }

  lemma PerformWithoutHit(records: Records, call: Call)
    requires var cached := Cached(records, call); cached.None? || cached.value.expiresAt <= call.lookedUp
    ensures var cached, kept := Cached(records, call), AfterLookup(records, call);
            Perform(records, call) ==
            if call.target.origin.None? then Outcome(kept, Err(InvalidTarget), [])
            else Conclude(kept, call, cached,
                          Follow(call, cached, call.method_, StartURL(call, cached), call.hasBody, 0))
  {
  }

  // ----- The method -----

  method Request(cache: Cache, call: Call) returns (result: Result<Response, Failure>, sent: seq<Sent>)
    modifies cache
    ensures Outcome(cache.Contents(), result, sent) == Perform(old(cache.Contents()), call)
  {
    ghost var before := cache.Contents();
    var cached, current := LookUp(cache, call);
    if cached.Some? && call.lookedUp < cached.value.expiresAt {
      if !call.validate(cached.value.body) {
        cache.Delete(call.key);
        return Err(Invalid), [];
      }
      return Ok(Response(cached.value.body, current, Fresh, cached.value.status)), [];
    }
    PerformWithoutHit(before, call);
    if call.target.origin.None? {
      return Err(InvalidTarget), [];
    }
    var fetch := FollowRedirects(call, cached, current);
    ghost var kept := cache.Contents();
    assert kept == AfterLookup(before, call);
    assert Conclude(kept, call, cached, fetch) == Perform(before, call);
    result := Settle(cache, call, cached, fetch);
    assert Outcome(cache.Contents(), result, fetch.sent) == Conclude(kept, call, cached, fetch);
    sent := fetch.sent;
  }

  /** The cached record of the call, if it is usable, and the URL to start from. */
  method LookUp(cache: Cache, call: Call) returns (cached: Option<CacheRecord>, current: Url)
    modifies cache
    ensures cached == Cached(old(cache.Contents()), call) && current == StartURL(call, cached)
    ensures cache.Contents() == AfterLookup(old(cache.Contents()), call)
  {
    cached := None;
    if call.key != "" {
      var bytes;
      cached, bytes := cache.Get(call.key);
    }
    current := call.target;
    if cached.Some? && cached.value.finalURL.Some? {
      if call.target.origin.Some? && cached.value.finalURL.value.origin == call.target.origin {
        current := cached.value.finalURL.value;
      } else {
        cache.Delete(call.key);
        cached := None;
      }
    }
  }

  method FollowRedirects(call: Call, cached: Option<CacheRecord>, start: Url) returns (fetch: Fetch)
    ensures fetch == Follow(call, cached, call.method_, start, call.hasBody, 0)
  {
    var current, method_, hasBody, redirects := start, call.method_, call.hasBody, 0;
    var sent: seq<Sent> := [];
    ghost var all := Follow(call, cached, call.method_, start, call.hasBody, 0);
    while true
      invariant redirects <= call.maxRedirects
      invariant all == Prepend(sent, Follow(call, cached, method_, current, hasBody, redirects))
      decreases call.maxRedirects - redirects
    {
      ghost var before := sent;
      ghost var one := [Conditional(method_, current, hasBody, cached)];
      sent := sent + [Conditional(method_, current, hasBody, cached)];
      if call.replies(redirects).None? {
        return Stopped(Unreachable, sent);
      }
      var reply := call.replies(redirects).value;
      if !RedirectStatus(reply.status) {
        return Arrived(reply, current, method_, sent);
      }
      if redirects >= call.maxRedirects {
        return Stopped(TooManyRedirects, sent);
      }
      if reply.location.Omitted? {
        return Stopped(LocationOmitted, sent);
      }
      if reply.location.Unparsable? {
        return Stopped(LocationUnparsable, sent);
      }
      var next := reply.location.url;
      if next.origin.None? || next.origin != call.target.origin {
        return Stopped(OriginChanged, sent);
      }
      ghost var get := SwitchesToGet(reply.status, method_);
      ghost var rest := Follow(call, cached, if get then Get else method_, next, !get && hasBody, redirects + 1);
      PrependTwice(before, one, rest);
      if SwitchesToGet(reply.status, method_) {
        method_, hasBody := Get, false;
      }
      current := next;
      redirects := redirects + 1;
    }
  }

  /** What follows the redirect loop: the reply is consumed, and the cache brought up to date. */
  method Settle(cache: Cache, call: Call, cached: Option<CacheRecord>, fetch: Fetch)
    returns (result: Result<Response, Failure>)
    modifies cache
    ensures Outcome(cache.Contents(), result, fetch.sent) == Conclude(old(cache.Contents()), call, cached, fetch)
  {
    if fetch.Stopped? {
      return Err(fetch.error);
    }
    var reply, url, method_ := fetch.reply, fetch.url, fetch.method_;
    var unreadable := ConsumeError(reply, call.maximumBytes);
    if unreadable.Some? {
      return Err(unreadable.value);
    }
    if reply.status == 304 {
      if cached.None? {
        return Err(NothingToRevalidate);
      }
      result := Revalidate(cache, call, cached.value, reply, url);
      return;
    }
    if !Success(reply.status) {
      return Err(HttpStatus(reply.status));
    }
    if !call.validate(reply.body) {
      return Err(Invalid);
    }
    if call.key != "" {
      if Cacheable(method_, reply.header, call.fallback) {
        var bytes := new bv8[|reply.body|](i requires 0 <= i < |reply.body| => reply.body[i]);
        assert bytes[..] == reply.body;
        var expires := Expiry(reply.header, call.fallback, call.answered);
        cache.Set(call.key,
                  CacheRecord(reply.body, reply.header.etag, expires, Some(url), reply.header.lastModified,
                              reply.status, Some(call.answered)),
                  bytes);
      } else {
        cache.Delete(call.key);
      }
    }
    return Ok(Response(reply.body, url, Fetched, reply.status));
  }

  /** The 304 branch, with the record updated field by field. */
  method Revalidate(cache: Cache, call: Call, cached: CacheRecord, reply: Reply, url: Url)
    returns (result: Result<Response, Failure>)
    modifies cache
    ensures (cache.Contents(), result) == OnNotModified(old(cache.Contents()), call, cached, reply, url)
  {
    var record := cached;
    if reply.header.etag != "" && reply.header.etag != record.etag {
      cache.Delete(call.key);
      return Err(ForeignValidator);
    }
    if !reply.header.supportedVary {
      cache.Delete(call.key);
      return Ok(Response(record.body, url, Revalidated, record.status));
    }
    if !call.validate(record.body) {
      cache.Delete(call.key);
      return Err(Invalid);
    }
    record := Refresh(record, reply.header, url, call.fallback, call.answered);
    if reply.header.noStore {
      cache.Delete(call.key);
      return Ok(Response(record.body, url, Revalidated, record.status));
    }
    var bytes := new bv8[|record.body|](i requires 0 <= i < |record.body| => record.body[i]);
    assert bytes[..] == record.body;
    cache.Set(call.key, record, bytes);
    return Ok(Response(record.body, url, Revalidated, record.status));
  }

  method Refresh(confirmed: CacheRecord, header: Header, url: Url, fallback: Duration, now: Time)
    returns (record: CacheRecord)
    ensures record == Refreshed(confirmed, header, url, fallback, now)
  {
    record := confirmed;
    if HasFreshnessDirective(header) {
      record := record.(expiresAt := Expiry(header, fallback, now));
    } else {
      var lifetime: Duration := 0;
      if record.storedAt.Some? {
        lifetime := Sub(record.expiresAt, record.storedAt.value);
      }
      if lifetime < 0 {
        lifetime := 0;
      }
      record := record.(expiresAt := now + lifetime);
    }
    if header.etag != "" {
      record := record.(etag := header.etag);
    }
    if header.lastModified != "" {
      record := record.(lastModified := header.lastModified);
    }
    record := record.(finalURL := Some(url), storedAt := Some(now));
  }

  // ----- What holds over every run -----

  /**
   What calls that share a cache key must have in common: the origin of the target, which the key
   determines because it contains the target. The origin of a key is `home(key)`.
   */
  ghost predicate Homed(call: Call, home: string -> string) {
    call.key != "" && call.target.origin.Some? ==> call.target.origin.value == home(call.key)
  }

  /** What the call's validator accepts, `accepts` grants its key. */
  ghost predicate Vouches(call: Call, accepts: (string, Body) -> bool, home: string -> string) {
    Homed(call, home) && (call.key != "" ==> forall body :: call.validate(body) ==> accepts(call.key, body))
  }

  /** The discipline under which no check is missed: the key determines the validator as well. */
  ghost predicate Disciplined(call: Call, accepts: (string, Body) -> bool, home: string -> string) {
    Homed(call, home) && (call.key != "" ==> forall body :: call.validate(body) == accepts(call.key, body))
  }

  ghost predicate RecordOk(key: string, record: CacheRecord, accepts: (string, Body) -> bool, home: string -> string) {
    && Success(record.status)
    && accepts(key, record.body)
    && record.finalURL.Some? && record.finalURL.value.origin == Some(home(key))
    && record.storedAt.Some?
  }

  ghost predicate CacheOk(records: Records, accepts: (string, Body) -> bool, home: string -> string) {
    forall key :: key in records ==> RecordOk(key, records[key], accepts, home)
  }

  ghost predicate AllHome(sent: seq<Sent>, origin: Option<string>) {
    forall k :: 0 <= k < |sent| ==> sent[k].url.origin == origin
  }

  ghost predicate StaysHome(fetch: Fetch, origin: Option<string>, limit: nat) {
    && 1 <= |fetch.sent| <= limit
    && AllHome(fetch.sent, origin)
    && (fetch.Arrived? ==> fetch.url.origin == origin && !RedirectStatus(fetch.reply.status)
                           && fetch.url == fetch.sent[|fetch.sent| - 1].url)
  }

  lemma PrependStaysHome(one: Sent, rest: Fetch, origin: Option<string>, limit: nat)
    requires one.url.origin == origin && StaysHome(rest, origin, limit)
    ensures StaysHome(Prepend([one], rest), origin, limit + 1)
  {
  }

  /** The redirect loop stays on the target's origin and within its bound. */
  lemma {:induction false} FollowStaysHome(call: Call, cached: Option<CacheRecord>, method_: Method, url: Url,
                                           hasBody: bool, redirects: nat)
    requires call.target.origin.Some? && url.origin == call.target.origin && redirects <= call.maxRedirects
    ensures StaysHome(Follow(call, cached, method_, url, hasBody, redirects), call.target.origin,
                      call.maxRedirects + 1 - redirects)
    decreases call.maxRedirects - redirects
  {
    if call.replies(redirects).Some? && redirects < call.maxRedirects {
      var reply := call.replies(redirects).value;
      if RedirectStatus(reply.status) && reply.location.To? && reply.location.url.origin == call.target.origin {
        var get := SwitchesToGet(reply.status, method_);
        FollowStaysHome(call, cached, if get then Get else method_, reply.location.url, !get && hasBody, redirects + 1);
        PrependStaysHome(Conditional(method_, url, hasBody, cached),
                         Follow(call, cached, if get then Get else method_, reply.location.url, !get && hasBody,
                                redirects + 1),
                         call.target.origin, call.maxRedirects - redirects);
      }
    }
  }

  /** What a lookup may hand to the call: nothing, or a sound record of its key from its own origin. */
  ghost predicate FoundOk(call: Call, cached: Option<CacheRecord>, accepts: (string, Body) -> bool,
                          home: string -> string)
  {
    cached.Some? ==>
      call.key != "" && RecordOk(call.key, cached.value, accepts, home) && Usable(cached.value, call.target)
  }

  /** What a call returns: a success from its origin, with a body that it accepts or that its key vouches for. */
  ghost predicate ResultOk(call: Call, result: Result<Response, Failure>, accepts: (string, Body) -> bool) {
    result.Ok? ==>
      && (call.validate(result.value.body) || (call.key != "" && accepts(call.key, result.value.body)))
      && Success(result.value.status) && call.target.origin.Some?
      && result.value.finalURL.origin == call.target.origin
  }

  ghost predicate OutcomeOk(call: Call, o: Outcome, accepts: (string, Body) -> bool, home: string -> string) {
    && CacheOk(o.records, accepts, home) && ResultOk(call, o.result, accepts)
    && |o.sent| <= call.maxRedirects + 1 && AllHome(o.sent, call.target.origin)
  }

  lemma LookupOk(records: Records, call: Call, accepts: (string, Body) -> bool, home: string -> string)
    requires CacheOk(records, accepts, home)
    ensures CacheOk(AfterLookup(records, call), accepts, home)
    ensures FoundOk(call, Cached(records, call), accepts, home)
  {
  }

  lemma ReplyKeeps(records: Records, call: Call, cached: Option<CacheRecord>, reply: Reply, url: Url, method_: Method,
                   accepts: (string, Body) -> bool, home: string -> string)
    requires CacheOk(records, accepts, home) && Vouches(call, accepts, home)
    requires FoundOk(call, cached, accepts, home)
    requires call.target.origin.Some? && url.origin == call.target.origin
    ensures var (after, result) := OnReply(records, call, cached, reply, url, method_);
            CacheOk(after, accepts, home) && ResultOk(call, result, accepts)
  {
  }

  /** Settling a call keeps the cache sound, whatever others have done to it since the lookup. */
  lemma FinishKeeps(kept: Records, call: Call, cached: Option<CacheRecord>,
                    accepts: (string, Body) -> bool, home: string -> string)
    requires CacheOk(kept, accepts, home) && Vouches(call, accepts, home) && FoundOk(call, cached, accepts, home)
    ensures OutcomeOk(call, Finish(kept, call, cached), accepts, home)
  {
    if (cached.None? || cached.value.expiresAt <= call.lookedUp) && call.target.origin.Some? {
      var start := StartURL(call, cached);
      FollowStaysHome(call, cached, call.method_, start, call.hasBody, 0);
      var fetch := Follow(call, cached, call.method_, start, call.hasBody, 0);
      if fetch.Arrived? {
        ReplyKeeps(kept, call, cached, fetch.reply, fetch.url, fetch.method_, accepts, home);
      }
    }
  }

  // ----- Interleaved calls -----

  /** A call that has looked its key up and not settled yet. */
  datatype Pending = Pending(call: Call, cached: Option<CacheRecord>)

  datatype Shared = Shared(records: Records, pending: seq<Pending>)

  /**
   The cache operations of concurrent calls: the lookup reads the cache; a call that found a record
   it cannot use deletes it, at any time after; and a call settles with one last write or deletion, or
   is abandoned without any, when its context ends or the cache fails.
   */
  datatype Event = LookingUp(call: Call) | Dropping(i: nat) | Settling(i: nat) | Abandoning(i: nat)

  function Step(s: Shared, e: Event): Shared {
    match e
    case LookingUp(call) => s.(pending := s.pending + [Pending(call, Cached(s.records, call))])
    case Dropping(i) => if i < |s.pending| then s.(records := s.records - {s.pending[i].call.key}) else s
    case Settling(i) =>
      if i >= |s.pending| then s
      else Shared(Finish(s.records, s.pending[i].call, s.pending[i].cached).records,
                  s.pending[..i] + s.pending[i + 1..])
    case Abandoning(i) => if i < |s.pending| then s.(pending := s.pending[..i] + s.pending[i + 1..]) else s
  }

  /** The state after a run of events over an empty cache, whatever the servers answered. */
  function After(run: seq<Event>): Shared {
    if run == [] then Shared(map[], []) else Step(After(run[..|run| - 1]), run[|run| - 1])
  }

  /** A call that nothing else interrupts is its lookup, the drop of an unusable record, and its settlement. */
  lemma PerformIsUninterrupted(s: Shared, call: Call)
    requires s.pending == []
    ensures var found := Step(s, LookingUp(call));
            var unusable := call.key != "" && call.key in s.records && !Usable(s.records[call.key], call.target);
            Step(if unusable then Step(found, Dropping(0)) else found, Settling(0))
              == Shared(Perform(s.records, call).records, [])
  {
    assert Step(s, LookingUp(call)).pending == [Pending(call, Cached(s.records, call))];
  }

  /** The result of the call when it settles: it depends on what was found, not on the cache by then. */
  function Returned(p: Pending): Result<Response, Failure> {
    Finish(map[], p.call, p.cached).result
  }

  lemma ReturnedWhenever(records: Records, p: Pending)
    ensures Finish(records, p.call, p.cached).result == Returned(p)
  {
  }

  ghost predicate SharedOk(s: Shared, accepts: (string, Body) -> bool, home: string -> string) {
    && CacheOk(s.records, accepts, home)
    && forall p :: p in s.pending ==> Vouches(p.call, accepts, home) && FoundOk(p.call, p.cached, accepts, home)
  }

  lemma StepKeeps(s: Shared, e: Event, accepts: (string, Body) -> bool, home: string -> string)
    requires SharedOk(s, accepts, home) && (e.LookingUp? ==> Vouches(e.call, accepts, home))
    ensures SharedOk(Step(s, e), accepts, home)
  {
    match e
    case LookingUp(call) => LookupOk(s.records, call, accepts, home);
    case Dropping(_) =>
    case Abandoning(_) =>
    case Settling(i) =>
      if i < |s.pending| {
        assert s.pending[i] in s.pending;
        FinishKeeps(s.records, s.pending[i].call, s.pending[i].cached, accepts, home);
      }
  }

  /** Whatever calls overlap, every record stays sound, and so does what each pending call has found. */
  lemma {:induction false} RunKeeps(run: seq<Event>, accepts: (string, Body) -> bool, home: string -> string)
    requires forall k :: 0 <= k < |run| && run[k].LookingUp? ==> Vouches(run[k].call, accepts, home)
    ensures SharedOk(After(run), accepts, home)
    decreases |run|
  {
    if run != [] {
      RunKeeps(run[..|run| - 1], accepts, home);
      StepKeeps(After(run[..|run| - 1]), run[|run| - 1], accepts, home);
    }
  }

  lemma {:induction false} PendingCameIn(run: seq<Event>, i: nat)
    requires i < |After(run).pending|
    ensures exists k :: 0 <= k < |run| && run[k] == LookingUp(After(run).pending[i].call)
    decreases |run|
  {
    var n := |run| - 1;
    var before := After(run[..n]).pending;
    var p := After(run).pending[i];
    if p in before {
      var j :| 0 <= j < |before| && before[j] == p;
      PendingCameIn(run[..n], j);
      var k :| 0 <= k < n && run[..n][k] == LookingUp(p.call);
      assert run[k] == LookingUp(p.call);
    }
  }

  /**
   After any interleaving of disciplined calls over a cache that nothing else writes, every body that
   a call returns satisfies its validator, even where a 304 with an unsupported Vary returns the
   cached body without validating it; the status is a success and the final URL on the target's
   origin; and the call sends at most `maxRedirects + 1` requests, all to that origin.
   */
  lemma EveryReturnedBodyIsValid(run: seq<Event>, i: nat, accepts: (string, Body) -> bool, home: string -> string)
    requires forall k :: 0 <= k < |run| && run[k].LookingUp? ==> Disciplined(run[k].call, accepts, home)
    requires i < |After(run).pending|
    ensures var p := After(run).pending[i];
            var o := Finish(After(run).records, p.call, p.cached);
            && (o.result.Ok? ==> p.call.validate(o.result.value.body) && Success(o.result.value.status)
                                 && p.call.target.origin.Some?
                                 && o.result.value.finalURL.origin == p.call.target.origin)
            && |o.sent| <= p.call.maxRedirects + 1
            && AllHome(o.sent, p.call.target.origin)
  {
    RunKeeps(run, accepts, home);
    PendingCameIn(run, i);
    var p := After(run).pending[i];
    assert p in After(run).pending;
    FinishKeeps(After(run).records, p.call, p.cached, accepts, home);
  }

  // ----- Without the discipline -----

  /** A call in the run with this key accepts the body. */
  ghost predicate AcceptedBySome(run: seq<Event>, key: string, body: Body) {
    exists k :: 0 <= k < |run| && run[k].LookingUp? && run[k].call.key == key && run[k].call.validate(body)
  }

  /**
   Without any discipline of validators, a body that a call returns and its own validator rejects was
   accepted by another call under the same key: two validators that disagree on it share a key.
   */
  lemma RejectedMeansClash(run: seq<Event>, i: nat, home: string -> string)
    requires forall k :: 0 <= k < |run| && run[k].LookingUp? ==> Homed(run[k].call, home)
    requires i < |After(run).pending|
    ensures var p := After(run).pending[i];
            Returned(p).Ok? && !p.call.validate(Returned(p).value.body) ==>
              p.call.key != "" && AcceptedBySome(run, p.call.key, Returned(p).value.body)
  {
    var accepts := (key, body) => AcceptedBySome(run, key, body);
    forall k | 0 <= k < |run| && run[k].LookingUp? ensures Vouches(run[k].call, accepts, home) {
    }
    RunKeeps(run, accepts, home);
    var p := After(run).pending[i];
    assert p in After(run).pending;
    FinishKeeps(After(run).records, p.call, p.cached, accepts, home);
    ReturnedWhenever(After(run).records, p);
  }

  /** The one path that skips the check: a stale record, confirmed by a 304 with an unsupported Vary. */
  ghost predicate ServesUnchecked(call: Call, cached: Option<CacheRecord>) {
    && cached.Some? && cached.value.expiresAt <= call.lookedUp && call.target.origin.Some?
    && var fetch := Follow(call, cached, call.method_, StartURL(call, cached), call.hasBody, 0);
       && fetch.Arrived? && fetch.reply.status == 304 && ConsumeError(fetch.reply, call.maximumBytes).None?
       && (fetch.reply.header.etag == "" || fetch.reply.header.etag == cached.value.etag)
       && !fetch.reply.header.supportedVary
  }

  /** A call returns a body that its validator rejects exactly on that path, when the record's body is rejected. */
  lemma RejectedExactly(records: Records, call: Call)
    ensures var o := Perform(records, call);
            var cached := Cached(records, call);
            o.result.Ok? && !call.validate(o.result.value.body) <==>
            ServesUnchecked(call, cached) && !call.validate(cached.value.body)
    ensures var o := Perform(records, call);
            ServesUnchecked(call, Cached(records, call)) ==>
              o.result.Ok? && o.result.value.body == Cached(records, call).value.body
  {
  }

  const PLAIN := Header(false, true, Absent, 0, Missing, true, "", "")

  /** A call that gets one reply. */
  function OneReply(url: Url, key: string, validate: Body -> bool, maximumBytes: int, reply: Reply, now: Time): Call {
    Call(Get, url, false, 1, maximumBytes, key, 0, validate, (k: nat) => Some(reply), now, now)
  }

  function PlainRecord(url: Url, body: Body): CacheRecord {
    CacheRecord(body, "", 0, Some(url), "", 200, Some(0))
  }

  lemma StoredByFirst(url: Url, key: string, validate: Body -> bool, body: Body)
    requires url.origin.Some? && key != "" && validate(body)
    ensures var reply := Reply(200, Omitted, PLAIN, body, -1, true, true);
            Perform(map[], OneReply(url, key, validate, |body|, reply, 0)).records == map[key := PlainRecord(url, body)]
  {
    var reply := Reply(200, Omitted, PLAIN, body, -1, true, true);
    var call := OneReply(url, key, validate, |body|, reply, 0);
    PerformWithoutHit(map[], call);
    assert Follow(call, None, Get, url, false, 0) == Arrived(reply, url, Get, [Conditional(Get, url, false, None)]);
  }

  lemma ServedToSecond(url: Url, key: string, validate: Body -> bool, body: Body)
    requires url.origin.Some? && key != ""
    ensures var reply := Reply(304, Omitted, PLAIN.(supportedVary := false), [], -1, true, true);
            Perform(map[key := PlainRecord(url, body)], OneReply(url, key, validate, 0, reply, 1)).result ==
            Ok(Response(body, url, Revalidated, 200))
  {
    var record := PlainRecord(url, body);
    var reply := Reply(304, Omitted, PLAIN.(supportedVary := false), [], -1, true, true);
    var call := OneReply(url, key, validate, 0, reply, 1);
    PerformWithoutHit(map[key := record], call);
    assert Follow(call, Some(record), Get, url, false, 0).reply == reply;
  }

  /** Two calls with these validators, one after the other, the second of which returns a body it rejects. */
  ghost predicate Clash(a: Body -> bool, b: Body -> bool, url: Url, key: string, first: Call, second: Call) {
    && first.key == second.key == key && first.target == second.target == url
    && first.validate == a && second.validate == b
    && var o := Perform(Perform(map[], first).records, second);
       o.result.Ok? && !second.validate(o.result.value.body)
  }

  /**
   A key is safe for two validators exactly when the second accepts all that the first accepts: any
   body on which they differ can be handed over to a call that rejects it.
   */
  lemma SharedKeyExactly(a: Body -> bool, b: Body -> bool, url: Url, key: string)
    requires url.origin.Some? && key != ""
    ensures (exists first: Call, second: Call :: Clash(a, b, url, key, first, second)) <==>
            (exists body :: a(body) && !b(body))
  {
    if first: Call, second: Call :| Clash(a, b, url, key, first, second) {
      var records := Perform(map[], first).records;
      FinishKeeps(map[], first, None, (k, body) => a(body), k => url.origin.value);
      LookupOk(records, second, (k, body) => a(body), k => url.origin.value);
      RejectedExactly(records, second);
    }
    if body :| a(body) && !b(body) {
      var first := OneReply(url, key, a, |body|, Reply(200, Omitted, PLAIN, body, -1, true, true), 0);
      var notModified := Reply(304, Omitted, PLAIN.(supportedVary := false), [], -1, true, true);
      var second := OneReply(url, key, b, 0, notModified, 1);
      StoredByFirst(url, key, a, body);
      ServedToSecond(url, key, b, body);
      assert Clash(a, b, url, key, first, second);
    }
  }

  // ----- Freshness over runs -----

  /** A call touches no record but that of its own key. */
  lemma OtherKeysUntouched(records: Records, call: Call, key: string)
    requires key != call.key
    ensures var after := Perform(records, call).records;
            (key in after <==> key in records) && (key in records ==> after[key] == records[key])
  {
  }

  /** A fresh hit happens only strictly before the record's expiry, and sends nothing. */
  lemma FreshOnlyBeforeExpiry(records: Records, call: Call)
    ensures var o := Perform(records, call);
            o.result.Ok? && o.result.value.freshness == Fresh ==>
              && call.key in records && call.lookedUp < records[call.key].expiresAt
              && o.sent == [] && o.result.value.body == records[call.key].body
  {
  }

  /** The last reply that a call consumed, when it went online. */
  function Consumed(records: Records, call: Call): Option<Reply> {
    var cached := Cached(records, call);
    if (cached.Some? && call.lookedUp < cached.value.expiresAt) || call.target.origin.None? then None
    else
      match Follow(call, cached, call.method_, StartURL(call, cached), call.hasBody, 0)
      case Stopped(_, _) => None
      case Arrived(reply, _, _, _) => Some(reply)
  }

  /** The records after calls that follow one another. */
  function AfterCalls(records: Records, run: seq<Call>): Records {
    if run == [] then records else Perform(AfterCalls(records, run[..|run| - 1]), run[|run| - 1]).records
  }

  /** A call to another key, one that consumes no reply (a fresh hit, a failed fetch), or one that ends in an error. */
  ghost predicate Quiet(records: Records, call: Call, key: string) {
    call.key != key || Consumed(records, call).None? || Perform(records, call).result.Err?
  }

  /** Such a call leaves the record of the key as it is, or deletes it. */
  lemma QuietKeeps(records: Records, call: Call, key: string)
    requires Quiet(records, call, key)
    ensures var after := Perform(records, call).records;
            key in after ==> key in records && after[key] == records[key]
  {
    if call.key != key {
      OtherKeysUntouched(records, call, key);
    }
  }

  ghost predicate AllQuiet(records: Records, key: string, run: seq<Call>)
    decreases |run|
  {
    run == [] || var n := |run| - 1;
                 && AllQuiet(records, key, run[..n])
                 && Quiet(AfterCalls(records, run[..n]), run[n], key)
  }

  lemma {:induction false} AllQuietKeeps(records: Records, key: string, run: seq<Call>)
    requires AllQuiet(records, key, run)
    ensures var after := AfterCalls(records, run);
            key in after ==> key in records && after[key] == records[key]
    decreases |run|
  {
    if run != [] {
      var n := |run| - 1;
      AllQuietKeeps(records, key, run[..n]);
      QuietKeeps(AfterCalls(records, run[..n]), run[n], key);
    }
  }

  /** What a reply with no-store or no-cache leaves behind has expired by the time it was answered. */
  lemma NoCacheLeavesStale(records: Records, call: Call)
    requires var reply := Consumed(records, call);
             reply.Some? && Revalidates(reply.value.header)
    requires call.lookedUp <= call.answered
    ensures var o := Perform(records, call);
            && (call.key != "" && call.key in o.records ==> o.records[call.key].expiresAt <= call.answered)
            && (Consumed(records, call).value.header.noStore && o.result.Ok? && call.key != "" ==>
                  call.key !in o.records)
  {
    PerformWithoutHit(records, call);
  }

  /**
   A reply with no-store or no-cache, whether the call succeeds or not, is followed by no fresh hit
   until another call has stored a response: calls to other keys, failures and lookups do not bring
   one about. A success with no-store leaves no record at all.
   */
  lemma NoFreshHitAfterNoCache(records: Records, call: Call, between: seq<Call>, later: Call)
    requires var reply := Consumed(records, call);
             reply.Some? && Revalidates(reply.value.header)
    requires call.lookedUp <= call.answered <= later.lookedUp
    requires AllQuiet(Perform(records, call).records, call.key, between) && later.key == call.key
    ensures var after := AfterCalls(Perform(records, call).records, between);
            && (Consumed(records, call).value.header.noStore && Perform(records, call).result.Ok? && call.key != "" ==>
                  call.key !in after)
            && var o := Perform(after, later);
               o.result.Ok? ==> o.result.value.freshness != Fresh
  {
    NoCacheLeavesStale(records, call);
    AllQuietKeeps(Perform(records, call).records, call.key, between);
    FreshOnlyBeforeExpiry(AfterCalls(Perform(records, call).records, between), later);
  }

  /** A 304 without freshness headers starts the record's lifetime again, and keeps its length. */
  lemma RevalidationKeepsLifetime(record: CacheRecord, header: Header, url: Url, fallback: Duration, now: Time)
    requires !HasFreshnessDirective(header)
    ensures var after := Refreshed(record, header, url, fallback, now);
            && Lifetime(after) == Lifetime(record)
            && after.storedAt == Some(now) && after.expiresAt == now + Lifetime(record)
            && after.body == record.body && after.status == record.status
  {
  }

  /** The call finds its record stale and a 304 without freshness headers confirms it. */
  ghost predicate Confirms(records: Records, call: Call) {
    var cached := Cached(records, call);
    var reply := Consumed(records, call);
    && cached.Some? && reply.Some?
    && reply.value.status == 304 && ConsumeError(reply.value, call.maximumBytes).None?
    && (reply.value.header.etag == "" || reply.value.header.etag == cached.value.etag)
    && reply.value.header.supportedVary && !HasFreshnessDirective(reply.value.header)
    && call.validate(cached.value.body)
  }

  /** Every call of the run either confirms the record of the key or is quiet about it. */
  ghost predicate NoneStores(records: Records, key: string, run: seq<Call>)
    decreases |run|
  {
    run == [] || var n := |run| - 1;
                 && NoneStores(records, key, run[..n])
                 && (Confirming(AfterCalls(records, run[..n]), key, run[n])
                     || Quiet(AfterCalls(records, run[..n]), run[n], key))
  }

  ghost predicate Confirming(records: Records, key: string, call: Call) {
    call.key == key && Confirms(records, call)
  }

  /** When the record of the key was last confirmed, if it was at all. */
  ghost function LastConfirmed(records: Records, key: string, run: seq<Call>): Option<Time>
    decreases |run|
  {
    if run == [] then None
    else
      var n := |run| - 1;
      if Confirming(AfterCalls(records, run[..n]), key, run[n]) then Some(run[n].answered)
      else LastConfirmed(records, key, run[..n])
  }

  lemma ConfirmationRestartsLifetime(records: Records, call: Call)
    requires Confirms(records, call)
    ensures var after := Perform(records, call).records;
            && call.key in records && call.key in after
            && Lifetime(after[call.key]) == Lifetime(records[call.key])
            && after[call.key].expiresAt == call.answered + Lifetime(records[call.key])
            && after[call.key].body == records[call.key].body
  {
    PerformWithoutHit(records, call);
    var cached := Cached(records, call);
    var fetch := Follow(call, cached, call.method_, StartURL(call, cached), call.hasBody, 0);
    RevalidationKeepsLifetime(records[call.key], fetch.reply.header, fetch.url, call.fallback, call.answered);
  }

  /** The record as it was, with its lifetime running from the last confirmation. */
  ghost predicate SameLifetime(before: CacheRecord, after: CacheRecord, confirmed: Option<Time>) {
    && Lifetime(after) == Lifetime(before) && after.body == before.body
    && after.expiresAt == if confirmed.None? then before.expiresAt else confirmed.value + Lifetime(before)
  }

  /**
   However often a record is confirmed by 304s without freshness headers, and whatever calls to other
   keys, fresh hits and failures come in between, it keeps the lifetime it was first stored with: a
   later lookup can find it fresh only strictly within that lifetime after the last confirmation.
   */
  lemma {:induction false} LifetimeSurvivesConfirmations(records: Records, key: string, run: seq<Call>, later: Call)
    requires NoneStores(records, key, run)
    ensures var after := AfterCalls(records, run);
            && (key in after ==>
                  key in records && SameLifetime(records[key], after[key], LastConfirmed(records, key, run)))
            && var o := Perform(after, later);
               later.key == key && o.result.Ok? && o.result.value.freshness == Fresh ==>
                 && key in after
                 && (LastConfirmed(records, key, run).Some? ==>
                       later.lookedUp < LastConfirmed(records, key, run).value + Lifetime(records[key]))
    decreases |run|
  {
    if run != [] {
      var n := |run| - 1;
      var before := AfterCalls(records, run[..n]);
      LifetimeSurvivesConfirmations(records, key, run[..n], later);
      if Confirming(before, key, run[n]) {
        ConfirmationRestartsLifetime(before, run[n]);
      } else {
        QuietKeeps(before, run[n], key);
      }
    }
    FreshOnlyBeforeExpiry(AfterCalls(records, run), later);
  }

  /** The record that a reply with no-cache leaves behind, if any, has no lifetime left. */
  lemma NoCacheLeavesNoLifetime(records: Records, call: Call)
    requires var reply := Consumed(records, call);
             reply.Some? && Revalidates(reply.value.header)
    requires Perform(records, call).result.Ok?
    ensures var after := Perform(records, call).records;
            call.key != "" && call.key in after ==>
              Lifetime(after[call.key]) == 0 && after[call.key].expiresAt <= call.answered
  {
    PerformWithoutHit(records, call);
  }

  /** A record without a lifetime is not found fresh, however often it is confirmed. */
  lemma NoLifetimeNoHit(records: Records, key: string, between: seq<Call>, later: Call, at: Time)
    requires key != "" && key in records ==> Lifetime(records[key]) == 0 && records[key].expiresAt <= at
    requires NoneStores(records, key, between) && later.key == key
    requires var confirmed := LastConfirmed(records, key, between);
             (if confirmed.Some? then confirmed.value else at) <= later.lookedUp
    ensures var o := Perform(AfterCalls(records, between), later);
            o.result.Ok? ==> o.result.value.freshness != Fresh
  {
    var after := AfterCalls(records, between);
    LifetimeSurvivesConfirmations(records, key, between, later);
    FreshOnlyBeforeExpiry(after, later);
    NoKeyNoHit(after, later);
  }

  lemma NoKeyNoHit(records: Records, call: Call)
    ensures var o := Perform(records, call);
            o.result.Ok? && o.result.value.freshness == Fresh ==> call.key != ""
  {
  }

  /**
   After a success with no-store or no-cache the record stays stale however often 304s without
   freshness headers confirm it: only another response that is stored brings a fresh hit about.
   */
  lemma NoFreshHitAfterConfirmations(records: Records, call: Call, between: seq<Call>, later: Call)
    requires var reply := Consumed(records, call);
             reply.Some? && Revalidates(reply.value.header)
    requires Perform(records, call).result.Ok? && later.key == call.key
    requires NoneStores(Perform(records, call).records, call.key, between)
    requires var confirmed := LastConfirmed(Perform(records, call).records, call.key, between);
             (if confirmed.Some? then confirmed.value else call.answered) <= later.lookedUp
    ensures var o := Perform(AfterCalls(Perform(records, call).records, between), later);
            o.result.Ok? ==> o.result.value.freshness != Fresh
  {
    NoCacheLeavesNoLifetime(records, call);
    NoLifetimeNoHit(Perform(records, call).records, call.key, between, later, call.answered);
  }
}

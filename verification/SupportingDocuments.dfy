/**
 Supporting documents, agent/supporting.go: schemas and OpenAPI documents are fetched anonymously
 through the same kind of cache as a Service's own responses, under stricter redirect rules and
 looser revalidation.

 The cache key is the JSON text of a partition named after the resource class, the method and the
 target; `Setting.keyOf` stands for it, and the laws below assume that distinct classes or targets
 have distinct keys.
 */
module SupportingDocuments {
  import opened Wrappers
  import opened Freshness
  import opened MemoryCache
  import M = CacheMachine

  datatype Class = AttributeSchema | OpenApi

  function MaximumBytes(class_: Class): nat {
    if class_.OpenApi? then 1_048_576 else 262_144
  }

  function MaximumDepth(class_: Class): nat {
    if class_.OpenApi? then 32 else 16
  }

  predicate MediaTypeOk(class_: Class, mediaType: string) {
    if class_.OpenApi? then mediaType == "application/vnd.oai.openapi+json" || mediaType == "application/json"
    else mediaType == "application/schema+json"
  }

  /** What the surroundings supply: decoding, nesting depth, the cache key, and which addresses use HTTPS. */
  datatype Setting<!D> = Setting(decode: Body -> Option<D>, depth: Body -> nat, keyOf: (Class, Url) -> string,
                                 secure: Url -> bool)

  /** A media type that does not parse is the empty string; a body can fail to arrive. */
  datatype Reply = Reply(status: int, location: M.Location, header: Header, mediaType: string, body: Option<Body>)

  datatype Failure =
    | NotHttps
    | NoOrigin
    | Unreachable
    | TooManyRedirects
    | RedirectNotHttps
    | OriginChanged
    | ForeignValidator
    | HttpStatus(status: int)
    | UnsupportedMediaType
    | LimitExceeded
    | NotAnObject

  datatype Call = Call(class_: Class, target: Url, maxRedirects: nat, fallback: Duration,
                       replies: nat -> Option<Reply>, lookedUp: Time, answered: Time)

  // ----- The lookup -----

  predicate Usable(record: CacheRecord, target: Url) {
    record.finalURL.None? || record.finalURL.value.origin == target.origin
  }

  function Cached<D>(setting: Setting<D>, records: Records, call: Call): Option<CacheRecord> {
    var key := setting.keyOf(call.class_, call.target);
    if key in records && Usable(records[key], call.target) then Some(records[key]) else None
  }

  function AfterLookup<D>(setting: Setting<D>, records: Records, call: Call): Records {
    var key := setting.keyOf(call.class_, call.target);
    if key in records && !Usable(records[key], call.target) then records - {key} else records
  }

  // ----- The redirect loop -----

  datatype Fetch = Stopped(error: Failure, sent: seq<M.Sent>) | Arrived(reply: Reply, url: Url, sent: seq<M.Sent>)

  function Prepend(sent: seq<M.Sent>, fetch: Fetch): Fetch {
    fetch.(sent := sent + fetch.sent)
  }

  lemma PrependTwice(a: seq<M.Sent>, b: seq<M.Sent>, fetch: Fetch)
    ensures Prepend(a, Prepend(b, fetch)) == Prepend(a + b, fetch)
  {
    assert a + (b + fetch.sent) == a + b + fetch.sent;
  }

  /** Where a redirect leads, or why it is not followed; a missing Location leads back to the same address. */
  function Redirected<D>(setting: Setting<D>, call: Call, url: Url, location: M.Location): Result<Url, Failure> {
    var next := match location
      case Omitted => Some(url)
      case Unparsable => None
      case To(target) => Some(target);
    if next.None? || !setting.secure(next.value) then Err(RedirectNotHttps)
    else if next.value.origin.None? || next.value.origin != call.target.origin then Err(OriginChanged)
    else Ok(next.value)
  }

  function Follow<D>(setting: Setting<D>, call: Call, cached: Option<CacheRecord>, url: Url, redirects: nat): Fetch
    decreases call.maxRedirects + 1 - redirects
  {
    var sent := [M.Conditional(Get, url, false, cached)];
    if call.replies(redirects).None? then Stopped(Unreachable, sent)
    else
      var reply := call.replies(redirects).value;
      if !M.RedirectStatus(reply.status) then Arrived(reply, url, sent)
      else if redirects >= call.maxRedirects then Stopped(TooManyRedirects, sent)
      else
        match Redirected(setting, call, url, reply.location)
        case Err(e) => Stopped(e, sent)
        case Ok(next) => Prepend(sent, Follow(setting, call, cached, next, redirects + 1))
  }

  // ----- What a reply does to the cache -----

  datatype Outcome<D> = Outcome(records: Records, result: Result<D, Failure>, sent: seq<M.Sent>)

  function Decoded<D>(setting: Setting<D>, body: Body): Result<D, Failure> {
    match setting.decode(body) case Some(document) => Ok(document) case None => Err(NotAnObject)
  }

  function OnNotModified<D>(setting: Setting<D>, records: Records, call: Call, record: CacheRecord, reply: Reply,
                            url: Url): (Records, Result<D, Failure>)
  {
    var key := setting.keyOf(call.class_, call.target);
    if reply.header.etag != "" && reply.header.etag != record.etag then (records - {key}, Err(ForeignValidator))
    else if !reply.header.supportedVary || reply.header.noStore then (records - {key}, Decoded(setting, record.body))
    else (records[key := M.Refreshed(record, reply.header, url, call.fallback, call.answered)],
          Decoded(setting, record.body))
  }

  /** Why a successful reply is refused, if it is. */
  function Refusal<D>(setting: Setting<D>, class_: Class, reply: Reply): Option<Failure> {
    if !MediaTypeOk(class_, reply.mediaType) then Some(UnsupportedMediaType)
    else if reply.body.None? then Some(Unreachable)
    else if |reply.body.value| > MaximumBytes(class_) then Some(LimitExceeded)
    else if setting.depth(reply.body.value) > MaximumDepth(class_) then Some(LimitExceeded)
    else if setting.decode(reply.body.value).None? then Some(NotAnObject)
    else None
  }

  function Stored(call: Call, reply: Reply, url: Url): CacheRecord
    requires reply.body.Some?
  {
    CacheRecord(reply.body.value, reply.header.etag, Expiry(reply.header, call.fallback, call.answered), Some(url),
                reply.header.lastModified, reply.status, Some(call.answered))
  }

  function OnReply<D>(setting: Setting<D>, records: Records, call: Call, cached: Option<CacheRecord>, reply: Reply,
                      url: Url): (Records, Result<D, Failure>)
  {
    var key := setting.keyOf(call.class_, call.target);
    if reply.status == 304 && cached.Some? then OnNotModified(setting, records, call, cached.value, reply, url)
    else if !M.Success(reply.status) then (records, Err(HttpStatus(reply.status)))
    else if Refusal(setting, call.class_, reply).Some? then (records, Err(Refusal(setting, call.class_, reply).value))
    else
      (if Cacheable(Get, reply.header, call.fallback) then records[key := Stored(call, reply, url)]
       else records - {key},
       Decoded(setting, reply.body.value))
  }

  function Conclude<D>(setting: Setting<D>, kept: Records, call: Call, cached: Option<CacheRecord>, fetch: Fetch)
    : Outcome<D>
  {
    match fetch
    case Stopped(error, sent) => Outcome(kept, Err(error), sent)
    case Arrived(reply, url, sent) =>
      var (after, result) := OnReply(setting, kept, call, cached, reply, url);
      Outcome(after, result, sent)
  }

  /** A call that reaches the cache: its target uses HTTPS and has an origin. */
  predicate Admitted<D>(setting: Setting<D>, call: Call) {
    setting.secure(call.target) && call.target.origin.Some?
  }

  /** What follows the lookup that found `cached`: a fresh hit, or a fetch and its settlement. */
  function Finish<D>(setting: Setting<D>, kept: Records, call: Call, cached: Option<CacheRecord>): Outcome<D> {
    if cached.Some? && call.lookedUp < cached.value.expiresAt then
      var result := Decoded(setting, cached.value.body);
      Outcome(if result.Err? then kept - {setting.keyOf(call.class_, call.target)} else kept, result, [])
    else Conclude(setting, kept, call, cached, Follow(setting, call, cached, call.target, 0))
  }

  /** The whole call: what it leaves in the cache, what it returns, and what it sends. */
  function Perform<D>(setting: Setting<D>, records: Records, call: Call): Outcome<D> {
    if !setting.secure(call.target) then Outcome(records, Err(NotHttps), [])
    else if call.target.origin.None? then Outcome(records, Err(NoOrigin), [])
    else Finish(setting, AfterLookup(setting, records, call), call, Cached(setting, records, call))
  }

  // ----- The method -----

  method SupportingJson<D>(cache: Cache, setting: Setting<D>, call: Call)
    returns (result: Result<D, Failure>, sent: seq<M.Sent>)
    modifies cache
    ensures Outcome(cache.Contents(), result, sent) == Perform(setting, old(cache.Contents()), call)
  {
    if !setting.secure(call.target) {
      return Err(NotHttps), [];
    }
    if call.target.origin.None? {
      return Err(NoOrigin), [];
    }
    result, sent := SecureJson(cache, setting, call);
  }

  method SecureJson<D>(cache: Cache, setting: Setting<D>, call: Call)
    returns (result: Result<D, Failure>, sent: seq<M.Sent>)
    modifies cache
    ensures var before := old(cache.Contents());
            Outcome(cache.Contents(), result, sent)
              == Finish(setting, AfterLookup(setting, before, call), call, Cached(setting, before, call))
  {
    ghost var before := cache.Contents();
    var key := setting.keyOf(call.class_, call.target);
    var cached := LookUp(cache, setting, call);
    if cached.Some? && call.lookedUp < cached.value.expiresAt {
      result := Decoded(setting, cached.value.body);
      if result.Err? {
        cache.Delete(key);
      }
      return result, [];
    }
    var fetch := FollowRedirects(setting, call, cached);
    ghost var kept := cache.Contents();
    assert kept == AfterLookup(setting, before, call);
    assert Finish(setting, kept, call, cached) == Conclude(setting, kept, call, cached, fetch);
    result := Settle(cache, setting, call, cached, fetch);
    sent := fetch.sent;
    assert Outcome(cache.Contents(), result, fetch.sent) == Conclude(setting, kept, call, cached, fetch);
  }

  /** The cached record, unless it came from another origin. */
  method LookUp<D>(cache: Cache, setting: Setting<D>, call: Call) returns (cached: Option<CacheRecord>)
    modifies cache
    ensures cached == Cached(setting, old(cache.Contents()), call)
    ensures cache.Contents() == AfterLookup(setting, old(cache.Contents()), call)
  {
    var bytes;
    cached, bytes := cache.Get(setting.keyOf(call.class_, call.target));
    if cached.Some? && cached.value.finalURL.Some? && cached.value.finalURL.value.origin != call.target.origin {
      cache.Delete(setting.keyOf(call.class_, call.target));
      cached := None;
    }
  }

  method FollowRedirects<D>(setting: Setting<D>, call: Call, cached: Option<CacheRecord>) returns (fetch: Fetch)
    ensures fetch == Follow(setting, call, cached, call.target, 0)
  {
    var current, redirects := call.target, 0;
    var sent: seq<M.Sent> := [];
    ghost var all := Follow(setting, call, cached, call.target, 0);
    while true
      invariant redirects <= call.maxRedirects
      invariant all == Prepend(sent, Follow(setting, call, cached, current, redirects))
      decreases call.maxRedirects - redirects
    {
      ghost var before := sent;
      ghost var one := [M.Conditional(Get, current, false, cached)];
      sent := sent + [M.Conditional(Get, current, false, cached)];
      if call.replies(redirects).None? {
        return Stopped(Unreachable, sent);
      }
      var reply := call.replies(redirects).value;
      if !M.RedirectStatus(reply.status) {
        return Arrived(reply, current, sent);
      }
      if redirects >= call.maxRedirects {
        return Stopped(TooManyRedirects, sent);
      }
      var next := Redirected(setting, call, current, reply.location);
      if next.Err? {
        return Stopped(next.error, sent);
      }
      PrependTwice(before, one, Follow(setting, call, cached, next.value, redirects + 1));
      current := next.value;
      redirects := redirects + 1;
    }
  }

  method Settle<D>(cache: Cache, setting: Setting<D>, call: Call, cached: Option<CacheRecord>, fetch: Fetch)
    returns (result: Result<D, Failure>)
    modifies cache
    ensures Outcome(cache.Contents(), result, fetch.sent)
         == Conclude(setting, old(cache.Contents()), call, cached, fetch)
  {
    if fetch.Stopped? {
      return Err(fetch.error);
    }
    var reply, url := fetch.reply, fetch.url;
    if reply.status == 304 && cached.Some? {
      result := Revalidate(cache, setting, call, cached.value, reply, url);
      return;
    }
    if !M.Success(reply.status) {
      return Err(HttpStatus(reply.status));
    }
    var refusal := Refusal(setting, call.class_, reply);
    if refusal.Some? {
      return Err(refusal.value);
    }
    result := Decoded(setting, reply.body.value);
    if Cacheable(Get, reply.header, call.fallback) {
      Store(cache, setting.keyOf(call.class_, call.target), Stored(call, reply, url));
    } else {
      cache.Delete(setting.keyOf(call.class_, call.target));
    }
  }

  method Store(cache: Cache, key: string, record: CacheRecord)
    modifies cache
    ensures cache.Contents() == old(cache.Contents())[key := record]
  {
    var bytes := new bv8[|record.body|](i requires 0 <= i < |record.body| => record.body[i]);
    assert bytes[..] == record.body;
    cache.Set(key, record, bytes);
  }

  method Revalidate<D>(cache: Cache, setting: Setting<D>, call: Call, cached: CacheRecord, reply: Reply, url: Url)
    returns (result: Result<D, Failure>)
    modifies cache
    ensures (cache.Contents(), result) == OnNotModified(setting, old(cache.Contents()), call, cached, reply, url)
  {
    var key := setting.keyOf(call.class_, call.target);
    if reply.header.etag != "" && reply.header.etag != cached.etag {
      cache.Delete(key);
      return Err(ForeignValidator);
    }
    if !reply.header.supportedVary {
      cache.Delete(key);
      return Decoded(setting, cached.body);
    }
    if reply.header.noStore {
      cache.Delete(key);
      return Decoded(setting, cached.body);
    }
    ghost var kept := cache.Contents();
    var record := M.Refresh(cached, reply.header, url, call.fallback, call.answered);
    assert kept == cache.Contents() && record.body == cached.body;
    Store(cache, key, record);
    assert cache.Contents() == kept[key := record];
    return Decoded(setting, cached.body);
  }

  // ----- What holds over every run -----

  /** A call that has looked its document up and not settled yet. */
  datatype Pending = Pending(call: Call, cached: Option<CacheRecord>)

  datatype Shared = Shared(records: Records, pending: seq<Pending>)

  /**
   The cache operations of concurrent calls: the lookup reads the cache; a call that found a record
   it cannot use deletes it, at any time after; and a call settles with one last write or deletion, or
   is abandoned without any. The cache is shared: others write and delete records of their own.
   */
  datatype Event =
    | LookingUp(call: Call)
    | Dropping(i: nat)
    | Settling(i: nat)
    | Abandoning(i: nat)
    | Writing(key: string, record: Option<CacheRecord>)

  function Step<D>(setting: Setting<D>, s: Shared, e: Event): Shared {
    match e
    case LookingUp(call) =>
      if !Admitted(setting, call) then s
      else s.(pending := s.pending + [Pending(call, Cached(setting, s.records, call))])
    case Dropping(i) =>
      if i < |s.pending| then s.(records := s.records - {KeyOf(setting, s.pending[i].call)}) else s
    case Settling(i) =>
      if i >= |s.pending| then s
      else Shared(Finish(setting, s.records, s.pending[i].call, s.pending[i].cached).records,
                  s.pending[..i] + s.pending[i + 1..])
    case Abandoning(i) => if i < |s.pending| then s.(pending := s.pending[..i] + s.pending[i + 1..]) else s
    case Writing(key, record) =>
      s.(records := if record.Some? then s.records[key := record.value] else s.records - {key})
  }

  function KeyOf<D>(setting: Setting<D>, call: Call): string {
    setting.keyOf(call.class_, call.target)
  }

  /** The state after a run of events over an empty cache, whatever the servers answered. */
  function After<D>(setting: Setting<D>, run: seq<Event>): Shared {
    if run == [] then Shared(map[], []) else Step(setting, After(setting, run[..|run| - 1]), run[|run| - 1])
  }

  /** A call that nothing else interrupts is its lookup, the drop of an unusable record, and its settlement. */
  lemma PerformIsUninterrupted<D>(setting: Setting<D>, s: Shared, call: Call)
    requires s.pending == [] && Admitted(setting, call)
    ensures var found := Step(setting, s, LookingUp(call));
            var key := KeyOf(setting, call);
            var unusable := key in s.records && !Usable(s.records[key], call.target);
            Step(setting, if unusable then Step(setting, found, Dropping(0)) else found, Settling(0))
              == Shared(Perform(setting, s.records, call).records, [])
  {
    assert Step(setting, s, LookingUp(call)).pending == [Pending(call, Cached(setting, s.records, call))];
  }

  /** Distinct classes or targets have distinct keys. */
  ghost predicate NoCollision<D>(setting: Setting<D>) {
    forall a, b, s, t :: setting.keyOf(a, s) == setting.keyOf(b, t) ==> a == b && s == t
  }

  /** Others use keys of their own. */
  ghost predicate KeepsOut<D>(setting: Setting<D>, event: Event) {
    event.Writing? ==> forall class_, target :: setting.keyOf(class_, target) != event.key
  }

  /** A document that may be handed out for its class: it decodes and keeps to the limits of the class. */
  predicate Sound<D>(setting: Setting<D>, class_: Class, body: Body) {
    && setting.decode(body).Some? && |body| <= MaximumBytes(class_) && setting.depth(body) <= MaximumDepth(class_)
  }

  /** The reply that a call arrived at after this lookup, when it went online and was not stopped. */
  function ArrivedAt<D>(setting: Setting<D>, call: Call, cached: Option<CacheRecord>): Option<Reply> {
    if cached.Some? && call.lookedUp < cached.value.expiresAt then None
    else
      match Follow(setting, call, cached, call.target, 0)
      case Stopped(_, _) => None
      case Arrived(reply, _, _) => Some(reply)
  }

  /** The reply is a success of an accepted media type, with this body. */
  predicate Delivers(class_: Class, reply: Reply, body: Body) {
    M.Success(reply.status) && MediaTypeOk(class_, reply.mediaType) && reply.body == Some(body)
  }

  /** Event `k` settles a call for this class and this target that arrived, after its lookup, at the body. */
  ghost predicate Source<D>(setting: Setting<D>, run: seq<Event>, k: nat, class_: Class, target: Url, body: Body)
    requires k < |run|
  {
    var pending := After(setting, run[..k]).pending;
    && run[k].Settling? && run[k].i < |pending|
    && var p := pending[run[k].i];
       && p.call.class_ == class_ && p.call.target == target
       && var reply := ArrivedAt(setting, p.call, p.cached);
          reply.Some? && Delivers(class_, reply.value, body)
  }

  ghost predicate Genuine<D>(setting: Setting<D>, run: seq<Event>, class_: Class, target: Url, body: Body) {
    exists k :: 0 <= k < |run| && Source(setting, run, k, class_, target, body)
  }

  /** What a call arrives at is the answer to the last request that it sent. */
  lemma ArrivedIsAnswered<D>(setting: Setting<D>, kept: Records, call: Call, cached: Option<CacheRecord>)
    requires Admitted(setting, call)
    ensures var reply := ArrivedAt(setting, call, cached);
            var sent := Finish(setting, kept, call, cached).sent;
            reply.Some? ==> sent != [] && call.replies(|sent| - 1) == reply
  {
    FollowStaysHome(setting, call, cached, call.target, 0);
  }

  ghost predicate RecordOk<D>(setting: Setting<D>, run: seq<Event>, class_: Class, target: Url, record: CacheRecord) {
    && Sound(setting, class_, record.body) && Genuine(setting, run, class_, target, record.body)
    && M.Success(record.status)
    && record.finalURL.Some? && setting.secure(record.finalURL.value) && record.finalURL.value.origin == target.origin
  }

  ghost predicate CacheOk<D>(setting: Setting<D>, run: seq<Event>, records: Records) {
    forall class_, target :: setting.keyOf(class_, target) in records ==>
      RecordOk(setting, run, class_, target, records[setting.keyOf(class_, target)])
  }

  lemma RecordOkLater<D>(setting: Setting<D>, run: seq<Event>, e: Event, class_: Class, target: Url,
                         record: CacheRecord)
    requires RecordOk(setting, run, class_, target, record)
    ensures RecordOk(setting, run + [e], class_, target, record)
  {
    var k :| 0 <= k < |run| && Source(setting, run, k, class_, target, record.body);
    assert (run + [e])[k] == run[k] && (run + [e])[..k] == run[..k];
    assert Source(setting, run + [e], k, class_, target, record.body);
  }

  lemma CacheOkLater<D>(setting: Setting<D>, run: seq<Event>, e: Event, records: Records)
    requires CacheOk(setting, run, records)
    ensures CacheOk(setting, run + [e], records)
  {
    forall class_, target | setting.keyOf(class_, target) in records
      ensures RecordOk(setting, run + [e], class_, target, records[setting.keyOf(class_, target)])
    {
      RecordOkLater(setting, run, e, class_, target, records[setting.keyOf(class_, target)]);
    }
  }

  lemma StoreOk<D>(setting: Setting<D>, run: seq<Event>, records: Records, class_: Class, target: Url,
                   record: CacheRecord)
    requires NoCollision(setting) && CacheOk(setting, run, records) && RecordOk(setting, run, class_, target, record)
    ensures CacheOk(setting, run, records[setting.keyOf(class_, target) := record])
  {
  }

  lemma DropOk<D>(setting: Setting<D>, run: seq<Event>, records: Records, key: string)
    requires CacheOk(setting, run, records)
    ensures CacheOk(setting, run, records - {key})
  {
  }

  ghost predicate AllHome<D>(setting: Setting<D>, call: Call, sent: seq<M.Sent>) {
    forall k :: 0 <= k < |sent| ==> sent[k].url.origin == call.target.origin && setting.secure(sent[k].url)
  }

  /** A fetch that began with request number `first`: what it arrived at is the answer to its last request. */
  ghost predicate StaysHome<D>(setting: Setting<D>, call: Call, fetch: Fetch, first: nat, limit: nat) {
    && 1 <= |fetch.sent| <= limit && AllHome(setting, call, fetch.sent)
    && (fetch.Arrived? ==> fetch.url.origin == call.target.origin && setting.secure(fetch.url)
                           && call.replies(first + |fetch.sent| - 1) == Some(fetch.reply))
  }

  lemma {:induction false} FollowStaysHome<D>(setting: Setting<D>, call: Call, cached: Option<CacheRecord>, url: Url,
                                              redirects: nat)
    requires url.origin == call.target.origin && setting.secure(url) && redirects <= call.maxRedirects
    ensures StaysHome(setting, call, Follow(setting, call, cached, url, redirects), redirects,
                      call.maxRedirects + 1 - redirects)
    decreases call.maxRedirects - redirects
  {
    if call.replies(redirects).Some? && redirects < call.maxRedirects {
      var reply := call.replies(redirects).value;
      var next := Redirected(setting, call, url, reply.location);
      if M.RedirectStatus(reply.status) && next.Ok? {
        FollowStaysHome(setting, call, cached, next.value, redirects + 1);
      }
    }
  }

  /** A result is the decoding of a sound body that some call for the same class and target was delivered. */
  ghost predicate ResultOk<D>(setting: Setting<D>, run: seq<Event>, call: Call, result: Result<D, Failure>) {
    result.Ok? ==> exists body :: setting.decode(body) == Some(result.value) && Sound(setting, call.class_, body)
                                  && Genuine(setting, run, call.class_, call.target, body)
  }

  lemma RecordServes<D>(setting: Setting<D>, run: seq<Event>, call: Call, record: CacheRecord)
    requires RecordOk(setting, run, call.class_, call.target, record)
    ensures ResultOk(setting, run, call, Decoded(setting, record.body)) && Decoded(setting, record.body).Ok?
  {
  }

  lemma NotModifiedKeeps<D>(setting: Setting<D>, run: seq<Event>, records: Records, call: Call, record: CacheRecord,
                            reply: Reply, url: Url)
    requires NoCollision(setting) && CacheOk(setting, run, records)
    requires RecordOk(setting, run, call.class_, call.target, record)
    requires setting.secure(url) && url.origin == call.target.origin
    ensures var (after, result) := OnNotModified(setting, records, call, record, reply, url);
            CacheOk(setting, run, after) && ResultOk(setting, run, call, result)
  {
    var key := setting.keyOf(call.class_, call.target);
    var refreshed := M.Refreshed(record, reply.header, url, call.fallback, call.answered);
    DropOk(setting, run, records, key);
    RecordServes(setting, run, call, record);
    StoreOk(setting, run, records, call.class_, call.target, refreshed);
  }

  /** What a pending call has found is a sound record of its class and target. */
  ghost predicate PendingOk<D>(setting: Setting<D>, run: seq<Event>, p: Pending) {
    && Admitted(setting, p.call)
    && (p.cached.Some? ==> RecordOk(setting, run, p.call.class_, p.call.target, p.cached.value))
  }

  ghost predicate SharedOk<D>(setting: Setting<D>, run: seq<Event>, s: Shared) {
    CacheOk(setting, run, s.records) && forall p :: p in s.pending ==> PendingOk(setting, run, p)
  }

  lemma SharedOkLater<D>(setting: Setting<D>, run: seq<Event>, e: Event, s: Shared)
    requires SharedOk(setting, run, s)
    ensures SharedOk(setting, run + [e], s)
  {
    CacheOkLater(setting, run, e, s.records);
    forall p | p in s.pending ensures PendingOk(setting, run + [e], p) {
      if p.cached.Some? {
        RecordOkLater(setting, run, e, p.call.class_, p.call.target, p.cached.value);
      }
    }
  }

  /** The settlement itself, at the end of the run, is where a delivered body comes from. */
  lemma GenuineNow<D>(setting: Setting<D>, run: seq<Event>, i: nat, reply: Reply, body: Body)
    requires i < |After(setting, run).pending|
    requires var p := After(setting, run).pending[i];
             ArrivedAt(setting, p.call, p.cached) == Some(reply) && Delivers(p.call.class_, reply, body)
    ensures var call := After(setting, run).pending[i].call;
            Genuine(setting, run + [Settling(i)], call.class_, call.target, body)
  {
    var now, call := run + [Settling(i)], After(setting, run).pending[i].call;
    assert now[..|run|] == run;
    assert Source(setting, now, |run|, call.class_, call.target, body);
  }

  /** In a run that has the body's source, storing or dropping the reply keeps the cache sound. */
  lemma SuccessKeeps<D>(setting: Setting<D>, run: seq<Event>, records: Records, call: Call, reply: Reply, url: Url)
    requires NoCollision(setting) && CacheOk(setting, run, records)
    requires M.Success(reply.status) && Refusal(setting, call.class_, reply).None?
    requires Genuine(setting, run, call.class_, call.target, reply.body.value)
    requires setting.secure(url) && url.origin == call.target.origin
    ensures var (after, result) := OnReply(setting, records, call, None, reply, url);
            CacheOk(setting, run, after) && ResultOk(setting, run, call, result)
  {
    DropOk(setting, run, records, KeyOf(setting, call));
    StoreOk(setting, run, records, call.class_, call.target, Stored(call, reply, url));
  }

  ghost predicate OutcomeOk<D>(setting: Setting<D>, run: seq<Event>, call: Call, o: Outcome<D>) {
    && CacheOk(setting, run, o.records) && ResultOk(setting, run, call, o.result)
    && |o.sent| <= call.maxRedirects + 1 && AllHome(setting, call, o.sent)
  }

  lemma ReplyKeeps<D>(setting: Setting<D>, run: seq<Event>, i: nat, kept: Records, fetch: Fetch)
    requires NoCollision(setting) && CacheOk(setting, run + [Settling(i)], kept)
    requires i < |After(setting, run).pending|
    requires var p := After(setting, run).pending[i];
             && PendingOk(setting, run + [Settling(i)], p)
             && fetch.Arrived? && ArrivedAt(setting, p.call, p.cached) == Some(fetch.reply)
             && StaysHome(setting, p.call, fetch, 0, p.call.maxRedirects + 1)
    ensures var p := After(setting, run).pending[i];
            OutcomeOk(setting, run + [Settling(i)], p.call, Conclude(setting, kept, p.call, p.cached, fetch))
  {
    var p, reply := After(setting, run).pending[i], fetch.reply;
    if reply.status == 304 && p.cached.Some? {
      NotModifiedKeeps(setting, run + [Settling(i)], kept, p.call, p.cached.value, reply, fetch.url);
    } else if M.Success(reply.status) && Refusal(setting, p.call.class_, reply).None? {
      GenuineNow(setting, run, i, reply, reply.body.value);
      SuccessKeeps(setting, run + [Settling(i)], kept, p.call, reply, fetch.url);
    }
  }

  /** Settling keeps the cache sound, whatever happened to it since the lookup, and returns a genuine document. */
  lemma FinishKeeps<D>(setting: Setting<D>, run: seq<Event>, i: nat)
    requires NoCollision(setting) && SharedOk(setting, run, After(setting, run))
    requires i < |After(setting, run).pending|
    ensures var s := After(setting, run);
            var p := s.pending[i];
            OutcomeOk(setting, run + [Settling(i)], p.call, Finish(setting, s.records, p.call, p.cached))
  {
    var s, now := After(setting, run), run + [Settling(i)];
    var p := s.pending[i];
    assert p in s.pending;
    SharedOkLater(setting, run, Settling(i), s);
    if p.cached.Some? && p.call.lookedUp < p.cached.value.expiresAt {
      RecordServes(setting, now, p.call, p.cached.value);
    } else {
      FollowStaysHome(setting, p.call, p.cached, p.call.target, 0);
      var fetch := Follow(setting, p.call, p.cached, p.call.target, 0);
      if fetch.Arrived? {
        ReplyKeeps(setting, run, i, s.records, fetch);
      }
    }
  }

  lemma StepKeeps<D>(setting: Setting<D>, run: seq<Event>, e: Event)
    requires NoCollision(setting) && SharedOk(setting, run, After(setting, run)) && KeepsOut(setting, e)
    ensures SharedOk(setting, run + [e], Step(setting, After(setting, run), e))
  {
    var s := After(setting, run);
    SharedOkLater(setting, run, e, s);
    match e
    case LookingUp(_) =>
    case Abandoning(_) =>
    case Writing(_, _) =>
    case Dropping(i) =>
      if i < |s.pending| {
        DropOk(setting, run + [e], s.records, KeyOf(setting, s.pending[i].call));
      }
    case Settling(i) =>
      if i < |s.pending| {
        FinishKeeps(setting, run, i);
      }
  }

  /** Whatever calls overlap, every record stays genuine, and so does what each pending call has found. */
  lemma {:induction false} RunKeeps<D>(setting: Setting<D>, run: seq<Event>)
    requires NoCollision(setting) && forall k :: 0 <= k < |run| ==> KeepsOut(setting, run[k])
    ensures SharedOk(setting, run, After(setting, run))
    decreases |run|
  {
    if run != [] {
      var n := |run| - 1;
      RunKeeps(setting, run[..n]);
      assert run == run[..n] + [run[n]];
      StepKeeps(setting, run[..n], run[n]);
    }
  }

  /**
   After any interleaving of calls over a shared cache, a document that a pending call returns, fresh,
   revalidated or fetched, is the decoding of a body that a server delivered, as a success and in
   answer to a request that was sent, to a call for the same class and target, within the byte and
   depth limits of that class; and every request of the call uses HTTPS and stays on the target's
   origin.
   */
  lemma EveryDocumentIsGenuine<D>(setting: Setting<D>, run: seq<Event>, i: nat)
    requires NoCollision(setting) && forall k :: 0 <= k < |run| ==> KeepsOut(setting, run[k])
    requires i < |After(setting, run).pending|
    ensures var p := After(setting, run).pending[i];
            var o := Finish(setting, After(setting, run).records, p.call, p.cached);
            && ResultOk(setting, run + [Settling(i)], p.call, o.result)
            && |o.sent| <= p.call.maxRedirects + 1 && AllHome(setting, p.call, o.sent)
  {
    RunKeeps(setting, run);
    FinishKeeps(setting, run, i);
  }
}

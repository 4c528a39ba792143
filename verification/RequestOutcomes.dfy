/**
 What a call of agent/transport.go sends, returns and stores, told from the cached record, the replies
 and the requests: the requests are a chain of redirects, the last reply decides the result, and a
 response is stored when its header allows it.
 */
module RequestOutcomes {
  import opened Wrappers
  import opened Freshness
  import opened MemoryCache
  import opened CacheMachine

  // ----- The record found -----

  /** The record under the call's key, when the call can use it. */
  ghost predicate IsFound(records: Records, call: Call, found: Option<CacheRecord>) {
    var present := call.key != "" && call.key in records;
    match found
    case Some(record) =>
      && present && record == records[call.key]
      && (record.finalURL.Some? ==> call.target.origin.Some? && record.finalURL.value.origin == call.target.origin)
    case None =>
      present ==>
        && records[call.key].finalURL.Some?
        && (call.target.origin.None? || records[call.key].finalURL.value.origin != call.target.origin)
  }

  predicate IsFresh(call: Call, found: Option<CacheRecord>) {
    found.Some? && found.value.expiresAt > call.lookedUp
  }

  // ----- The requests -----

  predicate IsRedirect(reply: Reply) {
    || reply.status == 301 || reply.status == 302 || reply.status == 303
    || reply.status == 307 || reply.status == 308
  }

  /** The request carries the validators of the record found. */
  predicate Conditioned(found: Option<CacheRecord>, s: Sent) {
    match found
    case None => s.ifNoneMatch == "" && s.ifModifiedSince == ""
    case Some(record) => s.ifNoneMatch == record.etag && s.ifModifiedSince == record.lastModified
  }

  /** A call begins where the record found was last retrieved from, or at its target. */
  predicate BeginsAt(call: Call, found: Option<CacheRecord>, s: Sent) {
    && s.method_ == call.method_ && s.hasBody == call.hasBody && Conditioned(found, s)
    && (if found.Some? && found.value.finalURL.Some? then Some(s.url) == found.value.finalURL else s.url == call.target)
  }

  /** The request that follows a redirect, on the same origin. */
  predicate Redirected(call: Call, s: Sent, reply: Reply, next: Sent) {
    && IsRedirect(reply) && reply.location == To(next.url)
    && next.url.origin.Some? && next.url.origin == call.target.origin
    && next.ifNoneMatch == s.ifNoneMatch && next.ifModifiedSince == s.ifModifiedSince
    && if reply.status == 303 || (s.method_ == Post && (reply.status == 301 || reply.status == 302))
       then next.method_ == Get && !next.hasBody
       else next.method_ == s.method_ && next.hasBody == s.hasBody
  }

  /** Each request after the first follows the redirect that answered the one before; `first` answers the first. */
  ghost predicate Linked(call: Call, sent: seq<Sent>, first: nat) {
    forall k: nat :: k + 1 < |sent| ==> LinkedAt(call, sent, first, k)
  }

  ghost predicate LinkedAt(call: Call, sent: seq<Sent>, first: nat, k: nat)
    requires k + 1 < |sent|
  {
    call.replies(first + k).Some? && Redirected(call, sent[k], call.replies(first + k).value, sent[k + 1])
  }

  /** How a chain of requests ends: with a reply, or with a redirect or a request that leads nowhere. */
  ghost predicate EndsWith(call: Call, last: nat, end: Result<Reply, Failure>) {
    if call.replies(last).None? then end == Err(Unreachable)
    else
      var reply := call.replies(last).value;
      if !IsRedirect(reply) then end == Ok(reply)
      else if last >= call.maxRedirects then end == Err(TooManyRedirects)
      else
        match reply.location
        case Omitted => end == Err(LocationOmitted)
        case Unparsable => end == Err(LocationUnparsable)
        case To(url) => end == Err(OriginChanged) && (url.origin.None? || url.origin != call.target.origin)
  }

  /** What the redirect loop comes to. */
  function EndOf(fetch: Fetch): Result<Reply, Failure> {
    match fetch case Stopped(e, _) => Err(e) case Arrived(reply, _, _, _) => Ok(reply)
  }

  ghost predicate Walked(call: Call, fetch: Fetch, first: nat) {
    var n := |fetch.sent|;
    && 1 <= n && first + n <= call.maxRedirects + 1 && Linked(call, fetch.sent, first)
    && EndsWith(call, first + n - 1, EndOf(fetch))
    && (fetch.Arrived? ==> fetch.url == fetch.sent[n - 1].url && fetch.method_ == fetch.sent[n - 1].method_)
  }

  lemma LinkedPrepend(call: Call, one: Sent, rest: seq<Sent>, first: nat)
    requires rest != [] && Linked(call, rest, first + 1)
    requires call.replies(first).Some? && Redirected(call, one, call.replies(first).value, rest[0])
    ensures Linked(call, [one] + rest, first)
  {
    forall k: nat | k + 1 < |[one] + rest| ensures LinkedAt(call, [one] + rest, first, k) {
      if k > 0 {
        assert LinkedAt(call, rest, first + 1, k - 1);
      }
    }
  }

  /** One more request before a walk. */
  lemma WalkedPrepend(call: Call, one: Sent, rest: Fetch, first: nat)
    requires Walked(call, rest, first + 1)
    requires call.replies(first).Some? && Redirected(call, one, call.replies(first).value, rest.sent[0])
    ensures Walked(call, Prepend([one], rest), first) && Prepend([one], rest).sent[0] == one
  {
    LinkedPrepend(call, one, rest.sent, first);
    assert ([one] + rest.sent)[|rest.sent|] == rest.sent[|rest.sent| - 1];
  }

  predicate Follows(call: Call, reply: Reply) {
    && IsRedirect(reply) && reply.location.To? && reply.location.url.origin.Some?
    && reply.location.url.origin == call.target.origin
  }

  lemma StopsHere(call: Call, found: Option<CacheRecord>, method_: Method, url: Url, hasBody: bool, first: nat)
    requires first <= call.maxRedirects
    requires call.replies(first).Some? && first < call.maxRedirects ==> !Follows(call, call.replies(first).value)
    ensures var fetch := Follow(call, found, method_, url, hasBody, first);
            Walked(call, fetch, first) && fetch.sent == [Conditional(method_, url, hasBody, found)]
  {
  }

  lemma {:induction false} FollowWalks(call: Call, found: Option<CacheRecord>, method_: Method, url: Url,
                                       hasBody: bool, first: nat)
    requires first <= call.maxRedirects
    ensures var fetch := Follow(call, found, method_, url, hasBody, first);
            Walked(call, fetch, first) && fetch.sent[0] == Conditional(method_, url, hasBody, found)
    decreases call.maxRedirects - first
  {
    if call.replies(first).Some? && first < call.maxRedirects && Follows(call, call.replies(first).value) {
      var reply := call.replies(first).value;
      var get := SwitchesToGet(reply.status, method_);
      var rest := Follow(call, found, if get then Get else method_, reply.location.url, !get && hasBody, first + 1);
      FollowWalks(call, found, if get then Get else method_, reply.location.url, !get && hasBody, first + 1);
      WalkedPrepend(call, Conditional(method_, url, hasBody, found), rest, first);
    } else {
      StopsHere(call, found, method_, url, hasBody, first);
    }
  }

  // ----- What a call returns -----

  predicate WithinLimit(reply: Reply, limit: int) {
    reply.declared <= limit && |reply.body| <= limit
  }

  predicate IsSuccess(reply: Reply) {
    200 <= reply.status && reply.status < 300
  }

  /** A reply that can be read: a success may be as long as the call allows, anything else at most 16 KiB. */
  predicate Readable(call: Call, reply: Reply) {
    && WithinLimit(reply, call.maximumBytes) && reply.utf8
    && if IsSuccess(reply) then reply.odp else WithinLimit(reply, 16 * 1024)
  }

  /** Why a reply cannot be read. */
  function Unreadable(call: Call, reply: Reply): Failure {
    if !WithinLimit(reply, call.maximumBytes) || (!IsSuccess(reply) && !WithinLimit(reply, 16 * 1024))
    then LimitExceeded
    else if !reply.utf8 then NotUtf8
    else UnsupportedMediaType
  }

  /** The reply is a success with a body that the call accepts. */
  ghost predicate Delivers(call: Call, reply: Reply) {
    Readable(call, reply) && IsSuccess(reply) && call.validate(reply.body)
  }

  /** The reply confirms the record found, which is checked again unless the reply's Vary is unsupported. */
  ghost predicate Confirmed(call: Call, found: Option<CacheRecord>, reply: Reply) {
    && Readable(call, reply) && reply.status == 304 && found.Some?
    && (reply.header.etag == "" || reply.header.etag == found.value.etag)
    && (reply.header.supportedVary ==> call.validate(found.value.body))
  }

  /** Why a reply that is neither is an error. */
  function Refused(call: Call, found: Option<CacheRecord>, reply: Reply): Failure {
    if !Readable(call, reply) then Unreadable(call, reply)
    else if reply.status == 304 && found.None? then NothingToRevalidate
    else if reply.status == 304 && reply.header.etag != "" && reply.header.etag != found.value.etag
    then ForeignValidator
    else if reply.status == 304 || IsSuccess(reply) then Invalid
    else HttpStatus(reply.status)
  }

  /** What a call returns for the reply to its last request, at this URL. */
  ghost predicate Answered(call: Call, found: Option<CacheRecord>, reply: Reply, url: Url,
                           result: Result<Response, Failure>)
  {
    if Delivers(call, reply) then result == Ok(Response(reply.body, url, Fetched, reply.status))
    else if Confirmed(call, found, reply) then
      result == Ok(Response(found.value.body, url, Revalidated, found.value.status))
    else result == Err(Refused(call, found, reply))
  }

  /** The requests of a call that has to ask, from the first on. */
  ghost predicate Asked(call: Call, found: Option<CacheRecord>, sent: seq<Sent>, end: Result<Reply, Failure>) {
    && 1 <= |sent| <= call.maxRedirects + 1 && BeginsAt(call, found, sent[0]) && Linked(call, sent, 0)
    && EndsWith(call, |sent| - 1, end)
  }

  /** What the call sends and returns: nothing and a fresh record, or its requests and what they come to. */
  ghost predicate Returns(call: Call, found: Option<CacheRecord>, sent: seq<Sent>, result: Result<Response, Failure>) {
    if IsFresh(call, found) then
      && sent == []
      && var record := found.value;
         var url := if record.finalURL.Some? then record.finalURL.value else call.target;
         result == if call.validate(record.body) then Ok(Response(record.body, url, Fresh, record.status))
                   else Err(Invalid)
    else if call.target.origin.None? then sent == [] && result == Err(InvalidTarget)
    else
      exists end: Result<Reply, Failure> :: Asked(call, found, sent, end) &&
        match end
        case Err(e) => result == Err(e)
        case Ok(reply) => Answered(call, found, reply, sent[|sent| - 1].url, result)
  }

  lemma FoundIsCached(records: Records, call: Call)
    ensures IsFound(records, call, Cached(records, call))
    ensures forall found :: IsFound(records, call, found) ==> found == Cached(records, call)
  {
  }

  lemma ReplyAnswers(records: Records, call: Call, found: Option<CacheRecord>, reply: Reply, url: Url, method_: Method)
    requires !IsRedirect(reply)
    ensures Answered(call, found, reply, url, OnReply(records, call, found, reply, url, method_).1)
  {
  }

  lemma CallAsks(call: Call, found: Option<CacheRecord>)
    ensures var fetch := Follow(call, found, call.method_, StartURL(call, found), call.hasBody, 0);
            Asked(call, found, fetch.sent, EndOf(fetch)) && Walked(call, fetch, 0)
  {
    FollowWalks(call, found, call.method_, StartURL(call, found), call.hasBody, 0);
  }

  /** Every call sends and returns what its replies and the record found say. */
  lemma CallReturns(records: Records, call: Call, found: Option<CacheRecord>)
    requires IsFound(records, call, found)
    ensures var o := Perform(records, call); Returns(call, found, o.sent, o.result)
  {
    FoundIsCached(records, call);
    if !IsFresh(call, found) && call.target.origin.Some? {
      PerformWithoutHit(records, call);
      CallAsks(call, found);
      var fetch := Follow(call, found, call.method_, StartURL(call, found), call.hasBody, 0);
      if fetch.Arrived? {
        ReplyAnswers(AfterLookup(records, call), call, found, fetch.reply, fetch.url, fetch.method_);
      }
      assert Asked(call, found, fetch.sent, EndOf(fetch));
    }
  }

  // ----- One answer -----

  lemma {:induction false} ChainsAgree(call: Call, a: seq<Sent>, b: seq<Sent>, k: nat)
    requires Linked(call, a, 0) && Linked(call, b, 0) && k < |a| && k < |b| && a[0] == b[0]
    ensures a[k] == b[k]
  {
    if k > 0 {
      ChainsAgree(call, a, b, k - 1);
      assert LinkedAt(call, a, 0, k - 1) && LinkedAt(call, b, 0, k - 1);
    }
  }

  lemma NoLonger(call: Call, found: Option<CacheRecord>, a: seq<Sent>, x: Result<Reply, Failure>, b: seq<Sent>,
                 y: Result<Reply, Failure>)
    requires Asked(call, found, a, x) && Asked(call, found, b, y)
    ensures |b| <= |a|
  {
    if |a| < |b| {
      GoesOn(call, b, |a| - 1);
    }
  }

  lemma GoesOn(call: Call, sent: seq<Sent>, k: nat)
    requires Linked(call, sent, 0) && k + 1 < |sent|
    ensures call.replies(k).Some? && Follows(call, call.replies(k).value)
  {
    assert LinkedAt(call, sent, 0, k);
  }

  lemma AsksOnce(call: Call, found: Option<CacheRecord>, a: seq<Sent>, x: Result<Reply, Failure>, b: seq<Sent>,
                 y: Result<Reply, Failure>)
    requires Asked(call, found, a, x) && Asked(call, found, b, y)
    ensures a == b && x == y
  {
    NoLonger(call, found, a, x, b, y);
    NoLonger(call, found, b, y, a, x);
    forall k | 0 <= k < |a| ensures a[k] == b[k] {
      ChainsAgree(call, a, b, k);
    }
  }

  /** The replies and the record found leave one thing to send and one to return. */
  lemma ReturnsIsUnique(call: Call, found: Option<CacheRecord>, a: seq<Sent>, x: Result<Response, Failure>,
                        b: seq<Sent>, y: Result<Response, Failure>)
    requires Returns(call, found, a, x) && Returns(call, found, b, y)
    ensures a == b && x == y
  {
    if !IsFresh(call, found) && call.target.origin.Some? {
      var p: Result<Reply, Failure> :| Asked(call, found, a, p) &&
        match p case Err(e) => x == Err(e) case Ok(reply) => Answered(call, found, reply, a[|a| - 1].url, x);
      var q: Result<Reply, Failure> :| Asked(call, found, b, q) &&
        match q case Err(e) => y == Err(e) case Ok(reply) => Answered(call, found, reply, b[|b| - 1].url, y);
      AsksOnce(call, found, a, p, b, q);
    }
  }

  /** The reply to the last request, when there is one. */
  function LastReply(call: Call, sent: seq<Sent>): Option<Reply> {
    if sent == [] then None else call.replies(|sent| - 1)
  }

  /**
   A call succeeds exactly when the record found is fresh and accepted, or the reply to its last
   request is a readable success with an accepted body, or one that confirms the record found; and it
   returns the body and status of that record or reply, and the URL of the last request.
   */
  lemma SucceedsExactly(records: Records, call: Call, found: Option<CacheRecord>)
    requires IsFound(records, call, found)
    ensures var o := Perform(records, call);
            var reply := LastReply(call, o.sent);
            && (o.result.Ok? <==>
                  if IsFresh(call, found) then call.validate(found.value.body)
                  else reply.Some? && (Delivers(call, reply.value) || Confirmed(call, found, reply.value)))
            && (o.result.Ok? ==>
                  var r := o.result.value;
                  if IsFresh(call, found) then r.freshness == Fresh && r.body == found.value.body && o.sent == []
                  else
                    && r.finalURL == o.sent[|o.sent| - 1].url
                    && if Delivers(call, reply.value)
                       then r.freshness == Fetched && r.body == reply.value.body && r.status == reply.value.status
                       else r.freshness == Revalidated && r.body == found.value.body && r.status == found.value.status)
  {
    CallReturns(records, call, found);
  }

  // ----- What a call leaves in the cache -----

  /** When a response may be stored. */
  predicate MayStore(method_: Method, header: Header, fallback: Duration) {
    && (method_ == Get || method_ == Post) && fallback >= 0
    && header.supportedVary && !header.noStore
    && (header.maxAge != Absent || header.expires != Missing || (method_ == Get && (header.noCache || fallback > 0)))
  }

  /** When a response stored at `now` expires; a max-age beyond the range of a duration is left open. */
  ghost predicate Expires(header: Header, fallback: Duration, now: Time, at: Time) {
    if header.noStore || header.noCache then at == now
    else if header.maxAge.Seconds? then
      var left := if header.maxAge.seconds > header.age then header.maxAge.seconds - header.age else 0;
      left <= 9_223_372_036 ==> at == now + left * 1_000_000_000
    else if header.expires.At? then at == header.expires.time
    else at == now + fallback
  }

  ghost predicate StoredFrom(call: Call, reply: Reply, url: Url, record: CacheRecord) {
    && record.body == reply.body && record.status == reply.status
    && record.etag == reply.header.etag && record.lastModified == reply.header.lastModified
    && record.finalURL == Some(url) && record.storedAt == Some(call.answered)
    && Expires(reply.header, call.fallback, call.answered, record.expiresAt)
  }

  /** How long the record was to live when it was stored; a duration is at most 2^63 - 1 nanoseconds. */
  ghost predicate LivedFor(record: CacheRecord, lifetime: nat) {
    if record.storedAt.None? || record.expiresAt <= record.storedAt.value then lifetime == 0
    else
      var all := record.expiresAt - record.storedAt.value;
      lifetime == if all <= 9_223_372_036_854_775_807 then all else 9_223_372_036_854_775_807
  }

  /** The record found, after a reply has confirmed it at this URL. */
  ghost predicate RenewedBy(call: Call, found: CacheRecord, reply: Reply, url: Url, record: CacheRecord) {
    var header := reply.header;
    && record.body == found.body && record.status == found.status
    && record.etag == (if header.etag == "" then found.etag else header.etag)
    && record.lastModified == (if header.lastModified == "" then found.lastModified else header.lastModified)
    && record.finalURL == Some(url) && record.storedAt == Some(call.answered)
    && if header.noStore || header.noCache || header.maxAge != Absent || header.expires != Missing
       then Expires(header, call.fallback, call.answered, record.expiresAt)
       else exists lifetime: nat :: LivedFor(found, lifetime) && record.expiresAt == call.answered + lifetime
  }

  ghost predicate Unchanged(records: Records, after: Records, key: string) {
    (key in after <==> key in records) && (key in records ==> after[key] == records[key])
  }

  /** What becomes of the call's own record once its last request, `last`, has been answered. */
  ghost predicate Settled(call: Call, found: Option<CacheRecord>, reply: Reply, last: Sent, after: Records) {
    if Delivers(call, reply) then
      if MayStore(last.method_, reply.header, call.fallback)
      then call.key in after && StoredFrom(call, reply, last.url, after[call.key])
      else call.key !in after
    else if Confirmed(call, found, reply) && reply.header.supportedVary && !reply.header.noStore then
      call.key in after && RenewedBy(call, found.value, reply, last.url, after[call.key])
    else if found.Some? && Readable(call, reply) && reply.status == 304 then call.key !in after
    else Keeps(call, found, after)
  }

  /** The record found stays as it is; one that the call could not use is gone. */
  ghost predicate Keeps(call: Call, found: Option<CacheRecord>, after: Records) {
    (call.key in after <==> found.Some?) && (found.Some? ==> after[call.key] == found.value)
  }

  /** What a call leaves: other records as they were, and its own by the reply to its last request. */
  ghost predicate Leaves(records: Records, call: Call, found: Option<CacheRecord>, sent: seq<Sent>, after: Records) {
    && (forall key :: key != call.key || call.key == "" ==> Unchanged(records, after, key))
    && (call.key != "" ==>
          var reply := LastReply(call, sent);
          if IsFresh(call, found) && !call.validate(found.value.body) then call.key !in after
          else if reply.Some? then Settled(call, found, reply.value, sent[|sent| - 1], after)
          else Keeps(call, found, after))
  }

  lemma ReplySettles(records: Records, call: Call, found: Option<CacheRecord>, reply: Reply, last: Sent)
    requires call.key != "" && Keeps(call, found, records)
    ensures Settled(call, found, reply, last, OnReply(records, call, found, reply, last.url, last.method_).0)
  {
    if Confirmed(call, found, reply) {
      ConfirmationSettles(records, call, found, reply, last);
    } else if Delivers(call, reply) {
      DeliverySettles(records, call, found, reply, last);
    }
  }

  lemma DeliverySettles(records: Records, call: Call, found: Option<CacheRecord>, reply: Reply, last: Sent)
    requires call.key != "" && Delivers(call, reply)
    ensures Settled(call, found, reply, last, OnReply(records, call, found, reply, last.url, last.method_).0)
  {
  }

  lemma ConfirmationSettles(records: Records, call: Call, found: Option<CacheRecord>, reply: Reply, last: Sent)
    requires call.key != "" && Confirmed(call, found, reply)
    ensures Settled(call, found, reply, last, OnReply(records, call, found, reply, last.url, last.method_).0)
  {
    LifetimeIs(found.value);
    ExpiryIs(reply.header, call.fallback, call.answered);
  }

  lemma ExpiryIs(header: Header, fallback: Duration, now: Time)
    ensures Expires(header, fallback, now, Expiry(header, fallback, now))
  {
  }

  lemma LifetimeIs(record: CacheRecord)
    ensures LivedFor(record, Lifetime(record))
  {
  }

  /** A redirect is never a success, nor does it confirm anything. */
  lemma RedirectSettles(call: Call, found: Option<CacheRecord>, reply: Reply, last: Sent, after: Records)
    requires IsRedirect(reply) && Keeps(call, found, after)
    ensures Settled(call, found, reply, last, after)
  {
  }

  /** Every call leaves in the cache what its replies and the record found say. */
  lemma CallLeaves(records: Records, call: Call, found: Option<CacheRecord>)
    requires IsFound(records, call, found)
    ensures var o := Perform(records, call); Leaves(records, call, found, o.sent, o.records)
  {
    FoundIsCached(records, call);
    forall key | key != call.key || call.key == "" ensures Unchanged(records, Perform(records, call).records, key) {
      NothingElseChanges(records, call, key);
    }
    if call.key != "" && !IsFresh(call, found) && call.target.origin.Some? {
      OwnRecord(records, call, found);
    }
  }

  lemma NothingElseChanges(records: Records, call: Call, key: string)
    requires key != call.key || call.key == ""
    ensures Unchanged(records, Perform(records, call).records, key)
  {
    if key != call.key {
      OtherKeysUntouched(records, call, key);
    }
  }

  lemma OwnRecord(records: Records, call: Call, found: Option<CacheRecord>)
    requires IsFound(records, call, found) && found == Cached(records, call)
    requires call.key != "" && !IsFresh(call, found) && call.target.origin.Some?
    ensures var o := Perform(records, call);
            var reply := LastReply(call, o.sent);
            o.sent != [] && if reply.Some? then Settled(call, found, reply.value, o.sent[|o.sent| - 1], o.records)
                            else Keeps(call, found, o.records)
  {
    PerformWithoutHit(records, call);
    CallAsks(call, found);
    var fetch := Follow(call, found, call.method_, StartURL(call, found), call.hasBody, 0);
    var kept, last := AfterLookup(records, call), fetch.sent[|fetch.sent| - 1];
    match fetch
    case Arrived(reply, _, _, _) => ReplySettles(kept, call, found, reply, last);
    case Stopped(_, _) =>
      if call.replies(|fetch.sent| - 1).Some? {
        RedirectSettles(call, found, call.replies(|fetch.sent| - 1).value, last, kept);
      }
  }
}

/**
 What a call of agent/supporting.go sends, returns and stores, told from the cached record, the replies
 and the requests.
 */
module DocumentOutcomes {
  import opened Wrappers
  import opened Freshness
  import opened MemoryCache
  import opened SupportingDocuments
  import M = CacheMachine
  import R = RequestOutcomes

  /** The record of the call's document, when it did not come from another origin. */
  ghost predicate IsFound<D>(setting: Setting<D>, records: Records, call: Call, found: Option<CacheRecord>) {
    var key := setting.keyOf(call.class_, call.target);
    match found
    case Some(record) =>
      && key in records && record == records[key]
      && (record.finalURL.Some? ==> record.finalURL.value.origin == call.target.origin)
    case None =>
      key in records ==>
        records[key].finalURL.Some? && records[key].finalURL.value.origin != call.target.origin
  }

  predicate IsFresh(call: Call, found: Option<CacheRecord>) {
    found.Some? && found.value.expiresAt > call.lookedUp
  }

  // ----- The requests -----

  predicate IsRedirect(reply: Reply) {
    || reply.status == 301 || reply.status == 302 || reply.status == 303
    || reply.status == 307 || reply.status == 308
  }

  /** Every request is a GET for an HTTPS address, with the validators of the record found. */
  predicate IsRequest<D>(setting: Setting<D>, found: Option<CacheRecord>, s: M.Sent) {
    s.method_ == Get && !s.hasBody && R.Conditioned(found, s) && setting.secure(s.url)
  }

  /** Where a redirect points; one without a Location points back to where it came from. */
  ghost predicate PointsTo(from: Url, reply: Reply, to: Url) {
    reply.location == M.To(to) || (reply.location.Omitted? && to == from)
  }

  /** A redirect is followed to an HTTPS address on the target's origin. */
  ghost predicate Leads<D>(setting: Setting<D>, call: Call, from: Url, reply: Reply, to: Url) {
    && IsRedirect(reply) && PointsTo(from, reply, to) && setting.secure(to)
    && to.origin.Some? && to.origin == call.target.origin
  }

  ghost predicate LinkedAt<D>(setting: Setting<D>, call: Call, sent: seq<M.Sent>, first: nat, k: nat)
    requires k + 1 < |sent|
  {
    call.replies(first + k).Some? && Leads(setting, call, sent[k].url, call.replies(first + k).value, sent[k + 1].url)
  }

  /** The requests of a loop, the first of which is answered by the reply `first`. */
  ghost predicate Linked<D>(setting: Setting<D>, call: Call, found: Option<CacheRecord>, sent: seq<M.Sent>, first: nat)
  {
    && (forall k :: 0 <= k < |sent| ==> IsRequest(setting, found, sent[k]))
    && (forall k: nat :: k + 1 < |sent| ==> LinkedAt(setting, call, sent, first, k))
  }

  /** How a chain of requests ends: with a reply, or with a redirect or a request that leads nowhere. */
  ghost predicate EndsWith<D>(setting: Setting<D>, call: Call, from: Url, last: nat, end: Result<Reply, Failure>) {
    if call.replies(last).None? then end == Err(Unreachable)
    else
      var reply := call.replies(last).value;
      if !IsRedirect(reply) then end == Ok(reply)
      else if last >= call.maxRedirects then end == Err(TooManyRedirects)
      else if exists to :: PointsTo(from, reply, to) && setting.secure(to) then
        end == Err(OriginChanged) && !exists to :: Leads(setting, call, from, reply, to)
      else end == Err(RedirectNotHttps)
  }

  function EndOf(fetch: Fetch): Result<Reply, Failure> {
    match fetch case Stopped(e, _) => Err(e) case Arrived(reply, _, _) => Ok(reply)
  }

  ghost predicate Walked<D>(setting: Setting<D>, call: Call, found: Option<CacheRecord>, fetch: Fetch, first: nat) {
    var n := |fetch.sent|;
    && 1 <= n && first + n <= call.maxRedirects + 1 && Linked(setting, call, found, fetch.sent, first)
    && EndsWith(setting, call, fetch.sent[n - 1].url, first + n - 1, EndOf(fetch))
    && (fetch.Arrived? ==> fetch.url == fetch.sent[n - 1].url)
  }

  lemma WalkedPrepend<D>(setting: Setting<D>, call: Call, found: Option<CacheRecord>, one: M.Sent, rest: Fetch,
                         first: nat)
    requires Walked(setting, call, found, rest, first + 1) && IsRequest(setting, found, one)
    requires call.replies(first).Some? && Leads(setting, call, one.url, call.replies(first).value, rest.sent[0].url)
    ensures Walked(setting, call, found, Prepend([one], rest), first) && Prepend([one], rest).sent[0] == one
  {
    var all := [one] + rest.sent;
    assert all[|rest.sent|] == rest.sent[|rest.sent| - 1];
    forall k: nat | k + 1 < |all| ensures LinkedAt(setting, call, all, first, k) {
      if k > 0 {
        assert LinkedAt(setting, call, rest.sent, first + 1, k - 1);
      }
    }
  }

  lemma RedirectedExactly<D>(setting: Setting<D>, call: Call, from: Url, reply: Reply)
    requires IsRedirect(reply) && setting.secure(from)
    ensures var next := SupportingDocuments.Redirected(setting, call, from, reply.location);
            match next
            case Ok(to) => Leads(setting, call, from, reply, to)
            case Err(RedirectNotHttps) => forall to :: PointsTo(from, reply, to) ==> !setting.secure(to)
            case Err(e) => e == OriginChanged && (exists to :: PointsTo(from, reply, to) && setting.secure(to))
                           && forall to :: !Leads(setting, call, from, reply, to)
  {
    if reply.location.Omitted? {
      assert PointsTo(from, reply, from);
    } else if reply.location.To? {
      assert PointsTo(from, reply, reply.location.url);
    }
  }

  lemma {:induction false} FollowWalks<D>(setting: Setting<D>, call: Call, found: Option<CacheRecord>, url: Url,
                                          first: nat)
    requires first <= call.maxRedirects && setting.secure(url)
    ensures var fetch := Follow(setting, call, found, url, first);
            Walked(setting, call, found, fetch, first) && fetch.sent[0] == M.Conditional(Get, url, false, found)
    decreases call.maxRedirects - first
  {
    var one := M.Conditional(Get, url, false, found);
    if call.replies(first).Some? && IsRedirect(call.replies(first).value) && first < call.maxRedirects {
      var reply := call.replies(first).value;
      RedirectedExactly(setting, call, url, reply);
      var next := SupportingDocuments.Redirected(setting, call, url, reply.location);
      if next.Ok? {
        FollowWalks(setting, call, found, next.value, first + 1);
        WalkedPrepend(setting, call, found, one, Follow(setting, call, found, next.value, first + 1), first);
      }
    }
  }

  // ----- What a call returns -----

  /** The media types, bytes and nesting that a class of document allows. */
  predicate Fits<D>(setting: Setting<D>, class_: Class, reply: Reply) {
    match class_
    case AttributeSchema =>
      && reply.mediaType == "application/schema+json"
      && reply.body.Some? && |reply.body.value| <= 256 * 1024 && setting.depth(reply.body.value) <= 16
    case OpenApi =>
      && (reply.mediaType == "application/vnd.oai.openapi+json" || reply.mediaType == "application/json")
      && reply.body.Some? && |reply.body.value| <= 1024 * 1024 && setting.depth(reply.body.value) <= 32
  }

  predicate IsSuccess(reply: Reply) {
    200 <= reply.status && reply.status < 300
  }

  /** The reply brings a document of the call's class. */
  predicate Brings<D>(setting: Setting<D>, call: Call, reply: Reply) {
    IsSuccess(reply) && Fits(setting, call.class_, reply) && setting.decode(reply.body.value).Some?
  }

  /** The reply confirms the record found. */
  predicate Confirmed(found: Option<CacheRecord>, reply: Reply) {
    reply.status == 304 && found.Some? && (reply.header.etag == "" || reply.header.etag == found.value.etag)
  }

  ghost predicate Reads<D>(setting: Setting<D>, body: Body, result: Result<D, Failure>) {
    if setting.decode(body).Some? then result == Ok(setting.decode(body).value) else result == Err(NotAnObject)
  }

  /** What a call returns for the reply to its last request. */
  ghost predicate Answered<D>(setting: Setting<D>, call: Call, found: Option<CacheRecord>, reply: Reply,
                              result: Result<D, Failure>)
  {
    if Brings(setting, call, reply) then result == Ok(setting.decode(reply.body.value).value)
    else if Confirmed(found, reply) then Reads(setting, found.value.body, result)
    else if reply.status == 304 && found.Some? then result == Err(ForeignValidator)
    else if !IsSuccess(reply) then result == Err(HttpStatus(reply.status))
    else
      && result.Err?
      && (result.error == NotAnObject <==> Fits(setting, call.class_, reply))
      && (result.error == UnsupportedMediaType <==>
            if call.class_.OpenApi? then reply.mediaType !in {"application/vnd.oai.openapi+json", "application/json"}
            else reply.mediaType != "application/schema+json")
      && (result.error !in {NotAnObject, UnsupportedMediaType} ==>
            result.error == if reply.body.None? then Unreachable else LimitExceeded)
  }

  ghost predicate Asked<D>(setting: Setting<D>, call: Call, found: Option<CacheRecord>, sent: seq<M.Sent>,
                           end: Result<Reply, Failure>)
  {
    && 1 <= |sent| <= call.maxRedirects + 1 && sent[0].url == call.target && Linked(setting, call, found, sent, 0)
    && EndsWith(setting, call, sent[|sent| - 1].url, |sent| - 1, end)
  }

  /** What the call sends and returns: nothing and a fresh record, or its requests and what they come to. */
  ghost predicate Returns<D>(setting: Setting<D>, call: Call, found: Option<CacheRecord>, sent: seq<M.Sent>,
                             result: Result<D, Failure>)
  {
    if !setting.secure(call.target) then sent == [] && result == Err(NotHttps)
    else if call.target.origin.None? then sent == [] && result == Err(NoOrigin)
    else if IsFresh(call, found) then sent == [] && Reads(setting, found.value.body, result)
    else
      exists end: Result<Reply, Failure> :: Asked(setting, call, found, sent, end) &&
        match end
        case Err(e) => result == Err(e)
        case Ok(reply) => Answered(setting, call, found, reply, result)
  }

  lemma FoundIsCached<D>(setting: Setting<D>, records: Records, call: Call)
    ensures forall found :: IsFound(setting, records, call, found) <==> found == Cached(setting, records, call)
  {
  }

  lemma ReplyAnswers<D>(setting: Setting<D>, records: Records, call: Call, found: Option<CacheRecord>, reply: Reply,
                        url: Url)
    ensures Answered(setting, call, found, reply, OnReply(setting, records, call, found, reply, url).1)
  {
  }

  lemma CallAsks<D>(setting: Setting<D>, call: Call, found: Option<CacheRecord>)
    requires setting.secure(call.target)
    ensures var fetch := Follow(setting, call, found, call.target, 0);
            Asked(setting, call, found, fetch.sent, EndOf(fetch)) && Walked(setting, call, found, fetch, 0)
  {
    FollowWalks(setting, call, found, call.target, 0);
  }

  /** Every call sends and returns what its replies and the record found say. */
  lemma CallReturns<D>(setting: Setting<D>, records: Records, call: Call, found: Option<CacheRecord>)
    requires IsFound(setting, records, call, found)
    ensures var o := Perform(setting, records, call); Returns(setting, call, found, o.sent, o.result)
  {
    FoundIsCached(setting, records, call);
    if Admitted(setting, call) && !IsFresh(call, found) {
      CallAsks(setting, call, found);
      var fetch := Follow(setting, call, found, call.target, 0);
      if fetch.Arrived? {
        ReplyAnswers(setting, AfterLookup(setting, records, call), call, found, fetch.reply, fetch.url);
      }
      assert Asked(setting, call, found, fetch.sent, EndOf(fetch));
    }
  }

  /** The reply to the last request, when there is one. */
  function LastReply(call: Call, sent: seq<M.Sent>): Option<Reply> {
    if sent == [] then None else call.replies(|sent| - 1)
  }

  /**
   A call for an HTTPS address with an origin succeeds exactly when the record found is fresh, or the
   reply to its last request confirms it, and its body decodes, or when that reply brings a document
   of the class; and it returns the decoding of that body.
   */
  lemma SucceedsExactly<D>(setting: Setting<D>, records: Records, call: Call, found: Option<CacheRecord>)
    requires IsFound(setting, records, call, found) && setting.secure(call.target) && call.target.origin.Some?
    ensures var o := Perform(setting, records, call);
            var reply := LastReply(call, o.sent);
            && (o.result.Ok? <==>
                  || (found.Some? && setting.decode(found.value.body).Some?
                      && (IsFresh(call, found) || (reply.Some? && Confirmed(found, reply.value))))
                  || (!IsFresh(call, found) && reply.Some? && Brings(setting, call, reply.value)))
            && (o.result.Ok? ==>
                  if !IsFresh(call, found) && Brings(setting, call, reply.value)
                  then Some(o.result.value) == setting.decode(reply.value.body.value)
                  else Some(o.result.value) == setting.decode(found.value.body))
  {
    CallReturns(setting, records, call, found);
  }

  // ----- What a call leaves in the cache -----

  ghost predicate StoredFrom(call: Call, reply: Reply, url: Url, record: CacheRecord) {
    && Some(record.body) == reply.body && record.status == reply.status
    && record.etag == reply.header.etag && record.lastModified == reply.header.lastModified
    && record.finalURL == Some(url) && record.storedAt == Some(call.answered)
    && R.Expires(reply.header, call.fallback, call.answered, record.expiresAt)
  }

  /** The record found, after a reply has confirmed it at this URL. */
  ghost predicate RenewedBy(call: Call, found: CacheRecord, reply: Reply, url: Url, record: CacheRecord) {
    var header := reply.header;
    && record.body == found.body && record.status == found.status
    && record.etag == (if header.etag == "" then found.etag else header.etag)
    && record.lastModified == (if header.lastModified == "" then found.lastModified else header.lastModified)
    && record.finalURL == Some(url) && record.storedAt == Some(call.answered)
    && if header.noStore || header.noCache || header.maxAge != Absent || header.expires != Missing
       then R.Expires(header, call.fallback, call.answered, record.expiresAt)
       else exists lifetime: nat :: R.LivedFor(found, lifetime) && record.expiresAt == call.answered + lifetime
  }

  /** The record found stays as it is; one that the call could not use is gone. */
  ghost predicate Keeps(key: string, found: Option<CacheRecord>, after: Records) {
    (key in after <==> found.Some?) && (found.Some? ==> after[key] == found.value)
  }

  /** What becomes of the call's own record once its last request, at `url`, has been answered. */
  ghost predicate Settled<D>(setting: Setting<D>, call: Call, found: Option<CacheRecord>, reply: Reply, url: Url,
                             after: Records)
  {
    var key := setting.keyOf(call.class_, call.target);
    if Brings(setting, call, reply) then
      if R.MayStore(Get, reply.header, call.fallback) then key in after && StoredFrom(call, reply, url, after[key])
      else key !in after
    else if Confirmed(found, reply) && reply.header.supportedVary && !reply.header.noStore then
      key in after && RenewedBy(call, found.value, reply, url, after[key])
    else if found.Some? && reply.status == 304 then key !in after
    else Keeps(key, found, after)
  }

  /** What a call leaves: other records as they were, and its own by the reply to its last request. */
  ghost predicate Leaves<D>(setting: Setting<D>, records: Records, call: Call, found: Option<CacheRecord>,
                            sent: seq<M.Sent>, after: Records)
  {
    var own := setting.keyOf(call.class_, call.target);
    && (forall key :: key != own ==> R.Unchanged(records, after, key))
    && if !setting.secure(call.target) || call.target.origin.None? then after == records
       else if IsFresh(call, found) && setting.decode(found.value.body).None? then own !in after
       else
         var reply := LastReply(call, sent);
         if reply.Some? then Settled(setting, call, found, reply.value, sent[|sent| - 1].url, after)
         else Keeps(own, found, after)
  }

  lemma OtherKeysUntouched<D>(setting: Setting<D>, records: Records, call: Call, key: string)
    requires key != setting.keyOf(call.class_, call.target)
    ensures R.Unchanged(records, Perform(setting, records, call).records, key)
  {
  }

  lemma ReplySettles<D>(setting: Setting<D>, records: Records, call: Call, found: Option<CacheRecord>, reply: Reply,
                        url: Url)
    requires Keeps(setting.keyOf(call.class_, call.target), found, records)
    ensures Settled(setting, call, found, reply, url, OnReply(setting, records, call, found, reply, url).0)
  {
    R.ExpiryIs(reply.header, call.fallback, call.answered);
    if Confirmed(found, reply) {
      R.LifetimeIs(found.value);
    }
  }

  lemma OwnRecord<D>(setting: Setting<D>, records: Records, call: Call, found: Option<CacheRecord>)
    requires IsFound(setting, records, call, found) && found == Cached(setting, records, call)
    requires Admitted(setting, call) && !IsFresh(call, found)
    ensures var o := Perform(setting, records, call);
            var reply := LastReply(call, o.sent);
            && o.sent != []
            && if reply.Some? then Settled(setting, call, found, reply.value, o.sent[|o.sent| - 1].url, o.records)
               else Keeps(setting.keyOf(call.class_, call.target), found, o.records)
  {
    CallAsks(setting, call, found);
    var fetch := Follow(setting, call, found, call.target, 0);
    if fetch.Arrived? {
      ReplySettles(setting, AfterLookup(setting, records, call), call, found, fetch.reply, fetch.url);
    }
  }

  /** Every call leaves in the cache what its replies and the record found say. */
  lemma CallLeaves<D>(setting: Setting<D>, records: Records, call: Call, found: Option<CacheRecord>)
    requires IsFound(setting, records, call, found)
    ensures var o := Perform(setting, records, call); Leaves(setting, records, call, found, o.sent, o.records)
  {
    FoundIsCached(setting, records, call);
    var own := setting.keyOf(call.class_, call.target);
    forall key | key != own ensures R.Unchanged(records, Perform(setting, records, call).records, key) {
      OtherKeysUntouched(setting, records, call, key);
    }
    if Admitted(setting, call) && !IsFresh(call, found) {
      OwnRecord(setting, records, call, found);
    }
  }
}

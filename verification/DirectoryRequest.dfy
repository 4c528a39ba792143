/**
 One request of the Directory client, `requestJSON` of directory/client.go: the redirect loop under
 the client's own origin, and the checks on what it arrives at.
 */
module DirectoryRequest {
  import opened Wrappers
  import opened Freshness
  import opened MemoryCache
  import M = CacheMachine
  import R = RequestOutcomes

  const MAX_REDIRECTS := 5
  const MAX_BYTES := 524_288

  /** A Directory client uses no cache: its request is the redirect loop of a call without a key. */
  function Uncached(target: Url, method_: Method, hasBody: bool, replies: nat -> Option<M.Reply>): M.Call {
    M.Call(method_, target, hasBody, MAX_REDIRECTS, MAX_BYTES, "", 0, (body: Body) => true, replies, 0, 0)
  }

  /** What a reply is worth; its media type must be application/json, and `isJson` tells one JSON value. */
  function Consumed(reply: M.Reply, isJson: Body -> bool): Result<Body, M.Failure> {
    if reply.declared > MAX_BYTES || |reply.body| > MAX_BYTES then Err(M.LimitExceeded)
    else if !M.Success(reply.status) then Err(M.HttpStatus(reply.status))
    else if !reply.odp then Err(M.UnsupportedMediaType)
    else if !reply.utf8 then Err(M.NotUtf8)
    else if !isJson(reply.body) then Err(M.Invalid)
    else Ok(reply.body)
  }

  /** A redirect before request `k` has turned the request into a GET. */
  ghost predicate Switched(call: M.Call, method_: Method, first: nat, k: nat) {
    exists j: nat :: first <= j < first + k && SwitchedAt(call, method_, j)
  }

  predicate SwitchedAt(call: M.Call, method_: Method, j: nat) {
    call.replies(j).Some? && M.SwitchesToGet(call.replies(j).value.status, method_)
  }

  /**
   Request `k` of a redirect loop has the method and the body that the loop began with, unless a
   redirect before it has turned it into a GET without a body.
   */
  lemma {:induction false} MethodAfterRedirects(call: M.Call, cached: Option<CacheRecord>, method_: Method, url: Url,
                                                hasBody: bool, redirects: nat, k: nat)
    requires k < |M.Follow(call, cached, method_, url, hasBody, redirects).sent|
    ensures var sent := M.Follow(call, cached, method_, url, hasBody, redirects).sent[k];
            && (Switched(call, method_, redirects, k) ==> sent.method_ == Get && !sent.hasBody)
            && (!Switched(call, method_, redirects, k) ==> sent.method_ == method_ && sent.hasBody == hasBody)
    decreases k
  {
    if k > 0 {
      var reply := call.replies(redirects).value;
      var get := M.SwitchesToGet(reply.status, method_);
      MethodAfterRedirects(call, cached, if get then Get else method_, reply.location.url, !get && hasBody,
                           redirects + 1, k - 1);
      if get {
        assert SwitchedAt(call, method_, redirects);
      } else {
        SwitchedLater(call, method_, redirects, k);
      }
    }
  }

  lemma SwitchedLater(call: M.Call, method_: Method, first: nat, k: nat)
    requires k > 0 && !SwitchedAt(call, method_, first)
    ensures Switched(call, method_, first, k) <==> Switched(call, method_, first + 1, k - 1)
  {
  }

  /** Every request of the loop, by the redirects that came before it. */
  ghost predicate Rewritten(call: M.Call, sent: seq<M.Sent>) {
    forall k: nat :: k < |sent| ==>
      if Switched(call, call.method_, 0, k) then sent[k].method_ == Get && !sent[k].hasBody
      else sent[k].method_ == call.method_ && sent[k].hasBody == call.hasBody
  }

  /**
   A reply is worth its body when it is a success with a body of JSON and UTF-8, declared as JSON, of
   at most 512 KiB; otherwise the first of these that fails, in the order of the errors, is the reason.
   */
  ghost predicate Judged(reply: M.Reply, isJson: Body -> bool, r: Result<Body, M.Failure>) {
    var within := reply.declared <= 512 * 1024 && |reply.body| <= 512 * 1024;
    var success := 200 <= reply.status && reply.status < 300;
    && (r.Ok? <==> within && success && reply.odp && reply.utf8 && isJson(reply.body))
    && (r.Ok? ==> r.value == reply.body)
    && (r == Err(M.LimitExceeded) <==> !within)
    && (r == Err(M.HttpStatus(reply.status)) <==> within && !success)
    && (r == Err(M.UnsupportedMediaType) <==> within && success && !reply.odp)
    && (r == Err(M.NotUtf8) <==> within && success && reply.odp && !reply.utf8)
  }

  /**
   At most six requests, all to the client's origin, each following the redirect that answered the one
   before, a search being posted again only after a redirect that keeps the method; and what the reply
   to the last request is worth.
   */
  method RequestJson(target: Url, method_: Method, hasBody: bool, replies: nat -> Option<M.Reply>, isJson: Body -> bool)
    returns (r: Result<Body, M.Failure>, sent: seq<M.Sent>)
    requires target.origin.Some?
    ensures 1 <= |sent| <= 6 && M.AllHome(sent, target.origin)
    ensures Rewritten(Uncached(target, method_, hasBody, replies), sent)
    ensures exists end: Result<M.Reply, M.Failure> ::
              && R.Asked(Uncached(target, method_, hasBody, replies), None, sent, end)
              && match end case Err(e) => r == Err(e) case Ok(reply) => Judged(reply, isJson, r)
  {
    var call := Uncached(target, method_, hasBody, replies);
    var fetch := M.FollowRedirects(call, None, target);
    M.FollowStaysHome(call, None, method_, target, hasBody, 0);
    R.CallAsks(call, None);
    assert R.Asked(call, None, fetch.sent, R.EndOf(fetch));
    forall k: nat | k < |fetch.sent|
      ensures if Switched(call, call.method_, 0, k) then fetch.sent[k].method_ == Get && !fetch.sent[k].hasBody
              else fetch.sent[k].method_ == method_ && fetch.sent[k].hasBody == hasBody
    {
      MethodAfterRedirects(call, None, method_, target, hasBody, 0, k);
    }
    sent := fetch.sent;
    if fetch.Stopped? {
      return Err(fetch.error), sent;
    }
    r := Consumed(fetch.reply, isJson);
  }
}

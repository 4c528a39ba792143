/**
 The Actions of an Offering, agent/offerings.go: each is resolved to an address or reported, and one
 whose identifier is repeated is reported once and never resolved.
 */
module Actions {
  import opened Wrappers
  import opened Sequences

  type Url = string

  datatype HttpTarget = HttpTarget(href: string, request: string)

  /** An operation of an OpenAPI document; an empty address means the Service's own document. */
  datatype OpenApiTarget = OpenApiTarget(url: string, operationId: string)

  datatype Action = Action(id: string, details: string, http: Option<HttpTarget>, openApi: Option<OpenApiTarget>)

  datatype Target = Http(url: Url, request: string) | OpenApi(url: Url, operationId: string)

  datatype Discovered = Discovered(id: string, details: string, target: Target)

  datatype Problem = Repeated | BadReference(reference: string) | NoDocument | NoTarget

  datatype Issue = Issue(actionId: string, problem: Problem)

  /** How references resolve against the Service's origin, and the Service's own OpenAPI document. */
  datatype Context = Context(http: string -> Option<Url>, https: string -> Option<Url>, openApi: string)

  /** Where one Action leads; an HTTP target is preferred to an OpenAPI one. */
  function Resolve(action: Action, context: Context): Result<Target, Problem> {
    if action.http.Some? then
      match context.http(action.http.value.href)
      case None => Err(BadReference(action.http.value.href))
      case Some(url) => Ok(Http(url, action.http.value.request))
    else if action.openApi.Some? then
      var document := if action.openApi.value.url == "" then context.openApi else action.openApi.value.url;
      if document == "" then Err(NoDocument)
      else
        match context.https(document)
        case None => Err(BadReference(document))
        case Some(url) => Ok(OpenApi(url, action.openApi.value.operationId))
    else Err(NoTarget)
  }

  function Ids(actions: seq<Action>): (r: seq<string>)
    ensures |r| == |actions| && forall i :: 0 <= i < |actions| ==> r[i] == actions[i].id
  {
    seq(|actions|, i requires 0 <= i < |actions| => actions[i].id)
  }

  predicate Repeats(ids: seq<string>, id: string) {
    multiset(ids)[id] > 1
  }

  /** What one Action adds: nothing when its identifier has been reported already, a result, or an issue. */
  datatype Step = Quiet | Resolved(result: Discovered) | Failed(issue: Issue)

  function StepOf(actions: seq<Action>, context: Context, k: nat): Step
    requires k < |actions|
  {
    var a := actions[k];
    if Repeats(Ids(actions), a.id) then
      if a.id in Ids(actions)[..k] then Quiet else Failed(Issue(a.id, Repeated))
    else
      match Resolve(a, context)
      case Err(problem) => Failed(Issue(a.id, problem))
      case Ok(target) => Resolved(Discovered(a.id, a.details, target))
  }

  /** What the first `n` Actions add to the result. */
  function Results(actions: seq<Action>, context: Context, n: nat): seq<Discovered>
    requires n <= |actions|
  {
    if n == 0 then []
    else
      match StepOf(actions, context, n - 1)
      case Resolved(result) => Results(actions, context, n - 1) + [result]
      case _ => Results(actions, context, n - 1)
  }

  /** What the first `n` Actions add to the issues. */
  function Issues(actions: seq<Action>, context: Context, n: nat): seq<Issue>
    requires n <= |actions|
  {
    if n == 0 then []
    else
      match StepOf(actions, context, n - 1)
      case Failed(issue) => Issues(actions, context, n - 1) + [issue]
      case _ => Issues(actions, context, n - 1)
  }

  method CountIds(actions: seq<Action>) returns (counts: map<string, nat>)
    ensures forall id :: (if id in counts then counts[id] else 0) == multiset(Ids(actions))[id]
  {
    counts := map[];
    for i := 0 to |actions|
      invariant forall id :: (if id in counts then counts[id] else 0) == multiset(Ids(actions)[..i])[id]
    {
      var id := actions[i].id;
      TakeNext(Ids(actions), i);
      counts := counts[id := 1 + if id in counts then counts[id] else 0];
    }
    assert Ids(actions)[..|actions|] == Ids(actions);
  }

  method NormalizeActions(actions: seq<Action>, context: Context)
    returns (result: seq<Discovered>, issues: seq<Issue>)
    ensures result == Results(actions, context, |actions|)
    ensures issues == Issues(actions, context, |actions|)
  {
    var counts := CountIds(actions);
    result, issues := [], [];
    var reported: set<string> := {};
    for i := 0 to |actions|
      invariant result == Results(actions, context, i) && issues == Issues(actions, context, i)
      invariant forall id :: id in reported <==> Repeats(Ids(actions), id) && id in Ids(actions)[..i]
    {
      var action := actions[i];
      TakeNext(Ids(actions), i);
      assert action.id in Ids(actions);
      if counts[action.id] > 1 {
        if action.id !in reported {
          issues := issues + [Issue(action.id, Repeated)];
          reported := reported + {action.id};
        }
      } else {
        var target := Resolve(action, context);
        if target.Err? {
          issues := issues + [Issue(action.id, target.error)];
        } else {
          result := result + [Discovered(action.id, action.details, target.value)];
        }
      }
    }
  }

  // ----- Conservation -----

  /** How often an identifier is accounted for, as a result or as an issue. */
  function InResults(results: seq<Discovered>, id: string): nat {
    if results == [] then 0
    else InResults(results[..|results| - 1], id) + if results[|results| - 1].id == id then 1 else 0
  }

  function InIssues(issues: seq<Issue>, id: string): nat {
    if issues == [] then 0
    else InIssues(issues[..|issues| - 1], id) + if issues[|issues| - 1].actionId == id then 1 else 0
  }

  lemma NextResult(results: seq<Discovered>, r: Discovered, id: string)
    ensures InResults(results + [r], id) == InResults(results, id) + if r.id == id then 1 else 0
  {
    assert (results + [r])[..|results|] == results;
  }

  lemma NextIssue(issues: seq<Issue>, i: Issue, id: string)
    ensures InIssues(issues + [i], id) == InIssues(issues, id) + if i.actionId == id then 1 else 0
  {
    assert (issues + [i])[..|issues|] == issues;
  }

  /** An identifier that is not repeated does not come twice. */
  lemma ComesOnce(ids: seq<string>, n: nat)
    requires n < |ids| && !Repeats(ids, ids[n])
    ensures ids[n] !in ids[..n]
  {
    assert ids == ids[..n] + [ids[n]] + ids[n + 1..];
    assert multiset(ids) == multiset(ids[..n]) + multiset{ids[n]} + multiset(ids[n + 1..]);
  }

  /** A step is quiet at an identifier that has been seen; any other step is the first for its identifier. */
  lemma StepIsFirst(actions: seq<Action>, context: Context, k: nat)
    requires k < |actions|
    ensures var a := actions[k];
            match StepOf(actions, context, k)
            case Quiet => a.id in Ids(actions)[..k]
            case Resolved(result) =>
              result.id == a.id && a.id !in Ids(actions)[..k] && !Repeats(Ids(actions), a.id)
            case Failed(issue) => issue.actionId == a.id && a.id !in Ids(actions)[..k]
  {
    if !Repeats(Ids(actions), actions[k].id) {
      ComesOnce(Ids(actions), k);
    }
  }

  lemma SeenNext(actions: seq<Action>, k: nat, id: string)
    requires k < |actions|
    ensures id in Ids(actions)[..k + 1] <==> id in Ids(actions)[..k] || id == actions[k].id
  {
    TakeNext(Ids(actions), k);
  }

  /** What the first `n` Actions come to for one identifier: its results and its issues. */
  function Count(actions: seq<Action>, context: Context, n: nat, id: string): (nat, nat)
    requires n <= |actions|
  {
    (InResults(Results(actions, context, n), id), InIssues(Issues(actions, context, n), id))
  }

  lemma CountNext(actions: seq<Action>, context: Context, n: nat, id: string)
    requires n < |actions|
    ensures var (r, i), (r', i') := Count(actions, context, n, id), Count(actions, context, n + 1, id);
            match StepOf(actions, context, n)
            case Quiet => r' == r && i' == i
            case Resolved(result) => i' == i && r' == if result.id == id then r + 1 else r
            case Failed(issue) => r' == r && i' == if issue.actionId == id then i + 1 else i
  {
    match StepOf(actions, context, n)
    case Quiet =>
    case Resolved(result) => NextResult(Results(actions, context, n), result, id);
    case Failed(issue) => NextIssue(Issues(actions, context, n), issue, id);
  }

  lemma {:induction false} AccountedWithin(actions: seq<Action>, context: Context, n: nat, id: string)
    requires n <= |actions|
    ensures var (r, i) := Count(actions, context, n, id); r + i == if id in Ids(actions)[..n] then 1 else 0
    ensures Repeats(Ids(actions), id) ==> Count(actions, context, n, id).0 == 0
  {
    if n > 0 {
      AccountedWithin(actions, context, n - 1, id);
      CountNext(actions, context, n - 1, id);
      StepIsFirst(actions, context, n - 1);
      SeenNext(actions, n - 1, id);
    }
  }

  /**
   Every identifier of the input is accounted for exactly once, as a result or as an issue, and no
   other; and one that is repeated is never a result.
   */
  lemma EachIdentifierOnce(actions: seq<Action>, context: Context, id: string)
    ensures InResults(Results(actions, context, |actions|), id) + InIssues(Issues(actions, context, |actions|), id)
         == if id in Ids(actions) then 1 else 0
    ensures Repeats(Ids(actions), id) ==> InResults(Results(actions, context, |actions|), id) == 0
  {
    AccountedWithin(actions, context, |actions|, id);
    assert Ids(actions)[..|actions|] == Ids(actions);
  }

  /**
   Where the results come from: positions in rising order, and among them every Action whose
   identifier comes once and which resolves.
   */
  ghost predicate InOrder(actions: seq<Action>, context: Context, results: seq<Discovered>, origins: seq<nat>, n: nat)
    requires n <= |actions|
  {
    && |origins| == |results|
    && (forall k :: 0 <= k < |origins| ==>
          origins[k] < n && StepOf(actions, context, origins[k]) == Resolved(results[k]))
    && (forall j, k :: 0 <= j < k < |origins| ==> origins[j] < origins[k])
    && (forall i: nat :: i < n && StepOf(actions, context, i).Resolved? ==> i in origins)
  }

  lemma OriginNext(actions: seq<Action>, context: Context, results: seq<Discovered>, origins: seq<nat>, n: nat)
    requires n < |actions| && InOrder(actions, context, results, origins, n)
    ensures match StepOf(actions, context, n)
            case Resolved(result) => InOrder(actions, context, results + [result], origins + [n], n + 1)
            case _ => InOrder(actions, context, results, origins, n + 1)
  {
    forall i: nat | i < n && StepOf(actions, context, i).Resolved? ensures i in origins + [n] {
    }
    assert n in origins + [n];
  }

  lemma {:induction false} ResultsKeepOrder(actions: seq<Action>, context: Context, n: nat) returns (origins: seq<nat>)
    requires n <= |actions|
    ensures InOrder(actions, context, Results(actions, context, n), origins, n)
  {
    origins := [];
    if n > 0 {
      origins := ResultsKeepOrder(actions, context, n - 1);
      OriginNext(actions, context, Results(actions, context, n - 1), origins, n - 1);
      if StepOf(actions, context, n - 1).Resolved? {
        origins := origins + [n - 1];
      }
    }
  }

  // ----- What becomes of each Action -----

  /** The document that an OpenAPI target is in: its own, or the Service's. */
  ghost predicate DocumentOf(target: OpenApiTarget, context: Context, document: string) {
    document == (if target.url != "" then target.url else context.openApi) && document != ""
  }

  /** Where an Action leads: to its HTTP target when it has one, and otherwise to its OpenAPI operation. */
  ghost predicate LeadsTo(action: Action, context: Context, target: Target) {
    match target
    case Http(url, request) =>
      && action.http.Some? && context.http(action.http.value.href) == Some(url)
      && request == action.http.value.request
    case OpenApi(url, operationId) =>
      && action.http.None? && action.openApi.Some? && operationId == action.openApi.value.operationId
      && exists document :: DocumentOf(action.openApi.value, context, document) && context.https(document) == Some(url)
  }

  /** Why an Action leads nowhere. */
  ghost predicate Fails(action: Action, context: Context, problem: Problem) {
    match problem
    case Repeated => false
    case NoTarget => action.http.None? && action.openApi.None?
    case NoDocument =>
      action.http.None? && action.openApi.Some? && forall d :: !DocumentOf(action.openApi.value, context, d)
    case BadReference(reference) =>
      if action.http.Some? then reference == action.http.value.href && context.http(reference).None?
      else
        && action.openApi.Some? && DocumentOf(action.openApi.value, context, reference)
        && context.https(reference).None?
  }

  lemma ResolvesExactly(action: Action, context: Context)
    ensures forall t: Target :: Resolve(action, context) == Ok(t) <==> LeadsTo(action, context, t)
    ensures forall p: Problem :: Resolve(action, context) == Err(p) <==> Fails(action, context, p)
  {
    if action.http.None? && action.openApi.Some? {
      var document := if action.openApi.value.url != "" then action.openApi.value.url else context.openApi;
      assert document != "" ==> DocumentOf(action.openApi.value, context, document);
    }
  }

  /** The identifier of Action `k` comes nowhere else. */
  ghost predicate ComesAlone(actions: seq<Action>, k: nat)
    requires k < |actions|
  {
    forall j :: 0 <= j < |actions| && j != k ==> actions[j].id != actions[k].id
  }

  lemma SplitIds(actions: seq<Action>, k: nat)
    requires k < |actions|
    ensures var ids := Ids(actions);
            multiset(ids) == multiset(ids[..k]) + multiset{ids[k]} + multiset(ids[k + 1..])
  {
    var ids := Ids(actions);
    assert ids == ids[..k] + [ids[k]] + ids[k + 1..];
  }

  lemma RepeatsElsewhere(actions: seq<Action>, k: nat, j: nat)
    requires k < |actions| && j < |actions| && j != k && actions[j].id == actions[k].id
    ensures Repeats(Ids(actions), actions[k].id)
  {
    var ids := Ids(actions);
    SplitIds(actions, k);
    if j < k {
      assert ids[..k][j] == ids[k];
    } else {
      assert ids[k + 1..][j - k - 1] == ids[k];
    }
  }

  lemma ElsewhereRepeats(actions: seq<Action>, k: nat)
    requires k < |actions| && Repeats(Ids(actions), actions[k].id)
    ensures !ComesAlone(actions, k)
  {
    var ids := Ids(actions);
    SplitIds(actions, k);
    if ids[k] in ids[..k] {
      var j :| 0 <= j < k && ids[..k][j] == ids[k];
      assert actions[j].id == actions[k].id;
    } else {
      var j :| 0 <= j < |ids| - k - 1 && ids[k + 1..][j] == ids[k];
      assert actions[k + 1 + j].id == actions[k].id;
    }
  }

  lemma AloneExactly(actions: seq<Action>, k: nat)
    requires k < |actions|
    ensures Repeats(Ids(actions), actions[k].id) <==> !ComesAlone(actions, k)
  {
    if j :| 0 <= j < |actions| && j != k && actions[j].id == actions[k].id {
      RepeatsElsewhere(actions, k, j);
    }
    if Repeats(Ids(actions), actions[k].id) {
      ElsewhereRepeats(actions, k);
    }
  }

  lemma {:induction false} ResultsAre(actions: seq<Action>, context: Context, n: nat, r: Discovered)
    requires n <= |actions|
    ensures r in Results(actions, context, n) <==>
            exists k: nat :: k < n && StepOf(actions, context, k) == Resolved(r)
  {
    if n > 0 {
      ResultsAre(actions, context, n - 1, r);
    }
  }

  lemma {:induction false} IssuesAre(actions: seq<Action>, context: Context, n: nat, i: Issue)
    requires n <= |actions|
    ensures i in Issues(actions, context, n) <==>
            exists k: nat :: k < n && StepOf(actions, context, k) == Failed(i)
  {
    if n > 0 {
      IssuesAre(actions, context, n - 1, i);
    }
  }

  /**
   The results are the Actions whose identifier comes nowhere else, each with where it leads; the
   issues are those that lead nowhere, each with its reason, and the identifiers that come twice.
   */
  lemma ActionsExactly(actions: seq<Action>, context: Context, r: Discovered, i: Issue)
    ensures r in Results(actions, context, |actions|) <==>
            exists k: nat :: k < |actions| && ComesAlone(actions, k) && LeadsTo(actions[k], context, r.target)
                             && r.id == actions[k].id && r.details == actions[k].details
    ensures i in Issues(actions, context, |actions|) <==>
            exists k: nat :: k < |actions| && i.actionId == actions[k].id &&
              if ComesAlone(actions, k) then Fails(actions[k], context, i.problem) else i.problem == Repeated
  {
    ResultsAre(actions, context, |actions|, r);
    IssuesAre(actions, context, |actions|, i);
    forall k: nat | k < |actions|
      ensures StepOf(actions, context, k) == Resolved(r) <==>
              && ComesAlone(actions, k) && LeadsTo(actions[k], context, r.target)
              && r.id == actions[k].id && r.details == actions[k].details
      ensures StepOf(actions, context, k) == Failed(i) ==>
              i.actionId == actions[k].id &&
              if ComesAlone(actions, k) then Fails(actions[k], context, i.problem) else i.problem == Repeated
      ensures ComesAlone(actions, k) && i.actionId == actions[k].id && Fails(actions[k], context, i.problem) ==>
              StepOf(actions, context, k) == Failed(i)
    {
      StepExactly(actions, context, k, r, i);
    }
    if k: nat :| k < |actions| && i.actionId == actions[k].id && !ComesAlone(actions, k) && i.problem == Repeated {
      var first := FirstIsReported(actions, context, k);
    }
  }

  lemma StepExactly(actions: seq<Action>, context: Context, k: nat, r: Discovered, i: Issue)
    requires k < |actions|
    ensures StepOf(actions, context, k) == Resolved(r) <==>
            && ComesAlone(actions, k) && LeadsTo(actions[k], context, r.target)
            && r.id == actions[k].id && r.details == actions[k].details
    ensures StepOf(actions, context, k) == Failed(i) ==>
            i.actionId == actions[k].id &&
            if ComesAlone(actions, k) then Fails(actions[k], context, i.problem) else i.problem == Repeated
    ensures ComesAlone(actions, k) && i.actionId == actions[k].id && Fails(actions[k], context, i.problem) ==>
            StepOf(actions, context, k) == Failed(i)
  {
    AloneExactly(actions, k);
    ResolvesExactly(actions[k], context);
  }

  /** A repeated identifier is reported where it comes first. */
  lemma {:induction false} FirstIsReported(actions: seq<Action>, context: Context, k: nat) returns (first: nat)
    requires k < |actions| && !ComesAlone(actions, k)
    ensures first < |actions| && StepOf(actions, context, first) == Failed(Issue(actions[k].id, Repeated))
    decreases k
  {
    AloneExactly(actions, k);
    var ids := Ids(actions);
    if ids[k] in ids[..k] {
      var j :| 0 <= j < k && ids[..k][j] == ids[k];
      assert actions[j].id == actions[k].id;
      assert !ComesAlone(actions, j);
      first := FirstIsReported(actions, context, j);
    } else {
      first := k;
    }
  }
}

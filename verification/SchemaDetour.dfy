/**
 The ceiling on depth of agent/schemas.go counts along the walk: a document one reference from the
 root is refused when a longer way leads to it first. Ten documents show it, and which way comes
 first is a matter of how their URLs sort.
 */
module SchemaDetour {
  import opened Wrappers
  import opened Sequences
  import opened Json
  import opened SchemaReferences
  import opened SchemaGraph
  import T = Text

  const SIZE := 1000

  // ----- A document with two references -----

  function Inner(y: Url): Members {
    map["$ref" := String(y)]
  }

  function Referring(x: Url, y: Url): Members {
    map["$schema" := String(DIALECT), "$ref" := String(x), "also" := Object(Inner(y))]
  }

  /** References are absolute URLs. */
  ghost predicate Absolute(w: World) {
    forall reference, base :: w.resolve(reference, base) == Some(if reference == "" then base else reference)
  }

  lemma InnerFinds(w: World, walk: Walk, y: Url, base: Url, u: Url)
    requires Absolute(w) && y != ""
    ensures !Fails(w, walk, Document(Inner(y), base))
    ensures Yields(w, walk, Document(Inner(y), base), u) <==> u == if walk.Resources? then base else y
  {
    var place := Document(Inner(y), base);
    YieldsHere(w, walk, place, u);
    FailsHere(w, walk, place);
    LeafFinds(w, walk, Place(String(y), base), u);
  }

  lemma BelowReferring(w: World, walk: Walk, x: Url, y: Url, base: Url, next: Place)
    requires Absolute(w)
    ensures Below(w, walk, Document(Referring(x, y), base), next) <==>
              || next == Place(String(DIALECT), base)
              || next == Document(Inner(y), base)
              || (walk.Resources? && next == Place(String(x), base))
  {
    var members := Referring(x, y);
    assert members["$schema"] == String(DIALECT) && members["$ref"] == String(x) && members["also"] == Object(Inner(y));
  }

  lemma ReferringFinds(w: World, walk: Walk, x: Url, y: Url, base: Url, u: Url)
    requires Absolute(w) && x != "" && y != ""
    ensures !Fails(w, walk, Document(Referring(x, y), base))
    ensures Yields(w, walk, Document(Referring(x, y), base), u) <==>
            if walk.Resources? then u == base else u == x || u == y
  {
    var place := Document(Referring(x, y), base);
    YieldsHere(w, walk, place, u);
    FailsHere(w, walk, place);
    forall next {
      BelowReferring(w, walk, x, y, base, next);
    }
    LeafFinds(w, walk, Place(String(x), base), u);
    LeafFinds(w, walk, Place(String(DIALECT), base), u);
    InnerFinds(w, walk, y, base, u);
    assert Below(w, walk, place, Document(Inner(y), base));
  }

  // ----- Ten documents -----

  function Next(c: seq<Url>, u: Url): Url
    requires c != []
  {
    if |c| == 1 then c[0] else if u == c[0] then c[1] else Next(c[1..], u)
  }

  lemma {:induction false} NextAt(c: seq<Url>, k: nat)
    requires Distinct(c) && k < |c|
    ensures Next(c, c[k]) == c[if k + 1 < |c| then k + 1 else k]
    decreases |c|
  {
    if |c| > 1 && k > 0 {
      NextAt(c[1..], k - 1);
    }
  }

  /** Each of the documents refers to the next, and the first to the last as well. */
  ghost function Chain(c: seq<Url>): World
    requires c != []
  {
    World((u: Url) => if u !in c then None
                      else Some(Referring(Next(c, u), if u == c[0] then c[|c| - 1] else Next(c, u))),
          (m: Members) => SIZE, (m: Members) => true, (m: Members) => true,
          (reference: string, base: string) => Some(if reference == "" then base else reference))
  }

  /** Ten URLs of different documents. */
  ghost predicate Ten(c: seq<Url>) {
    |c| == 10 && Distinct(c) && forall k :: 0 <= k < |c| ==> c[k] != ""
  }

  lemma ChainDocument(c: seq<Url>, k: nat)
    requires Ten(c) && k < |c|
    ensures Usable(Chain(c), c[k])
    ensures forall v :: Edge(Chain(c), c[k], v) <==> (k < |c| - 1 && v == c[k + 1]) || (k == 0 && v == c[|c| - 1])
  {
    var w := Chain(c);
    NextAt(c, k);
    var x := Next(c, c[k]);
    var y := if c[k] == c[0] then c[|c| - 1] else x;
    assert c[k] in c && w.fetch(c[k]) == Some(Referring(x, y));
    ReferringFinds(w, References, x, y, c[k], "");
    ReferringFinds(w, Resources, x, y, c[k], "");
    forall v ensures Edge(w, c[k], v) <==> v != c[k] && (v == x || v == y) {
      ReferringFinds(w, References, x, y, c[k], v);
      ReferringFinds(w, Resources, x, y, c[k], v);
    }
  }

  lemma GraphOf(c: seq<Url>, g: Graph, k: nat)
    requires Ten(c) && Describes(g, Chain(c)) && k < |c|
    ensures g.usable(c[k])
    ensures forall v :: g.edge(c[k], v) <==> (k < |c| - 1 && v == c[k + 1]) || (k == 0 && v == c[|c| - 1])
  {
    ChainDocument(c, k);
    assert forall v :: g.edge(c[k], v) <==> Edge(Chain(c), c[k], v);
  }

  lemma {:induction false} ChainSize(c: seq<Url>, urls: seq<Url>)
    requires c != [] && forall u :: u in urls ==> u in c
    ensures TotalSize(Chain(c), urls) == SIZE * |urls|
    decreases |urls|
  {
    if urls != [] {
      ChainSize(c, urls[..|urls| - 1]);
      assert urls[|urls| - 1] in urls;
    }
  }

  lemma SmallTogether(c: seq<Url>, done: seq<Url>, url: Url)
    requires Ten(c) && |done| < |c| && (forall u :: u in done ==> u in c) && url in c
    ensures TotalSize(Chain(c), done + [url]) <= MAX_GRAPH_BYTES
  {
    assert forall u :: u in done + [url] ==> u in c;
    ChainSize(c, done + [url]);
  }

  lemma NotRefused(c: seq<Url>, g: Graph, k: nat, done: seq<Url>, depth: nat)
    requires Ten(c) && Describes(g, Chain(c)) && k < |c|
    requires |done| < |c| && (forall u :: u in done ==> u in c) && depth <= MAX_DEPTH
    ensures Refused(Chain(c), g, c[k], done, depth).None?
  {
    GraphOf(c, g, k);
    ChainDocument(c, k);
    SmallTogether(c, done, c[k]);
  }

  // ----- One or two references -----

  /** The visit of `url` that follows another. */
  ghost function Then(w: World, g: Graph, before: Result<seq<Url>, SchemaError>, url: Url, depth: nat)
    : Result<seq<Url>, SchemaError>
    requires depth <= MAX_DEPTH + 1
  {
    match before case Err(e) => Err(e) case Ok(done) => Visit(w, g, url, done, depth)
  }

  lemma LastVisit(w: World, g: Graph, urls: seq<Url>, i: nat, done: seq<Url>, depth: nat)
    requires depth <= MAX_DEPTH + 1 && i + 1 == |urls|
    ensures VisitFrom(w, g, urls, i, done, depth) == Visit(w, g, urls[i], done, depth)
  {
    VisitNext(w, g, urls, i, done, depth);
    var visit := Visit(w, g, urls[i], done, depth);
    if visit.Ok? {
      VisitEnds(w, g, urls, visit.value, depth);
    }
  }

  lemma TwoVisits(w: World, g: Graph, urls: seq<Url>, done: seq<Url>, depth: nat)
    requires depth <= MAX_DEPTH + 1 && |urls| == 2
    ensures VisitFrom(w, g, urls, 0, done, depth) == Then(w, g, Visit(w, g, urls[0], done, depth), urls[1], depth)
  {
    VisitNext(w, g, urls, 0, done, depth);
    var visit := Visit(w, g, urls[0], done, depth);
    if visit.Ok? {
      LastVisit(w, g, urls, 1, visit.value, depth);
    }
  }

  lemma OneReference(w: World, g: Graph, url: Url, done: seq<Url>, depth: nat, next: Url)
    requires url !in done && depth <= MAX_DEPTH && Refused(w, g, url, done, depth).None?
    requires forall v :: g.edge(url, v) <==> v == next
    ensures Visit(w, g, url, done, depth) == Visit(w, g, next, done + [url], depth + 1)
  {
    VisitBegins(w, g, url, done, depth, [next]);
    LastVisit(w, g, [next], 0, done + [url], depth + 1);
  }

  lemma InOrder(g: Graph, url: Url, a: Url, b: Url)
    requires T.Before(a, b) && forall v :: g.edge(url, v) <==> v == a || v == b
    ensures IsReferences(g, url, [a, b])
  {
  }

  lemma TwoReferences(w: World, g: Graph, url: Url, done: seq<Url>, depth: nat, urls: seq<Url>)
    requires url !in done && depth <= MAX_DEPTH && Refused(w, g, url, done, depth).None?
    requires |urls| == 2 && IsReferences(g, url, urls)
    ensures Visit(w, g, url, done, depth)
         == Then(w, g, Visit(w, g, urls[0], done + [url], depth + 1), urls[1], depth + 1)
  {
    VisitBegins(w, g, url, done, depth, urls);
    TwoVisits(w, g, urls, done + [url], depth + 1);
  }

  lemma NoReferences(w: World, g: Graph, url: Url, done: seq<Url>, depth: nat)
    requires url !in done && depth <= MAX_DEPTH && Refused(w, g, url, done, depth).None?
    requires forall v :: !g.edge(url, v)
    ensures Visit(w, g, url, done, depth) == Ok(done + [url])
  {
    VisitBegins(w, g, url, done, depth, []);
    VisitEnds(w, g, [], done + [url], depth + 1);
  }

  // ----- The walk -----

  /** What the walk has loaded when it comes to the `k`-th document, having begun with `first`. */
  ghost function Done(c: seq<Url>, first: seq<Url>, k: nat): seq<Url>
    requires 1 <= k <= |c|
  {
    first + c[1..k]
  }

  /** The walk begins with the root, or with the root and the last document. */
  ghost predicate Begins(c: seq<Url>, first: seq<Url>)
    requires c != []
  {
    first == [c[0]] || first == [c[0], c[|c| - 1]]
  }

  lemma DoneSoFar(c: seq<Url>, first: seq<Url>, k: nat)
    requires Ten(c) && Begins(c, first) && 1 <= k < |c| - 1
    ensures var done := Done(c, first, k);
            && |done| < |c| && (forall u :: u in done ==> u in c) && c[k] !in done
            && done + [c[k]] == Done(c, first, k + 1)
  {
    assert c[1..k] + [c[k]] == c[1..k + 1];
  }

  lemma Arrives(c: seq<Url>, g: Graph, first: seq<Url>)
    requires Ten(c) && Begins(c, first)
    ensures var k := |c| - 1;
            Visit(Chain(c), g, c[k], Done(c, first, k), k)
              == if |first| == 1 then Err(TooDeep) else Ok(Done(c, first, k))
  {
    assert |first| == 2 ==> c[|c| - 1] == first[1] && first[1] in Done(c, first, |c| - 1);
  }

  lemma ChainStep(c: seq<Url>, g: Graph, first: seq<Url>, k: nat)
    requires Ten(c) && Describes(g, Chain(c)) && Begins(c, first) && 1 <= k < |c| - 1
    ensures Visit(Chain(c), g, c[k], Done(c, first, k), k)
         == Visit(Chain(c), g, c[k + 1], Done(c, first, k + 1), k + 1)
  {
    DoneSoFar(c, first, k);
    NotRefused(c, g, k, Done(c, first, k), k);
    GraphOf(c, g, k);
    OneReference(Chain(c), g, c[k], Done(c, first, k), k, c[k + 1]);
  }

  /** Along the chain from the `k`-th document on. */
  lemma {:induction false} AlongChain(c: seq<Url>, g: Graph, first: seq<Url>, k: nat)
    requires Ten(c) && Describes(g, Chain(c)) && Begins(c, first) && 1 <= k < |c|
    ensures Visit(Chain(c), g, c[k], Done(c, first, k), k)
         == if |first| == 1 then Err(TooDeep) else Ok(Done(c, first, |c| - 1))
    decreases |c| - k
  {
    if k == |c| - 1 {
      Arrives(c, g, first);
    } else {
      ChainStep(c, g, first, k);
      AlongChain(c, g, first, k + 1);
    }
  }

  lemma ShortWay(c: seq<Url>, g: Graph, k: nat)
    requires Ten(c) && Describes(g, Chain(c)) && k < |c|
    ensures ReachableIn(g, c[0], c[k], 8)
  {
    var path := if k == |c| - 1 then [c[0], c[k]] else c[..k + 1];
    forall i: nat | i + 1 < |path| ensures EdgeAt(g, path, i) {
      GraphOf(c, g, i);
    }
    assert PathTo(g, c[0], c[k], path);
  }

  lemma NothingElse(c: seq<Url>, g: Graph)
    requires Ten(c) && Describes(g, Chain(c))
    ensures Unobstructed(Chain(c), g, c[0])
  {
    forall u ensures u in c <==> Reachable(g, c[0], u) {
      if u in c {
        var k :| 0 <= k < |c| && c[k] == u;
        ShortWay(c, g, k);
      }
      if Reachable(g, c[0], u) {
        var path :| PathTo(g, c[0], u, path);
        forall a, b | a in c && g.edge(a, b) ensures b in c {
          var k :| 0 <= k < |c| && c[k] == a;
          GraphOf(c, g, k);
        }
        ClosedContainsPath(g, c[0], path, set v | v in c);
      }
    }
    forall u | u in c ensures g.usable(u) {
      var k :| 0 <= k < |c| && c[k] == u;
      GraphOf(c, g, k);
    }
    ChainSize(c, c);
    WitnessExactly(Chain(c), g, c[0], c);
  }

  /** The root's visit goes on with the two documents it refers to. */
  lemma FromTheRoot(c: seq<Url>, g: Graph, depth: nat, urls: seq<Url>)
    requires depth == 0 && Ten(c) && Describes(g, Chain(c))
    requires |urls| == 2 && IsReferences(g, c[0], urls)
    ensures Visit(Chain(c), g, c[0], [], depth)
         == Then(Chain(c), g, Visit(Chain(c), g, urls[0], [c[0]], depth + 1), urls[1], depth + 1)
  {
    NotRefused(c, g, 0, [], depth);
    TwoReferences(Chain(c), g, c[0], [], depth, urls);
    assert [] + [c[0]] == [c[0]];
  }

  lemma LongWayFirst(c: seq<Url>, g: Graph, depth: nat)
    requires depth == 0 && Ten(c) && Describes(g, Chain(c)) && T.Before(c[1], c[|c| - 1])
    ensures Visit(Chain(c), g, c[0], [], depth) == Err(TooDeep)
  {
    GraphOf(c, g, 0);
    InOrder(g, c[0], c[1], c[|c| - 1]);
    FromTheRoot(c, g, depth, [c[1], c[|c| - 1]]);
    assert [c[0]] == Done(c, [c[0]], 1);
    AlongChain(c, g, [c[0]], depth + 1);
  }

  lemma LastBelowRoot(c: seq<Url>, g: Graph, depth: nat)
    requires depth == 1 && Ten(c) && Describes(g, Chain(c))
    ensures Visit(Chain(c), g, c[|c| - 1], [c[0]], depth) == Ok(Done(c, [c[0], c[|c| - 1]], 1))
  {
    NotRefused(c, g, |c| - 1, [c[0]], depth);
    GraphOf(c, g, |c| - 1);
    NoReferences(Chain(c), g, c[|c| - 1], [c[0]], depth);
    assert [c[0]] + [c[|c| - 1]] == Done(c, [c[0], c[|c| - 1]], 1);
  }

  lemma ShortWayFirst(c: seq<Url>, g: Graph, depth: nat)
    requires depth == 0 && Ten(c) && Describes(g, Chain(c)) && T.Before(c[|c| - 1], c[1])
    ensures Visit(Chain(c), g, c[0], [], depth) == Ok([c[0], c[|c| - 1]] + c[1..|c| - 1])
  {
    GraphOf(c, g, 0);
    InOrder(g, c[0], c[|c| - 1], c[1]);
    FromTheRoot(c, g, depth, [c[|c| - 1], c[1]]);
    LastBelowRoot(c, g, depth + 1);
    AlongChain(c, g, [c[0], c[|c| - 1]], depth + 1);
  }

  /**
   Ten small usable documents, none more than eight references from the root, and nothing but depth to
   stand in the way: they load exactly when the URL of the last sorts before that of the second.
   */
  lemma DetourDecides(c: seq<Url>, g: Graph)
    requires Ten(c) && Describes(g, Chain(c))
    ensures forall u :: u in c ==> ReachableIn(g, c[0], u, 8)
    ensures Unobstructed(Chain(c), g, c[0])
    ensures Loaded(Chain(c), g, c[0])
         == if T.Before(c[|c| - 1], c[1]) then Ok([c[0], c[|c| - 1]] + c[1..|c| - 1]) else Err(TooDeep)
  {
    forall u | u in c ensures ReachableIn(g, c[0], u, 8) {
      var k :| 0 <= k < |c| && c[k] == u;
      ShortWay(c, g, k);
    }
    NothingElse(c, g);
    T.BeforeTotal(c[1], c[|c| - 1]);
    if T.Before(c[|c| - 1], c[1]) {
      ShortWayFirst(c, g, 0);
    } else {
      LongWayFirst(c, g, 0);
    }
  }
}

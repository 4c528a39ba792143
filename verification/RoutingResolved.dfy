/**
 Routing once a client has resolved the path it built: `BuildOperationURL` of references.go resolves it
 against the Service's origin, which removes dot segments, while the Service compares paths as they
 arrive, service/service.go.
 */
module RoutingResolved {
  import opened Wrappers
  import opened Routing
  import T = Text

  // ----- Segments -----

  predicate IsDot(segment: string) {
    segment == "." || segment == ".."
  }

  predicate AnyDot(segments: seq<string>) {
    exists k :: 0 <= k < |segments| && IsDot(segments[k])
  }

  /** Some segment of the path is a dot segment. */
  predicate HasDots(path: string) {
    AnyDot(T.Split(path, '/'))
  }

  lemma AnyDotAppend(a: seq<string>, b: seq<string>)
    ensures AnyDot(a + b) <==> AnyDot(a) || AnyDot(b)
  {
    forall k | 0 <= k < |a| ensures (a + b)[k] == a[k] {
    }
    forall k | 0 <= k < |b| ensures (a + b)[|a| + k] == b[k] {
    }
    if k :| 0 <= k < |b| && IsDot(b[k]) {
      assert IsDot((a + b)[|a| + k]);
    }
    if k :| 0 <= k < |a| && IsDot(a[k]) {
      assert IsDot((a + b)[k]);
    }
  }

  lemma IndexIs(s: string, c: char, i: nat)
    requires i <= |s| && (i < |s| ==> s[i] == c) && forall k :: 0 <= k < i ==> s[k] != c
    ensures T.IndexOf(s, c) == i
  {
  }

  lemma SplitAt(s: string, c: char, i: nat)
    requires i < |s| && s[i] == c && forall k :: 0 <= k < i ==> s[k] != c
    ensures T.Split(s, c) == [s[..i]] + T.Split(s[i + 1..], c)
  {
    IndexIs(s, c, i);
  }

  lemma SplitOne(s: string, c: char)
    requires c !in s
    ensures T.Split(s, c) == [s]
  {
    IndexIs(s, c, |s|);
  }

  lemma {:induction false} SplitAppend(a: string, b: string, c: char)
    ensures T.Split(a + [c] + b, c) == T.Split(a, c) + T.Split(b, c)
    decreases |a|
  {
    var whole, i := a + [c] + b, T.IndexOf(a, c);
    SplitAt(whole, c, i);
    if i == |a| {
      SplitOne(a, c);
      assert whole[..i] == a && whole[i + 1..] == b;
    } else {
      SplitAt(a, c, i);
      assert whole[..i] == a[..i] && whole[i + 1..] == a[i + 1..] + [c] + b;
      SplitAppend(a[i + 1..], b, c);
      Associate([a[..i]], T.Split(a[i + 1..], c), T.Split(b, c));
    }
  }

  lemma Associate<X>(a: seq<X>, b: seq<X>, c: seq<X>)
    ensures a + b + c == a + (b + c)
  {
  }

  lemma DotsOfTwo(a: string, b: string)
    ensures HasDots(a + "/" + b) <==> HasDots(a) || HasDots(b)
  {
    assert a + "/" + b == a + ['/'] + b;
    SplitAppend(a, b, '/');
    AnyDotAppend(T.Split(a, '/'), T.Split(b, '/'));
  }

  lemma DotsOfOne(s: string)
    requires '/' !in s
    ensures HasDots(s) <==> IsDot(s)
  {
    SplitOne(s, '/');
    assert [s][0] == s;
  }

  lemma {:induction false} NoDotNoDots(s: string)
    requires '.' !in s
    ensures !HasDots(s)
    decreases |s|
  {
    var i := T.IndexOf(s, '/');
    if i < |s| {
      SplitAt(s, '/', i);
      NoDotNoDots(s[i + 1..]);
      AnyDotAppend([s[..i]], T.Split(s[i + 1..], '/'));
      NotADot(s[..i]);
    } else {
      DotsOfOne(s);
      NotADot(s);
    }
  }

  lemma NotADot(s: string)
    requires '.' !in s
    ensures !IsDot(s) && !AnyDot([s])
  {
    assert s != [] ==> s[0] in s;
  }

  // ----- Resolution -----

  /** A reference that is a path from the root; one that begins with two slashes names a host. */
  predicate Rooted(path: string) {
    T.HasPrefix(path, "/") && !T.HasPrefix(path, "//")
  }

  /**
   What resolving a path against an origin does, section 5.2.4 of RFC 3986: the result has no dot
   segments, and a path without any is unchanged.
   */
  ghost predicate Resolves(resolve: string -> string) {
    forall path :: Rooted(path) ==>
      !HasDots(resolve(path)) && (!HasDots(path) ==> resolve(path) == path)
  }

  /** The path of an operation without the slash that it begins with. */
  function Below(operation: Operation, id: string): (r: string)
    ensures PathOf(operation, id) == "/" + r
  {
    PathOf(operation, id)[1..]
  }

  lemma OperationHasNoDots(operation: Operation, id: string)
    requires OperationPath(operation, id).Ok?
    ensures !HasDots(PathOf(operation, id))
  {
    match operation
    case GetOffering => ResourceHasNoDots(OFFERING_PREFIX, id);
    case GetCollection => ResourceHasNoDots(COLLECTION_PREFIX, id);
    case ListCollectionOfferings =>
      ResourceHasNoDots(COLLECTION_PREFIX, id);
      NoDotNoDots(OFFERINGS[1..]);
      DotsOfTwo(COLLECTION_PREFIX + id, OFFERINGS[1..]);
      assert OFFERINGS == "/" + OFFERINGS[1..];
      Associate(COLLECTION_PREFIX + id, "/", OFFERINGS[1..]);
    case _ => NoDotNoDots(PathOf(operation, id));
  }

  lemma ResourceHasNoDots(prefix: string, id: string)
    requires prefix == OFFERING_PREFIX || prefix == COLLECTION_PREFIX
    requires IsIdentifier(id)
    ensures !HasDots(prefix + id)
  {
    var n := |prefix| - 1;
    assert prefix == prefix[..n] + "/";
    NoDotNoDots(prefix[..n]);
    DotsOfOne(id);
    DotsOfTwo(prefix[..n], id);
  }

  lemma DotsBelow(start: string, rest: string)
    ensures HasDots(start + ("/" + rest)) <==> HasDots(start) || HasDots(rest)
  {
    DotsOfTwo(start, rest);
    Associate(start, "/", rest);
  }

  lemma TrimStaysRooted(base: string)
    requires Rooted(base)
    ensures TrimSlash(base) == "" || (Rooted(TrimSlash(base)) && |TrimSlash(base)| > 1)
  {
  }

  lemma RootedBelow(start: string, path: string)
    requires start == "" || (Rooted(start) && |start| > 1)
    requires Rooted(path)
    ensures Rooted(start + path)
  {
    if start == "" {
      assert start + path == path;
    } else {
      assert (start + path)[..2] == start[..2];
    }
  }

  lemma OperationIsRooted(operation: Operation, id: string)
    ensures Rooted(PathOf(operation, id))
  {
    OperationsBegin(operation, id);
  }

  /** A built path has dot segments exactly when its endpoint base has. */
  lemma BuiltHasDots(base: string, operation: Operation, id: string)
    requires BuildPath(base, operation, id).Ok?
    ensures HasDots(BuildPath(base, operation, id).value) <==> HasDots(TrimSlash(base))
    ensures Rooted(BuildPath(base, operation, id).value)
  {
    TrimStaysRooted(base);
    OperationIsRooted(operation, id);
    RootedBelow(TrimSlash(base), PathOf(operation, id));
    OperationHasNoDots(operation, id);
    DotsBelow("", Below(operation, id));
    DotsBelow(TrimSlash(base), Below(operation, id));
    DotsOfOne("");
    assert "" + PathOf(operation, id) == PathOf(operation, id);
  }

  lemma DotsStay(part: string, path: string)
    requires HasDots(part) && T.HasPrefix(path, part + "/")
    ensures HasDots(path)
  {
    var rest := path[|part| + 1..];
    assert path == part + "/" + rest;
    DotsOfTwo(part, rest);
  }

  lemma DotsAreOutside(base: string, path: string)
    requires HasDots(TrimSlash(base)) && !HasDots(path)
    ensures !T.HasPrefix(path, TrimSlash(base) + "/")
  {
    if T.HasPrefix(path, TrimSlash(base) + "/") {
      DotsStay(TrimSlash(base), path);
    }
  }

  lemma OutsideIsMissing(base: string, path: string)
    requires !T.HasPrefix(path, TrimSlash(base) + "/")
    ensures RoutePath(base, path) == if path == WELL_KNOWN then Document else NotFound
  {
  }

  /** Under an endpoint base with dot segments nothing that a client can request is routed. */
  lemma DotsAreNeverRouted(base: string, path: string)
    requires HasDots(TrimSlash(base)) && !HasDots(path)
    ensures RoutePath(base, path) == if path == WELL_KNOWN then Document else NotFound
  {
    DotsAreOutside(base, path);
    OutsideIsMissing(base, path);
  }

  /**
   The Service sends the address that a client requests for an operation and an identifier to that
   operation with that identifier, exactly when it is not a resource called `search` and the endpoint
   base has no dot segments.
   */
  lemma RoutingInvertsRequests(resolve: string -> string, base: string, operation: Operation, id: string)
    requires Resolves(resolve) && BuildPath(base, operation, id).Ok?
    ensures RoutePath(base, resolve(BuildPath(base, operation, id).value)) == To(operation, id) <==>
            !NamesSearch(operation, id) && !HasDots(TrimSlash(base))
  {
    var path := BuildPath(base, operation, id).value;
    BuiltHasDots(base, operation, id);
    if HasDots(TrimSlash(base)) {
      DotsAreNeverRouted(base, resolve(path));
    } else {
      RoutingInvertsBuilding(base, operation, id);
    }
  }

  /** What becomes of the request for an operation: it is answered there, unless the base has dot segments. */
  lemma RequestIsServed(resolve: string -> string, provided: set<Operation>, base: string, operation: Operation,
                        id: string)
    requires Resolves(resolve) && BuildPath(base, operation, id).Ok? && !NamesSearch(operation, id)
    ensures var path := BuildPath(base, operation, id).value;
            var answer := Serve(provided, base, OperationMethod(operation), resolve(path));
            if HasDots(TrimSlash(base)) then answer in {Missing, ServiceDocument, MethodNotAllowed}
            else answer == if Provides(provided, operation) then Call(operation, id) else Unsupported(operation)
  {
    var path := BuildPath(base, operation, id).value;
    BuiltHasDots(base, operation, id);
    if HasDots(TrimSlash(base)) {
      DotsAreNeverRouted(base, resolve(path));
    } else {
      BuiltRequestIsServed(provided, base, operation, id);
    }
  }

  /** Of the paths that a client can request, the one that reaches an operation is the one it builds for it. */
  lemma RequestsInvertRouting(resolve: string -> string, base: string, path: string, operation: Operation, id: string)
    requires Resolves(resolve) && T.HasPrefix(base, "/") && !T.HasPrefix(base, "//")
    requires !HasDots(path) && RoutePath(base, path) == To(operation, id)
    ensures BuildPath(base, operation, id).Ok? && resolve(BuildPath(base, operation, id).value) == path
  {
    BuildingInvertsRouting(base, path, operation, id);
    BuiltHasDots(base, operation, id);
  }

  // ----- The algorithm of section 5.2.4 -----

  /** The stack after one more segment: a dot is skipped, two dots take the last one off. */
  function Push(stack: seq<string>, segment: string): seq<string> {
    if segment == "." then stack
    else if segment == ".." then (if stack == [] then [] else stack[..|stack| - 1])
    else stack + [segment]
  }

  function Kept(segments: seq<string>, stack: seq<string>): seq<string> {
    if segments == [] then stack else Kept(segments[1..], Push(stack, segments[0]))
  }

  /** A path that ends in a dot segment ends in a slash once it is removed. */
  function RemoveDots(path: string): string {
    if !T.HasPrefix(path, "/") then path
    else
      var segments := T.Split(path[1..], '/');
      var kept := Kept(segments, []);
      "/" + T.Join(if IsDot(segments[|segments| - 1]) then kept + [""] else kept, "/")
  }

  /** Segments without dots and without slashes. */
  ghost predicate Plain(segments: seq<string>) {
    forall k :: 0 <= k < |segments| ==> !IsDot(segments[k]) && '/' !in segments[k]
  }

  lemma PushIsPlain(stack: seq<string>, segment: string)
    requires Plain(stack) && '/' !in segment
    ensures Plain(Push(stack, segment))
    ensures !IsDot(segment) ==> Push(stack, segment) == stack + [segment]
  {
  }

  lemma PlainRest(segments: seq<string>)
    requires segments != [] && Plain(segments)
    ensures Plain(segments[1..]) && !IsDot(segments[0])
  {
    assert forall k :: 0 <= k < |segments| - 1 ==> segments[1..][k] == segments[k + 1];
  }

  lemma {:induction false} KeptIsPlain(segments: seq<string>, stack: seq<string>)
    requires Plain(stack) && forall s :: s in segments ==> '/' !in s
    ensures Plain(Kept(segments, stack))
    decreases |segments|
  {
    if segments != [] {
      assert segments[0] in segments && forall t :: t in segments[1..] ==> t in segments;
      PushIsPlain(stack, segments[0]);
      KeptIsPlain(segments[1..], Push(stack, segments[0]));
    }
  }

  lemma {:induction false} KeptHasLast(segments: seq<string>, stack: seq<string>)
    requires segments != [] && !IsDot(segments[|segments| - 1])
    ensures Kept(segments, stack) != []
    decreases |segments|
  {
    if |segments| > 1 {
      KeptHasLast(segments[1..], Push(stack, segments[0]));
    }
  }

  lemma {:induction false} KeptOfPlain(segments: seq<string>, stack: seq<string>)
    requires Plain(segments)
    ensures Kept(segments, stack) == stack + segments
    decreases |segments|
  {
    if segments == [] {
      assert stack + [] == stack;
    } else {
      PlainRest(segments);
      KeptOfPlain(segments[1..], stack + [segments[0]]);
      assert stack + [segments[0]] + segments[1..] == stack + segments;
    }
  }

  lemma {:induction false} JoinOfPlain(segments: seq<string>)
    requires segments != [] && Plain(segments)
    ensures T.Split(T.Join(segments, "/"), '/') == segments
    decreases |segments|
  {
    if |segments| == 1 {
      SplitOne(segments[0], '/');
    } else {
      assert forall k :: 0 <= k < |segments| - 1 ==> segments[1..][k] == segments[k + 1];
      JoinOfPlain(segments[1..]);
      SplitOne(segments[0], '/');
      SplitAppend(segments[0], T.Join(segments[1..], "/"), '/');
      assert [segments[0]] + segments[1..] == segments;
    }
  }

  lemma JoinHasNoDots(segments: seq<string>)
    requires segments != [] && Plain(segments)
    ensures !HasDots("/" + T.Join(segments, "/"))
  {
    JoinOfPlain(segments);
    SplitOne("", '/');
    SplitAppend("", T.Join(segments, "/"), '/');
    assert "" + ['/'] + T.Join(segments, "/") == "/" + T.Join(segments, "/");
  }

  lemma RemovedPath(path: string)
    requires T.HasPrefix(path, "/")
    ensures !HasDots(RemoveDots(path)) && (!HasDots(path) ==> RemoveDots(path) == path)
  {
    var segments := T.Split(path[1..], '/');
    var kept := Kept(segments, []);
    var last := segments[|segments| - 1];
    KeptIsPlain(segments, []);
    if !IsDot(last) {
      KeptHasLast(segments, []);
    }
    JoinHasNoDots(if IsDot(last) then kept + [""] else kept);
    DotsOfOne("");
    DotsOfTwo("", path[1..]);
    assert "" + "/" + path[1..] == path;
    if !HasDots(path) {
      assert Plain(segments) && !IsDot(last);
      KeptOfPlain(segments, []);
      assert [] + segments == segments;
      T.SplitJoin(path[1..], '/');
      assert "/" + path[1..] == path;
    }
  }

  /** The algorithm has both properties, so there is such a resolution. */
  lemma RemoveDotsResolves()
    ensures Resolves(RemoveDots)
  {
    forall path | Rooted(path)
      ensures !HasDots(RemoveDots(path)) && (!HasDots(path) ==> RemoveDots(path) == path)
    {
      RemovedPath(path);
    }
  }

  lemma KeptNext(s: string, rest: seq<string>, stack: seq<string>)
    ensures Kept([s] + rest, stack) == Kept(rest, Push(stack, s))
  {
    assert ([s] + rest)[1..] == rest;
  }

  predicate IsPlain(segment: string) {
    '/' !in segment && !IsDot(segment)
  }

  lemma SegmentsSteppedBack(a: string, b: string, c: string)
    requires IsPlain(a) && IsPlain(b) && IsPlain(c)
    ensures T.Split(a + "/" + ".." + "/" + b + "/" + c, '/') == [a] + [".."] + [b] + [c]
  {
    SplitOne(a, '/');
    SplitOne("..", '/');
    SplitOne(b, '/');
    SplitOne(c, '/');
    SplitAppend(a, "..", '/');
    SplitAppend(a + "/" + "..", b, '/');
    SplitAppend(a + "/" + ".." + "/" + b, c, '/');
  }

  lemma KeptSteppedBack(a: string, b: string, c: string)
    requires IsPlain(a) && IsPlain(b) && IsPlain(c)
    ensures Kept([a] + [".."] + [b] + [c], []) == [b] + [c]
  {
    KeptNext(a, [".."] + [b] + [c], []);
    KeptNext("..", [b] + [c], [a]);
    KeptNext(b, [c], []);
    KeptNext(c, [], [b]);
    assert [a] + [".."] + [b] + [c] == [a] + ([".."] + [b] + [c]);
    assert [".."] + [b] + [c] == [".."] + ([b] + [c]) && [c] + [] == [c];
    assert [] + [a] == [a] && [a][..0] == [] && [] + [b] == [b];
  }

  lemma JoinOfTwo(b: string, c: string)
    ensures T.Join([b] + [c], "/") == b + "/" + c
  {
    assert ([b] + [c])[1..] == [c];
    assert T.Join([c], "/") == c;
  }

  /** A path that steps back over its first segment resolves to what follows. */
  lemma SteppedBack(a: string, b: string, c: string)
    requires IsPlain(a) && IsPlain(b) && IsPlain(c)
    ensures RemoveDots("/" + (a + "/" + ".." + "/" + b + "/" + c)) == "/" + (b + "/" + c)
  {
    var rest := a + "/" + ".." + "/" + b + "/" + c;
    assert ("/" + rest)[1..] == rest;
    SegmentsSteppedBack(a, b, c);
    KeptSteppedBack(a, b, c);
    JoinOfTwo(b, c);
  }

  /** A base that steps back over its first segment. */
  function DottedBase(a: string, b: string): string {
    "/" + (a + "/" + ".." + "/" + b)
  }

  lemma DottedHasDots(a: string, b: string)
    ensures HasDots(DottedBase(a, b))
  {
    DotsOfOne("..");
    DotsOfTwo(a, "..");
    DotsOfTwo(a + "/" + "..", b);
    DotsOfTwo("", a + "/" + ".." + "/" + b);
    assert "" + "/" + (a + "/" + ".." + "/" + b) == DottedBase(a, b);
  }

  lemma EndsInSegment(start: string, b: string)
    requires b != "" && '/' !in b
    ensures TrimSlash(start + b) == start + b
  {
    assert (start + b)[|start + b| - 1] == b[|b| - 1] && b[|b| - 1] in b;
  }

  lemma BeginsWithSegment(a: string, rest: string)
    requires a != "" && '/' !in a
    ensures T.HasPrefix("/" + (a + rest), "/") && !T.HasPrefix("/" + (a + rest), "//")
  {
    assert ("/" + (a + rest))[1] == a[0] && a[0] in a;
  }

  lemma BuiltFromDotted(a: string, b: string)
    requires IsPlain(a) && IsPlain(b) && a != "" && b != ""
    ensures TrimSlash(DottedBase(a, b)) == DottedBase(a, b)
    ensures BuildPath(DottedBase(a, b), ListOfferings, "") == Ok(DottedBase(a, b) + OFFERINGS)
  {
    BeginsWithSegment(a, "/" + ".." + "/" + b);
    assert a + ("/" + ".." + "/" + b) == a + "/" + ".." + "/" + b;
    EndsInSegment("/" + (a + "/" + ".." + "/"), b);
    assert "/" + (a + "/" + ".." + "/") + b == DottedBase(a, b);
  }

  lemma DottedResolves(a: string, b: string, c: string)
    requires IsPlain(a) && IsPlain(b) && IsPlain(c)
    ensures RemoveDots(DottedBase(a, b) + ("/" + c)) == "/" + b + ("/" + c)
  {
    SteppedBack(a, b, c);
    assert DottedBase(a, b) + ("/" + c) == "/" + (a + "/" + ".." + "/" + b + "/" + c);
    assert "/" + b + ("/" + c) == "/" + (b + "/" + c);
  }

  /**
   For every endpoint base of this form, such as "/a/../b", which the schema admits: the client asks for
   the path below the second segment, and the Service has no such path.
   */
  lemma DottedBaseIsUnreachable(a: string, b: string)
    requires IsPlain(a) && IsPlain(b) && a != "" && b != ""
    ensures var built := BuildPath(DottedBase(a, b), ListOfferings, "");
            && built == Ok(DottedBase(a, b) + OFFERINGS)
            && RemoveDots(built.value) == "/" + b + OFFERINGS
            && RoutePath(DottedBase(a, b), "/" + b + OFFERINGS) == NotFound
  {
    var c := OFFERINGS[1..];
    assert OFFERINGS == "/" + c;
    BuiltFromDotted(a, b);
    DottedHasDots(a, b);
    NotADot(c);
    DottedResolves(a, b, c);
    RemovedPath(DottedBase(a, b) + OFFERINGS);
    NotInWellKnown("/" + b, OFFERINGS);
    DotsAreNeverRouted(DottedBase(a, b), "/" + b + OFFERINGS);
  }
}

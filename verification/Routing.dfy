/**
 Where a request goes: the path that a client builds for an operation, references.go, and the way a
 Service reads a path back, service/service.go.
 */
module Routing {
  import opened Wrappers
  import T = Text

  datatype Operation =
    | GetCollection
    | GetOffering
    | ListCollectionOfferings
    | ListCollections
    | ListOfferings
    | SearchCollections
    | SearchOfferings

  const WELL_KNOWN := "/.well-known/odp"
  const OFFERINGS := "/offerings"
  const COLLECTIONS := "/collections"
  const OFFERING_PREFIX := "/offerings/"
  const COLLECTION_PREFIX := "/collections/"
  const SEARCH_OFFERINGS := "/offerings/search"
  const SEARCH_COLLECTIONS := "/collections/search"
  const MAX_IDENTIFIER := 128

  // ----- Identifiers -----

  predicate IdentifierChar(c: char) {
    'A' <= c <= 'Z' || 'a' <= c <= 'z' || '0' <= c <= '9' || c == '.' || c == '_' || c == '~' || c == '-'
  }

  predicate IsIdentifier(s: string) {
    && 1 <= |s| <= MAX_IDENTIFIER && (forall i :: 0 <= i < |s| ==> IdentifierChar(s[i]))
    && s != "." && s != ".."
  }

  // ----- The client's side -----

  datatype BuildError = BadBase | NeedsIdentifier(operation: Operation) | TakesNoIdentifier(operation: Operation)

  predicate NamesResource(operation: Operation) {
    operation.GetCollection? || operation.GetOffering? || operation.ListCollectionOfferings?
  }

  function OperationPath(operation: Operation, id: string): Result<string, BuildError> {
    if NamesResource(operation) && !IsIdentifier(id) then Err(NeedsIdentifier(operation))
    else if !NamesResource(operation) && id != "" then Err(TakesNoIdentifier(operation))
    else Ok(PathOf(operation, id))
  }

  function PathOf(operation: Operation, id: string): string {
    match operation
    case ListCollections => COLLECTIONS
    case SearchCollections => SEARCH_COLLECTIONS
    case GetCollection => COLLECTION_PREFIX + id
    case ListCollectionOfferings => COLLECTION_PREFIX + id + OFFERINGS
    case ListOfferings => OFFERINGS
    case SearchOfferings => SEARCH_OFFERINGS
    case GetOffering => OFFERING_PREFIX + id
  }

  function TrimSlash(base: string): string {
    if T.HasSuffix(base, "/") then base[..|base| - 1] else base
  }

  /** The path that a client builds for an operation and then resolves against the origin. */
  function BuildPath(base: string, operation: Operation, id: string): Result<string, BuildError> {
    if !T.HasPrefix(base, "/") || T.HasPrefix(base, "//") then Err(BadBase)
    else
      match OperationPath(operation, id)
      case Err(e) => Err(e)
      case Ok(path) => Ok(TrimSlash(base) + path)
  }

  datatype Verb = GET | HEAD | POST | Other

  function OperationMethod(operation: Operation): Verb {
    if operation.SearchCollections? || operation.SearchOfferings? then POST else GET
  }

  // ----- The Service's side -----

  /** A path segment read as an identifier: not one at all, a malformed one, or an identifier. */
  datatype Segment = NoSegment | Malformed | Identifier(id: string)

  function ReadIdentifier(value: string): Segment {
    if IsIdentifier(value) then Identifier(value) else Malformed
  }

  function ResourceId(path: string, prefix: string): Segment {
    if !T.HasPrefix(path, prefix) then NoSegment
    else
      var suffix := path[|prefix|..];
      if suffix == "" || '/' in suffix then NoSegment else ReadIdentifier(suffix)
  }

  function CollectionOfferingId(path: string): Segment {
    var prefix := COLLECTION_PREFIX;
    if !T.HasPrefix(path, prefix) || !T.HasSuffix(path, OFFERINGS) || |path| <= |prefix| + |OFFERINGS| then NoSegment
    else
      var id := path[|prefix|..|path| - |OFFERINGS|];
      if id == "" || '/' in id then NoSegment else ReadIdentifier(id)
  }

  datatype Route = Document | To(operation: Operation, id: string) | BadRequest | NotFound

  function RouteOperation(path: string): Route {
    if path == OFFERINGS then To(ListOfferings, "")
    else if path == SEARCH_OFFERINGS then To(SearchOfferings, "")
    else if path == COLLECTIONS then To(ListCollections, "")
    else if path == SEARCH_COLLECTIONS then To(SearchCollections, "")
    else
      match ResourceId(path, OFFERING_PREFIX)
      case Malformed => BadRequest
      case Identifier(id) => To(GetOffering, id)
      case NoSegment =>
        match CollectionOfferingId(path)
        case Malformed => BadRequest
        case Identifier(id) => To(ListCollectionOfferings, id)
        case NoSegment =>
          match ResourceId(path, COLLECTION_PREFIX)
          case Malformed => BadRequest
          case Identifier(id) => To(GetCollection, id)
          case NoSegment => NotFound
  }

  function RoutePath(base: string, path: string): Route {
    if path == WELL_KNOWN then Document
    else if !T.HasPrefix(path, TrimSlash(base) + "/") then NotFound
    else RouteOperation(path[|TrimSlash(base)|..])
  }

  datatype Answer =
    | ServiceDocument
    | Call(operation: Operation, id: string)
    | Unsupported(operation: Operation)
    | MethodNotAllowed
    | Invalid
    | Missing

  /** Offerings are always there to be listed and read; the other operations are optional. */
  predicate Provides(provided: set<Operation>, operation: Operation) {
    operation.ListOfferings? || operation.GetOffering? || operation in provided
  }

  predicate Allows(verb: Verb, post: bool) {
    verb == GET || verb == HEAD || (post && verb == POST)
  }

  /** What the Service does about a request, before it looks at anything but its method and its path. */
  function Serve(provided: set<Operation>, base: string, verb: Verb, path: string): Answer {
    match RoutePath(base, path)
    case NotFound => Missing
    case BadRequest => Invalid
    case Document => if Allows(verb, false) then ServiceDocument else MethodNotAllowed
    case To(operation, id) =>
      if !Provides(provided, operation) then Unsupported(operation)
      else if Allows(verb, OperationMethod(operation) == POST) then Call(operation, id)
      else MethodNotAllowed
  }

  // ----- The two sides agree -----

  /** The one clash: a resource called `search` has the path of the search operation. */
  predicate NamesSearch(operation: Operation, id: string) {
    (operation.GetOffering? || operation.GetCollection?) && id == "search"
  }

  lemma PlainSegment(prefix: string, id: string)
    requires IsIdentifier(id)
    ensures ResourceId(prefix + id, prefix) == Identifier(id)
  {
    assert (prefix + id)[|prefix|..] == id;
    assert '/' !in id;
  }

  lemma MemberSegment(id: string)
    requires IsIdentifier(id)
    ensures CollectionOfferingId(COLLECTION_PREFIX + id + OFFERINGS) == Identifier(id)
  {
    var path := COLLECTION_PREFIX + id + OFFERINGS;
    assert path[|COLLECTION_PREFIX|..|path| - |OFFERINGS|] == id;
    assert path[|path| - |OFFERINGS|..] == OFFERINGS;
    assert T.HasPrefix(path, COLLECTION_PREFIX);
    assert '/' !in id;
  }

  lemma NoSlashNoSuffix(prefix: string, value: string)
    requires '/' !in value
    ensures |value| >= |OFFERINGS| ==> !T.HasSuffix(prefix + value, OFFERINGS)
  {
    if |value| >= |OFFERINGS| {
      var path := prefix + value;
      var i := |path| - |OFFERINGS|;
      assert path[i] == value[i - |prefix|];
      assert path[i..][0] == path[i];
    }
  }

  /** A Collection may itself be called `offerings`. */
  lemma NotAMember(id: string)
    requires IsIdentifier(id)
    ensures CollectionOfferingId(COLLECTION_PREFIX + id) == NoSegment
  {
    NoSlashNoSuffix(COLLECTION_PREFIX, id);
  }

  lemma OfferingPath(id: string)
    requires IsIdentifier(id)
    ensures RouteOperation(OFFERING_PREFIX + id)
         == if id == "search" then To(SearchOfferings, "") else To(GetOffering, id)
  {
    var path := OFFERING_PREFIX + id;
    PlainSegment(OFFERING_PREFIX, id);
    assert path[1] == 'o' && path[|OFFERING_PREFIX|..] == id;
    if path == SEARCH_OFFERINGS {
      assert SEARCH_OFFERINGS[|OFFERING_PREFIX|..] == "search";
    }
  }

  lemma CollectionPath(id: string)
    requires IsIdentifier(id)
    ensures RouteOperation(COLLECTION_PREFIX + id)
         == if id == "search" then To(SearchCollections, "") else To(GetCollection, id)
  {
    var path := COLLECTION_PREFIX + id;
    PlainSegment(COLLECTION_PREFIX, id);
    NotAMember(id);
    assert path[1] == 'c' && path[|COLLECTION_PREFIX|..] == id;
    assert !T.HasPrefix(path, OFFERING_PREFIX) by { assert OFFERING_PREFIX[1] == 'o'; }
    if path == SEARCH_COLLECTIONS {
      assert SEARCH_COLLECTIONS[|COLLECTION_PREFIX|..] == "search";
    }
  }

  lemma MemberPath(id: string)
    requires IsIdentifier(id)
    ensures RouteOperation(COLLECTION_PREFIX + id + OFFERINGS) == To(ListCollectionOfferings, id)
  {
    var path := COLLECTION_PREFIX + id + OFFERINGS;
    MemberSegment(id);
    assert path[1] == 'c' && path[|COLLECTION_PREFIX + id|] == '/';
    assert !T.HasPrefix(path, OFFERING_PREFIX) by { assert OFFERING_PREFIX[1] == 'o'; }
    assert |path| > |SEARCH_COLLECTIONS| || path != SEARCH_COLLECTIONS;
  }

  /** Every operation's path begins with `/of` or `/co`. */
  predicate BeginsLikeOperation(path: string) {
    |path| >= 3 && path[0] == '/' && ((path[1] == 'o' && path[2] == 'f') || (path[1] == 'c' && path[2] == 'o'))
  }

  lemma OperationsBegin(operation: Operation, id: string)
    ensures BeginsLikeOperation(PathOf(operation, id))
  {
  }

  lemma NotInWellKnown(base: string, path: string)
    requires BeginsLikeOperation(path)
    ensures base + path != WELL_KNOWN
  {
    var whole := base + path;
    assert whole[|base|] == path[0] && whole[|base| + 1] == path[1] && whole[|base| + 2] == path[2];
  }

  /** A built path cannot be taken for the well-known document, whatever the endpoint base. */
  lemma NeverWellKnown(base: string, operation: Operation, id: string)
    ensures TrimSlash(base) + PathOf(operation, id) != WELL_KNOWN
  {
    OperationsBegin(operation, id);
    NotInWellKnown(TrimSlash(base), PathOf(operation, id));
  }

  lemma BuiltOperation(operation: Operation, id: string)
    requires OperationPath(operation, id).Ok?
    ensures NamesSearch(operation, id) ==>
              RouteOperation(PathOf(operation, id)) in {To(SearchOfferings, ""), To(SearchCollections, "")}
    ensures !NamesSearch(operation, id) ==> RouteOperation(PathOf(operation, id)) == To(operation, id)
  {
    match operation
    case ListCollections => assert COLLECTIONS[1] == 'c' && OFFERINGS[1] == 'o';
    case SearchCollections => assert SEARCH_COLLECTIONS[1] == 'c' && OFFERINGS[1] == 'o';
    case ListOfferings =>
    case SearchOfferings =>
    case GetCollection => CollectionPath(id);
    case GetOffering => OfferingPath(id);
    case ListCollectionOfferings => MemberPath(id);
  }

  /**
   Routing undoes path building: the Service sends the path that a client built for an operation and
   an identifier to that operation with that identifier, except for a resource called `search`.
   */
  lemma RoutingInvertsBuilding(base: string, operation: Operation, id: string)
    requires BuildPath(base, operation, id).Ok?
    ensures RoutePath(base, BuildPath(base, operation, id).value) == To(operation, id) <==> !NamesSearch(operation, id)
  {
    var trimmed := TrimSlash(base);
    var path := trimmed + PathOf(operation, id);
    NeverWellKnown(base, operation, id);
    assert path[|trimmed|..] == PathOf(operation, id);
    assert T.HasPrefix(path, trimmed + "/") by { assert PathOf(operation, id)[0] == '/'; }
    BuiltOperation(operation, id);
  }

  /** The request that a client makes for an operation is answered by that operation, if it is provided. */
  lemma BuiltRequestIsServed(provided: set<Operation>, base: string, operation: Operation, id: string)
    requires BuildPath(base, operation, id).Ok? && !NamesSearch(operation, id)
    ensures Serve(provided, base, OperationMethod(operation), BuildPath(base, operation, id).value)
         == if Provides(provided, operation) then Call(operation, id) else Unsupported(operation)
  {
    RoutingInvertsBuilding(base, operation, id);
  }

  /** The request for a resource called `search` is never answered by its own operation. */
  lemma SearchIsShadowed(provided: set<Operation>, base: string, operation: Operation)
    requires NamesSearch(operation, "search") && BuildPath(base, operation, "search").Ok?
    ensures Serve(provided, base, GET, BuildPath(base, operation, "search").value)
         == var taker := if operation.GetOffering? then SearchOfferings else SearchCollections;
            if taker in provided then Call(taker, "") else Unsupported(taker)
  {
    var trimmed := TrimSlash(base);
    var path := trimmed + PathOf(operation, "search");
    NeverWellKnown(base, operation, "search");
    assert path[|trimmed|..] == PathOf(operation, "search");
    assert T.HasPrefix(path, trimmed + "/") by { assert PathOf(operation, "search")[0] == '/'; }
    if operation.GetOffering? {
      OfferingPath("search");
    } else {
      CollectionPath("search");
    }
  }

  // ----- Nothing else is routed -----

  lemma ReadBack(path: string, prefix: string)
    ensures ResourceId(path, prefix).Identifier? ==>
              path == prefix + ResourceId(path, prefix).id && IsIdentifier(ResourceId(path, prefix).id)
  {
  }

  lemma MemberReadBack(path: string)
    ensures CollectionOfferingId(path).Identifier? ==>
              && path == COLLECTION_PREFIX + CollectionOfferingId(path).id + OFFERINGS
              && IsIdentifier(CollectionOfferingId(path).id)
  {
    if CollectionOfferingId(path).Identifier? {
      var n := |COLLECTION_PREFIX|;
      var m := |path| - |OFFERINGS|;
      assert path == path[..n] + path[n..m] + path[m..];
    }
  }

  lemma RoutedOperation(path: string)
    requires RouteOperation(path).To?
    ensures OperationPath(RouteOperation(path).operation, RouteOperation(path).id) == Ok(path)
  {
    match RouteOperation(path).operation
    case GetOffering => ReadBack(path, OFFERING_PREFIX);
    case ListCollectionOfferings => MemberReadBack(path);
    case GetCollection => ReadBack(path, COLLECTION_PREFIX);
    case _ =>
  }

  /**
   Building undoes routing: a path that is sent to an operation is the one path that a client builds
   for it, so each resource is reachable at exactly one path.
   */
  lemma BuildingInvertsRouting(base: string, path: string, operation: Operation, id: string)
    requires T.HasPrefix(base, "/") && !T.HasPrefix(base, "//")
    requires RoutePath(base, path) == To(operation, id)
    ensures BuildPath(base, operation, id) == Ok(path) && !NamesSearch(operation, id)
  {
    RoutedSuffix(base, path, operation, id);
    RoutedOperation(path[|TrimSlash(base)|..]);
    assert BuildPath(base, operation, id) == Ok(path);
    RoutingInvertsBuilding(base, operation, id);
  }

  lemma RoutedSuffix(base: string, path: string, operation: Operation, id: string)
    requires RoutePath(base, path) == To(operation, id)
    ensures TrimSlash(base) <= path && path == TrimSlash(base) + path[|TrimSlash(base)|..]
    ensures RouteOperation(path[|TrimSlash(base)|..]) == To(operation, id)
  {
    PrefixOfPrefix(path, TrimSlash(base), "/");
  }

  lemma PrefixOfPrefix(path: string, a: string, b: string)
    requires a + b <= path
    ensures a <= path && path == a + path[|a|..]
  {
  }

  /** The paths of a request that is refused as invalid: one segment that is not an identifier. */
  lemma InvalidExactly(path: string)
    ensures RouteOperation(path).BadRequest? <==>
              exists value: string :: BadSegment(path, value)
  {
    if RouteOperation(path).BadRequest? {
      RefusedHasBadSegment(path);
    }
    if value: string :| BadSegment(path, value) {
      BadSegmentIsRefused(path, value);
    }
  }

  lemma RefusedHasBadSegment(path: string)
    requires RouteOperation(path).BadRequest?
    ensures exists value: string :: BadSegment(path, value)
  {
    var n, m := |COLLECTION_PREFIX|, |path| - |OFFERINGS|;
    if ResourceId(path, OFFERING_PREFIX).Malformed? {
      assert BadSegment(path, path[|OFFERING_PREFIX|..]);
    } else if CollectionOfferingId(path).Malformed? {
      assert path == path[..n] + path[n..m] + path[m..];
      assert BadSegment(path, path[n..m]);
    } else {
      assert BadSegment(path, path[n..]);
    }
  }

  predicate BadSegment(path: string, value: string) {
    && value != "" && '/' !in value && !IsIdentifier(value)
    && (path == OFFERING_PREFIX + value || path == COLLECTION_PREFIX + value
        || path == COLLECTION_PREFIX + value + OFFERINGS)
  }

  lemma BadOffering(value: string)
    requires value != "" && '/' !in value && !IsIdentifier(value)
    ensures RouteOperation(OFFERING_PREFIX + value).BadRequest?
  {
    var path := OFFERING_PREFIX + value;
    assert IsIdentifier("search");
    assert path[|OFFERING_PREFIX|..] == value && path[1] == 'o';
    assert path != SEARCH_OFFERINGS by { assert SEARCH_OFFERINGS[|OFFERING_PREFIX|..] == "search"; }
  }

  lemma BadCollection(value: string)
    requires value != "" && '/' !in value && !IsIdentifier(value)
    ensures RouteOperation(COLLECTION_PREFIX + value).BadRequest?
  {
    var path := COLLECTION_PREFIX + value;
    assert IsIdentifier("search");
    assert path[|COLLECTION_PREFIX|..] == value && path[1] == 'c' && OFFERING_PREFIX[1] == 'o';
    assert path != SEARCH_COLLECTIONS by { assert SEARCH_COLLECTIONS[|COLLECTION_PREFIX|..] == "search"; }
    NoSlashNoSuffix(COLLECTION_PREFIX, value);
  }

  lemma BadMember(value: string)
    requires value != "" && '/' !in value && !IsIdentifier(value)
    ensures RouteOperation(COLLECTION_PREFIX + value + OFFERINGS).BadRequest?
  {
    var path := COLLECTION_PREFIX + value + OFFERINGS;
    var n, m := |COLLECTION_PREFIX|, |path| - |OFFERINGS|;
    assert path[1] == 'c' && OFFERING_PREFIX[1] == 'o' && path[m] == '/';
    assert path[n..m] == value && path[m..] == OFFERINGS;
    assert path != SEARCH_COLLECTIONS by { assert '/' !in SEARCH_COLLECTIONS[n..]; }
  }

  lemma BadSegmentIsRefused(path: string, value: string)
    requires BadSegment(path, value)
    ensures RouteOperation(path).BadRequest?
  {
    BadOffering(value);
    BadCollection(value);
    BadMember(value);
  }

  // ----- The protocol's addresses -----

  /** The identifiers of the protocol: up to 128 unreserved characters, and not a dot segment. */
  lemma IdentifierExactly(s: string)
    ensures IsIdentifier(s) <==>
            && 0 < |s| < 129 && s !in {".", ".."}
            && forall c :: c in s ==> Unreserved(c)
  {
    forall i | 0 <= i < |s| ensures IdentifierChar(s[i]) <==> Unreserved(s[i]) {
    }
    assert forall i :: 0 <= i < |s| ==> s[i] in s;
  }

  /** Section 2.3 of RFC 3986: a letter, a digit, or one of four marks. */
  predicate Unreserved(c: char) {
    || c in {'-', '.', '_', '~'}
    || 48 <= c as int <= 57 || 65 <= c as int <= 90 || 97 <= c as int <= 122
  }

  /** Where each operation is found below an endpoint base, and with which method it is called. */
  lemma Addresses(base: string, id: string)
    requires T.HasPrefix(base, "/") && !T.HasPrefix(base, "//") && IsIdentifier(id)
    ensures var start := if base[|base| - 1] == '/' then base[..|base| - 1] else base;
            && BuildPath(base, ListOfferings, "") == Ok(start + "/offerings")
            && BuildPath(base, GetOffering, id) == Ok(start + ("/offerings/" + id))
            && BuildPath(base, SearchOfferings, "") == Ok(start + "/offerings/search")
            && BuildPath(base, ListCollections, "") == Ok(start + "/collections")
            && BuildPath(base, GetCollection, id) == Ok(start + ("/collections/" + id))
            && BuildPath(base, SearchCollections, "") == Ok(start + "/collections/search")
            && BuildPath(base, ListCollectionOfferings, id) == Ok(start + ("/collections/" + id + "/offerings"))
    ensures forall operation :: OperationMethod(operation) ==
              if operation == SearchOfferings || operation == SearchCollections then POST else GET
  {
  }

  /** When no path is built, and why. */
  lemma BuildFails(base: string, operation: Operation, id: string)
    ensures var named := operation in {GetOffering, GetCollection, ListCollectionOfferings};
            && (BuildPath(base, operation, id) == Err(BadBase) <==> !T.HasPrefix(base, "/") || T.HasPrefix(base, "//"))
            && (BuildPath(base, operation, id).Err? <==>
                  || !T.HasPrefix(base, "/") || T.HasPrefix(base, "//")
                  || (named && !IsIdentifier(id)) || (!named && id != ""))
  {
  }

  /** What answers a request that is routed to an operation, by its verb. */
  lemma VerbDecides(provided: set<Operation>, base: string, verb: Verb, path: string, operation: Operation, id: string)
    requires RoutePath(base, path) == To(operation, id)
    ensures var answer := Serve(provided, base, verb, path);
            if operation !in provided && operation != ListOfferings && operation != GetOffering
            then answer == Unsupported(operation)
            else if verb == GET || verb == HEAD || (verb == POST && operation in {SearchOfferings, SearchCollections})
            then answer == Call(operation, id)
            else answer == MethodNotAllowed
  {
  }

  /** The Service Document is at the well-known path, whatever the endpoint base, and is only read. */
  lemma DocumentIsServed(provided: set<Operation>, base: string, verb: Verb)
    ensures Serve(provided, base, verb, "/.well-known/odp") ==
            if verb == GET || verb == HEAD then ServiceDocument else MethodNotAllowed
  {
  }
}

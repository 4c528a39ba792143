/**
 What an Agent knows, as the protocol's schemas list it: which strings a member may hold, and which
 members an object may have. The rules of validation.go are shown to keep exactly what is known.
 */
module Vocabulary {
  import opened Wrappers
  import opened Json
  import opened Normalization

  // ----- Clauses -----

  /** Where a value lies in an object: the members that lead to it. */
  type Path = seq<string>

  function Find(v: Json, path: Path): Option<Json> {
    if path == [] then Some(v)
    else if v.Object? && path[0] in v.members then Find(v.members[path[0]], path[1..])
    else None
  }

  /** A string found there is one of these; an object found there has no members but these. */
  datatype Clause =
    | OneOf(path: Path, values: set<string>)
    | EachOneOf(list: Path, path: Path, values: set<string>)
    | Only(path: Path, keys: set<string>)

  predicate Allowed(found: Option<Json>, values: set<string>) {
    found.Some? && found.value.String? ==> found.value.text in values
  }

  predicate Meets(v: Json, clause: Clause) {
    match clause
    case OneOf(path, values) => Allowed(Find(v, path), values)
    case EachOneOf(list, path, values) =>
      var found := Find(v, list);
      found.Some? && found.value.Array? ==> forall x :: x in found.value.items ==> Allowed(Find(x, path), values)
    case Only(path, keys) =>
      var found := Find(v, path);
      found.Some? && found.value.Object? ==> found.value.members.Keys <= keys
  }

  predicate Recognised(v: Json, clauses: set<Clause>) {
    forall clause :: clause in clauses ==> Meets(v, clause)
  }

  // ----- The schemas -----

  const AUTHENTICATION := OneOf(["authentication"], {"required", "optional", "not-required"})

  const OPERATION_NAMES := {"list-offerings", "get-offering", "search-offerings", "list-collections", "get-collection",
    "search-collections", "list-collection-offerings"}
  const OPERATION_MEMBERS := {"name", "authentication"}
  const OPERATION_CLAUSES := {OneOf(["name"], OPERATION_NAMES), AUTHENTICATION, Only([], OPERATION_MEMBERS)}

  const MCP_TYPES := {"streamable-http"}
  const MCP_MEMBERS := {"type", "url", "name", "description"}
  const MCP_CLAUSES := {OneOf(["type"], MCP_TYPES), Only([], MCP_MEMBERS)}

  const ENROLLMENT_CLAUSES := {OneOf(["name"], {"aep"})}
  const TRUST_CLAUSES := {OneOf(["name"], {"tap"})}
  const PAYMENT_NAME_CLAUSES := {OneOf(["name"], {"x402", "mpp"})}
  const PAYMENT_CLAUSES := {OneOf(["name"], {"x402", "mpp"}), AUTHENTICATION}

  const OPTION_CLAUSES := {OneOf([], {"algorand", "aptos", "arbitrum", "arc", "avalanche", "base", "card", "ethereum",
    "hedera", "inflow", "lightning", "monad", "polygon", "solana", "stellar", "stripe", "tempo", "ton"})}

  const FILTER_CLAUSES := {
    OneOf(["type"], {"string", "boolean", "integer", "number", "decimal", "date", "date-time"}),
    EachOneOf(["operators"], [], {"eq", "in", "lt", "lte", "gt", "gte", "exists"}),
    OneOf(["unit", "system"], {"ucum", "service"})}

  const SORT_CLAUSES := {
    EachOneOf(["keys"], ["direction"], {"ascending", "descending"}),
    EachOneOf(["keys"], ["missing"], {"first", "last"})}

  const IMAGE_TYPES := {"image/svg+xml", "image/png", "image/webp", "image/jpeg", "image/avif"}
  const IMAGE_CLAUSES := {OneOf(["type"], IMAGE_TYPES)}

  const BRANDING_CLAUSES := {
    OneOf(["icon", "type"], {"image/svg+xml", "image/png", "image/webp"}),
    OneOf(["logo", "type"], {"image/svg+xml", "image/png", "image/webp"})}

  const SCHEMA_CLAUSES := {Only([], {"url"})}

  const PRICE_CLAUSES := {OneOf(["type"], {"free", "fixed", "starting_at", "range", "metered", "quote"})}

  const ACTION_MEMBERS := {
    Only([], {"id", "rel", "description", "authentication", "http", "openapi"}),
    Only(["openapi"], {"url", "operation_id"})}

  const ACTION_HTTP := {
    OneOf(["http", "method"], {"GET", "POST"}),
    Only(["http"], {"href", "method", "request", "response_content_types"}),
    Only(["http", "request"], {"content_type", "schema"}),
    Only(["http", "request", "schema"], {"url"})}

  const ACTION_CLAUSES := {AUTHENTICATION} + ACTION_MEMBERS + ACTION_HTTP

  const PARAMETER_PLACES := {"query", "body", "header", "path"}
  const PARAMETER_CLAUSES := {OneOf(["in"], PARAMETER_PLACES)}

  // ----- The rules of the source -----

  lemma FindOne(v: Json, a: string)
    ensures Find(v, [a]) == if v.Object? then Get(v.members, a) else None
  {
    assert [a][1..] == [];
  }

  lemma FindTwo(v: Json, a: string, b: string)
    ensures Find(v, [a, b]) == (match Find(v, [a]) case Some(x) => Find(x, [b]) case None => None)
  {
    assert [a, b][1..] == [b] && [a][1..] == [];
  }

  lemma FindThree(v: Json, a: string, b: string, c: string)
    ensures Find(v, [a, b, c]) == (match Find(v, [a, b]) case Some(x) => Find(x, [c]) case None => None)
  {
    assert [a, b, c][1..] == [b, c];
    if v.Object? && a in v.members {
      FindTwo(v.members[a], b, c);
    }
    FindTwo(v, a, b);
    FindOne(v, a);
  }

  lemma KeepsKnownText(x: Json, member: string, values: set<string>)
    ensures Keeps(Known(member, values), x) <==> Meets(x, OneOf([member], values))
  {
    FindOne(x, member);
  }

  lemma KeepsKnownAuthentication(x: Json)
    ensures Keeps(KnownAuthentication, x) <==> Meets(x, AUTHENTICATION)
  {
    FindOne(x, "authentication");
  }

  lemma KeepsClosed(x: Json, keys: set<string>)
    ensures Keeps(Closed(keys), x) <==> Meets(x, Only([], keys))
  {
  }

  lemma KeepsOption(x: Json)
    ensures Keeps(PAYMENT_OPTIONS, x) <==> Recognised(x, OPTION_CLAUSES)
  {
    var clause := OneOf([], PAYMENT_OPTIONS.allowed);
    assert OPTION_CLAUSES == {clause};
    assert Keeps(PAYMENT_OPTIONS, x) <==> Meets(x, clause);
  }

  lemma KeepsFilter(x: Json)
    ensures Keeps(KnownFilter, x) <==> Recognised(x, FILTER_CLAUSES)
  {
    FindOne(x, "type");
    FindOne(x, "operators");
    FindTwo(x, "unit", "system");
    FindOne(x, "unit");
    if Find(x, ["unit"]).Some? {
      FindOne(Find(x, ["unit"]).value, "system");
    }
  }

  lemma KeepsSort(x: Json)
    ensures Keeps(KnownSort, x) <==> Recognised(x, SORT_CLAUSES)
  {
    FindOne(x, "keys");
    forall k: Json {
      FindOne(k, "direction");
    }
    forall k: Json {
      FindOne(k, "missing");
    }
  }

  function Member(v: Option<Json>, member: string): Option<Json> {
    if v.Some? && v.value.Object? then Get(v.value.members, member) else None
  }

  lemma FindMember(v: Json, path: Path, member: string)
    ensures Find(v, path + [member]) == Member(Find(v, path), member)
    decreases |path|
  {
    if path == [] {
      FindOne(v, member);
      assert [] + [member] == [member];
    } else if v.Object? && path[0] in v.members {
      FindMember(v.members[path[0]], path[1..], member);
      assert (path + [member])[1..] == path[1..] + [member];
    }
  }

  lemma ActionParts(x: Json)
    ensures Find(x, ["http"]) == Member(Some(x), "http") && Find(x, ["openapi"]) == Member(Some(x), "openapi")
    ensures Find(x, ["http", "method"]) == Member(Member(Some(x), "http"), "method")
    ensures Find(x, ["http", "request"]) == Member(Member(Some(x), "http"), "request")
    ensures Find(x, ["http", "request", "schema"]) == Member(Member(Member(Some(x), "http"), "request"), "schema")
  {
    FindMember(x, [], "http");
    FindMember(x, [], "openapi");
    FindMember(x, ["http"], "method");
    FindMember(x, ["http"], "request");
    FindMember(x, ["http", "request"], "schema");
    assert [] + ["http"] == ["http"] && [] + ["openapi"] == ["openapi"];
    assert ["http"] + ["method"] == ["http", "method"] && ["http"] + ["request"] == ["http", "request"];
    assert ["http", "request"] + ["schema"] == ["http", "request", "schema"];
  }

  lemma ActionMembers(x: Json)
    ensures Recognised(x, ACTION_MEMBERS) <==>
            (x.Object? ==>
               && OnlyKeys(Some(x.members), {"authentication", "description", "http", "id", "openapi", "rel"})
               && OnlyKeys(Child(x.members, "openapi"), {"operation_id", "url"}))
  {
    ActionParts(x);
  }

  lemma ActionHttp(x: Json)
    ensures Recognised(x, ACTION_HTTP) <==>
            (x.Object? && Child(x.members, "http").Some? ==>
               var http := Child(x.members, "http").value;
               && OnlyKeys(Some(http), {"href", "method", "request", "response_content_types"})
               && (Text(http, "method").Some? ==> Text(http, "method").value in {"GET", "POST"})
               && (Child(http, "request").Some? ==>
                     && OnlyKeys(Child(http, "request"), {"content_type", "schema"})
                     && OnlyKeys(Child(Child(http, "request").value, "schema"), {"url"})))
  {
    ActionParts(x);
  }

  lemma KeepsAction(x: Json)
    ensures Keeps(UsableAction, x) <==> Recognised(x, ACTION_CLAUSES)
  {
    KeepsKnownAuthentication(x);
    ActionMembers(x);
    ActionHttp(x);
    assert Recognised(x, ACTION_CLAUSES) <==>
           Meets(x, AUTHENTICATION) && Recognised(x, ACTION_MEMBERS) && Recognised(x, ACTION_HTTP);
  }

  lemma KeepsOperation(x: Json)
    ensures Keeps(OPERATIONS, x) && Keeps(KnownAuthentication, x) && Keeps(OPERATION_KEYS, x) <==>
            Recognised(x, OPERATION_CLAUSES)
  {
    assert OPERATIONS.allowed == OPERATION_NAMES;
    assert OPERATION_KEYS.allowed == OPERATION_MEMBERS;
    KeepsKnownText(x, "name", OPERATION_NAMES);
    KeepsKnownAuthentication(x);
    KeepsClosed(x, OPERATION_MEMBERS);
  }

  lemma KeepsMcp(x: Json)
    ensures Keeps(MCP, x) && Keeps(MCP_KEYS, x) <==> Recognised(x, MCP_CLAUSES)
  {
    assert MCP.allowed == MCP_TYPES;
    assert MCP_KEYS.allowed == MCP_MEMBERS;
    KeepsKnownText(x, "type", MCP_TYPES);
    KeepsClosed(x, MCP_MEMBERS);
  }

  lemma KeepsNamed(x: Json)
    ensures Keeps(ENROLLMENT, x) <==> Recognised(x, ENROLLMENT_CLAUSES)
    ensures Keeps(TRUST, x) <==> Recognised(x, TRUST_CLAUSES)
    ensures Keeps(PAYMENTS, x) <==> Recognised(x, PAYMENT_NAME_CLAUSES)
    ensures Keeps(PAYMENTS, x) && Keeps(KnownAuthentication, x) <==> Recognised(x, PAYMENT_CLAUSES)
  {
    KeepsKnownText(x, "name", {"aep"});
    KeepsKnownText(x, "name", {"tap"});
    KeepsKnownText(x, "name", {"x402", "mpp"});
    KeepsKnownAuthentication(x);
    assert PAYMENTS.allowed == {"x402", "mpp"};
  }

  lemma KeepsImage(x: Json)
    ensures Keeps(IMAGES, x) <==> Recognised(x, IMAGE_CLAUSES)
  {
    assert IMAGES.allowed == IMAGE_TYPES;
    KeepsKnownText(x, "type", IMAGE_TYPES);
  }

  lemma KeepsParameter(x: Json)
    ensures Keeps(PROBLEM_LOCATIONS, x) <==> Recognised(x, PARAMETER_CLAUSES)
  {
    assert PROBLEM_LOCATIONS.allowed == PARAMETER_PLACES;
    KeepsKnownText(x, "in", PARAMETER_PLACES);
  }
}

/**
 The Agent's normalisation against the strict schemas: what the schema of a Service Document or of a
 Collection accepts is left alone, and what the schema of an Offering accepts is left alone unless it
 has a price of an unknown type or search capabilities of its own.
 */
module StrictAgreement {
  import opened Wrappers
  import opened Json
  import opened Normalization
  import opened NormalizationStability
  import opened Vocabulary

  // ----- The strict schema, as far as it concerns what normalisation touches -----

  ghost predicate StrictOperation(x: Json) {
    && x.Object? && (forall k :: k in x.members ==> k in {"authentication", "name"})
    && Text(x.members, "name").Some? && Text(x.members, "name").value in OPERATION_NAMES
    && Text(x.members, "authentication").Some?
    && Text(x.members, "authentication").value in {"not-required", "optional", "required"}
  }

  ghost predicate StrictMcp(x: Json) {
    && x.Object? && (forall k :: k in x.members ==> k in {"description", "name", "type", "url"})
    && Text(x.members, "type") == Some("streamable-http")
  }

  ghost predicate StrictDescriptor(x: Json, name: string) {
    x.Object? && Text(x.members, "name") == Some(name)
  }

  ghost predicate StrictPayment(x: Json) {
    && x.Object?
    && Text(x.members, "name").Some? && Text(x.members, "name").value in {"mpp", "x402"}
    && Text(x.members, "authentication").Some?
    && Text(x.members, "authentication").value in {"not-required", "required"}
    && ("options" in x.members ==>
          && x.members["options"].Array? && x.members["options"].items != []
          && forall o :: o in x.members["options"].items ==> o.String? && Recognised(o, OPTION_CLAUSES))
  }

  ghost predicate ListOf(d: Members, member: string, each: Json -> bool) {
    member in d && d[member].Array? && d[member].items != [] && forall x :: x in d[member].items ==> each(x)
  }

  ghost predicate StrictProtocols(p: Members) {
    && p != map[] && (forall k :: k in p ==> k in {"enrollment", "payments", "trust"})
    && ("enrollment" in p ==> ListOf(p, "enrollment", x => StrictDescriptor(x, "aep")))
    && ("payments" in p ==> ListOf(p, "payments", x => StrictPayment(x)))
    && ("trust" in p ==> ListOf(p, "trust", x => StrictDescriptor(x, "tap")))
  }

  ghost predicate StrictBrandingImage(x: Json) {
    && x.Object? && (forall k :: k in x.members ==> k in {"src", "type"})
    && ("type" in x.members ==>
          x.members["type"].String? && x.members["type"].text in {"image/svg+xml", "image/png", "image/webp"})
  }

  ghost predicate StrictBranding(b: Members) {
    && b.Keys == {"icon", "logo"}
    && StrictBrandingImage(b["icon"]) && StrictBrandingImage(b["logo"])
  }

  ghost predicate StrictFilter(x: Json) {
    && x.Object?
    && Text(x.members, "type").Some?
    && Text(x.members, "type").value in {"string", "boolean", "integer", "number", "decimal", "date", "date-time"}
    && ListOf(x.members, "operators",
              (o: Json) => o.String? && o.text in {"eq", "in", "lt", "lte", "gt", "gte", "exists"})
    && ("unit" in x.members ==>
          Child(x.members, "unit").Some? && Text(Child(x.members, "unit").value, "system").Some?
          && Text(Child(x.members, "unit").value, "system").value in {"ucum", "service"})
  }

  ghost predicate StrictSortKey(x: Json) {
    && x.Object?
    && Text(x.members, "direction").Some? && Text(x.members, "direction").value in {"ascending", "descending"}
    && Text(x.members, "missing").Some? && Text(x.members, "missing").value in {"first", "last"}
  }

  ghost predicate StrictSort(x: Json) {
    x.Object? && ListOf(x.members, "keys", k => StrictSortKey(k))
  }

  /** A capability source has inline definitions or a link, not both. */
  ghost predicate StrictSource(c: Members, member: string, each: Json -> bool) {
    member in c ==>
      && Child(c, member).Some?
      && ("inline" in Child(c, member).value <==> "linked" !in Child(c, member).value)
      && ("inline" in Child(c, member).value ==> ListOf(Child(c, member).value, "inline", each))
  }

  ghost predicate StrictCapabilities(c: Members) {
    && ("filters" in c || "sorts" in c)
    && StrictSource(c, "filters", x => StrictFilter(x)) && StrictSource(c, "sorts", x => StrictSort(x))
  }

  /** The clauses of the Service Document schema for the members that normalisation may change. */
  ghost predicate StrictServiceDocument(d: Members) {
    && ListOf(d, "operations", x => StrictOperation(x))
    && ("mcp" in d ==> ListOf(d, "mcp", x => StrictMcp(x)))
    && ("protocols" in d ==> Child(d, "protocols").Some? && StrictProtocols(Child(d, "protocols").value))
    && ("branding" in d ==> Child(d, "branding").Some? && StrictBranding(Child(d, "branding").value))
    && ("search_capabilities" in d ==>
          Child(d, "search_capabilities").Some? && StrictCapabilities(Child(d, "search_capabilities").value))
  }

  lemma StrictOperationKept(x: Json)
    requires StrictOperation(x)
    ensures Keeps(OPERATIONS, x) && Keeps(KnownAuthentication, x) && Keeps(OPERATION_KEYS, x)
  {
  }

  lemma StrictMcpKept(x: Json)
    requires StrictMcp(x)
    ensures Keeps(MCP, x) && Keeps(MCP_KEYS, x)
  {
  }

  lemma StrictOperationsFixed(d: Members)
    requires ListOf(d, "operations", x => StrictOperation(x))
    ensures ServiceMemberOf("operations", Get(d, "operations")) == Get(d, "operations")
  {
    forall x | x in d["operations"].items
      ensures Keeps(OPERATIONS, x) && Keeps(KnownAuthentication, x) && Keeps(OPERATION_KEYS, x)
    {
      StrictOperationKept(x);
    }
    SettledIsFixed(Get(d, "operations"), OPERATIONS);
    SettledIsFixed(Get(d, "operations"), KnownAuthentication);
    SettledIsFixed(Get(d, "operations"), OPERATION_KEYS);
  }

  lemma StrictMcpFixed(d: Members)
    requires ListOf(d, "mcp", x => StrictMcp(x))
    ensures ServiceMemberOf("mcp", Get(d, "mcp")) == Get(d, "mcp")
  {
    forall x | x in d["mcp"].items ensures Keeps(MCP, x) && Keeps(MCP_KEYS, x) {
      StrictMcpKept(x);
    }
    SettledIsFixed(Get(d, "mcp"), MCP);
    SettledIsFixed(Get(d, "mcp"), MCP_KEYS);
  }

  lemma StrictPaymentFixed(x: Json)
    requires StrictPayment(x)
    ensures Keeps(PAYMENTS, x) && Keeps(KnownAuthentication, x) && FilterOptions(x) == x
  {
    SettledIsFixed(Get(x.members, "options"), PAYMENT_OPTIONS);
    PutSame(x.members, "options");
  }

  lemma StrictProtocolsFixed(p: Members)
    requires StrictProtocols(p)
    ensures ProtocolsOf(Some(Object(p))) == Some(Object(p))
  {
    if "payments" in p {
      forall x | x in p["payments"].items
        ensures Keeps(PAYMENTS, x) && Keeps(KnownAuthentication, x) && FilterOptions(x) == x
      {
        StrictPaymentFixed(x);
      }
    }
    CleanProtocolsFixed(p);
  }

  lemma StrictCapabilitiesFixed(c: Members)
    requires StrictCapabilities(c)
    ensures NormalizeCapabilities(Some(Object(c))) == Some(Object(c))
  {
    CleanDefinitionsFixed(c, "filters", KnownFilter);
    CleanDefinitionsFixed(c, "sorts", KnownSort);
  }

  lemma StrictMemberFixed(d: Members, m: string)
    requires StrictServiceDocument(d)
    ensures ServiceMemberOf(m, Get(d, m)) == Get(d, m)
  {
    if m == "operations" {
      StrictOperationsFixed(d);
    } else if m == "mcp" && m in d {
      StrictMcpFixed(d);
    } else if m == "protocols" {
      EmptyProtocols();
      if m in d {
        StrictProtocolsFixed(d[m].members);
      }
    } else if m == "branding" && m in d {
      CleanBrandingFixed(d[m].members);
    } else if m == "search_capabilities" && m in d {
      StrictCapabilitiesFixed(d[m].members);
    }
  }

  /**
   A Service Document that the strict schema accepts is left unchanged, so the Agent's parser and the
   strict parser agree on every document that the strict parser accepts.
   */
  lemma StrictDocumentIsUnchanged(d: Members)
    requires StrictServiceDocument(d)
    ensures Normalize(d, ServiceDocument) == d
  {
    forall m ensures Get(Normalize(d, ServiceDocument), m) == Get(d, m) {
      ServiceMember(d, m);
      StrictMemberFixed(d, m);
    }
    SameMembers(Normalize(d, ServiceDocument), d);
  }

  // ----- Collections -----

  ghost predicate StrictImage(x: Json) {
    && x.Object? && (forall k :: k in x.members ==> k in {"alt", "height", "src", "type", "width"})
    && ("type" in x.members ==>
          && x.members["type"].String?
          && x.members["type"].text in {"image/avif", "image/jpeg", "image/png", "image/svg+xml", "image/webp"})
  }

  ghost predicate StrictImages(d: Members) {
    "images" in d ==> ListOf(d, "images", x => StrictImage(x))
  }

  /** The clauses of the Collection schema for the members that normalisation may change. */
  ghost predicate StrictCollection(d: Members) {
    && StrictImages(d)
    && ("search_capabilities" in d ==>
          Child(d, "search_capabilities").Some? && StrictCapabilities(Child(d, "search_capabilities").value))
  }

  lemma StrictImageFixed(x: Json)
    requires StrictImage(x)
    ensures Keeps(IMAGES, x) && StripItem(x, IMAGE_KEYS) == x
  {
    RestrictFixed(x.members, IMAGE_KEYS);
  }

  lemma StrictImagesFixed(d: Members)
    requires StrictImages(d)
    ensures StripItems(FilterList(Get(d, "images"), IMAGES), IMAGE_KEYS) == Get(d, "images")
  {
    if "images" in d {
      var items := d["images"].items;
      forall x | x in items ensures Keeps(IMAGES, x) && StripItem(x, IMAGE_KEYS) == x {
        StrictImageFixed(x);
      }
      SettledIsFixed(Get(d, "images"), IMAGES);
      forall k | 0 <= k < |items| ensures StripItem(items[k], IMAGE_KEYS) == items[k] {
        assert items[k] in items;
      }
      assert StripItems(Get(d, "images"), IMAGE_KEYS).value.items == items;
    }
  }

  lemma StrictCollectionMember(d: Members, m: string)
    requires StrictCollection(d)
    ensures ResourceMemberOf(m, false, Get(d, m)) == Get(d, m)
  {
    if m == "images" {
      StrictImagesFixed(d);
    } else if m == "search_capabilities" && m in d {
      StrictCapabilitiesFixed(d[m].members);
    }
  }

  /** A Collection that the strict schema accepts is left unchanged. */
  lemma StrictCollectionIsUnchanged(d: Members)
    requires StrictCollection(d)
    ensures Normalize(d, Collection) == d
  {
    forall m ensures Get(Normalize(d, Collection), m) == Get(d, m) {
      ResourceMember(d, false, m);
      StrictCollectionMember(d, m);
    }
    SameMembers(Normalize(d, Collection), d);
  }

  // ----- Offerings -----

  /** A price has a type; the schema admits any, and describes six of them. */
  ghost predicate StrictPrice(x: Json) {
    x.Object? && Text(x.members, "type").Some?
  }

  ghost predicate StrictSchemaReference(x: Json) {
    x.Object? && x.members.Keys == {"url"}
  }

  ghost predicate StrictOpenApi(x: Json) {
    x.Object? && forall k :: k in x.members ==> k in {"operation_id", "url"}
  }

  ghost predicate StrictRequest(x: Json) {
    && x.Object? && (forall k :: k in x.members ==> k in {"content_type", "schema"})
    && ("schema" in x.members ==> StrictSchemaReference(x.members["schema"]))
  }

  ghost predicate StrictHttp(x: Json) {
    && x.Object? && (forall k :: k in x.members ==> k in {"href", "method", "request", "response_content_types"})
    && Text(x.members, "method").Some? && Text(x.members, "method").value in {"GET", "POST"}
    && ("request" in x.members ==> StrictRequest(x.members["request"]))
  }

  ghost predicate StrictAction(x: Json) {
    && x.Object?
    && (forall k :: k in x.members ==> k in {"authentication", "description", "http", "id", "openapi", "rel"})
    && Text(x.members, "authentication").Some?
    && Text(x.members, "authentication").value in {"not-required", "optional", "required"}
    && ("http" in x.members ==> StrictHttp(x.members["http"]))
    && ("openapi" in x.members ==> StrictOpenApi(x.members["openapi"]))
  }

  /** The clauses of the Offering schema for the members that normalisation may change; it is open to others. */
  ghost predicate StrictOffering(d: Members) {
    && StrictImages(d)
    && ("price" in d ==> StrictPrice(d["price"]))
    && ("schema" in d ==> StrictSchemaReference(d["schema"]))
    && ("actions" in d ==> ListOf(d, "actions", x => StrictAction(x)))
  }

  /** There is no price, or it is of one of the types that the schema describes. */
  ghost predicate PriceIsDescribed(d: Members) {
    "price" in d && d["price"].Object? ==>
      Text(d["price"].members, "type").Some? &&
      Text(d["price"].members, "type").value in {"free", "fixed", "range", "starting_at", "metered", "quote"}
  }

  /** A source of definitions without any, or with some and all of them known. */
  ghost predicate SourceIsKnown(c: Members, member: string, clauses: set<Clause>) {
    Child(c, member).Some? && "inline" in Child(c, member).value && Child(c, member).value["inline"].Array? ==>
      var items := Child(c, member).value["inline"].items;
      items != [] && forall x :: x in items ==> Recognised(x, clauses)
  }

  /** The document has no search capabilities, or some and only known ones. */
  ghost predicate CapabilitiesAreKnown(d: Members) {
    Child(d, "search_capabilities").Some? ==>
      var c := Child(d, "search_capabilities").value;
      c != map[] && SourceIsKnown(c, "filters", FILTER_CLAUSES) && SourceIsKnown(c, "sorts", SORT_CLAUSES)
  }

  lemma StrictActionKept(x: Json)
    requires StrictAction(x)
    ensures Keeps(UsableAction, x)
  {
  }

  lemma SourceIsClean(c: Members, member: string, rule: Rule, clauses: set<Clause>)
    requires forall x: Json :: Keeps(rule, x) <==> Recognised(x, clauses)
    ensures SourceIsKnown(c, member, clauses) <==> CleanDefinitions(c, member, rule)
    ensures NormalizeDefinitions(c, member, rule) == c <==> CleanDefinitions(c, member, rule)
  {
    var source := Child(c, member);
    if source.Some? && "inline" in source.value && source.value["inline"].Array? {
      KeepExact(source.value["inline"].items, rule);
      if NormalizeDefinitions(c, member, rule) == c {
        DefinitionsSettle(c, member, rule);
      } else if CleanDefinitions(c, member, rule) {
        CleanDefinitionsFixed(c, member, rule);
      }
    }
  }

  lemma CapabilitiesFixedExactly(d: Members)
    ensures NormalizeCapabilities(Get(d, "search_capabilities")) == Get(d, "search_capabilities") <==>
            CapabilitiesAreKnown(d)
  {
    if Child(d, "search_capabilities").Some? {
      var c := Child(d, "search_capabilities").value;
      var filters := NormalizeDefinitions(c, "filters", KnownFilter);
      forall x: Json ensures Keeps(KnownFilter, x) <==> Recognised(x, FILTER_CLAUSES) {
        KeepsFilter(x);
      }
      forall x: Json ensures Keeps(KnownSort, x) <==> Recognised(x, SORT_CLAUSES) {
        KeepsSort(x);
      }
      SourceIsClean(c, "filters", KnownFilter, FILTER_CLAUSES);
      SourceIsClean(filters, "sorts", KnownSort, SORT_CLAUSES);
      DefinitionsSettle(c, "filters", KnownFilter);
      DefinitionsSettle(filters, "sorts", KnownSort);
      assert Get(filters, "sorts") == Get(c, "sorts");
      BothFixed(c);
    }
  }

  /** Neither kind of definitions undoes what happens to the other. */
  lemma BothFixed(c: Members)
    ensures var filters := NormalizeDefinitions(c, "filters", KnownFilter);
            NormalizeDefinitions(filters, "sorts", KnownSort) == c ==> filters == c
  {
    var filters := NormalizeDefinitions(c, "filters", KnownFilter);
    var both := NormalizeDefinitions(filters, "sorts", KnownSort);
    DefinitionsSettle(c, "filters", KnownFilter);
    DefinitionsSettle(filters, "sorts", KnownSort);
    if both == c {
      forall m ensures Get(filters, m) == Get(c, m) {
      }
      SameMembers(filters, c);
    }
  }

  lemma StrictOfferingMember(d: Members, m: string)
    requires StrictOffering(d)
    ensures ResourceMemberOf(m, true, Get(d, m)) == Get(d, m) <==>
            (m == "price" ==> PriceIsDescribed(d)) && (m == "search_capabilities" ==> CapabilitiesAreKnown(d))
  {
    if m == "images" {
      StrictImagesFixed(d);
    } else if m == "search_capabilities" {
      CapabilitiesFixedExactly(d);
    } else if m == "actions" && m in d {
      forall x | x in d[m].items ensures Keeps(UsableAction, x) {
        StrictActionKept(x);
      }
      SettledIsFixed(Get(d, m), UsableAction);
    }
  }

  /**
   An Offering that the strict schema accepts is left unchanged exactly when it has no price of a type
   that the schema does not describe, and no search capabilities with anything unknown or nothing in
   them: the schema admits both.
   */
  lemma StrictOfferingIsUnchangedExactly(d: Members)
    requires StrictOffering(d)
    ensures Normalize(d, Offering) == d <==> PriceIsDescribed(d) && CapabilitiesAreKnown(d)
  {
    forall m
      ensures Get(Normalize(d, Offering), m) == Get(d, m) <==>
              (m == "price" ==> PriceIsDescribed(d)) && (m == "search_capabilities" ==> CapabilitiesAreKnown(d))
    {
      ResourceMember(d, true, m);
      StrictOfferingMember(d, m);
    }
    if PriceIsDescribed(d) && CapabilitiesAreKnown(d) {
      SameMembers(Normalize(d, Offering), d);
    } else {
      assert !(Get(Normalize(d, Offering), "price") == Get(d, "price")
               && Get(Normalize(d, Offering), "search_capabilities") == Get(d, "search_capabilities"));
    }
  }

  /** A price of another type, which the schema admits, is dropped. */
  lemma UndescribedPriceIsDropped()
    ensures var d: Members := map["price" := Object(map["type" := String("auction")])];
            StrictOffering(d) && Normalize(d, Offering) != d
  {
    var price: Members := map["type" := String("auction")];
    var d: Members := map["price" := Object(price)];
    assert d["price"].members == price && price["type"] == String("auction");
    assert Text(price, "type") == Some("auction");
    StrictOfferingIsUnchangedExactly(d);
  }

  // ----- Pages and problems -----

  ghost predicate EveryItem(d: Members, member: string, each: Json -> bool) {
    member in d ==> d[member].Array? && forall x :: x in d[member].items ==> each(x)
  }

  ghost predicate StrictParameter(x: Json) {
    x.Object? && Text(x.members, "in").Some? && Text(x.members, "in").value in {"query", "body", "header", "path"}
  }

  lemma ItemsFixed(d: Members, member: string, rule: Rule)
    requires EveryItem(d, member, x => Keeps(rule, x))
    ensures Run([Pass(member, Items(rule))], d) == d
  {
    var passes := [Pass(member, Items(rule))];
    assert passes[..0] == [];
    if member in d {
      KeepExact(d[member].items, rule);
    }
    PutSame(d, member);
  }

  /** Pages of definitions and problem documents that the strict schemas accept are left unchanged. */
  lemma StrictListsAreUnchanged(d: Members)
    ensures EveryItem(d, "items", x => StrictFilter(x)) ==> Normalize(d, FilterPage) == d
    ensures EveryItem(d, "items", x => StrictSort(x)) ==> Normalize(d, SortPage) == d
    ensures EveryItem(d, "invalid_params", x => StrictParameter(x)) ==> Normalize(d, Problem) == d
  {
    if EveryItem(d, "items", x => StrictFilter(x)) {
      assert EveryItem(d, "items", x => Keeps(KnownFilter, x));
      ItemsFixed(d, "items", KnownFilter);
    }
    if EveryItem(d, "items", x => StrictSort(x)) {
      assert EveryItem(d, "items", x => Keeps(KnownSort, x));
      ItemsFixed(d, "items", KnownSort);
    }
    if EveryItem(d, "invalid_params", x => StrictParameter(x)) {
      assert EveryItem(d, "invalid_params", x => Keeps(PROBLEM_LOCATIONS, x));
      ItemsFixed(d, "invalid_params", PROBLEM_LOCATIONS);
    }
  }

  /** A page of Collections that the strict schema accepts is left unchanged, item by item. */
  lemma StrictCollectionPageIsUnchanged(d: Members)
    requires EveryItem(d, "items", (x: Json) => x.Object? && StrictCollection(x.members))
    ensures Normalize(d, CollectionPage) == d
  {
    if "items" in d {
      var items := d["items"].items;
      forall k | 0 <= k < |items| ensures NormalizeItem(items[k], COLLECTION) == items[k] {
        assert items[k] in items;
        StrictCollectionIsUnchanged(items[k].members);
      }
      assert NormalizeItems(Get(d, "items"), COLLECTION).value.items == items;
    }
    PutSame(d, "items");
  }
}

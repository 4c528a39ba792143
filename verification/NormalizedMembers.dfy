/**
 What normalisation leaves of each member, told by what an Agent knows: the images, branding, schema,
 price, search capabilities and protocols of a document, and the items of a page.
 */
module NormalizedMembers {
  import opened Wrappers
  import opened Json
  import opened Normalization
  import opened NormalizationStability
  import opened NormalizationSurvivors
  import opened Vocabulary

  // ----- Objects cut down to what is known -----

  /** An object keeps these members and loses the others; anything else stays. */
  ghost predicate Stripped(before: Json, after: Json, keys: set<string>) {
    if !before.Object? then after == before
    else after.Object? && forall m :: Get(after.members, m) == if m in keys then Get(before.members, m) else None
  }

  lemma RestrictStrips(d: Members, keys: set<string>)
    ensures Stripped(Object(d), Object(Restrict(d, keys)), keys)
  {
  }

  lemma StrippedSame(before: Json, after: Json, a: set<string>, b: set<string>)
    requires Stripped(before, after, a) && a == b
    ensures Stripped(before, after, b)
  {
  }

  // ----- Schema and price -----

  /** A value with anything unknown in it is removed whole. */
  ghost predicate KeptWhole(before: Option<Json>, after: Option<Json>, clauses: set<Clause>) {
    after == if before.Some? && !Recognised(before.value, clauses) then None else before
  }

  lemma SchemaAndPrice(before: Option<Json>)
    ensures KeptWhole(before, NormalizeSchema(before), SCHEMA_CLAUSES)
    ensures KeptWhole(before, NormalizePrice(before), PRICE_CLAUSES)
  {
    if before.Some? {
      KeepsClosed(before.value, {"url"});
      FindOne(before.value, "type");
    }
  }

  // ----- Images -----

  const IMAGE_MEMBERS := {"src", "alt", "type", "width", "height"}

  ghost predicate AllStripped(before: seq<Json>, after: seq<Json>, keys: set<string>) {
    |after| == |before| && forall k :: 0 <= k < |before| ==> Stripped(before[k], after[k], keys)
  }

  /** The images of a known type survive, each with the members of an image and no other. */
  ghost predicate ImagesAfter(before: Option<Json>, after: Option<Json>) {
    exists kept: Option<Json> :: Survive(before, kept, IMAGE_CLAUSES) &&
      if kept.Some? && kept.value.Array?
      then after.Some? && after.value.Array? && AllStripped(kept.value.items, after.value.items, IMAGE_MEMBERS)
      else after == kept
  }

  lemma ImageKeys()
    ensures IMAGE_KEYS == IMAGE_MEMBERS
  {
  }

  lemma Images(before: Option<Json>)
    ensures ImagesAfter(before, StripItems(FilterList(before, IMAGES), IMAGE_KEYS))
  {
    forall x: Json ensures KeptBy({IMAGES}, x) <==> Recognised(x, IMAGE_CLAUSES) {
      KeepsImage(x);
    }
    ListSurvives(before, IMAGES, IMAGE_CLAUSES);
    var kept := FilterList(before, IMAGES);
    if kept.Some? && kept.value.Array? {
      ImageKeys();
      var items := kept.value.items;
      forall k | 0 <= k < |items| ensures Stripped(items[k], StripItem(items[k], IMAGE_KEYS), IMAGE_MEMBERS) {
        if items[k].Object? {
          RestrictStrips(items[k].members, IMAGE_MEMBERS);
        }
      }
    }
  }

  // ----- Branding -----

  const BRANDING_MEMBERS := {"icon", "logo"}
  const BRANDING_IMAGE := {"src", "type"}

  /** The icon and the logo, each cut down to an image of branding, and nothing else. */
  ghost predicate BrandingKept(before: Members, after: Members) {
    && after.Keys == before.Keys * BRANDING_MEMBERS
    && forall m :: m in after ==> Stripped(before[m], after[m], BRANDING_IMAGE)
  }

  /** Branding goes when an image of it is of an unknown type, or when it has neither an icon nor a logo. */
  ghost predicate BrandingAfter(before: Option<Json>, after: Option<Json>) {
    if before.None? || !before.value.Object? then after == before
    else if !Recognised(before.value, BRANDING_CLAUSES) || before.value.members.Keys !! BRANDING_MEMBERS
    then after == None
    else after.Some? && after.value.Object? && BrandingKept(before.value.members, after.value.members)
  }

  lemma KnownImage(b: Members, member: string, values: set<string>)
    requires values == BRANDING_TYPES
    ensures Meets(Object(b), OneOf([member, "type"], values)) <==> !HasUnknownImage(b, member)
  {
    FindTwo(Object(b), member, "type");
    FindOne(Object(b), member);
    if member in b {
      FindOne(b[member], "type");
    }
  }

  lemma KnownBranding(b: Members)
    ensures Recognised(Object(b), BRANDING_CLAUSES) <==> !HasUnknownImage(b, "icon") && !HasUnknownImage(b, "logo")
  {
    assert BRANDING_TYPES == {"image/svg+xml", "image/png", "image/webp"};
    KnownImage(b, "icon", {"image/svg+xml", "image/png", "image/webp"});
    KnownImage(b, "logo", {"image/svg+xml", "image/png", "image/webp"});
  }

  lemma StripImageStrips(b: Members, member: string)
    ensures var r := StripImage(b, member);
            && r.Keys == b.Keys && (forall m :: m in b && m != member ==> r[m] == b[m])
            && (member in b ==> Stripped(b[member], r[member], BRANDING_IMAGE))
            && (forall m :: m != member ==> (HasUnknownImage(r, m) <==> HasUnknownImage(b, m)))
  {
    if Child(b, member).Some? {
      assert BRANDING_IMAGE_KEYS == BRANDING_IMAGE;
      RestrictStrips(b[member].members, BRANDING_IMAGE);
    }
  }

  lemma RestrictedBranding(b: Members)
    ensures var r := Restrict(b, BRANDING_KEYS);
            && r.Keys == b.Keys * BRANDING_MEMBERS && (forall m :: m in r ==> r[m] == b[m])
            && (HasUnknownImage(r, "icon") <==> HasUnknownImage(b, "icon"))
            && (HasUnknownImage(r, "logo") <==> HasUnknownImage(b, "logo"))
  {
    assert BRANDING_KEYS == BRANDING_MEMBERS;
  }

  lemma BrandingExact(before: Option<Json>)
    ensures BrandingAfter(before, NormalizeBranding(before))
  {
    if before.Some? && before.value.Object? {
      var b := before.value.members;
      var r := Restrict(b, BRANDING_KEYS);
      KnownBranding(b);
      RestrictedBranding(b);
      StripImageStrips(r, "icon");
      var withIcon := StripImage(r, "icon");
      StripImageStrips(withIcon, "logo");
      if Recognised(before.value, BRANDING_CLAUSES) {
        var s := StripImage(withIcon, "logo");
        assert s == map[] <==> s.Keys == {};
      }
    }
  }

  // ----- Search capabilities -----

  ghost predicate SameBut(before: Members, after: Members, members: set<string>) {
    forall m :: m !in members ==> Get(after, m) == Get(before, m)
  }

  /** A source with inline definitions keeps the known ones, and goes when there are none. */
  ghost predicate SourceAfter(before: Option<Json>, after: Option<Json>, clauses: set<Clause>) {
    if before.None? || !before.value.Object? then after == before
    else
      var source := before.value.members;
      exists inline: Option<Json> :: Survive(Get(source, "inline"), inline, clauses) &&
        after == if inline.Some? then Some(Object(source["inline" := inline.value]))
                 else if "inline" in source then None
                 else before
  }

  ghost predicate SourcesAfter(before: Members, after: Members) {
    && SourceAfter(Get(before, "filters"), Get(after, "filters"), FILTER_CLAUSES)
    && SourceAfter(Get(before, "sorts"), Get(after, "sorts"), SORT_CLAUSES)
    && SameBut(before, after, {"filters", "sorts"})
  }

  /** Search capabilities lose the definitions that are not known, and go when nothing is left. */
  ghost predicate CapabilitiesAfter(before: Option<Json>, after: Option<Json>) {
    if before.None? || !before.value.Object? then after == before
    else
      exists left: Members :: SourcesAfter(before.value.members, left) &&
        after == if left == map[] then None else Some(Object(left))
  }

  lemma DefinitionsExact(c: Members, member: string, rule: Rule, clauses: set<Clause>)
    requires Agree({rule}, clauses)
    ensures var r := NormalizeDefinitions(c, member, rule);
            SourceAfter(Get(c, member), Get(r, member), clauses) && SameBut(c, r, {member})
  {
    var source := Child(c, member);
    if source.Some? {
      var inline := Get(source.value, "inline");
      ListSurvives(inline, rule, clauses);
      PutSame(source.value, "inline");
      assert inline.Some? ==> source.value["inline" := inline.value] == source.value;
    }
  }

  lemma CapabilitiesExact(before: Option<Json>)
    ensures CapabilitiesAfter(before, NormalizeCapabilities(before))
  {
    if before.Some? && before.value.Object? {
      var c := before.value.members;
      var filters := NormalizeDefinitions(c, "filters", KnownFilter);
      DefinitionsAgree();
      DefinitionsExact(c, "filters", KnownFilter, FILTER_CLAUSES);
      DefinitionsExact(filters, "sorts", KnownSort, SORT_CLAUSES);
      assert Get(filters, "sorts") == Get(c, "sorts");
      assert SourcesAfter(c, NormalizeDefinitions(filters, "sorts", KnownSort));
    }
  }

  // ----- Protocols -----

  /** A list whose items are all unknown, though it has some. */
  ghost predicate AllForeign(value: Json, clauses: set<Clause>) {
    value.Array? && value.items != [] && forall x :: x in value.items ==> !Recognised(x, clauses)
  }

  /** A category keeps its known descriptors; it goes when it had some and none is known. */
  ghost predicate CategoryAfter(before: Option<Json>, after: Option<Json>, clauses: set<Clause>) {
    if before.None? || !before.value.Array? then after == before
    else if AllForeign(before.value, clauses) then after == None
    else after.Some? && after.value.Array? && KnownItems(before.value.items, after.value.items, clauses)
  }

  /** A payment keeps its known options, and its option list goes when there are none. */
  ghost predicate PaymentAfter(before: Json, after: Json) {
    if !before.Object? then after == before
    else
      && after.Object? && SameBut(before.members, after.members, {"options"})
      && Survive(Get(before.members, "options"), Get(after.members, "options"), OPTION_CLAUSES)
  }

  /** The payments of a known name and authentication stay, and their list goes when there are none. */
  ghost predicate PaymentsAfter(before: Option<Json>, after: Option<Json>) {
    if before.None? || !before.value.Array? then after == before
    else if forall x :: x in before.value.items ==> !Recognised(x, PAYMENT_CLAUSES) then after == None
    else
      && after.Some? && after.value.Array?
      && exists kept :: KnownItems(before.value.items, kept, PAYMENT_CLAUSES) && AllPayments(kept, after.value.items)
  }

  ghost predicate AllPayments(before: seq<Json>, after: seq<Json>) {
    |after| == |before| && forall k :: 0 <= k < |before| ==> PaymentAfter(before[k], after[k])
  }

  /** Nothing is left of the protocols once the categories of unknown names are gone. */
  ghost predicate NothingKnown(p: Members) {
    forall m :: m in p ==>
      || (m == "enrollment" && AllForeign(p[m], ENROLLMENT_CLAUSES))
      || (m == "payments" && AllForeign(p[m], PAYMENT_NAME_CLAUSES))
      || (m == "trust" && AllForeign(p[m], TRUST_CLAUSES))
  }

  ghost predicate CategoriesAfter(before: Members, after: Members) {
    && CategoryAfter(Get(before, "enrollment"), Get(after, "enrollment"), ENROLLMENT_CLAUSES)
    && CategoryAfter(Get(before, "trust"), Get(after, "trust"), TRUST_CLAUSES)
    && PaymentsAfter(Get(before, "payments"), Get(after, "payments"))
    && SameBut(before, after, {"enrollment", "payments", "trust"})
  }

  ghost predicate ProtocolsAfter(before: Option<Json>, after: Option<Json>) {
    if before.None? || !before.value.Object? then after == before
    else if NothingKnown(before.value.members) then after == None
    else after.Some? && after.value.Object? && CategoriesAfter(before.value.members, after.value.members)
  }

  lemma NamesAgree()
    ensures Agree({ENROLLMENT}, ENROLLMENT_CLAUSES) && Agree({TRUST}, TRUST_CLAUSES)
    ensures Agree({PAYMENTS}, PAYMENT_NAME_CLAUSES)
    ensures Agree({PAYMENTS} + {KnownAuthentication}, PAYMENT_CLAUSES) && Agree({PAYMENT_OPTIONS}, OPTION_CLAUSES)
  {
    forall x: Json
      ensures KeptBy({ENROLLMENT}, x) <==> Recognised(x, ENROLLMENT_CLAUSES)
      ensures KeptBy({TRUST}, x) <==> Recognised(x, TRUST_CLAUSES)
      ensures KeptBy({PAYMENTS}, x) <==> Recognised(x, PAYMENT_NAME_CLAUSES)
      ensures KeptBy({PAYMENTS} + {KnownAuthentication}, x) <==> Recognised(x, PAYMENT_CLAUSES)
      ensures KeptBy({PAYMENT_OPTIONS}, x) <==> Recognised(x, OPTION_CLAUSES)
    {
      KeepsNamed(x);
      KeepsOption(x);
    }
  }

  lemma CategoryExact(before: Option<Json>, rule: Rule, clauses: set<Clause>)
    requires Agree({rule}, clauses)
    ensures CategoryAfter(before, FilterCategory(before, rule), clauses)
    ensures FilterCategory(before, rule).None? <==> before.None? || AllForeign(before.value, clauses)
  {
    if before.Some? && before.value.Array? {
      KeptItems(before.value.items, rule, clauses);
    }
  }

  lemma OptionsExact(payment: Json)
    ensures PaymentAfter(payment, FilterOptions(payment))
  {
    NamesAgree();
    if payment.Object? {
      ListSurvives(Get(payment.members, "options"), PAYMENT_OPTIONS, OPTION_CLAUSES);
    }
  }

  /** The payments by name, then by authentication: by both at once, unless they are gone already. */
  lemma PaymentsKept(before: Option<Json>)
    ensures FilterList(FilterCategory(before, PAYMENTS), KnownAuthentication)
         == Filtered(before, {PAYMENTS} + {KnownAuthentication})
  {
    if before.Some? && before.value.Array? {
      var items := before.value.items;
      KeepAllNone(items);
      KeepOneMore(items, {}, PAYMENTS);
      assert {} + {PAYMENTS} == {PAYMENTS};
      KeepOneMore(items, {PAYMENTS}, KnownAuthentication);
    }
  }

  /** The payments list of protocols that are not gone. */
  lemma PaymentsExact(before: Option<Json>, kept: Option<Json>, after: Option<Json>)
    requires kept == Filtered(before, {PAYMENTS} + {KnownAuthentication})
    requires after == if kept.Some? && kept.value.Array? then Some(Array(MapFilterOptions(kept.value.items))) else kept
    ensures PaymentsAfter(before, after)
  {
    NamesAgree();
    FilteredSurvives(before, {PAYMENTS} + {KnownAuthentication}, PAYMENT_CLAUSES);
    if kept.Some? && kept.value.Array? {
      var items := kept.value.items;
      forall k | 0 <= k < |items| ensures PaymentAfter(items[k], MapFilterOptions(items)[k]) {
        OptionsExact(items[k]);
      }
      assert AllPayments(items, MapFilterOptions(items));
    }
  }

  lemma CategoriesGone(p: Members)
    ensures Categories(p) == map[] <==> NothingKnown(p)
  {
    CategoriesByMember(p);
    NamesAgree();
    CategoryExact(Get(p, "enrollment"), ENROLLMENT, ENROLLMENT_CLAUSES);
    CategoryExact(Get(p, "payments"), PAYMENTS, PAYMENT_NAME_CLAUSES);
    CategoryExact(Get(p, "trust"), TRUST, TRUST_CLAUSES);
    if Categories(p) == map[] {
      forall m | m in p
        ensures || (m == "enrollment" && AllForeign(p[m], ENROLLMENT_CLAUSES))
                || (m == "payments" && AllForeign(p[m], PAYMENT_NAME_CLAUSES))
                || (m == "trust" && AllForeign(p[m], TRUST_CLAUSES))
      {
        assert Get(Categories(p), m).None?;
      }
    }
    if NothingKnown(p) {
      forall m ensures m !in Categories(p) {
        assert Get(Categories(p), m).None?;
      }
    }
  }

  lemma ProtocolsExact(before: Option<Json>)
    ensures ProtocolsAfter(before, ProtocolsOf(before))
  {
    if before.Some? && before.value.Object? {
      var p := before.value.members;
      CategoriesGone(p);
      if !NothingKnown(p) {
        ProtocolsLeft(p);
      }
    }
  }

  /** The protocols that are left, member by member. */
  function Left(p: Members): Members {
    var q := Authenticated(p);
    if "payments" in q && q["payments"].Array? then q["payments" := Array(MapFilterOptions(q["payments"].items))] else q
  }

  lemma LeftByMember(p: Members)
    ensures var kept := Filtered(Get(p, "payments"), {PAYMENTS} + {KnownAuthentication});
            Get(Left(p), "payments")
              == if kept.Some? && kept.value.Array? then Some(Array(MapFilterOptions(kept.value.items))) else kept
    ensures forall m :: m != "payments" ==> Get(Left(p), m) == Get(Categories(p), m)
  {
    CategoriesByMember(p);
    PaymentsKept(Get(p, "payments"));
  }

  lemma ProtocolsAre(p: Members)
    requires Categories(p) != map[]
    ensures ProtocolsOf(Some(Object(p))) == Some(Object(Left(p)))
  {
  }

  lemma ProtocolsLeft(p: Members)
    requires Categories(p) != map[]
    ensures var after := ProtocolsOf(Some(Object(p)));
            after.Some? && after.value.Object? && CategoriesAfter(p, after.value.members)
  {
    ProtocolsAre(p);
    CategoriesByMember(p);
    NamesAgree();
    CategoryExact(Get(p, "enrollment"), ENROLLMENT, ENROLLMENT_CLAUSES);
    CategoryExact(Get(p, "trust"), TRUST, TRUST_CLAUSES);
    LeftByMember(p);
    PaymentsExact(Get(p, "payments"), Filtered(Get(p, "payments"), {PAYMENTS} + {KnownAuthentication}),
                  Get(Left(p), "payments"));
  }

  // ----- Documents -----

  /** What one pass leaves of each member of a Service Document. */
  ghost predicate ServiceDocumentAfter(d: Members, after: Members) {
    && ProtocolsAfter(Get(d, "protocols"), Get(after, "protocols"))
    && Survive(Get(d, "operations"), Get(after, "operations"), OPERATION_CLAUSES)
    && Survive(Get(d, "mcp"), Get(after, "mcp"), MCP_CLAUSES)
    && BrandingAfter(Get(d, "branding"), Get(after, "branding"))
    && CapabilitiesAfter(Get(d, "search_capabilities"), Get(after, "search_capabilities"))
    && SameBut(d, after, {"protocols", "operations", "mcp", "branding", "search_capabilities"})
  }

  lemma ServiceMembers(d: Members)
    ensures var r := Normalize(d, ServiceDocument);
            && Get(r, "protocols") == ProtocolsOf(Get(d, "protocols"))
            && Get(r, "operations") == ServiceMemberOf("operations", Get(d, "operations"))
            && Get(r, "mcp") == ServiceMemberOf("mcp", Get(d, "mcp"))
            && Get(r, "branding") == NormalizeBranding(Get(d, "branding"))
            && Get(r, "search_capabilities") == NormalizeCapabilities(Get(d, "search_capabilities"))
  {
    ServiceMember(d, "protocols");
    ServiceMember(d, "operations");
    ServiceMember(d, "mcp");
    ServiceMember(d, "branding");
    ServiceMember(d, "search_capabilities");
  }

  lemma OthersStay(d: Members)
    ensures SameBut(d, Normalize(d, ServiceDocument),
                    {"protocols", "operations", "mcp", "branding", "search_capabilities"})
    ensures SameBut(d, Normalize(d, Collection), {"images", "search_capabilities"})
    ensures SameBut(d, Normalize(d, Offering), {"images", "search_capabilities"} + {"schema", "price", "actions"})
  {
    forall m
      ensures m !in {"protocols", "operations", "mcp", "branding", "search_capabilities"} ==>
                Get(Normalize(d, ServiceDocument), m) == Get(d, m)
      ensures m !in {"images", "search_capabilities"} ==> Get(Normalize(d, Collection), m) == Get(d, m)
      ensures m !in {"images", "search_capabilities", "schema", "price", "actions"} ==>
                Get(Normalize(d, Offering), m) == Get(d, m)
    {
      OtherMembersUntouched(d, m);
    }
  }

  /** A Service Document loses exactly what an Agent does not know. */
  lemma ServiceDocumentExact(d: Members)
    ensures ServiceDocumentAfter(d, Normalize(d, ServiceDocument))
  {
    ServiceMembers(d);
    OthersStay(d);
    ProtocolsExact(Get(d, "protocols"));
    OperationsSurvive(Get(d, "operations"));
    McpSurvive(Get(d, "mcp"));
    BrandingExact(Get(d, "branding"));
    CapabilitiesExact(Get(d, "search_capabilities"));
  }

  /** What one pass leaves of each member of a Collection, or of an Offering. */
  ghost predicate ResourceAfter(d: Members, after: Members, offering: bool) {
    && ImagesAfter(Get(d, "images"), Get(after, "images"))
    && CapabilitiesAfter(Get(d, "search_capabilities"), Get(after, "search_capabilities"))
    && SameBut(d, after, {"images", "search_capabilities"} + if offering then {"schema", "price", "actions"} else {})
    && (offering ==>
          && KeptWhole(Get(d, "schema"), Get(after, "schema"), SCHEMA_CLAUSES)
          && KeptWhole(Get(d, "price"), Get(after, "price"), PRICE_CLAUSES)
          && Survive(Get(d, "actions"), Get(after, "actions"), ACTION_CLAUSES))
  }

  lemma SharedMembers(d: Members, offering: bool)
    ensures var r := Run(PassesOf(offering), d);
            && Get(r, "images") == StripItems(FilterList(Get(d, "images"), IMAGES), IMAGE_KEYS)
            && Get(r, "search_capabilities") == NormalizeCapabilities(Get(d, "search_capabilities"))
  {
    ResourceMember(d, offering, "images");
    ResourceMember(d, offering, "search_capabilities");
  }

  lemma OfferingMembers(d: Members)
    ensures var r := Run(PassesOf(true), d);
            && Get(r, "schema") == NormalizeSchema(Get(d, "schema"))
            && Get(r, "price") == NormalizePrice(Get(d, "price"))
            && Get(r, "actions") == FilterList(Get(d, "actions"), UsableAction)
  {
    ResourceMember(d, true, "schema");
    ResourceMember(d, true, "price");
    ResourceMember(d, true, "actions");
  }

  lemma ResourceExact(d: Members, offering: bool)
    ensures ResourceAfter(d, Run(PassesOf(offering), d), offering)
  {
    SharedMembers(d, offering);
    OthersStay(d);
    Images(Get(d, "images"));
    CapabilitiesExact(Get(d, "search_capabilities"));
    if offering {
      OfferingMembers(d);
      SchemaAndPrice(Get(d, "schema"));
      SchemaAndPrice(Get(d, "price"));
      ActionsAgree();
      ListSurvives(Get(d, "actions"), UsableAction, ACTION_CLAUSES);
    }
  }

  /** A Collection and an Offering lose exactly what an Agent does not know. */
  lemma ResourcesExact(d: Members)
    ensures ResourceAfter(d, Normalize(d, Collection), false)
    ensures ResourceAfter(d, Normalize(d, Offering), true)
  {
    ResourceExact(d, false);
    ResourceExact(d, true);
  }

  /** Every object among the items of a page is treated as a document of its own; no item is dropped. */
  ghost predicate PageAfter(d: Members, after: Members, offering: bool) {
    && SameBut(d, after, {"items"})
    && var before := Get(d, "items");
       if before.None? || !before.value.Array? then Get(after, "items") == before
       else "items" in after && after["items"].Array? && ItemsAfter(before.value.items, after["items"].items, offering)
  }

  ghost predicate ItemsAfter(before: seq<Json>, after: seq<Json>, offering: bool) {
    |after| == |before| && forall k :: 0 <= k < |before| ==> ItemAfter(before[k], after[k], offering)
  }

  ghost predicate ItemAfter(before: Json, after: Json, offering: bool) {
    if before.Object? then after.Object? && ResourceAfter(before.members, after.members, offering) else after == before
  }

  lemma PageExact(d: Members, offering: bool)
    ensures PageAfter(d, Put(d, "items", NormalizeItems(Get(d, "items"), PassesOf(offering))), offering)
  {
    if "items" in d && d["items"].Array? {
      var items := d["items"].items;
      forall k | 0 <= k < |items| ensures ItemAfter(items[k], NormalizeItem(items[k], PassesOf(offering)), offering) {
        if items[k].Object? {
          ResourceExact(items[k].members, offering);
        }
      }
    }
  }

  /** A page of Collections or of Offerings keeps its items, each normalised. */
  lemma ResourcePagesExact(d: Members)
    ensures PageAfter(d, Normalize(d, CollectionPage), false)
    ensures PageAfter(d, Normalize(d, OfferingPage), true)
  {
    PageExact(d, false);
    PageExact(d, true);
  }
}

/**
 Stability of the Agent's normalisation: how often it has to be repeated before it changes nothing.
 Every pass reads and writes one member, so a document is settled when each of its members is.
 */
module NormalizationStability {
  import opened Wrappers
  import opened Json
  import opened Normalization

  // ----- Member by member -----

  /** The transforms that a list of passes applies to one member, in order. */
  function TransformsOf(passes: seq<Pass>, m: string): seq<Transform> {
    if passes == [] then []
    else
      var last := passes[|passes| - 1];
      TransformsOf(passes[..|passes| - 1], m) + if last.member == m then [last.transform] else []
  }

  function ApplyAll(ts: seq<Transform>, value: Option<Json>): Option<Json> {
    if ts == [] then value else Apply(ts[|ts| - 1], ApplyAll(ts[..|ts| - 1], value))
  }

  /** Every member is treated on its own: passes over one member do not see the others. */
  lemma {:induction false} RunByMember(passes: seq<Pass>, d: Members, m: string)
    ensures Get(Run(passes, d), m) == ApplyAll(TransformsOf(passes, m), Get(d, m))
    decreases |passes|
  {
    if passes != [] {
      var n := |passes| - 1;
      RunByMember(passes[..n], d, m);
      var ts := TransformsOf(passes[..n], m);
      assert (ts + [passes[n].transform])[..|ts|] == ts && ts + [] == ts;
    }
  }

  lemma OneTransform(t: Transform, value: Option<Json>)
    ensures ApplyAll([t], value) == Apply(t, value)
  {
    assert [t][..0] == [];
  }

  lemma TwoTransforms(t: Transform, u: Transform, value: Option<Json>)
    ensures ApplyAll([t, u], value) == Apply(u, Apply(t, value))
  {
    OneTransform(t, value);
    assert [t, u][..1] == [t];
  }

  lemma ThreeTransforms(t: Transform, u: Transform, v: Transform, value: Option<Json>)
    ensures ApplyAll([t, u, v], value) == Apply(v, Apply(u, Apply(t, value)))
  {
    TwoTransforms(t, u, value);
    assert [t, u, v][..2] == [t, u];
  }

  function At(pass: Pass, m: string): seq<Transform> {
    if pass.member == m then [pass.transform] else []
  }

  lemma {:induction false} TransformsAppend(a: seq<Pass>, b: seq<Pass>, m: string)
    ensures TransformsOf(a + b, m) == TransformsOf(a, m) + TransformsOf(b, m)
    decreases |b|
  {
    if b == [] {
      assert a + b == a;
    } else {
      var n := |b| - 1;
      TransformsAppend(a, b[..n], m);
      assert (a + b)[..|a + b| - 1] == a + b[..n];
    }
  }

  lemma TransformsOfThree(a: Pass, b: Pass, c: Pass, m: string)
    ensures TransformsOf([a, b, c], m) == At(a, m) + At(b, m) + At(c, m)
  {
    assert [a][..0] == [];
    assert TransformsOf([a], m) == At(a, m);
    assert [a, b][..1] == [a];
    assert TransformsOf([a, b], m) == At(a, m) + At(b, m);
    assert [a, b, c][..2] == [a, b];
  }

  lemma TransformsOfFour(a: Pass, b: Pass, c: Pass, d: Pass, m: string)
    ensures TransformsOf([a, b, c, d], m) == At(a, m) + At(b, m) + At(c, m) + At(d, m)
  {
    assert [a, b, c, d][..3] == [a, b, c];
    TransformsOfThree(a, b, c, m);
  }

  lemma ServiceNames(m: string)
    ensures TransformsOf(SERVICE_NAMES, m) ==
            if m == "protocols" then [Protocols, PaymentAuthentication]
            else if m == "operations" then [List(OPERATIONS), List(KnownAuthentication)]
            else []
  {
    TransformsOfFour(SERVICE_NAMES[0], SERVICE_NAMES[1], SERVICE_NAMES[2], SERVICE_NAMES[3], m);
  }

  lemma ServiceLists(m: string)
    ensures TransformsOf(SERVICE_LISTS, m) ==
            if m == "mcp" then [List(MCP), List(MCP_KEYS)]
            else if m == "operations" then [List(OPERATION_KEYS)]
            else []
  {
    TransformsOfThree(SERVICE_LISTS[0], SERVICE_LISTS[1], SERVICE_LISTS[2], m);
  }

  lemma ServiceRest(m: string)
    ensures TransformsOf(SERVICE_REST, m) ==
            if m == "protocols" then [PaymentOptions]
            else if m == "branding" then [Branding]
            else if m == "search_capabilities" then [Capabilities]
            else []
  {
    TransformsOfThree(SERVICE_REST[0], SERVICE_REST[1], SERVICE_REST[2], m);
  }

  function ServiceTransforms(m: string): seq<Transform> {
    if m == "protocols" then [Protocols, PaymentAuthentication, PaymentOptions]
    else if m == "operations" then [List(OPERATIONS), List(KnownAuthentication), List(OPERATION_KEYS)]
    else if m == "mcp" then [List(MCP), List(MCP_KEYS)]
    else if m == "branding" then [Branding]
    else if m == "search_capabilities" then [Capabilities]
    else []
  }

  /** The transforms that each member of a Service Document goes through. */
  lemma ServiceDocumentTransforms(m: string)
    ensures TransformsOf(SERVICE_DOCUMENT, m) == ServiceTransforms(m)
  {
    ServiceGroups(m);
    ServiceNames(m);
    ServiceLists(m);
    ServiceRest(m);
    ConcatThree(TransformsOf(SERVICE_NAMES, m), TransformsOf(SERVICE_LISTS, m), TransformsOf(SERVICE_REST, m));
  }

  /** The short concatenations that occur when passes are grouped. */
  lemma ConcatThree(a: seq<Transform>, b: seq<Transform>, c: seq<Transform>)
    ensures b == [] && c == [] ==> a + b + c == a
    ensures a == [] && c == [] ==> a + b + c == b
    ensures a == [] && b == [] ==> a + b + c == c
    ensures |a| == 2 && b == [] && |c| == 1 ==> a + b + c == [a[0], a[1], c[0]]
    ensures |a| == 2 && |b| == 1 && c == [] ==> a + b + c == [a[0], a[1], b[0]]
  {
  }

  lemma ServiceGroups(m: string)
    ensures TransformsOf(SERVICE_DOCUMENT, m) ==
            TransformsOf(SERVICE_NAMES, m) + TransformsOf(SERVICE_LISTS, m) + TransformsOf(SERVICE_REST, m)
  {
    TransformsAppend(SERVICE_NAMES + SERVICE_LISTS, SERVICE_REST, m);
    TransformsAppend(SERVICE_NAMES, SERVICE_LISTS, m);
  }

  /** The transforms that each member of a Collection or an Offering goes through. */
  function ResourceTransforms(m: string, offering: bool): seq<Transform> {
    if m == "images" then [List(IMAGES), Strip(IMAGE_KEYS)]
    else if m == "search_capabilities" then [Capabilities]
    else if m == "schema" && offering then [Schema]
    else if m == "price" && offering then [Price]
    else if m == "actions" && offering then [List(UsableAction)]
    else []
  }

  lemma CollectionTransforms(m: string)
    ensures TransformsOf(COLLECTION, m) == ResourceTransforms(m, false)
  {
    TransformsOfThree(COLLECTION[0], COLLECTION[1], COLLECTION[2], m);
  }

  lemma OfferingOnly(m: string)
    ensures TransformsOf(OFFERING_ONLY, m) ==
            if m == "schema" then [Schema]
            else if m == "price" then [Price]
            else if m == "actions" then [List(UsableAction)]
            else []
  {
    TransformsOfThree(OFFERING_ONLY[0], OFFERING_ONLY[1], OFFERING_ONLY[2], m);
  }

  lemma OfferingTransforms(m: string)
    ensures TransformsOf(OFFERING, m) == ResourceTransforms(m, true)
  {
    TransformsAppend(COLLECTION, OFFERING_ONLY, m);
    CollectionTransforms(m);
    OfferingOnly(m);
  }

  // ----- Stability of each member -----

  /** A list that the rule neither shortens nor deletes; anything but a list counts. */
  ghost predicate Settled(value: Option<Json>, rule: Rule) {
    value.Some? && value.value.Array? ==>
      value.value.items != [] && forall x :: x in value.value.items ==> Keeps(rule, x)
  }

  /** Filtering changes nothing exactly when the list is settled. */
  lemma SettledIsFixed(value: Option<Json>, rule: Rule)
    ensures FilterList(value, rule) == value <==> Settled(value, rule)
  {
    if value.Some? && value.value.Array? {
      KeepExact(value.value.items, rule);
    }
  }

  /** Filtering settles a list for its own rule, and leaves it settled for any other. */
  lemma FilterListSettles(value: Option<Json>, rule: Rule, other: Rule)
    ensures Settled(FilterList(value, rule), rule)
    ensures Settled(value, other) ==> Settled(FilterList(value, rule), other)
  {
    if value.Some? && value.value.Array? {
      KeepExact(value.value.items, rule);
    }
  }

  lemma ListsStable(value: Option<Json>, a: Rule, b: Rule, c: Rule)
    ensures var r := FilterList(FilterList(FilterList(value, a), b), c);
            Settled(r, a) && Settled(r, b) && Settled(r, c)
            && FilterList(FilterList(FilterList(r, a), b), c) == r
            && FilterList(FilterList(r, b), c) == r && FilterList(r, c) == r
  {
    var x := FilterList(value, a);
    var y := FilterList(x, b);
    var r := FilterList(y, c);
    FilterListSettles(value, a, a);
    FilterListSettles(x, b, a);
    FilterListSettles(y, c, a);
    FilterListSettles(y, c, b);
    SettledIsFixed(r, a);
    SettledIsFixed(r, b);
    SettledIsFixed(r, c);
  }

  lemma TwoListsStable(value: Option<Json>, a: Rule, b: Rule)
    ensures var r := FilterList(FilterList(value, a), b);
            FilterList(FilterList(r, a), b) == r
  {
    var x := FilterList(value, a);
    var r := FilterList(x, b);
    FilterListSettles(value, a, a);
    FilterListSettles(x, b, a);
    SettledIsFixed(r, a);
    SettledIsFixed(r, b);
  }

  lemma ItemsStable(value: Option<Json>, rule: Rule)
    ensures FilterItems(FilterItems(value, rule), rule) == FilterItems(value, rule)
  {
    if value.Some? && value.value.Array? {
      KeepExact(value.value.items, rule);
      KeepExact(Keep(value.value.items, rule), rule);
    }
  }

  lemma RestrictStable(d: Members, allowed: set<string>)
    ensures Restrict(Restrict(d, allowed), allowed) == Restrict(d, allowed)
    ensures forall m :: m in allowed ==> Get(Restrict(d, allowed), m) == Get(d, m)
  {
  }

  lemma ImagesStable(value: Option<Json>)
    ensures var r := StripItems(FilterList(value, IMAGES), IMAGE_KEYS);
            StripItems(FilterList(r, IMAGES), IMAGE_KEYS) == r
  {
    var kept := FilterList(value, IMAGES);
    var r := StripItems(kept, IMAGE_KEYS);
    FilterListSettles(value, IMAGES, IMAGES);
    if kept.Some? && kept.value.Array? {
      forall x | x in r.value.items ensures Keeps(IMAGES, x) && StripItem(x, IMAGE_KEYS) == x {
        var k :| 0 <= k < |kept.value.items| && r.value.items[k] == x;
        StripKeepsType(kept.value.items[k]);
      }
      forall k | 0 <= k < |r.value.items| ensures StripItem(r.value.items[k], IMAGE_KEYS) == r.value.items[k] {
        assert r.value.items[k] in r.value.items;
      }
      assert StripItems(r, IMAGE_KEYS).value.items == r.value.items;
    }
    SettledIsFixed(r, IMAGES);
  }

  lemma StripKeepsType(item: Json)
    requires Keeps(IMAGES, item)
    ensures var r := StripItem(item, IMAGE_KEYS); Keeps(IMAGES, r) && StripItem(r, IMAGE_KEYS) == r
  {
    if item.Object? {
      RestrictStable(item.members, IMAGE_KEYS);
    }
  }

  lemma SchemaAndPriceStable(value: Option<Json>)
    ensures NormalizeSchema(NormalizeSchema(value)) == NormalizeSchema(value)
    ensures NormalizePrice(NormalizePrice(value)) == NormalizePrice(value)
  {
  }

  // Branding

  /** Branding that normalisation has been through: known members, known images, nothing superfluous. */
  ghost predicate CleanBranding(b: Members) {
    && b != map[] && (forall k :: k in b ==> k in BRANDING_KEYS)
    && !HasUnknownImage(b, "icon") && !HasUnknownImage(b, "logo")
    && OnlyKeys(Child(b, "icon"), BRANDING_IMAGE_KEYS) && OnlyKeys(Child(b, "logo"), BRANDING_IMAGE_KEYS)
  }

  lemma RestrictFixed(d: Members, allowed: set<string>)
    ensures Restrict(d, allowed) == d <==> forall k :: k in d ==> k in allowed
  {
  }

  lemma StripImageFixed(b: Members, member: string)
    requires OnlyKeys(Child(b, member), BRANDING_IMAGE_KEYS)
    ensures StripImage(b, member) == b
  {
    if Child(b, member).Some? {
      RestrictFixed(Child(b, member).value, BRANDING_IMAGE_KEYS);
    }
  }

  lemma CleanBrandingFixed(b: Members)
    requires CleanBranding(b)
    ensures NormalizeBranding(Some(Object(b))) == Some(Object(b))
  {
    RestrictFixed(b, BRANDING_KEYS);
    StripImageFixed(b, "icon");
    StripImageFixed(b, "logo");
  }

  lemma StripImageCleans(b: Members, member: string)
    requires !HasUnknownImage(b, member)
    ensures var r := StripImage(b, member);
            && r.Keys == b.Keys && !HasUnknownImage(r, member) && OnlyKeys(Child(r, member), BRANDING_IMAGE_KEYS)
            && forall k :: k in b && k != member ==> r[k] == b[k]
  {
    if Child(b, member).Some? {
      RestrictStable(Child(b, member).value, BRANDING_IMAGE_KEYS);
    }
  }

  lemma BrandingStable(value: Option<Json>)
    ensures NormalizeBranding(NormalizeBranding(value)) == NormalizeBranding(value)
  {
    if value.Some? && value.value.Object? && NormalizeBranding(value).Some? {
      var b := Restrict(value.value.members, BRANDING_KEYS);
      StripImageCleans(b, "icon");
      var withIcon := StripImage(b, "icon");
      StripImageCleans(withIcon, "logo");
      var r := StripImage(withIcon, "logo");
      assert "icon" in r ==> r["icon"] == withIcon["icon"];
      assert CleanBranding(r);
      CleanBrandingFixed(r);
    }
  }

  // Search capabilities

  /** No inline definitions of this kind, or some and all of them recognised. */
  ghost predicate CleanDefinitions(c: Members, member: string, rule: Rule) {
    var source := Child(c, member);
    source.Some? && "inline" in source.value && source.value["inline"].Array? ==>
      Settled(Some(source.value["inline"]), rule)
  }

  lemma DefinitionsSettle(c: Members, member: string, rule: Rule)
    ensures CleanDefinitions(NormalizeDefinitions(c, member, rule), member, rule)
    ensures forall m :: m != member ==> Get(NormalizeDefinitions(c, member, rule), m) == Get(c, m)
  {
    var source := Child(c, member);
    if source.Some? && "inline" in source.value && source.value["inline"].Array? {
      KeepExact(source.value["inline"].items, rule);
    }
  }

  lemma CleanDefinitionsFixed(c: Members, member: string, rule: Rule)
    requires CleanDefinitions(c, member, rule)
    ensures NormalizeDefinitions(c, member, rule) == c
  {
    var source := Child(c, member);
    if source.Some? && "inline" in source.value && source.value["inline"].Array? {
      KeepExact(source.value["inline"].items, rule);
      assert source.value["inline" := Array(Keep(source.value["inline"].items, rule))] == source.value;
      assert c[member := Object(source.value)] == c;
    }
  }

  lemma CleanElsewhere(a: Members, b: Members, member: string, rule: Rule)
    requires Get(a, member) == Get(b, member)
    ensures CleanDefinitions(a, member, rule) <==> CleanDefinitions(b, member, rule)
  {
  }

  lemma CapabilitiesStable(value: Option<Json>)
    ensures NormalizeCapabilities(NormalizeCapabilities(value)) == NormalizeCapabilities(value)
  {
    if value.Some? && value.value.Object? {
      var c := value.value.members;
      var filters := NormalizeDefinitions(c, "filters", KnownFilter);
      var r := NormalizeDefinitions(filters, "sorts", KnownSort);
      DefinitionsSettle(c, "filters", KnownFilter);
      DefinitionsSettle(filters, "sorts", KnownSort);
      CleanElsewhere(filters, r, "filters", KnownFilter);
      CleanDefinitionsFixed(r, "filters", KnownFilter);
      CleanDefinitionsFixed(r, "sorts", KnownSort);
    }
  }

  /** The two kinds of definitions may be treated in either order, as the iteration over a map does. */
  lemma DefinitionOrderIsIrrelevant(c: Members)
    ensures NormalizeDefinitions(NormalizeDefinitions(c, "filters", KnownFilter), "sorts", KnownSort) ==
            NormalizeDefinitions(NormalizeDefinitions(c, "sorts", KnownSort), "filters", KnownFilter)
  {
    var a := NormalizeDefinitions(c, "filters", KnownFilter);
    var b := NormalizeDefinitions(c, "sorts", KnownSort);
    DefinitionsSettle(c, "filters", KnownFilter);
    DefinitionsSettle(c, "sorts", KnownSort);
    var ab := NormalizeDefinitions(a, "sorts", KnownSort);
    var ba := NormalizeDefinitions(b, "filters", KnownFilter);
    DefinitionsSettle(a, "sorts", KnownSort);
    DefinitionsSettle(b, "filters", KnownFilter);
    DefinitionsDependOn(a, c, "sorts", KnownSort);
    DefinitionsDependOn(b, c, "filters", KnownFilter);
    forall m ensures Get(ab, m) == Get(ba, m) {
      if m == "sorts" {
      } else if m == "filters" {
      } else {
        assert Get(ab, m) == Get(a, m) == Get(c, m);
      }
    }
    SameMembers(ab, ba);
  }

  lemma DefinitionsDependOn(a: Members, b: Members, member: string, rule: Rule)
    requires Get(a, member) == Get(b, member)
    ensures Get(NormalizeDefinitions(a, member, rule), member) == Get(NormalizeDefinitions(b, member, rule), member)
  {
  }

  // Protocols

  /** A list none of whose items the rule removes; it may be empty. */
  ghost predicate AllKept(value: Option<Json>, rule: Rule) {
    value.Some? && value.value.Array? ==> forall x :: x in value.value.items ==> Keeps(rule, x)
  }

  lemma CategorySettles(value: Option<Json>, rule: Rule)
    ensures AllKept(FilterCategory(value, rule), rule)
    ensures FilterCategory(value, rule) == value <==> AllKept(value, rule)
  {
    if value.Some? && value.value.Array? {
      KeepExact(value.value.items, rule);
    }
  }

  lemma CategoriesByMember(p: Members)
    ensures Get(Categories(p), "enrollment") == FilterCategory(Get(p, "enrollment"), ENROLLMENT)
    ensures Get(Categories(p), "payments") == FilterCategory(Get(p, "payments"), PAYMENTS)
    ensures Get(Categories(p), "trust") == FilterCategory(Get(p, "trust"), TRUST)
    ensures forall m :: m != "enrollment" && m != "payments" && m != "trust" ==> Get(Categories(p), m) == Get(p, m)
  {
  }

  /** The list of payment protocols once its options have been filtered. */
  ghost predicate CleanPayments(value: Option<Json>) {
    && AllKept(value, PAYMENTS) && Settled(value, KnownAuthentication)
    && (value.Some? && value.value.Array? ==> forall x :: x in value.value.items ==> FilterOptions(x) == x)
  }

  /** Protocols that normalisation has been through, and that it did not empty. */
  ghost predicate CleanProtocols(p: Members) {
    && p != map[]
    && AllKept(Get(p, "enrollment"), ENROLLMENT) && AllKept(Get(p, "trust"), TRUST)
    && CleanPayments(Get(p, "payments"))
  }

  function ProtocolsOf(value: Option<Json>): Option<Json> {
    FilterPaymentOptions(FilterPaymentAuthentication(FilterProtocols(value)))
  }

  lemma PutSame(d: Members, m: string)
    ensures Put(d, m, Get(d, m)) == d
  {
  }

  lemma CategoriesFixed(p: Members)
    requires AllKept(Get(p, "enrollment"), ENROLLMENT) && AllKept(Get(p, "trust"), TRUST)
    requires AllKept(Get(p, "payments"), PAYMENTS)
    ensures Categories(p) == p
  {
    CategorySettles(Get(p, "enrollment"), ENROLLMENT);
    CategorySettles(Get(p, "payments"), PAYMENTS);
    CategorySettles(Get(p, "trust"), TRUST);
    PutSame(p, "enrollment");
    PutSame(p, "payments");
    PutSame(p, "trust");
  }

  lemma CleanProtocolsFixed(p: Members)
    requires CleanProtocols(p)
    ensures ProtocolsOf(Some(Object(p))) == Some(Object(p))
  {
    CategoriesFixed(p);
    SettledIsFixed(Get(p, "payments"), KnownAuthentication);
    PutSame(p, "payments");
    if "payments" in p && p["payments"].Array? {
      var items := p["payments"].items;
      forall k | 0 <= k < |items| ensures FilterOptions(items[k]) == items[k] {
        assert items[k] in items;
      }
      assert MapFilterOptions(items) == items;
    }
  }

  lemma FilterOptionsSettles(payment: Json)
    ensures FilterOptions(FilterOptions(payment)) == FilterOptions(payment)
    ensures Keeps(PAYMENTS, payment) ==> Keeps(PAYMENTS, FilterOptions(payment))
    ensures Keeps(KnownAuthentication, payment) ==> Keeps(KnownAuthentication, FilterOptions(payment))
  {
    if payment.Object? {
      var options := Get(payment.members, "options");
      var r := Put(payment.members, "options", FilterList(options, PAYMENT_OPTIONS));
      FilterListSettles(options, PAYMENT_OPTIONS, PAYMENT_OPTIONS);
      SettledIsFixed(FilterList(options, PAYMENT_OPTIONS), PAYMENT_OPTIONS);
      PutSame(r, "options");
      assert Get(r, "name") == Get(payment.members, "name");
      assert Get(r, "authentication") == Get(payment.members, "authentication");
    }
  }

  lemma MapFilterOptionsCleans(items: seq<Json>)
    requires items != [] && forall x :: x in items ==> Keeps(PAYMENTS, x) && Keeps(KnownAuthentication, x)
    ensures CleanPayments(Some(Array(MapFilterOptions(items))))
  {
    var r := MapFilterOptions(items);
    forall x | x in r ensures Keeps(PAYMENTS, x) && Keeps(KnownAuthentication, x) && FilterOptions(x) == x {
      var k :| 0 <= k < |r| && r[k] == x;
      assert items[k] in items;
      FilterOptionsSettles(items[k]);
    }
  }

  /** The protocols before their payment options are filtered, as an object's members. */
  function Authenticated(p: Members): Members {
    Put(Categories(p), "payments", FilterList(Get(Categories(p), "payments"), KnownAuthentication))
  }

  lemma AuthenticatedPayments(p: Members)
    ensures AllKept(Get(Authenticated(p), "payments"), PAYMENTS)
    ensures Settled(Get(Authenticated(p), "payments"), KnownAuthentication)
    ensures AllKept(Get(Authenticated(p), "enrollment"), ENROLLMENT) && AllKept(Get(Authenticated(p), "trust"), TRUST)
  {
    CategoriesByMember(p);
    CategorySettles(Get(p, "enrollment"), ENROLLMENT);
    CategorySettles(Get(p, "payments"), PAYMENTS);
    CategorySettles(Get(p, "trust"), TRUST);
    var payments := Get(Categories(p), "payments");
    FilterListSettles(payments, KnownAuthentication, KnownAuthentication);
    if payments.Some? && payments.value.Array? {
      KeepExact(payments.value.items, KnownAuthentication);
    }
  }

  /**
   One pass over protocols leaves them clean, deletes them, or leaves an empty object; the last
   only when filtering payment authentication removed the only member that was left.
   */
  lemma ProtocolsOnce(p: Members)
    ensures var r := ProtocolsOf(Some(Object(p)));
            && (r.None? <==> Categories(p) == map[])
            && (r == Some(Object(map[])) <==> Categories(p) != map[] && Authenticated(p) == map[])
            && (r.Some? && r != Some(Object(map[])) ==> r.value.Object? && CleanProtocols(r.value.members))
  {
    if Categories(p) != map[] {
      var q := Authenticated(p);
      AuthenticatedPayments(p);
      if "payments" in q && q["payments"].Array? {
        MapFilterOptionsCleans(q["payments"].items);
        var r := q["payments" := Array(MapFilterOptions(q["payments"].items))];
        assert Get(r, "enrollment") == Get(q, "enrollment") && Get(r, "trust") == Get(q, "trust");
        assert "payments" in r;
      }
    }
  }

  lemma EmptyProtocols()
    ensures ProtocolsOf(Some(Object(map[]))) == None && ProtocolsOf(None) == None
  {
    CategoriesByMember(map[]);
    assert Categories(map[]) == map[] by {
      forall m ensures Get(Categories(map[]), m) == None {
      }
      SameMembers(Categories(map[]), map[]);
    }
  }

  /** Two passes over protocols settle them; one does unless it leaves an empty object. */
  lemma ProtocolsStable(value: Option<Json>)
    ensures var once := ProtocolsOf(value);
            && (once != Some(Object(map[])) ==> ProtocolsOf(once) == once)
            && (once == Some(Object(map[])) ==> ProtocolsOf(once) == None && ProtocolsOf(None) == None)
  {
    EmptyProtocols();
    if value.Some? && value.value.Object? {
      ProtocolsOnce(value.value.members);
      var once := ProtocolsOf(value);
      if once.Some? && once != Some(Object(map[])) {
        CleanProtocolsFixed(once.value.members);
      }
    }
  }

  // ----- When one pass is not enough -----

  /** Filtering this category deletes it: it has descriptors, and an Agent knows none of them. */
  ghost predicate AllUnknown(value: Json, rule: Rule) {
    value.Array? && value.items != [] && forall x :: x in value.items ==> !Keeps(rule, x)
  }

  /**
   The protocols of the document hold payment descriptors of known protocols, or none at all, but
   no payment descriptor with known authentication, and besides them only categories that an
   Agent knows nothing in.
   */
  ghost predicate EmptiesProtocols(d: Members) {
    && Child(d, "protocols").Some?
    && var p := Child(d, "protocols").value;
       && (forall k :: k in p ==> k in {"enrollment", "payments", "trust"})
       && ("enrollment" in p ==> AllUnknown(p["enrollment"], ENROLLMENT))
       && ("trust" in p ==> AllUnknown(p["trust"], TRUST))
       && "payments" in p && p["payments"].Array?
       && (p["payments"].items == [] || exists x :: x in p["payments"].items && Keeps(PAYMENTS, x))
       && forall x :: x in p["payments"].items && Keeps(PAYMENTS, x) ==> !Keeps(KnownAuthentication, x)
  }

  lemma CategoryDeleted(value: Option<Json>, rule: Rule)
    ensures FilterCategory(value, rule).None? <==> value.None? || AllUnknown(value.value, rule)
  {
    if value.Some? && value.value.Array? {
      var kept := Keep(value.value.items, rule);
      KeepExact(value.value.items, rule);
      if kept != [] {
        assert kept[0] in kept;
      }
    }
  }

  lemma PaymentsDeleted(value: Option<Json>)
    ensures var named := FilterCategory(value, PAYMENTS);
            named.Some? && FilterList(named, KnownAuthentication).None? <==>
            value.Some? && value.value.Array?
            && (value.value.items == [] || exists x :: x in value.value.items && Keeps(PAYMENTS, x))
            && forall x :: x in value.value.items && Keeps(PAYMENTS, x) ==> !Keeps(KnownAuthentication, x)
  {
    CategoryDeleted(value, PAYMENTS);
    if value.Some? && value.value.Array? {
      var named := Keep(value.value.items, PAYMENTS);
      KeepExact(value.value.items, PAYMENTS);
      KeepExact(named, KnownAuthentication);
      var known := Keep(named, KnownAuthentication);
      if known != [] {
        assert known[0] in known;
      }
    }
  }

  lemma EmptyWhen(p: Members)
    ensures Categories(p) != map[] && Authenticated(p) == map[] <==>
            && (forall m :: m != "payments" ==> Get(Categories(p), m).None?)
            && Get(Categories(p), "payments").Some?
            && FilterList(Get(Categories(p), "payments"), KnownAuthentication).None?
  {
    var c, q := Categories(p), Authenticated(p);
    if c != map[] && q == map[] {
      forall m | m != "payments" ensures Get(c, m).None? {
        assert Get(q, m) == Get(c, m);
      }
      forall k | k in c ensures k == "payments" {
        assert Get(c, k).Some?;
      }
      assert "payments" in c by {
        assert c.Keys != {};
      }
      assert Get(q, "payments").None?;
    }
    if (forall m :: m != "payments" ==> Get(c, m).None?) && Get(c, "payments").Some?
       && FilterList(Get(c, "payments"), KnownAuthentication).None? {
      forall m ensures m !in q {
        assert Get(q, m) == if m == "payments" then None else Get(c, m);
      }
    }
  }

  /** The condition on the document is exactly when a first pass leaves `protocols` an empty object. */
  lemma EmptiesProtocolsExact(d: Members)
    ensures EmptiesProtocols(d) <==> ProtocolsOf(Get(d, "protocols")) == Some(Object(map[]))
  {
    if Child(d, "protocols").Some? {
      var p := Child(d, "protocols").value;
      ProtocolsOnce(p);
      EmptyWhen(p);
      CategoriesByMember(p);
      CategoryDeleted(Get(p, "enrollment"), ENROLLMENT);
      CategoryDeleted(Get(p, "trust"), TRUST);
      PaymentsDeleted(Get(p, "payments"));
      if forall m :: m != "payments" ==> Get(Categories(p), m).None? {
        forall k | k in p ensures k in {"enrollment", "payments", "trust"} {
          assert Get(Categories(p), k).None? || k == "payments";
        }
      }
    }
  }

  // ----- Stability of documents -----

  lemma ServiceMember(d: Members, m: string)
    ensures Get(Normalize(d, ServiceDocument), m) == ServiceMemberOf(m, Get(d, m))
  {
    RunByMember(SERVICE_DOCUMENT, d, m);
    ServiceDocumentTransforms(m);
    ServiceMemberApplies(m, Get(d, m));
  }

  lemma ServiceMemberApplies(m: string, v: Option<Json>)
    ensures ApplyAll(ServiceTransforms(m), v) == ServiceMemberOf(m, v)
  {
    if m == "protocols" {
      ThreeTransforms(Protocols, PaymentAuthentication, PaymentOptions, v);
    } else if m == "operations" {
      ThreeTransforms(List(OPERATIONS), List(KnownAuthentication), List(OPERATION_KEYS), v);
    } else if m == "mcp" {
      TwoTransforms(List(MCP), List(MCP_KEYS), v);
    } else if m == "branding" {
      OneTransform(Branding, v);
    } else if m == "search_capabilities" {
      OneTransform(Capabilities, v);
    }
  }

  /** What one pass does to one member of a Service Document. */
  function ServiceMemberOf(m: string, value: Option<Json>): Option<Json> {
    if m == "protocols" then ProtocolsOf(value)
    else if m == "operations" then
      FilterList(FilterList(FilterList(value, OPERATIONS), KnownAuthentication), OPERATION_KEYS)
    else if m == "mcp" then FilterList(FilterList(value, MCP), MCP_KEYS)
    else if m == "branding" then NormalizeBranding(value)
    else if m == "search_capabilities" then NormalizeCapabilities(value)
    else value
  }

  lemma ServiceMemberStable(m: string, value: Option<Json>)
    ensures m != "protocols" ==> ServiceMemberOf(m, ServiceMemberOf(m, value)) == ServiceMemberOf(m, value)
  {
    ListsStable(value, OPERATIONS, KnownAuthentication, OPERATION_KEYS);
    TwoListsStable(value, MCP, MCP_KEYS);
    BrandingStable(value);
    CapabilitiesStable(value);
  }

  /**
   For every Service Document a third pass changes nothing, and a second pass changes something
   exactly when the first one left `protocols` an empty object.
   */
  lemma ServiceDocumentStable(d: Members)
    ensures var once := Normalize(d, ServiceDocument);
            var twice := Normalize(once, ServiceDocument);
            && Normalize(twice, ServiceDocument) == twice
            && (twice == once <==> !EmptiesProtocols(d))
  {
    var once := Normalize(d, ServiceDocument);
    var twice := Normalize(once, ServiceDocument);
    var thrice := Normalize(twice, ServiceDocument);
    EmptiesProtocolsExact(d);
    ProtocolsStable(Get(d, "protocols"));
    ProtocolsStable(Get(once, "protocols"));
    forall m
      ensures Get(thrice, m) == Get(twice, m)
      ensures m != "protocols" || !EmptiesProtocols(d) ==> Get(twice, m) == Get(once, m)
    {
      ServiceMember(d, m);
      ServiceMember(once, m);
      ServiceMember(twice, m);
      ServiceMemberStable(m, Get(d, m));
    }
    SameMembers(thrice, twice);
    if !EmptiesProtocols(d) {
      SameMembers(twice, once);
    } else {
      ServiceMember(d, "protocols");
      ServiceMember(once, "protocols");
    }
  }

  function ResourceMemberOf(m: string, offering: bool, value: Option<Json>): Option<Json> {
    if m == "images" then StripItems(FilterList(value, IMAGES), IMAGE_KEYS)
    else if m == "search_capabilities" then NormalizeCapabilities(value)
    else if m == "schema" && offering then NormalizeSchema(value)
    else if m == "price" && offering then NormalizePrice(value)
    else if m == "actions" && offering then FilterList(value, UsableAction)
    else value
  }

  function PassesOf(offering: bool): seq<Pass> {
    if offering then OFFERING else COLLECTION
  }

  lemma ResourceMember(d: Members, offering: bool, m: string)
    ensures Get(Run(PassesOf(offering), d), m) == ResourceMemberOf(m, offering, Get(d, m))
  {
    RunByMember(PassesOf(offering), d, m);
    OfferingTransforms(m);
    CollectionTransforms(m);
    ResourceMemberApplies(m, offering, Get(d, m));
  }

  lemma ResourceMemberApplies(m: string, offering: bool, v: Option<Json>)
    ensures ApplyAll(ResourceTransforms(m, offering), v) == ResourceMemberOf(m, offering, v)
  {
    if m == "images" {
      TwoTransforms(List(IMAGES), Strip(IMAGE_KEYS), v);
    } else if m == "search_capabilities" {
      OneTransform(Capabilities, v);
    } else if m == "schema" && offering {
      OneTransform(Schema, v);
    } else if m == "price" && offering {
      OneTransform(Price, v);
    } else if m == "actions" && offering {
      OneTransform(List(UsableAction), v);
    }
  }

  lemma ResourceStable(d: Members, offering: bool)
    ensures var once := Run(PassesOf(offering), d); Run(PassesOf(offering), once) == once
  {
    var once := Run(PassesOf(offering), d);
    var twice := Run(PassesOf(offering), once);
    forall m ensures Get(twice, m) == Get(once, m) {
      var v := Get(d, m);
      ResourceMember(d, offering, m);
      ResourceMember(once, offering, m);
      ImagesStable(v);
      CapabilitiesStable(v);
      SchemaAndPriceStable(v);
      FilterListSettles(v, UsableAction, UsableAction);
      SettledIsFixed(FilterList(v, UsableAction), UsableAction);
    }
    SameMembers(twice, once);
  }

  lemma NormalizeItemsStable(value: Option<Json>, offering: bool)
    ensures var once := NormalizeItems(value, PassesOf(offering));
            NormalizeItems(once, PassesOf(offering)) == once
  {
    if value.Some? && value.value.Array? {
      var once := NormalizeItems(value, PassesOf(offering)).value.items;
      forall k | 0 <= k < |once| ensures NormalizeItem(once[k], PassesOf(offering)) == once[k] {
        if value.value.items[k].Object? {
          ResourceStable(value.value.items[k].members, offering);
        }
      }
      assert NormalizeItems(Some(Array(once)), PassesOf(offering)).value.items == once;
    }
  }

  lemma OnePassStable(member: string, rule: Rule, d: Members)
    ensures var passes := [Pass(member, Items(rule))];
            Run(passes, Run(passes, d)) == Run(passes, d)
  {
    var passes := [Pass(member, Items(rule))];
    assert passes[..0] == [];
    ItemsStable(Get(d, member), rule);
    PutSame(Run(passes, d), member);
  }

  /** Every other kind of document is settled by one pass. */
  lemma OtherKindsStable(d: Members, kind: Kind)
    requires kind != ServiceDocument
    ensures Normalize(Normalize(d, kind), kind) == Normalize(d, kind)
  {
    match kind {
      case Collection => ResourceStable(d, false);
      case Offering => ResourceStable(d, true);
      case CollectionPage =>
        NormalizeItemsStable(Get(d, "items"), false);
        PutSame(Normalize(d, kind), "items");
      case OfferingPage =>
        NormalizeItemsStable(Get(d, "items"), true);
        PutSame(Normalize(d, kind), "items");
      case FilterPage => OnePassStable("items", KnownFilter, d);
      case SortPage => OnePassStable("items", KnownSort, d);
      case Problem => OnePassStable("invalid_params", PROBLEM_LOCATIONS, d);
      case Unlisted =>
    }
  }

  /** One pass is not always enough: an empty list of payments leaves an empty `protocols`. */
  lemma OnePassIsNotAlwaysEnough()
    ensures exists d: Members ::
              Normalize(Normalize(d, ServiceDocument), ServiceDocument) != Normalize(d, ServiceDocument)
  {
    var p: Members := map["payments" := Array([])];
    var d: Members := map["protocols" := Object(p)];
    assert Child(d, "protocols").value == p;
    assert EmptiesProtocols(d);
    ServiceDocumentStable(d);
  }
}

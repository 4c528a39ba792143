/**
 The Agent's normalisation of documents, validation.go: it removes what an Agent does not know, in
 place, so that the strict parser accepts the rest. A decoded document is a JSON object; each helper
 of the source reads one member and then keeps, replaces or deletes it.
 */
module Normalization {
  import opened Wrappers
  import opened Json

  // ----- Members -----

  function Get(d: Members, member: string): Option<Json> {
    if member in d then Some(d[member]) else None
  }

  function Put(d: Members, member: string, value: Option<Json>): Members {
    if value.None? then d - {member} else d[member := value.value]
  }

  function Restrict(d: Members, allowed: set<string>): Members {
    map k | k in d && k in allowed :: d[k]
  }

  lemma SameMembers(a: Members, b: Members)
    requires forall m :: Get(a, m) == Get(b, m)
    ensures a == b
  {
    forall m ensures m in a <==> m in b {
      assert Get(a, m) == Get(b, m);
    }
    forall m | m in a ensures a[m] == b[m] {
      assert Get(a, m) == Get(b, m);
    }
  }

  /** Deleting the members that are not allowed, in whatever order the map yields them. */
  method StripKeys(d: Members, allowed: set<string>) returns (r: Members)
    ensures r == Restrict(d, allowed)
  {
    r := d;
    var keys := d.Keys;
    while keys != {}
      invariant r == map k | k in d && (k in allowed || k in keys) :: d[k]
      decreases keys
    {
      var k :| k in keys;
      if k !in allowed {
        r := r - {k};
      }
      keys := keys - {k};
    }
  }

  function Child(d: Members, member: string): Option<Members> {
    if member in d && d[member].Object? then Some(d[member].members) else None
  }

  // ----- Which list items an Agent keeps -----

  datatype Rule =
    | Known(member: string, allowed: set<string>)   // a string discriminator must be known
    | KnownAuthentication
    | Closed(allowed: set<string>)                  // no other members
    | KnownText(allowed: set<string>)               // a string item must be known
    | KnownFilter
    | KnownSort
    | UsableAction

  predicate HasUnknownAuthentication(d: Members) {
    Text(d, "authentication").Some? && Text(d, "authentication").value !in {"not-required", "optional", "required"}
  }

  predicate IsKnownFilter(d: Members) {
    && (Text(d, "type").Some? ==>
          Text(d, "type").value in {"boolean", "date", "date-time", "decimal", "integer", "number", "string"})
    && ("operators" in d && d["operators"].Array? ==>
          forall x :: x in d["operators"].items && x.String? ==>
            x.text in {"eq", "exists", "gt", "gte", "in", "lt", "lte"})
    && (Child(d, "unit").Some? && Text(Child(d, "unit").value, "system").Some? ==>
          Text(Child(d, "unit").value, "system").value in {"service", "ucum"})
  }

  predicate IsKnownKey(d: Members) {
    && (Text(d, "direction").Some? ==> Text(d, "direction").value in {"ascending", "descending"})
    && (Text(d, "missing").Some? ==> Text(d, "missing").value in {"first", "last"})
  }

  predicate IsKnownSort(d: Members) {
    "keys" in d && d["keys"].Array? ==> forall x :: x in d["keys"].items && x.Object? ==> IsKnownKey(x.members)
  }

  predicate OnlyKeys(d: Option<Members>, allowed: set<string>) {
    d.Some? ==> forall k :: k in d.value ==> k in allowed
  }

  predicate IsUsableAction(d: Members) {
    var http := Child(d, "http");
    var request := if http.Some? then Child(http.value, "request") else None;
    var schema := if request.Some? then Child(request.value, "schema") else None;
    && !HasUnknownAuthentication(d)
    && OnlyKeys(Some(d), {"authentication", "description", "http", "id", "openapi", "rel"})
    && OnlyKeys(http, {"href", "method", "request", "response_content_types"})
    && OnlyKeys(request, {"content_type", "schema"})
    && OnlyKeys(schema, {"url"})
    && OnlyKeys(Child(d, "openapi"), {"operation_id", "url"})
    && (http.Some? && Text(http.value, "method").Some? ==> Text(http.value, "method").value in {"GET", "POST"})
  }

  predicate Keeps(rule: Rule, item: Json) {
    match rule
    case Known(member, allowed) =>
      item.Object? && Text(item.members, member).Some? ==> Text(item.members, member).value in allowed
    case KnownAuthentication => item.Object? ==> !HasUnknownAuthentication(item.members)
    case Closed(allowed) => item.Object? ==> OnlyKeys(Some(item.members), allowed)
    case KnownText(allowed) => item.String? ==> item.text in allowed
    case KnownFilter => item.Object? ==> IsKnownFilter(item.members)
    case KnownSort => item.Object? ==> IsKnownSort(item.members)
    case UsableAction => item.Object? ==> IsUsableAction(item.members)
  }

  function Keep(items: seq<Json>, rule: Rule): seq<Json> {
    if items == [] then []
    else
      var last := items[|items| - 1];
      Keep(items[..|items| - 1], rule) + if Keeps(rule, last) then [last] else []
  }

  /** Exactly the kept items remain, and all of them when there is nothing to remove. */
  lemma {:induction false} KeepExact(items: seq<Json>, rule: Rule)
    ensures forall x :: x in Keep(items, rule) <==> x in items && Keeps(rule, x)
    ensures Keep(items, rule) == items <==> forall x :: x in items ==> Keeps(rule, x)
    ensures |Keep(items, rule)| <= |items|
    decreases |items|
  {
    if items != [] {
      var n := |items| - 1;
      assert items == items[..n] + [items[n]];
      KeepExact(items[..n], rule);
    }
  }

  lemma KeepSnoc(items: seq<Json>, i: nat, rule: Rule)
    requires i < |items|
    ensures Keep(items[..i + 1], rule) == Keep(items[..i], rule) + if Keeps(rule, items[i]) then [items[i]] else []
  {
    assert items[..i + 1][..i] == items[..i];
  }

  /**
   The compaction of the source: kept items are written over the front of the same array while it
   is being read, and the list is then cut to their number.
   */
  method Compact(items: array<Json>, rule: Rule) returns (count: nat)
    modifies items
    ensures count <= items.Length && items[..count] == Keep(old(items[..]), rule)
    ensures forall k :: count <= k < items.Length ==> items[k] == old(items[k])
  {
    count := 0;
    ghost var was := items[..];
    for i := 0 to items.Length
      invariant count <= i
      invariant items[..count] == Keep(was[..i], rule)
      invariant forall k :: count <= k < items.Length ==> items[k] == was[k]
    {
      KeepSnoc(was, i, rule);
      var item := items[i];
      if Keeps(rule, item) {
        items[count] := item;
        assert items[..count + 1] == items[..count] + [item];
        count := count + 1;
      }
    }
    assert was[..items.Length] == was;
  }

  // ----- What happens to one member -----

  /** Filter a list, and delete it when nothing is left; anything but a list stays. */
  function FilterList(value: Option<Json>, rule: Rule): Option<Json> {
    if value.None? || !value.value.Array? then value
    else
      var kept := Keep(value.value.items, rule);
      if kept == [] then None else Some(Array(kept))
  }

  /** Filter a list, and keep it even when nothing is left. */
  function FilterItems(value: Option<Json>, rule: Rule): Option<Json> {
    if value.None? || !value.value.Array? then value else Some(Array(Keep(value.value.items, rule)))
  }

  /** Filter a list, and delete it only when that emptied it. */
  function FilterCategory(value: Option<Json>, rule: Rule): Option<Json> {
    if value.None? || !value.value.Array? then value
    else
      var kept := Keep(value.value.items, rule);
      if kept == [] && value.value.items != [] then None else Some(Array(kept))
  }

  const ENROLLMENT := Known("name", {"aep"})
  const PAYMENTS := Known("name", {"mpp", "x402"})
  const TRUST := Known("name", {"tap"})
  const PAYMENT_OPTIONS := KnownText({"algorand", "aptos", "arbitrum", "arc", "avalanche", "base", "card", "ethereum",
    "hedera", "inflow", "lightning", "monad", "polygon", "solana", "stellar", "stripe", "tempo", "ton"})
  const OPERATIONS := Known("name", {"get-collection", "get-offering", "list-collection-offerings",
    "list-collections", "list-offerings", "search-collections", "search-offerings"})
  const OPERATION_KEYS := Closed({"authentication", "name"})
  const MCP := Known("type", {"streamable-http"})
  const MCP_KEYS := Closed({"description", "name", "type", "url"})
  const IMAGES := Known("type", {"image/avif", "image/jpeg", "image/png", "image/svg+xml", "image/webp"})
  const IMAGE_KEYS := {"alt", "height", "src", "type", "width"}
  const PROBLEM_LOCATIONS := Known("in", {"body", "header", "path", "query"})
  const BRANDING_KEYS := {"icon", "logo"}
  const BRANDING_IMAGE_KEYS := {"src", "type"}
  const BRANDING_TYPES := {"image/png", "image/svg+xml", "image/webp"}
  const PRICES := {"fixed", "free", "metered", "quote", "range", "starting_at"}

  function Categories(p: Members): Members {
    var p1 := Put(p, "enrollment", FilterCategory(Get(p, "enrollment"), ENROLLMENT));
    var p2 := Put(p1, "payments", FilterCategory(Get(p1, "payments"), PAYMENTS));
    Put(p2, "trust", FilterCategory(Get(p2, "trust"), TRUST))
  }

  function FilterProtocols(value: Option<Json>): Option<Json> {
    if value.None? || !value.value.Object? then value
    else
      var p := Categories(value.value.members);
      if p == map[] then None else Some(Object(p))
  }

  function FilterPaymentAuthentication(value: Option<Json>): Option<Json> {
    if value.None? || !value.value.Object? then value
    else
      var p := value.value.members;
      Some(Object(Put(p, "payments", FilterList(Get(p, "payments"), KnownAuthentication))))
  }

  function FilterOptions(payment: Json): Json {
    if !payment.Object? then payment
    else Object(Put(payment.members, "options", FilterList(Get(payment.members, "options"), PAYMENT_OPTIONS)))
  }

  function MapFilterOptions(payments: seq<Json>): (r: seq<Json>)
    ensures |r| == |payments| && forall k :: 0 <= k < |r| ==> r[k] == FilterOptions(payments[k])
  {
    seq(|payments|, k requires 0 <= k < |payments| => FilterOptions(payments[k]))
  }

  function FilterPaymentOptions(value: Option<Json>): Option<Json> {
    if value.None? || !value.value.Object? then value
    else
      var p := value.value.members;
      if "payments" !in p || !p["payments"].Array? then value
      else Some(Object(p["payments" := Array(MapFilterOptions(p["payments"].items))]))
  }

  predicate HasUnknownImage(branding: Members, member: string) {
    var image := Child(branding, member);
    image.Some? && Text(image.value, "type").Some? && Text(image.value, "type").value !in BRANDING_TYPES
  }

  function StripImage(branding: Members, member: string): Members {
    var image := Child(branding, member);
    if image.None? then branding else branding[member := Object(Restrict(image.value, BRANDING_IMAGE_KEYS))]
  }

  function NormalizeBranding(value: Option<Json>): Option<Json> {
    if value.None? || !value.value.Object? then value
    else
      var branding := Restrict(value.value.members, BRANDING_KEYS);
      if HasUnknownImage(branding, "icon") then None
      else
        var withIcon := StripImage(branding, "icon");
        if HasUnknownImage(withIcon, "logo") then None
        else
          var stripped := StripImage(withIcon, "logo");
          if stripped == map[] then None else Some(Object(stripped))
  }

  function NormalizeDefinitions(capabilities: Members, member: string, rule: Rule): Members {
    var source := Child(capabilities, member);
    if source.None? || !("inline" in source.value && source.value["inline"].Array?) then capabilities
    else
      var kept := Keep(source.value["inline"].items, rule);
      if kept == [] then capabilities - {member}
      else capabilities[member := Object(source.value["inline" := Array(kept)])]
  }

  function NormalizeCapabilities(value: Option<Json>): Option<Json> {
    if value.None? || !value.value.Object? then value
    else
      var filters := NormalizeDefinitions(value.value.members, "filters", KnownFilter);
      var capabilities := NormalizeDefinitions(filters, "sorts", KnownSort);
      if capabilities == map[] then None else Some(Object(capabilities))
  }

  function StripItem(item: Json, allowed: set<string>): Json {
    if item.Object? then Object(Restrict(item.members, allowed)) else item
  }

  function StripItems(value: Option<Json>, allowed: set<string>): Option<Json> {
    if value.None? || !value.value.Array? then value
    else Some(Array(seq(|value.value.items|, k requires 0 <= k < |value.value.items| =>
                      StripItem(value.value.items[k], allowed))))
  }

  function NormalizeSchema(value: Option<Json>): Option<Json> {
    if value.Some? && value.value.Object? && !OnlyKeys(Some(value.value.members), {"url"}) then None else value
  }

  function NormalizePrice(value: Option<Json>): Option<Json> {
    if value.Some? && value.value.Object? && Text(value.value.members, "type").Some?
       && Text(value.value.members, "type").value !in PRICES then None else value
  }

  // ----- The document kinds -----

  /** What a helper of the source does to the member it is given. */
  datatype Transform =
    | Protocols
    | PaymentAuthentication
    | PaymentOptions
    | List(rule: Rule)
    | Items(rule: Rule)
    | Strip(allowed: set<string>)
    | Branding
    | Capabilities
    | Schema
    | Price

  function Apply(t: Transform, value: Option<Json>): Option<Json> {
    match t
    case Protocols => FilterProtocols(value)
    case PaymentAuthentication => FilterPaymentAuthentication(value)
    case PaymentOptions => FilterPaymentOptions(value)
    case List(rule) => FilterList(value, rule)
    case Items(rule) => FilterItems(value, rule)
    case Strip(allowed) => StripItems(value, allowed)
    case Branding => NormalizeBranding(value)
    case Capabilities => NormalizeCapabilities(value)
    case Schema => NormalizeSchema(value)
    case Price => NormalizePrice(value)
  }

  /** One call of a helper: the member and what happens to it. */
  datatype Pass = Pass(member: string, transform: Transform)

  const SERVICE_NAMES: seq<Pass> := [
    Pass("protocols", Protocols), Pass("protocols", PaymentAuthentication),
    Pass("operations", List(OPERATIONS)), Pass("operations", List(KnownAuthentication))]

  const SERVICE_LISTS: seq<Pass> := [
    Pass("mcp", List(MCP)), Pass("operations", List(OPERATION_KEYS)), Pass("mcp", List(MCP_KEYS))]

  const SERVICE_REST: seq<Pass> := [
    Pass("protocols", PaymentOptions), Pass("branding", Branding), Pass("search_capabilities", Capabilities)]

  const SERVICE_DOCUMENT: seq<Pass> := SERVICE_NAMES + SERVICE_LISTS + SERVICE_REST

  const COLLECTION: seq<Pass> := [
    Pass("images", List(IMAGES)), Pass("images", Strip(IMAGE_KEYS)), Pass("search_capabilities", Capabilities)]

  const OFFERING_ONLY: seq<Pass> := [
    Pass("schema", Schema), Pass("price", Price), Pass("actions", List(UsableAction))]

  const OFFERING: seq<Pass> := COLLECTION + OFFERING_ONLY

  function Run(passes: seq<Pass>, d: Members): Members {
    if passes == [] then d
    else
      var before := Run(passes[..|passes| - 1], d);
      var last := passes[|passes| - 1];
      Put(before, last.member, Apply(last.transform, Get(before, last.member)))
  }

  function NormalizeItems(value: Option<Json>, passes: seq<Pass>): Option<Json> {
    if value.None? || !value.value.Array? then value
    else Some(Array(seq(|value.value.items|, k requires 0 <= k < |value.value.items| =>
                      NormalizeItem(value.value.items[k], passes))))
  }

  function NormalizeItem(item: Json, passes: seq<Pass>): Json {
    if item.Object? then Object(Run(passes, item.members)) else item
  }

  datatype Kind = ServiceDocument | Collection | Offering | CollectionPage | OfferingPage | FilterPage | SortPage
                | Problem | Unlisted

  function Normalize(d: Members, kind: Kind): Members {
    match kind
    case ServiceDocument => Run(SERVICE_DOCUMENT, d)
    case Collection => Run(COLLECTION, d)
    case Offering => Run(OFFERING, d)
    case CollectionPage => Put(d, "items", NormalizeItems(Get(d, "items"), COLLECTION))
    case OfferingPage => Put(d, "items", NormalizeItems(Get(d, "items"), OFFERING))
    case FilterPage => Run([Pass("items", Items(KnownFilter))], d)
    case SortPage => Run([Pass("items", Items(KnownSort))], d)
    case Problem => Run([Pass("invalid_params", Items(PROBLEM_LOCATIONS))], d)
    case Unlisted => d
  }
}

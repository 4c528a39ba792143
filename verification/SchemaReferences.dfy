/**
 The walkers of agent/schemas.go that find which other documents a schema document refers to. The
 network and URL resolution are arbitrary functions.
 */
module SchemaReferences {
  import opened Wrappers
  import opened Json
  import T = Text

  const DIALECT := "https://json-schema.org/draft/2020-12/schema"

  type Url = string

  /**
   What the loader does not control: `fetch` retrieves and decodes a document, `size` is the length
   of its encoding, `dynamic` and `vocabulary` are the dynamic-reference and vocabulary checks, and
   `resolve(reference, base)` is the resolved reference without its fragment, if it is https.
   */
  datatype World = World(fetch: Url -> Option<Members>, size: Members -> nat, dynamic: Members -> bool,
                         vocabulary: Members -> bool, resolve: (string, string) -> Option<string>)

  predicate Conforms(w: World, m: Members) {
    Text(m, "$schema") == Some(DIALECT) && w.dynamic(m)
  }

  // ----- The references of a document -----

  /**
   The two walks over a document: `References` collects what `$ref` names and does not look inside
   a `$ref`; `Resources` collects the URLs that `$id` and the retrieval give to parts of it.
   */
  datatype Walk = References | Resources

  /** A subvalue that a walk visits, with the base in force for it. */
  datatype Place = Place(value: Json, base: string)

  /** The base that `$id` sets for an object and everything in it; absent when it does not resolve. */
  function BaseOf(w: World, place: Place): Option<string> {
    if place.value.Object? && Text(place.value.members, "$id").Some?
    then w.resolve(Text(place.value.members, "$id").value, place.base) else Some(place.base)
  }

  /** What the walk finds at the place itself. */
  function Own(w: World, walk: Walk, place: Place): set<Url> {
    var base := BaseOf(w, place);
    match walk
    case References =>
      if place.value.Object? && base.Some? && Text(place.value.members, "$ref").Some?
         && w.resolve(Text(place.value.members, "$ref").value, base.value).Some?
      then {w.resolve(Text(place.value.members, "$ref").value, base.value).value} else {}
    case Resources =>
      (if w.resolve("", place.base).Some? then {w.resolve("", place.base).value} else {}) +
      (if place.value.Object? && base.Some? && Text(place.value.members, "$id").Some? then {base.value} else {})
  }

  /** Whether a reference at the place itself does not resolve. */
  predicate OwnFails(w: World, walk: Walk, place: Place) {
    var base := BaseOf(w, place);
    match walk
    case References =>
      place.value.Object? &&
      (base.None? || (Text(place.value.members, "$ref").Some?
                      && w.resolve(Text(place.value.members, "$ref").value, base.value).None?))
    case Resources => w.resolve("", place.base).None? || base.None?
  }

  /** `child` is visited directly below `place`. */
  ghost predicate Below(w: World, walk: Walk, place: Place, child: Place) {
    match place.value
    case Array(items) => child.base == place.base && child.value in items
    case Object(m) =>
      && BaseOf(w, place) == Some(child.base)
      && exists k :: k in m && m[k] == child.value && !(walk.References? && k == "$ref")
    case _ => false
  }

  /** `child` is visited `n` levels below `place`. */
  ghost predicate Within(w: World, walk: Walk, place: Place, child: Place, n: nat)
    decreases n
  {
    if n == 0 then child == place
    else exists next :: Below(w, walk, place, next) && Within(w, walk, next, child, n - 1)
  }

  /** Some place that the walk visits yields `u`. */
  ghost predicate Yields(w: World, walk: Walk, place: Place, u: Url) {
    exists child: Place, n: nat :: Within(w, walk, place, child, n) && u in Own(w, walk, child)
  }

  /** Some place that the walk visits has a reference that does not resolve. */
  ghost predicate Fails(w: World, walk: Walk, place: Place) {
    exists child: Place, n: nat :: Within(w, walk, place, child, n) && OwnFails(w, walk, child)
  }

  lemma YieldsHere(w: World, walk: Walk, place: Place, u: Url)
    ensures Yields(w, walk, place, u) <==>
            u in Own(w, walk, place) || exists next :: Below(w, walk, place, next) && Yields(w, walk, next, u)
  {
    if Yields(w, walk, place, u) {
      var child: Place, n: nat :| Within(w, walk, place, child, n) && u in Own(w, walk, child);
      if n > 0 {
        var next :| Below(w, walk, place, next) && Within(w, walk, next, child, n - 1);
        assert Yields(w, walk, next, u);
      }
    }
    if u in Own(w, walk, place) {
      assert Within(w, walk, place, place, 0);
    }
    if next :| Below(w, walk, place, next) && Yields(w, walk, next, u) {
      var child: Place, n: nat :| Within(w, walk, next, child, n) && u in Own(w, walk, child);
      assert Within(w, walk, place, child, n + 1);
    }
  }

  lemma FailsHere(w: World, walk: Walk, place: Place)
    ensures Fails(w, walk, place) <==>
            OwnFails(w, walk, place) || exists next :: Below(w, walk, place, next) && Fails(w, walk, next)
  {
    if Fails(w, walk, place) {
      var child: Place, n: nat :| Within(w, walk, place, child, n) && OwnFails(w, walk, child);
      if n > 0 {
        var next :| Below(w, walk, place, next) && Within(w, walk, next, child, n - 1);
        assert Fails(w, walk, next);
      }
    }
    if OwnFails(w, walk, place) {
      assert Within(w, walk, place, place, 0);
    }
    if next :| Below(w, walk, place, next) && Fails(w, walk, next) {
      var child: Place, n: nat :| Within(w, walk, next, child, n) && OwnFails(w, walk, child);
      assert Within(w, walk, place, child, n + 1);
    }
  }

  /** What a walk over the places `parts` adds to `found`. */
  ghost predicate Collected(w: World, walk: Walk, parts: iset<Place>, found: set<Url>, r: Option<set<Url>>) {
    && (r.None? <==> exists p :: p in parts && Fails(w, walk, p))
    && (r.Some? ==> forall u :: u in r.value <==> (u in found || exists p :: p in parts && Yields(w, walk, p, u)))
  }

  ghost function Parts(w: World, walk: Walk, place: Place): iset<Place> {
    iset next: Place | Below(w, walk, place, next)
  }

  lemma CollectedNext(w: World, walk: Walk, parts: iset<Place>, next: Place, found: set<Url>, r: set<Url>,
                      r': Option<set<Url>>)
    requires Collected(w, walk, parts, found, Some(r)) && Collected(w, walk, iset{next}, r, r')
    ensures r'.Some? ==> Collected(w, walk, parts + iset{next}, found, r')
    ensures r'.None? ==> Fails(w, walk, next)
  {
  }

  /** The recursive walkers; the members of an object are visited in whatever order the map yields them. */
  method Collect(w: World, walk: Walk, place: Place, found: set<Url>) returns (r: Option<set<Url>>)
    ensures Collected(w, walk, iset{place}, found, r)
    decreases place.value, 1
  {
    FailsHere(w, walk, place);
    if OwnFails(w, walk, place) {
      return None;
    }
    var own := found + Own(w, walk, place);
    match place.value {
      case Array(_) => r := CollectItems(w, walk, place, own);
      case Object(_) => r := CollectMembers(w, walk, place, own);
      case _ =>
        assert Parts(w, walk, place) == iset{};
        r := Some(own);
    }
    CollectedHere(w, walk, place, found, r);
  }

  lemma CollectedHere(w: World, walk: Walk, place: Place, found: set<Url>, r: Option<set<Url>>)
    requires !OwnFails(w, walk, place)
    requires Collected(w, walk, Parts(w, walk, place), found + Own(w, walk, place), r)
    ensures Collected(w, walk, iset{place}, found, r)
  {
    FailsHere(w, walk, place);
    forall u {
      YieldsHere(w, walk, place, u);
    }
  }

  method CollectItems(w: World, walk: Walk, place: Place, found: set<Url>) returns (r: Option<set<Url>>)
    requires place.value.Array?
    ensures Collected(w, walk, Parts(w, walk, place), found, r)
    decreases place.value, 0
  {
    var items := place.value.items;
    var result := found;
    ghost var done: iset<Place> := iset{};
    for i := 0 to |items|
      invariant done == iset k | 0 <= k < i :: Place(items[k], place.base)
      invariant Collected(w, walk, done, found, Some(result))
    {
      var next := Place(items[i], place.base);
      var inner := Collect(w, walk, next, result);
      CollectedNext(w, walk, done, next, found, result, inner);
      if inner.None? {
        assert Below(w, walk, place, next);
        return None;
      }
      result := inner.value;
      done := done + iset{next};
    }
    assert done == Parts(w, walk, place);
    return Some(result);
  }

  method CollectMembers(w: World, walk: Walk, place: Place, found: set<Url>) returns (r: Option<set<Url>>)
    requires place.value.Object? && !OwnFails(w, walk, place)
    ensures Collected(w, walk, Parts(w, walk, place), found, r)
    decreases place.value, 0
  {
    var members := place.value.members;
    var base := BaseOf(w, place).value;
    var keys := if walk.References? then members.Keys - {"$ref"} else members.Keys;
    ghost var all := keys;
    var result := found;
    ghost var done: iset<Place> := iset{};
    while keys != {}
      invariant keys <= all
      invariant done == iset k | k in all && k !in keys :: Place(members[k], base)
      invariant Collected(w, walk, done, found, Some(result))
      decreases keys
    {
      var k :| k in keys;
      var next := Place(members[k], base);
      var inner := Collect(w, walk, next, result);
      CollectedNext(w, walk, done, next, found, result, inner);
      if inner.None? {
        assert Below(w, walk, place, next);
        return None;
      }
      result := inner.value;
      done := done + iset{next};
      keys := keys - {k};
    }
    assert done == Parts(w, walk, place);
    return Some(result);
  }

  /** The whole document as a place: its base is the URL it was retrieved from. */
  function Document(m: Members, url: Url): Place {
    Place(Object(m), url)
  }

  /** A document refers to `u` when the first walk yields `u` and the second does not. */
  ghost predicate Refers(w: World, m: Members, url: Url, u: Url) {
    Yields(w, References, Document(m, url), u) && !Yields(w, Resources, Document(m, url), u)
  }

  ghost predicate Unresolvable(w: World, m: Members, url: Url) {
    Fails(w, References, Document(m, url)) || Fails(w, Resources, Document(m, url))
  }

  /** The external references of a document, sorted. */
  method ExternalReferences(w: World, m: Members, url: Url) returns (r: Option<seq<Url>>)
    ensures r.None? <==> Unresolvable(w, m, url)
    ensures r.Some? ==> T.Increasing(r.value) && forall u :: u in r.value <==> Refers(w, m, url, u)
  {
    var local := Collect(w, Resources, Document(m, url), {});
    assert local.None? <==> Fails(w, Resources, Document(m, url)) by {
      assert Document(m, url) in iset{Document(m, url)};
    }
    if local.None? {
      return None;
    }
    var references := Collect(w, References, Document(m, url), {});
    assert references.None? <==> Fails(w, References, Document(m, url)) by {
      assert Document(m, url) in iset{Document(m, url)};
    }
    if references.None? {
      return None;
    }
    forall u ensures u in references.value <==> Yields(w, References, Document(m, url), u) {
      assert Document(m, url) in iset{Document(m, url)};
    }
    forall u ensures u in local.value <==> Yields(w, Resources, Document(m, url), u) {
      assert Document(m, url) in iset{Document(m, url)};
    }
    var sorted := T.Sorted(references.value - local.value);
    return Some(sorted);
  }

  // ----- Flat documents -----

  /** Every member is a string. */
  predicate Flat(m: Members) {
    forall k :: k in m ==> m[k].String?
  }

  lemma LeafFinds(w: World, walk: Walk, place: Place, u: Url)
    requires place.value.String?
    ensures Yields(w, walk, place, u) <==> walk.Resources? && w.resolve("", place.base) == Some(u)
    ensures Fails(w, walk, place) <==> walk.Resources? && w.resolve("", place.base).None?
  {
    YieldsHere(w, walk, place, u);
    FailsHere(w, walk, place);
  }

  /**
   What a document without nested values refers to: its `$ref`, read against its `$id`, which is itself
   read against the URL that the document was retrieved from.
   */
  lemma FlatReferences(w: World, m: Members, url: Url, u: Url)
    requires Flat(m)
    ensures var base := if "$id" in m then w.resolve(m["$id"].text, url) else Some(url);
            && (Yields(w, References, Document(m, url), u) <==>
                  "$ref" in m && base.Some? && w.resolve(m["$ref"].text, base.value) == Some(u))
            && (Fails(w, References, Document(m, url)) <==>
                  base.None? || ("$ref" in m && w.resolve(m["$ref"].text, base.value).None?))
  {
    var place := Document(m, url);
    YieldsHere(w, References, place, u);
    FailsHere(w, References, place);
    forall next: Place | Below(w, References, place, next)
      ensures !Yields(w, References, next, u) && !Fails(w, References, next)
    {
      LeafFinds(w, References, next, u);
    }
  }

  /** Its parts have the URL it was retrieved from and the one that its `$id` declares, and no other. */
  lemma FlatResources(w: World, m: Members, url: Url, u: Url)
    requires Flat(m) && m != map[]
    ensures var base := if "$id" in m then w.resolve(m["$id"].text, url) else Some(url);
            Yields(w, Resources, Document(m, url), u) <==>
              || w.resolve("", url) == Some(u)
              || (base.Some? && (w.resolve("", base.value) == Some(u) || ("$id" in m && u == base.value)))
  {
    var place := Document(m, url);
    YieldsHere(w, Resources, place, u);
    forall next: Place | Below(w, Resources, place, next)
      ensures Yields(w, Resources, next, u) <==> w.resolve("", next.base) == Some(u)
    {
      LeafFinds(w, Resources, next, u);
    }
    var base := BaseOf(w, place);
    if base.Some? {
      var k :| k in m;
      assert Below(w, Resources, place, Place(m[k], base.value));
    }
  }

  /** The references in a `$ref` that is no string do not count, though its parts do. */
  lemma RefIsNotEntered(w: World, value: Json, url: Url, u: Url)
    requires !value.String?
    ensures !Yields(w, References, Document(map["$ref" := value], url), u)
    ensures Yields(w, Resources, Document(map["$ref" := value], url), u) <==>
            w.resolve("", url) == Some(u) || Yields(w, Resources, Place(value, url), u)
  {
    var m: Members := map["$ref" := value];
    var place := Document(m, url);
    assert m["$ref"] == value;
    YieldsHere(w, References, place, u);
    YieldsHere(w, Resources, place, u);
    assert Below(w, Resources, place, Place(value, url));
  }
}

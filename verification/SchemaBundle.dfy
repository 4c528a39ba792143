/**
 Bundling in agent/schemas.go: the external documents of a loaded graph are added to the `$defs` of
 a copy of the root, each under a key of its own.
 */
module SchemaBundle {
  import opened Json
  import T = Text

  /** A document with its retrieval URL as `$id`, unless it declares one. */
  function WithId(document: Members, url: string): (r: Members)
    ensures "$id" in r && ("$id" in document ==> r == document)
    ensures forall k :: k in document ==> k in r && r[k] == document[k]
  {
    if "$id" in document then document else document["$id" := String(url)]
  }

  /** The root's own definitions, when `$defs` is an object. */
  function Definitions(root: Members): Members {
    if "$defs" in root && root["$defs"].Object? then root["$defs"].members else map[]
  }

  function Underscores(n: nat): string {
    seq(n, i => '_')
  }

  /** The `n`-th candidate for the key of the external document `index`. */
  function Candidate(index: nat, n: nat): string {
    "odp_external_" + T.Decimal(index) + Underscores(n)
  }

  /** The keys of `definitions` that are at least as long as `n`: candidates not yet tried are among them. */
  ghost function LongKeys(definitions: Members, n: nat): set<string> {
    set k | k in definitions && |k| >= n
  }

  /** The loop that extends the key until it is free. */
  method FreeKey(definitions: Members, index: nat) returns (key: string)
    ensures key !in definitions
    ensures exists n: nat :: key == Candidate(index, n) && forall m: nat :: m < n ==> Candidate(index, m) in definitions
    ensures IsCandidate(index, key)
  {
    key := "odp_external_" + T.Decimal(index);
    ghost var n: nat := 0;
    assert key == Candidate(index, 0);
    while key in definitions
      invariant key == Candidate(index, n) && forall m: nat :: m < n ==> Candidate(index, m) in definitions
      decreases LongKeys(definitions, |key|)
    {
      assert key in LongKeys(definitions, |key|);
      assert Candidate(index, n + 1) == key + "_";
      key := key + "_";
      n := n + 1;
    }
  }

  datatype External = External(url: string, document: Members)

  /** A key for the external document `index`: its number, and underscores as far as they are needed. */
  predicate IsCandidate(index: nat, key: string) {
    && T.HasPrefix(key, "odp_external_" + T.Decimal(index))
    && forall k :: |"odp_external_" + T.Decimal(index)| <= k < |key| ==> key[k] == '_'
  }

  /** `keys` are fresh and pairwise distinct, and name the external documents in order. */
  ghost predicate Added(definitions: Members, externals: seq<External>, keys: seq<string>, r: Members) {
    && |keys| == |externals|
    && (forall i, j :: 0 <= i < j < |keys| ==> keys[i] != keys[j])
    && (forall k :: k in keys ==> k !in definitions)
    && (forall i :: 0 <= i < |keys| ==> IsCandidate(i, keys[i]))
    && (forall k :: k in r <==> k in definitions || k in keys)
    && (forall k :: k in definitions ==> k in r && r[k] == definitions[k])
    && (forall i :: 0 <= i < |keys| ==>
          keys[i] in r && r[keys[i]] == Object(WithId(externals[i].document, externals[i].url)))
  }

  lemma AddedNext(definitions: Members, externals: seq<External>, i: nat, keys: seq<string>, r: Members, key: string)
    requires i < |externals| && Added(definitions, externals[..i], keys, r) && key !in r
    requires IsCandidate(i, key)
    ensures Added(definitions, externals[..i + 1], keys + [key],
                  r[key := Object(WithId(externals[i].document, externals[i].url))])
  {
  }

  /** The loop over the external documents. */
  method AddExternals(own: Members, externals: seq<External>) returns (definitions: Members, keys: seq<string>)
    ensures Added(own, externals, keys, definitions)
  {
    definitions, keys := own, [];
    for i := 0 to |externals|
      invariant Added(own, externals[..i], keys, definitions)
    {
      var key := FreeKey(definitions, i);
      AddedNext(own, externals, i, keys, definitions, key);
      definitions := definitions[key := Object(WithId(externals[i].document, externals[i].url))];
      keys := keys + [key];
    }
    assert externals[..|externals|] == externals;
  }

  /**
   The bundle: every external document is a definition under a fresh key, the root's own definitions
   and its other members are unchanged, and the root has an `$id`.
   */
  ghost predicate Bundled(root: Members, rootUrl: string, externals: seq<External>, keys: seq<string>,
                          bundled: Members)
  {
    && "$id" in bundled && bundled["$id"] == WithId(root, rootUrl)["$id"]
    && (forall k :: k != "$id" && k != "$defs" ==>
          (k in bundled <==> k in root) && (k in root ==> bundled[k] == root[k]))
    && (externals == [] ==> bundled == WithId(root, rootUrl))
    && (externals != [] ==>
          && "$defs" in bundled && bundled["$defs"].Object?
          && Added(Definitions(root), externals, keys, bundled["$defs"].members))
  }

  /** The documents other than the root, sorted by URL. */
  ghost predicate Externals(documents: map<string, Members>, rootUrl: string, externals: seq<External>) {
    && |externals| == |documents| - 1 && T.Increasing(Urls(externals))
    && (forall u :: u in Urls(externals) <==> u in documents && u != rootUrl)
    && (forall x :: x in externals ==> x.url in documents && x.document == documents[x.url])
  }

  lemma BundledWith(root: Members, rootUrl: string, externals: seq<External>, keys: seq<string>, definitions: Members)
    requires externals != [] && Added(Definitions(root), externals, keys, definitions)
    ensures Bundled(root, rootUrl, externals, keys, WithId(root, rootUrl)["$defs" := Object(definitions)])
  {
  }

  method SortedExternals(rootUrl: string, documents: map<string, Members>) returns (externals: seq<External>)
    requires rootUrl in documents
    ensures Externals(documents, rootUrl, externals)
  {
    var urls := T.Sorted(documents.Keys - {rootUrl});
    externals := seq(|urls|, i requires 0 <= i < |urls| =>
      assert urls[i] in urls; External(urls[i], documents[urls[i]]));
    assert Urls(externals) == urls;
  }

  /** Since the externals come sorted, the bundle does not depend on the order in which they were loaded. */
  method Bundle(root: Members, rootUrl: string, documents: map<string, Members>)
    returns (bundled: Members, externals: seq<External>, keys: seq<string>)
    requires rootUrl in documents && documents[rootUrl] == root
    ensures Externals(documents, rootUrl, externals)
    ensures Bundled(root, rootUrl, externals, keys, bundled)
  {
    externals := SortedExternals(rootUrl, documents);
    keys := [];
    bundled := WithId(root, rootUrl);
    if |externals| != 0 {
      var definitions := Definitions(bundled);
      assert definitions == Definitions(root);
      definitions, keys := AddExternals(definitions, externals);
      bundled := bundled["$defs" := Object(definitions)];
      BundledWith(root, rootUrl, externals, keys, definitions);
    }
  }

  function Urls(externals: seq<External>): (urls: seq<string>)
    ensures |urls| == |externals| && forall i :: 0 <= i < |urls| ==> urls[i] == externals[i].url
  {
    seq(|externals|, i requires 0 <= i < |externals| => externals[i].url)
  }
}

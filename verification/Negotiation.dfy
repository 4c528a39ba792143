/**
 Content negotiation, service/service.go: whether a request accepts the ODP media type, and which of
 the advertised languages answers it.
 */
module Negotiation {
  import opened Wrappers
  import opened Sequences
  import T = Text

  const MAX_ENTRIES := 64
  const MEDIA_TYPE := "application/odp+json"
  const FULL_WEIGHT := 1000

  // ----- Header entries -----

  /** The entries of a header that are looked at: the first sixty-four. */
  function Entries(header: string): (entries: seq<string>)
    ensures entries <= T.Split(header, ',') && |entries| <= 64
    ensures |entries| < 64 ==> entries == T.Split(header, ',')
  {
    var all := T.Split(header, ',');
    if |all| <= MAX_ENTRIES then all else all[..MAX_ENTRIES]
  }

  function RangeOf(entry: string): string {
    T.ToLower(T.TrimSpace(entry[..T.IndexOf(entry, ';')]))
  }

  /** The entry's weight in thousandths; none when its `q` is outside the grammar. */
  function QualityOf(entry: string): Option<nat> {
    var i := T.IndexOf(entry, ';');
    if i == |entry| then Some(FULL_WEIGHT) else FirstQuality(T.Split(entry[i + 1..], ';'))
  }

  function FirstQuality(parameters: seq<string>): Option<nat> {
    if parameters == [] then Some(FULL_WEIGHT)
    else
      var i := T.IndexOf(parameters[0], '=');
      if i == |parameters[0]| || !T.EqualFold(T.TrimSpace(parameters[0][..i]), "q") then FirstQuality(parameters[1..])
      else Thousandths(T.TrimSpace(parameters[0][i + 1..]))
  }

  /** A quality value, section 12.4.2 of RFC 9110: 0 or 1 with at most three decimals, at most 1. */
  function Thousandths(value: string): (r: Option<nat>)
    ensures r.Some? ==> r.value <= FULL_WEIGHT
  {
    if value == "" || (value[0] != '0' && value[0] != '1') then None
    else if |value| == 1 then Some(if value[0] == '1' then FULL_WEIGHT else 0)
    else if value[1] != '.' || |value| > 5 then None
    else
      var decimals := value[2..];
      if value[0] == '1' then (if forall c :: c in decimals ==> c == '0' then Some(FULL_WEIGHT) else None)
      else if !T.AllDigits(decimals) then None
      else Some(Digit(decimals, 0) * 100 + Digit(decimals, 1) * 10 + Digit(decimals, 2))
  }

  function Digit(decimals: string, k: nat): (d: nat)
    requires T.AllDigits(decimals)
    ensures d <= 9
  {
    if k < |decimals| then T.DigitValue(decimals[k]) else 0
  }

  // ----- The media type -----

  /** How closely a media range names the ODP media type; negative when it does not. */
  function Specificity(range: string): int {
    if range == MEDIA_TYPE then 2 else if range == "application/*" then 1 else if range == "*/*" then 0 else -1
  }

  /** How closely an entry names the media type, and how much it wants it. */
  datatype Weight = Weight(specificity: nat, quality: nat)

  /** An entry for another type, or with a malformed quality, has no weight at all. */
  function WeightOf(entry: string): Option<Weight> {
    var specificity := Specificity(RangeOf(entry));
    if specificity < 0 || QualityOf(entry).None? then None else Some(Weight(specificity, QualityOf(entry).value))
  }

  function Weights(entries: seq<string>): (r: seq<Option<Weight>>)
    ensures |r| == |entries| && forall i :: 0 <= i < |entries| ==> r[i] == WeightOf(entries[i])
  {
    seq(|entries|, i requires 0 <= i < |entries| => WeightOf(entries[i]))
  }

  /** Entry `i` has a weight, and no entry names the media type more closely. */
  ghost predicate MostSpecific(weights: seq<Option<Weight>>, i: nat)
    requires i < |weights|
  {
    weights[i].Some? && forall j :: 0 <= j < |weights| && weights[j].Some? ==>
      weights[j].value.specificity <= weights[i].value.specificity
  }

  ghost predicate AcceptedBy(weights: seq<Option<Weight>>, i: nat)
    requires i < |weights|
  {
    MostSpecific(weights, i) && weights[i].value.quality > 0
  }

  /** The loop over the entries: the greatest weight, by specificity and then by quality. */
  method Accepts(weights: seq<Option<Weight>>) returns (accepted: bool)
    ensures accepted <==> exists i: nat :: i < |weights| && AcceptedBy(weights, i)
  {
    var bestSpecificity: int, bestQuality: nat := -1, 0;
    ghost var best: nat := 0;
    for i := 0 to |weights|
      invariant bestSpecificity >= 0 ==> best < i && weights[best] == Some(Weight(bestSpecificity, bestQuality))
      invariant bestSpecificity < 0 ==> bestSpecificity == -1 && bestQuality == 0
      invariant forall j :: 0 <= j < i && weights[j].Some? ==>
                  || weights[j].value.specificity < bestSpecificity
                  || (weights[j].value.specificity == bestSpecificity && weights[j].value.quality <= bestQuality)
    {
      if weights[i].Some? {
        var Weight(specificity, quality) := weights[i].value;
        if specificity > bestSpecificity || (specificity == bestSpecificity && quality > bestQuality) {
          bestSpecificity, bestQuality := specificity, quality;
          best := i;
        }
      }
    }
    accepted := bestSpecificity >= 0 && bestQuality > 0;
    if accepted {
      assert AcceptedBy(weights, best);
    }
  }

  /**
   A request is acceptable when its header is blank, or when one of the most specific ranges that
   match has a positive weight: a refusal of the exact type stands against any wildcard.
   */
  method AcceptsOdp(accept: string) returns (accepted: bool)
    ensures accepted <==>
              || T.TrimSpace(accept) == ""
              || exists i: nat :: i < |Weights(Entries(accept))| && AcceptedBy(Weights(Entries(accept)), i)
  {
    if T.TrimSpace(accept) == "" {
      return true;
    }
    accepted := Accepts(Weights(Entries(accept)));
  }

  // ----- Lookup -----

  /** The candidate after `candidate`: its last subtag removed, and a singleton that then ends it. */
  function Next(candidate: string): (next: Option<string>)
    ensures next.Some? ==> next.value < candidate && candidate[|next.value|] == '-'
  {
    var cut := T.LastIndexOf(candidate, '-');
    if cut < 0 then None
    else
      var shorter := candidate[..cut];
      var singleton := T.LastIndexOf(shorter, '-');
      if singleton >= 0 && cut - singleton == 2 then Some(candidate[..singleton]) else Some(shorter)
  }

  /** The truncations of a range, longest first. */
  function Candidates(value: string): (r: seq<string>)
    ensures r != [] && r[0] == value
    decreases |value|
  {
    [value] + match Next(value) case None => [] case Some(next) => Candidates(next)
  }

  function MatchIndex(candidate: string, tags: seq<string>): (i: nat)
    ensures i <= |tags| && (i < |tags| ==> T.EqualFold(tags[i], candidate))
    ensures forall k :: 0 <= k < i ==> !T.EqualFold(tags[k], candidate)
  {
    if tags == [] || T.EqualFold(tags[0], candidate) then 0 else MatchIndex(candidate, tags[1..]) + 1
  }

  /** The tag that a range finds, or the empty string. */
  function Found(value: string, tags: seq<string>): string
    decreases |value|
  {
    var i := MatchIndex(value, tags);
    if i < |tags| then tags[i]
    else match Next(value) case None => "" case Some(next) => Found(next, tags)
  }

  /** RFC 4647 Lookup, section 3.4: the loop over the truncations of a range. */
  method Lookup(value: string, tags: seq<string>) returns (found: string)
    ensures found == Found(value, tags)
  {
    var candidate := value;
    while true
      invariant Found(candidate, tags) == Found(value, tags)
      decreases |candidate|
    {
      for i := 0 to |tags|
        invariant forall k :: 0 <= k < i ==> !T.EqualFold(tags[k], candidate)
      {
        if T.EqualFold(tags[i], candidate) {
          assert MatchIndex(candidate, tags) == i;
          return tags[i];
        }
      }
      var next := Next(candidate);
      if next.None? {
        return "";
      }
      candidate := next.value;
    }
  }

  lemma LaterCandidate(value: string, k: nat)
    requires Next(value).Some? && k < |Candidates(Next(value).value)|
    ensures k + 1 < |Candidates(value)| && Candidates(value)[k + 1] == Candidates(Next(value).value)[k]
  {
    var rest := Candidates(Next(value).value);
    assert Candidates(value) == [value] + rest;
    assert ([value] + rest)[k + 1] == rest[k];
  }

  lemma EarlierCandidate(value: string, k: nat)
    requires 0 < k < |Candidates(value)|
    ensures Next(value).Some? && k - 1 < |Candidates(Next(value).value)|
    ensures Candidates(value)[k] == Candidates(Next(value).value)[k - 1]
  {
    if Next(value).Some? {
      LaterCandidate(value, k - 1);
    }
  }

  /** Every truncation is a prefix of the range that ends at a subtag, and each is shorter than the one before. */
  lemma {:induction false} CandidatesShrink(value: string, k: nat)
    requires 0 < k < |Candidates(value)|
    ensures Candidates(value)[k] < value && value[|Candidates(value)[k]|] == '-'
    ensures Candidates(value)[k] < Candidates(value)[k - 1]
    decreases k
  {
    EarlierCandidate(value, k);
    if k > 1 {
      EarlierCandidate(value, k - 1);
      CandidatesShrink(Next(value).value, k - 1);
    }
  }

  /** No tag equals truncation `k`. */
  predicate Misses(value: string, tags: seq<string>, k: nat)
    requires k < |Candidates(value)|
  {
    MatchIndex(Candidates(value)[k], tags) == |tags|
  }

  /** Truncation `k` is the longest with a match, and its first match is the tag that is found. */
  ghost predicate FoundAt(value: string, tags: seq<string>, k: nat)
    requires k < |Candidates(value)|
  {
    var i := MatchIndex(Candidates(value)[k], tags);
    && i < |tags| && Found(value, tags) == tags[i]
    && forall j: nat :: j < k ==> Misses(value, tags, j)
  }

  /**
   Lookup answers with the first tag that equals, in any case, the longest truncation that some tag
   equals; and with nothing exactly when no truncation has a match.
   */
  lemma {:induction false} LookupIsLongest(value: string, tags: seq<string>)
    requires "" !in tags
    ensures Found(value, tags) == "" <==> forall k: nat :: k < |Candidates(value)| ==> Misses(value, tags, k)
    ensures Found(value, tags) != "" ==> exists k: nat :: k < |Candidates(value)| && FoundAt(value, tags, k)
    decreases |value|
  {
    if MatchIndex(value, tags) < |tags| {
      assert FoundAt(value, tags, 0) && !Misses(value, tags, 0);
    } else {
      assert Misses(value, tags, 0);
      if Next(value).Some? {
        LookupIsLongest(Next(value).value, tags);
        LookupLater(value, tags);
      }
    }
  }

  lemma LookupLater(value: string, tags: seq<string>)
    requires Next(value).Some? && Misses(value, tags, 0)
    requires var next := Next(value).value;
             && (Found(next, tags) == "" <==> forall k: nat :: k < |Candidates(next)| ==> Misses(next, tags, k))
             && (Found(next, tags) != "" ==> exists k: nat :: k < |Candidates(next)| && FoundAt(next, tags, k))
    ensures Found(value, tags) == "" <==> forall k: nat :: k < |Candidates(value)| ==> Misses(value, tags, k)
    ensures Found(value, tags) != "" ==> exists k: nat :: k < |Candidates(value)| && FoundAt(value, tags, k)
  {
    var next := Next(value).value;
    forall k: nat | 0 < k < |Candidates(value)| ensures Misses(value, tags, k) == Misses(next, tags, k - 1) {
      EarlierCandidate(value, k);
    }
    if Found(next, tags) != "" {
      var k: nat :| k < |Candidates(next)| && FoundAt(next, tags, k);
      LaterCandidate(value, k);
      assert !Misses(value, tags, k + 1) && FoundAt(value, tags, k + 1);
    }
  }

  // ----- The choice of a language -----

  datatype Preference = Preference(quality: nat, range: string)

  /** The entries that name a range and carry a weight, in the order of the header. */
  function Preferences(entries: seq<string>): seq<Preference> {
    if entries == [] then []
    else
      var last := entries[|entries| - 1];
      Preferences(entries[..|entries| - 1]) +
      if RangeOf(last) == "" || QualityOf(last).None? then [] else [Preference(QualityOf(last).value, RangeOf(last))]
  }

  predicate Wanted(p: Preference) {
    p.range != "*" && p.quality > 0
  }

  predicate Refused(p: Preference) {
    p.range != "*" && p.quality == 0
  }

  predicate Residual(p: Preference) {
    p.range == "*" && p.quality > 0
  }

  ghost predicate HasResidual(preferences: seq<Preference>) {
    exists k :: 0 <= k < |preferences| && Residual(preferences[k])
  }

  function AllWanted(preferences: seq<Preference>): (r: seq<Preference>)
    ensures forall p :: p in r <==> p in preferences && Wanted(p)
  {
    if preferences == [] then []
    else
      var n := |preferences| - 1;
      assert preferences == preferences[..n] + [preferences[n]];
      AllWanted(preferences[..n]) + if Wanted(preferences[n]) then [preferences[n]] else []
  }

  // ----- The stable sort by quality -----

  predicate Descending(s: seq<Preference>) {
    s == [] || ((|s| > 1 ==> s[0].quality >= s[1].quality) && Descending(s[1..]))
  }

  function Insert(p: Preference, s: seq<Preference>): (r: seq<Preference>)
    ensures r != [] && (r[0] == p || (s != [] && r[0] == s[0]))
  {
    if s == [] || p.quality >= s[0].quality then [p] + s else [s[0]] + Insert(p, s[1..])
  }

  /** What `sort.SliceStable` makes of the ranges: descending quality, ties in header order. */
  function ByQuality(s: seq<Preference>): seq<Preference> {
    if s == [] then [] else Insert(s[0], ByQuality(s[1..]))
  }

  function OfQuality(s: seq<Preference>, quality: nat): seq<Preference> {
    if s == [] then []
    else (if s[0].quality == quality then [s[0]] else []) + OfQuality(s[1..], quality)
  }

  lemma Tail<X>(x: X, s: seq<X>)
    ensures ([x] + s)[0] == x && ([x] + s)[1..] == s
  {
  }

  lemma {:induction false} InsertDescends(p: Preference, s: seq<Preference>)
    requires Descending(s)
    ensures Descending(Insert(p, s))
  {
    if s == [] || p.quality >= s[0].quality {
      Tail(p, s);
    } else {
      InsertDescends(p, s[1..]);
      Tail(s[0], Insert(p, s[1..]));
    }
  }

  lemma {:induction false} InsertAdds(p: Preference, s: seq<Preference>)
    ensures multiset(Insert(p, s)) == multiset{p} + multiset(s)
  {
    if s != [] && p.quality < s[0].quality {
      InsertAdds(p, s[1..]);
      assert s == [s[0]] + s[1..];
    }
  }

  lemma {:induction false} InsertIsStable(p: Preference, s: seq<Preference>, quality: nat)
    requires Descending(s)
    ensures OfQuality(Insert(p, s), quality) == (if p.quality == quality then [p] else []) + OfQuality(s, quality)
  {
    if s == [] || p.quality >= s[0].quality {
      Tail(p, s);
    } else {
      InsertIsStable(p, s[1..], quality);
      Tail(s[0], Insert(p, s[1..]));
      if p.quality == quality {
        assert OfQuality(Insert(p, s), quality) == OfQuality(Insert(p, s[1..]), quality);
      }
    }
  }

  /** The ranges are all there, by descending quality, and those of one quality keep their order. */
  lemma {:induction false} ByQualityIsStable(s: seq<Preference>, quality: nat)
    ensures Descending(ByQuality(s)) && multiset(ByQuality(s)) == multiset(s)
    ensures OfQuality(ByQuality(s), quality) == OfQuality(s, quality)
  {
    if s != [] {
      ByQualityIsStable(s[1..], quality);
      InsertDescends(s[0], ByQuality(s[1..]));
      InsertAdds(s[0], ByQuality(s[1..]));
      InsertIsStable(s[0], ByQuality(s[1..]), quality);
      assert s == [s[0]] + s[1..];
    }
  }

  // ----- The range that decides -----

  predicate Finds(p: Preference, tags: seq<string>) {
    Found(p.range, tags) != ""
  }

  /** Range `b` finds a tag; every other that does has a lower quality, or the same and comes later. */
  ghost predicate Decides(s: seq<Preference>, tags: seq<string>, b: nat) {
    && b < |s| && Finds(s[b], tags)
    && forall i: nat :: i < |s| && Finds(s[i], tags) ==>
         s[i].quality < s[b].quality || (s[i].quality == s[b].quality && b <= i)
  }

  ghost predicate NoneFinds(s: seq<Preference>, tags: seq<string>) {
    forall p :: p in s ==> !Finds(p, tags)
  }

  /** The first range in a list that finds a tag. */
  function FirstFinder(s: seq<Preference>, tags: seq<string>): (r: Option<Preference>)
    ensures r.Some? ==> Finds(r.value, tags)
  {
    if s == [] then None else if Finds(s[0], tags) then Some(s[0]) else FirstFinder(s[1..], tags)
  }

  lemma {:induction false} FinderIsBelow(s: seq<Preference>, tags: seq<string>)
    requires s != [] && Descending(s)
    ensures FirstFinder(s, tags).Some? ==> FirstFinder(s, tags).value.quality <= s[0].quality
  {
    if |s| > 1 {
      FinderIsBelow(s[1..], tags);
    }
  }

  lemma {:induction false} FinderAfterInsert(p: Preference, s: seq<Preference>, tags: seq<string>)
    requires Descending(s)
    ensures FirstFinder(Insert(p, s), tags)
         == var f := FirstFinder(s, tags);
            if Finds(p, tags) && (f.None? || p.quality >= f.value.quality) then Some(p) else f
  {
    if s == [] || p.quality >= s[0].quality {
      Tail(p, s);
      if s != [] {
        FinderIsBelow(s, tags);
      }
    } else {
      FinderAfterInsert(p, s[1..], tags);
      Tail(s[0], Insert(p, s[1..]));
    }
  }

  /** In quality order the first range that finds a tag is, in header order, the one that decides. */
  lemma {:induction false} FirstFinderDecides(s: seq<Preference>, tags: seq<string>) returns (b: nat)
    ensures var f := FirstFinder(ByQuality(s), tags);
            if f.None? then NoneFinds(s, tags) else Decides(s, tags, b) && s[b] == f.value
  {
    b := 0;
    if s != [] {
      var t := s[1..];
      var c := FirstFinderDecides(t, tags);
      ByQualityIsStable(t, 0);
      FinderAfterInsert(s[0], ByQuality(t), tags);
      var f := FirstFinder(ByQuality(t), tags);
      assert s == [s[0]] + t;
      if f.Some? && !(Finds(s[0], tags) && s[0].quality >= f.value.quality) {
        b := c + 1;
      }
    }
  }

  lemma DeciderIsUnique(s: seq<Preference>, tags: seq<string>, b: nat, c: nat)
    requires Decides(s, tags, b) && Decides(s, tags, c)
    ensures b == c
  {
  }

  // ----- The residual -----

  /** Basic filtering: a range covers the tag it equals and any tag it prefixes. */
  predicate Covers(range: string, tag: string) {
    tag == range || T.HasPrefix(tag, range + "-")
  }

  ghost predicate IsRefused(preferences: seq<Preference>, tag: string) {
    exists p :: p in preferences && Refused(p) && Covers(p.range, T.ToLower(tag))
  }

  /** The first tag that no range refuses, or the empty string. */
  ghost predicate FirstAllowed(preferences: seq<Preference>, tags: seq<string>, tag: string) {
    || (tag == "" && forall t :: t in tags ==> IsRefused(preferences, t))
    || exists k: nat :: AllowedAt(preferences, tags, k) && tag == tags[k]
  }

  ghost predicate AllowedAt(preferences: seq<Preference>, tags: seq<string>, k: nat) {
    k < |tags| && !IsRefused(preferences, tags[k]) && forall j :: 0 <= j < k ==> IsRefused(preferences, tags[j])
  }

  // ----- The selection -----

  /**
   The language chosen for a header: the tag of the range that decides; when no wanted range finds
   one, what a wanted wildcard leaves; and otherwise none.
   */
  ghost predicate Chosen(preferences: seq<Preference>, fallback: string, tags: seq<string>, tag: string) {
    var wanted := AllWanted(preferences);
    if !NoneFinds(wanted, tags) then exists b: nat :: Decides(wanted, tags, b) && tag == Found(wanted[b].range, tags)
    else if HasResidual(preferences) then FirstAllowed(preferences, [fallback] + tags, tag)
    else tag == ""
  }

  method RefusedBy(refused: seq<string>, tag: string) returns (r: bool)
    ensures r <==> exists k :: 0 <= k < |refused| && Covers(refused[k], T.ToLower(tag))
  {
    for i := 0 to |refused|
      invariant forall k :: 0 <= k < i ==> !Covers(refused[k], T.ToLower(tag))
    {
      if Covers(refused[i], T.ToLower(tag)) {
        return true;
      }
    }
    return false;
  }

  ghost predicate Parted(preferences: seq<Preference>, wanted: seq<Preference>, refused: seq<string>, residual: bool) {
    && wanted == AllWanted(preferences)
    && (forall r :: r in refused <==> Preference(0, r) in preferences && r != "*")
    && (residual <==> HasResidual(preferences))
  }

  lemma PartedNext(before: seq<Preference>, p: Preference, wanted: seq<Preference>, refused: seq<string>,
                   residual: bool)
    requires Parted(before, wanted, refused, residual)
    ensures Parted(before + [p], wanted + (if Wanted(p) then [p] else []),
                   refused + (if Refused(p) then [p.range] else []), residual || Residual(p))
  {
    var after := before + [p];
    assert after[..|before|] == before && after[|before|] == p;
    forall k | 0 <= k < |before| ensures after[k] == before[k] {
    }
    if residual {
      var k :| 0 <= k < |before| && Residual(before[k]);
      assert Residual(after[k]);
    }
    assert Refused(p) ==> p == Preference(0, p.range);
  }

  /** The entries parted into what is wanted, what is refused, and whether a wildcard takes the rest. */
  method Part(preferences: seq<Preference>)
    returns (wanted: seq<Preference>, refused: seq<string>, residual: bool)
    ensures Parted(preferences, wanted, refused, residual)
  {
    wanted, refused, residual := [], [], false;
    for i := 0 to |preferences|
      invariant Parted(preferences[..i], wanted, refused, residual)
    {
      TakeNext(preferences, i);
      PartedNext(preferences[..i], preferences[i], wanted, refused, residual);
      var entry := preferences[i];
      if entry.range == "*" {
        residual := residual || entry.quality > 0;
      } else if entry.quality > 0 {
        wanted := wanted + [entry];
      } else {
        refused := refused + [entry.range];
      }
    }
    assert preferences[..|preferences|] == preferences;
  }

  method ReadPreferences(entries: seq<string>) returns (preferences: seq<Preference>)
    ensures preferences == Preferences(entries)
  {
    preferences := [];
    for i := 0 to |entries|
      invariant preferences == Preferences(entries[..i])
    {
      TakeNext(entries, i);
      var range, quality := RangeOf(entries[i]), QualityOf(entries[i]);
      if range != "" && quality.Some? {
        preferences := preferences + [Preference(quality.value, range)];
      }
    }
    assert entries[..|entries|] == entries;
  }

  method SelectLanguage(header: string, fallback: string, localizations: seq<string>) returns (tag: string)
    ensures Chosen(Preferences(Entries(header)), fallback, localizations, tag)
  {
    var preferences := ReadPreferences(Entries(header));
    var wanted, refused, residual := Part(preferences);
    var decided := TryWanted(wanted, localizations);
    if decided != "" || !residual {
      return decided;
    }
    tag := TakeResidual(preferences, refused, [fallback] + localizations);
  }

  /** The wanted ranges in quality order, each looked up in turn. */
  method TryWanted(wanted: seq<Preference>, localizations: seq<string>) returns (tag: string)
    ensures tag == "" ==> NoneFinds(wanted, localizations)
    ensures tag != "" ==>
              exists b: nat :: Decides(wanted, localizations, b) && tag == Found(wanted[b].range, localizations)
  {
    var ordered := ByQuality(wanted);
    ghost var b := FirstFinderDecides(wanted, localizations);
    for i := 0 to |ordered|
      invariant FirstFinder(ordered[i..], localizations) == FirstFinder(ordered, localizations)
    {
      var found := Lookup(ordered[i].range, localizations);
      if found != "" {
        return found;
      }
      assert ordered[i..][1..] == ordered[i + 1..];
    }
    return "";
  }

  /** What a wildcard takes: the first tag that no range refuses. */
  method TakeResidual(preferences: seq<Preference>, refused: seq<string>, tags: seq<string>) returns (tag: string)
    requires forall r :: r in refused <==> Preference(0, r) in preferences && r != "*"
    ensures FirstAllowed(preferences, tags, tag)
  {
    for i := 0 to |tags|
      invariant forall j :: 0 <= j < i ==> IsRefused(preferences, tags[j])
    {
      var out := RefusedBy(refused, tags[i]);
      RefusedMeans(preferences, refused, tags[i]);
      if !out {
        assert AllowedAt(preferences, tags, i);
        return tags[i];
      }
    }
    return "";
  }

  lemma RefusedMeans(preferences: seq<Preference>, refused: seq<string>, tag: string)
    requires forall r :: r in refused <==> Preference(0, r) in preferences && r != "*"
    ensures IsRefused(preferences, tag) <==> exists k :: 0 <= k < |refused| && Covers(refused[k], T.ToLower(tag))
  {
    if k :| 0 <= k < |refused| && Covers(refused[k], T.ToLower(tag)) {
      assert Preference(0, refused[k]) in preferences && Refused(Preference(0, refused[k]));
    }
    if p :| p in preferences && Refused(p) && Covers(p.range, T.ToLower(tag)) {
      assert p == Preference(0, p.range) && p.range in refused;
    }
  }

  // ----- What a choice promises -----

  lemma {:induction false} FoundIsATag(value: string, tags: seq<string>)
    ensures Found(value, tags) == "" || Found(value, tags) in tags
    decreases |value|
  {
    if MatchIndex(value, tags) == |tags| && Next(value).Some? {
      FoundIsATag(Next(value).value, tags);
    }
  }

  /**
   A choice is an advertised tag or none; it is the fallback's own only through a wildcard; and a
   wildcard neither outranks a range that finds a tag nor yields a tag that the header refuses.
   */
  lemma ChoiceIsSound(preferences: seq<Preference>, fallback: string, tags: seq<string>, tag: string)
    requires Chosen(preferences, fallback, tags, tag)
    ensures tag == "" || tag in tags || (tag == fallback && HasResidual(preferences))
    ensures tag != "" && NoneFinds(AllWanted(preferences), tags) ==>
              HasResidual(preferences) && !IsRefused(preferences, tag)
    ensures !NoneFinds(AllWanted(preferences), tags) ==>
              tag in tags && exists p :: p in preferences && Wanted(p) && tag == Found(p.range, tags)
  {
    var wanted := AllWanted(preferences);
    if !NoneFinds(wanted, tags) {
      var b: nat :| Decides(wanted, tags, b) && tag == Found(wanted[b].range, tags);
      FoundIsATag(wanted[b].range, tags);
      assert wanted[b] in wanted;
    }
  }

  /** A header has one choice. */
  lemma ChoiceIsUnique(preferences: seq<Preference>, fallback: string, tags: seq<string>, a: string, b: string)
    requires Chosen(preferences, fallback, tags, a) && Chosen(preferences, fallback, tags, b)
    ensures a == b
  {
    var wanted := AllWanted(preferences);
    if !NoneFinds(wanted, tags) {
      var i: nat :| Decides(wanted, tags, i) && a == Found(wanted[i].range, tags);
      var j: nat :| Decides(wanted, tags, j) && b == Found(wanted[j].range, tags);
      DeciderIsUnique(wanted, tags, i, j);
    }
  }
}

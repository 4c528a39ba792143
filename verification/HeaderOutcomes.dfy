/**
 What the two negotiation headers come to, service/service.go, told by their entries: which media type
 header is accepted, and which language a header selects.
 */
module HeaderOutcomes {
  import opened Wrappers
  import opened Sequences
  import opened Negotiation
  import opened EntryReading
  import T = Text
  import R = RoutingResolved

  // ----- The media type -----

  /** Some entry names this range with a well-formed weight. */
  ghost predicate Weighed(entries: seq<string>, range: string) {
    exists i :: 0 <= i < |entries| && RangeOf(entries[i]) == range && QualityOf(entries[i]).Some?
  }

  /** Some entry names this range and wants it. */
  ghost predicate WantsRange(entries: seq<string>, range: string) {
    exists i :: 0 <= i < |entries| && RangeOf(entries[i]) == range
                && QualityOf(entries[i]).Some? && QualityOf(entries[i]).value > 0
  }

  ghost predicate HasWeight(entries: seq<string>, specificity: nat) {
    exists i :: 0 <= i < |entries| && WeightOf(entries[i]).Some?
                && WeightOf(entries[i]).value.specificity == specificity
  }

  lemma RangeHasWeight(entries: seq<string>)
    ensures HasWeight(entries, 2) <==> Weighed(entries, "application/odp+json")
    ensures HasWeight(entries, 1) <==> Weighed(entries, "application/*")
    ensures HasWeight(entries, 0) <==> Weighed(entries, "*/*")
    ensures forall i :: 0 <= i < |entries| && WeightOf(entries[i]).Some? ==>
              WeightOf(entries[i]).value.specificity <= 2
  {
    forall i | 0 <= i < |entries| ensures NamesItsRange(entries[i]) {
      WeightNamesRange(entries[i]);
    }
  }

  ghost predicate NamesItsRange(entry: string) {
    var w := WeightOf(entry);
    && (w.Some? && w.value.specificity == 2 <==> RangeOf(entry) == "application/odp+json" && QualityOf(entry).Some?)
    && (w.Some? && w.value.specificity == 1 <==> RangeOf(entry) == "application/*" && QualityOf(entry).Some?)
    && (w.Some? && w.value.specificity == 0 <==> RangeOf(entry) == "*/*" && QualityOf(entry).Some?)
    && (w.Some? ==> w.value.specificity <= 2 && QualityOf(entry) == Some(w.value.quality))
  }

  lemma WeightNamesRange(entry: string)
    ensures NamesItsRange(entry)
  {
  }

  lemma MostSpecificIs(entries: seq<string>, i: nat)
    requires i < |entries| && WeightOf(entries[i]).Some?
    ensures MostSpecific(Weights(entries), i) <==>
            forall s: nat :: HasWeight(entries, s) ==> s <= WeightOf(entries[i]).value.specificity
  {
    var weights := Weights(entries);
    if MostSpecific(weights, i) {
      forall s: nat | HasWeight(entries, s) ensures s <= WeightOf(entries[i]).value.specificity {
        var j :| 0 <= j < |entries| && WeightOf(entries[j]).Some? && WeightOf(entries[j]).value.specificity == s;
        assert weights[j].Some?;
      }
    }
    if forall s: nat :: HasWeight(entries, s) ==> s <= WeightOf(entries[i]).value.specificity {
      forall j | 0 <= j < |weights| && weights[j].Some?
        ensures weights[j].value.specificity <= weights[i].value.specificity
      {
        assert HasWeight(entries, weights[j].value.specificity);
      }
    }
  }

  /** The range that decides: the exact type when an entry weighs it, or else the closest wildcard. */
  ghost function Deciding(entries: seq<string>): string {
    if Weighed(entries, "application/odp+json") then "application/odp+json"
    else if Weighed(entries, "application/*") then "application/*"
    else "*/*"
  }

  /**
   A header is acceptable exactly when some entry wants the exact type; or, when none weighs it, wants
   `application` with any subtype; or, when none weighs that either, wants any type.
   */
  lemma AcceptedExactly(entries: seq<string>)
    ensures (exists i: nat :: i < |Weights(entries)| && AcceptedBy(Weights(entries), i)) <==>
            WantsRange(entries, Deciding(entries))
  {
    RangeHasWeight(entries);
    forall i | 0 <= i < |entries|
      ensures AcceptedBy(Weights(entries), i) <==>
              && RangeOf(entries[i]) == Deciding(entries)
              && QualityOf(entries[i]).Some? && QualityOf(entries[i]).value > 0
    {
      DecidesAt(entries, i);
    }
  }

  lemma DecidesAt(entries: seq<string>, i: nat)
    requires i < |entries|
    ensures AcceptedBy(Weights(entries), i) <==>
            && RangeOf(entries[i]) == Deciding(entries)
            && QualityOf(entries[i]).Some? && QualityOf(entries[i]).value > 0
  {
    RangeHasWeight(entries);
    WeightNamesRange(entries[i]);
    if WeightOf(entries[i]).Some? {
      MostSpecificIs(entries, i);
      var s := WeightOf(entries[i]).value.specificity;
      assert HasWeight(entries, s);
    }
  }

  // ----- The language -----

  /** The entry names a range other than the wildcard, and wants it. */
  predicate Wants(entry: string) {
    Counts(entry) && RangeOf(entry) != "*" && QualityOf(entry).value != 0
  }

  /** The entry names a range other than the wildcard, and refuses it. */
  predicate Refuses(entry: string) {
    Counts(entry) && RangeOf(entry) != "*" && QualityOf(entry).value == 0
  }

  /** The entry is a wildcard that is wanted. */
  predicate TakesTheRest(entry: string) {
    Counts(entry) && RangeOf(entry) == "*" && QualityOf(entry).value != 0
  }

  /** The entry wants a range that finds a tag. */
  predicate Hits(entry: string, tags: seq<string>) {
    Wants(entry) && Found(RangeOf(entry), tags) != ""
  }

  /** Entry `i` finds a tag, and every other that does weighs less, or the same and comes later. */
  ghost predicate EntryDecides(entries: seq<string>, tags: seq<string>, i: nat) {
    && i < |entries| && Hits(entries[i], tags)
    && forall j: nat :: j < |entries| && Hits(entries[j], tags) && j != i ==>
         || QualityOf(entries[j]).value < QualityOf(entries[i]).value
         || (QualityOf(entries[j]).value == QualityOf(entries[i]).value && i < j)
  }

  ghost predicate TagRefused(entries: seq<string>, tag: string) {
    exists i :: 0 <= i < |entries| && Refuses(entries[i]) && Covers(RangeOf(entries[i]), T.ToLower(tag))
  }

  /** The first of the tags that no entry refuses, or none. */
  ghost predicate FirstLeft(entries: seq<string>, tags: seq<string>, tag: string) {
    if forall t :: t in tags ==> TagRefused(entries, t) then tag == ""
    else exists k: nat :: k < |tags| && tag == tags[k] && !TagRefused(entries, tags[k])
                          && forall j :: 0 <= j < k ==> TagRefused(entries, tags[j])
  }

  /**
   The language that the entries select: what the entry that decides finds; when none finds anything
   and a wildcard takes the rest, the first tag that is not refused; and otherwise none.
   */
  ghost predicate Selects(entries: seq<string>, fallback: string, tags: seq<string>, tag: string) {
    if exists i :: 0 <= i < |entries| && Hits(entries[i], tags) then
      exists i: nat :: EntryDecides(entries, tags, i) && tag == Found(RangeOf(entries[i]), tags)
    else if exists i :: 0 <= i < |entries| && TakesTheRest(entries[i]) then FirstLeft(entries, [fallback] + tags, tag)
    else tag == ""
  }

  lemma WantedNext(preferences: seq<Preference>, p: Preference)
    ensures AllWanted(preferences + [p]) == AllWanted(preferences) + if Wanted(p) then [p] else []
  {
    assert (preferences + [p])[..|preferences|] == preferences;
  }

  lemma PreferencesSnoc(entries: seq<string>, last: string)
    ensures Preferences(entries + [last])
         == Preferences(entries) + if Counts(last) then [Preference(QualityOf(last).value, RangeOf(last))] else []
  {
    assert (entries + [last])[..|entries|] == entries;
  }

  lemma WantedSnoc(entries: seq<string>, last: string)
    ensures AllWanted(Preferences(entries + [last]))
         == AllWanted(Preferences(entries))
            + if Wants(last) then [Preference(QualityOf(last).value, RangeOf(last))] else []
  {
    PreferencesSnoc(entries, last);
    if Counts(last) {
      WantedNext(Preferences(entries), Preference(QualityOf(last).value, RangeOf(last)));
    } else {
      assert Preferences(entries) + [] == Preferences(entries);
    }
  }

  /** What is wanted are the entries that want a range, in order. */
  ghost predicate WantedOf(entries: seq<string>, wanted: seq<Preference>, picks: seq<nat>) {
    Selected(entries, wanted, e => Wants(e), (e, p) => ReadAs(e, p), picks)
  }

  lemma WantedPicksNext(entries: seq<string>, wanted: seq<Preference>, picks: seq<nat>, last: string)
    requires WantedOf(entries, wanted, picks)
    ensures if Wants(last)
            then WantedOf(entries + [last], wanted + [Preference(QualityOf(last).value, RangeOf(last))],
                          picks + [|entries|])
            else WantedOf(entries + [last], wanted, picks)
  {
    var wants, becomes := (e: string) => Wants(e), (e: string, p: Preference) => ReadAs(e, p);
    if Wants(last) {
      SelectNext(entries, wanted, wants, becomes, picks, last, Preference(QualityOf(last).value, RangeOf(last)));
    } else {
      SkipNext(entries, wanted, wants, becomes, picks, last);
    }
  }

  lemma {:induction false} WantedArePicked(entries: seq<string>) returns (picks: seq<nat>)
    ensures WantedOf(entries, AllWanted(Preferences(entries)), picks)
  {
    picks := [];
    if entries != [] {
      var before, last := entries[..|entries| - 1], entries[|entries| - 1];
      assert entries == before + [last];
      picks := WantedArePicked(before);
      WantedPicksNext(before, AllWanted(Preferences(before)), picks, last);
      WantedSnoc(before, last);
      if Wants(last) {
        picks := picks + [|before|];
      } else {
        assert AllWanted(Preferences(before)) + [] == AllWanted(Preferences(before));
      }
    }
  }

  lemma PreferenceIsEntry(entries: seq<string>, p: Preference)
    ensures p in Preferences(entries) <==> exists i :: 0 <= i < |entries| && Counts(entries[i]) && ReadAs(entries[i], p)
  {
    var picks := PreferencesAreRead(entries);
    var preferences := Preferences(entries);
    if p in preferences {
      var k :| 0 <= k < |preferences| && preferences[k] == p;
      assert picks[k] in picks && ReadAs(entries[picks[k]], p);
    }
    if i :| 0 <= i < |entries| && Counts(entries[i]) && ReadAs(entries[i], p) {
      assert i in picks;
      var k :| 0 <= k < |picks| && picks[k] == i;
      assert ReadAs(entries[i], preferences[k]);
      assert preferences[k] == p;
    }
  }

  function EntryAs(entry: string): (p: Preference)
    requires Counts(entry)
    ensures ReadAs(entry, p)
  {
    Preference(QualityOf(entry).value, RangeOf(entry))
  }

  lemma KindIsRead(entry: string, p: Preference)
    requires Counts(entry) && ReadAs(entry, p)
    ensures TakesTheRest(entry) <==> Residual(p)
    ensures Refuses(entry) <==> Refused(p)
  {
  }

  lemma ResidualHasEntry(entries: seq<string>)
    requires HasResidual(Preferences(entries))
    ensures exists i :: 0 <= i < |entries| && TakesTheRest(entries[i])
  {
    var preferences := Preferences(entries);
    var k :| 0 <= k < |preferences| && Residual(preferences[k]);
    PreferenceIsEntry(entries, preferences[k]);
    var i :| 0 <= i < |entries| && Counts(entries[i]) && ReadAs(entries[i], preferences[k]);
    KindIsRead(entries[i], preferences[k]);
  }

  lemma EntryIsResidual(entries: seq<string>, i: nat)
    requires i < |entries| && TakesTheRest(entries[i])
    ensures HasResidual(Preferences(entries))
  {
    var preferences, p := Preferences(entries), EntryAs(entries[i]);
    PreferenceIsEntry(entries, p);
    KindIsRead(entries[i], p);
    var k :| 0 <= k < |preferences| && preferences[k] == p;
    assert Residual(preferences[k]);
  }

  lemma ResidualIsEntry(entries: seq<string>)
    ensures HasResidual(Preferences(entries)) <==> exists i :: 0 <= i < |entries| && TakesTheRest(entries[i])
  {
    if HasResidual(Preferences(entries)) {
      ResidualHasEntry(entries);
    }
    if i :| 0 <= i < |entries| && TakesTheRest(entries[i]) {
      EntryIsResidual(entries, i);
    }
  }

  lemma RefusedIsEntry(entries: seq<string>, tag: string)
    ensures IsRefused(Preferences(entries), tag) <==> TagRefused(entries, tag)
  {
    var preferences := Preferences(entries);
    if p :| p in preferences && Refused(p) && Covers(p.range, T.ToLower(tag)) {
      PreferenceIsEntry(entries, p);
      var i :| 0 <= i < |entries| && Counts(entries[i]) && ReadAs(entries[i], p);
      KindIsRead(entries[i], p);
    }
    if i :| 0 <= i < |entries| && Refuses(entries[i]) && Covers(RangeOf(entries[i]), T.ToLower(tag)) {
      var p := EntryAs(entries[i]);
      PreferenceIsEntry(entries, p);
      KindIsRead(entries[i], p);
    }
  }

  lemma PickedFinds(entries: seq<string>, tags: seq<string>, wanted: seq<Preference>, picks: seq<nat>, k: nat)
    requires WantedOf(entries, wanted, picks) && k < |wanted|
    ensures picks[k] < |entries| && ReadAs(entries[picks[k]], wanted[k])
    ensures Hits(entries[picks[k]], tags) <==> Finds(wanted[k], tags)
  {
    assert picks[k] in picks;
  }

  lemma HitIsPicked(entries: seq<string>, tags: seq<string>, wanted: seq<Preference>, picks: seq<nat>, i: nat)
    returns (k: nat)
    requires WantedOf(entries, wanted, picks) && i < |entries| && Hits(entries[i], tags)
    ensures k < |wanted| && picks[k] == i && Finds(wanted[k], tags)
  {
    assert i in picks;
    k :| 0 <= k < |picks| && picks[k] == i;
    PickedFinds(entries, tags, wanted, picks, k);
  }

  /** Some entry hits exactly when some wanted range finds a tag. */
  lemma NoneHits(entries: seq<string>, tags: seq<string>, wanted: seq<Preference>, picks: seq<nat>)
    requires WantedOf(entries, wanted, picks)
    ensures NoneFinds(wanted, tags) <==> !exists i :: 0 <= i < |entries| && Hits(entries[i], tags)
  {
    if i :| 0 <= i < |entries| && Hits(entries[i], tags) {
      var k := HitIsPicked(entries, tags, wanted, picks, i);
      assert wanted[k] in wanted;
    }
    if p :| p in wanted && Finds(p, tags) {
      var k :| 0 <= k < |wanted| && wanted[k] == p;
      PickedFinds(entries, tags, wanted, picks, k);
    }
  }

  /** The range that decides is that of the entry that decides. */
  lemma PickedDecides(entries: seq<string>, tags: seq<string>, wanted: seq<Preference>, picks: seq<nat>, b: nat)
    requires WantedOf(entries, wanted, picks) && b < |wanted|
    ensures Decides(wanted, tags, b) <==> EntryDecides(entries, tags, picks[b])
  {
    PickedFinds(entries, tags, wanted, picks, b);
    if Decides(wanted, tags, b) {
      forall j: nat | j < |entries| && Hits(entries[j], tags) && j != picks[b]
        ensures || QualityOf(entries[j]).value < QualityOf(entries[picks[b]]).value
                || (QualityOf(entries[j]).value == QualityOf(entries[picks[b]]).value && picks[b] < j)
      {
        var k := HitIsPicked(entries, tags, wanted, picks, j);
        PickedFinds(entries, tags, wanted, picks, k);
      }
    }
    if EntryDecides(entries, tags, picks[b]) {
      forall k: nat | k < |wanted| && Finds(wanted[k], tags)
        ensures wanted[k].quality < wanted[b].quality || (wanted[k].quality == wanted[b].quality && b <= k)
      {
        PickedFinds(entries, tags, wanted, picks, k);
      }
    }
  }

  lemma LeftExactly(entries: seq<string>, tags: seq<string>, tag: string)
    ensures FirstAllowed(Preferences(entries), tags, tag) ==> FirstLeft(entries, tags, tag)
  {
    forall t ensures IsRefused(Preferences(entries), t) <==> TagRefused(entries, t) {
      RefusedIsEntry(entries, t);
    }
    if k: nat :| AllowedAt(Preferences(entries), tags, k) && tag == tags[k] {
      assert tags[k] in tags;
    }
  }

  /** What the specification of the loops chooses is what the entries select. */
  lemma SelectedExactly(entries: seq<string>, fallback: string, tags: seq<string>, tag: string)
    requires Chosen(Preferences(entries), fallback, tags, tag)
    ensures Selects(entries, fallback, tags, tag)
  {
    var wanted := AllWanted(Preferences(entries));
    var picks := WantedArePicked(entries);
    NoneHits(entries, tags, wanted, picks);
    ResidualIsEntry(entries);
    LeftExactly(entries, [fallback] + tags, tag);
    if !NoneFinds(wanted, tags) {
      var b: nat :| Decides(wanted, tags, b) && tag == Found(wanted[b].range, tags);
      PickedDecides(entries, tags, wanted, picks, b);
      PickedFinds(entries, tags, wanted, picks, b);
    }
  }

  // ----- Basic filtering -----

  /** A range covers a tag exactly when its subtags are the first subtags of the tag. */
  lemma CoversBySubtags(range: string, tag: string)
    ensures Covers(range, tag) <==> T.Split(range, '-') <= T.Split(tag, '-')
  {
    var mine, whole := T.Split(range, '-'), T.Split(tag, '-');
    if T.HasPrefix(tag, range + "-") {
      var rest := tag[|range| + 1..];
      assert tag == range + ['-'] + rest;
      R.SplitAppend(range, rest, '-');
    }
    if mine <= whole {
      T.SplitJoin(range, '-');
      T.SplitJoin(tag, '-');
      if mine != whole {
        assert whole == mine + whole[|mine|..];
        JoinAppend(mine, whole[|mine|..]);
      }
    }
  }

  lemma {:induction false} JoinAppend(a: seq<string>, b: seq<string>)
    requires a != [] && b != []
    ensures T.Join(a + b, "-") == T.Join(a, "-") + "-" + T.Join(b, "-")
  {
    if |a| == 1 {
      assert (a + b)[1..] == b;
    } else {
      JoinAppend(a[1..], b);
      assert (a + b)[1..] == a[1..] + b;
    }
  }
}

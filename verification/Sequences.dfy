/** Small facts about sequences. */
module Sequences {

  ghost predicate Distinct<X>(s: seq<X>) {
    forall i, j :: 0 <= i < j < |s| ==> s[i] != s[j]
  }

  lemma DistinctSnoc<X>(s: seq<X>, x: X)
    requires Distinct(s) && x !in s
    ensures Distinct(s + [x])
  {
  }

  lemma TakeNext<X>(s: seq<X>, i: nat)
    requires i < |s|
    ensures s[..i + 1] == s[..i] + [s[i]] && s[..i + 1][..i] == s[..i]
  {
  }

  /** The items of `after` are those items of `before` that count, in order; `picks` are their positions. */
  ghost predicate Selected<X(!new), Y(!new)>(before: seq<X>, after: seq<Y>, counts: X -> bool, becomes: (X, Y) -> bool,
                                             picks: seq<nat>)
  {
    && |picks| == |after|
    && (forall k :: 0 <= k < |picks| ==> picks[k] < |before| && becomes(before[picks[k]], after[k]))
    && (forall j, k :: 0 <= j < k < |picks| ==> picks[j] < picks[k])
    && (forall i: nat :: i < |before| ==> (i in picks <==> counts(before[i])))
  }

  lemma SelectNext<X(!new), Y(!new)>(before: seq<X>, after: seq<Y>, counts: X -> bool, becomes: (X, Y) -> bool,
                                     picks: seq<nat>, x: X, y: Y)
    requires Selected(before, after, counts, becomes, picks) && counts(x) && becomes(x, y)
    ensures Selected(before + [x], after + [y], counts, becomes, picks + [|before|])
  {
    assert |before| in picks + [|before|];
    forall i: nat | i < |before| ensures i in picks + [|before|] <==> i in picks {
    }
  }

  lemma SkipNext<X(!new), Y(!new)>(before: seq<X>, after: seq<Y>, counts: X -> bool, becomes: (X, Y) -> bool,
                                   picks: seq<nat>, x: X)
    requires Selected(before, after, counts, becomes, picks) && !counts(x)
    ensures Selected(before + [x], after, counts, becomes, picks)
  {
    assert |before| !in picks;
  }
}

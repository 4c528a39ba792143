/**
 The truncations of `lookup`, service/service.go, against those of RFC 4647 Lookup, section 3.4: the
 standard removes every singleton together with the subtag after it, the source at most one, and never
 the first subtag of a range.
 */
module LookupSingletons {
  import opened Wrappers
  import opened Negotiation
  import T = Text

  predicate IsSingleton(s: string) {
    |s| == 1 && s[0] != '-'
  }

  predicate EndsInSingleton(s: string) {
    |s| >= 2 && s[|s| - 2] == '-' && s[|s| - 1] != '-'
  }

  /** The last subtag has one character, be it the only subtag or not. */
  predicate LeavesSingleton(s: string) {
    IsSingleton(s) || EndsInSingleton(s)
  }

  /** Two single-character subtags in a row at `j`, with a subtag after them. */
  predicate TwoSingletons(s: string, j: nat) {
    j + 4 < |s| && s[j] == s[j + 2] == s[j + 4] == '-' && s[j + 1] != '-' && s[j + 3] != '-'
  }

  /** The first subtag has one character, and another follows. */
  predicate SingletonFirst(s: string) {
    |s| >= 2 && s[0] != '-' && s[1] == '-'
  }

  /** The ranges for which the source and the standard part: by their first subtag, or by two singletons in a row. */
  ghost predicate Departs(range: string) {
    SingletonFirst(range) || exists j: nat :: TwoSingletons(range, j)
  }

  // ----- Which truncations end in a singleton -----

  /** Some proper truncation of the source ends in a singleton exactly when the range departs. */
  lemma SingletonIsTried(value: string)
    ensures (exists k :: 0 < k < |Candidates(value)| && LeavesSingleton(Candidates(value)[k])) <==> Departs(value)
  {
    if k :| 0 < k < |Candidates(value)| && LeavesSingleton(Candidates(value)[k]) {
      if EndsInSingleton(Candidates(value)[k]) {
        var j := TriedMeansTwo(value, k);
      } else {
        CandidatesShrink(value, k);
        assert value[0] == Candidates(value)[k][0];
      }
    }
    if SingletonFirst(value) {
      var k := FirstIsTried(value);
    }
    if j: nat :| TwoSingletons(value, j) {
      var k := TwoMeansTried(value, j);
    }
  }

  /** A first subtag of one character is tried on its own in the end. */
  lemma {:induction false} FirstIsTried(value: string) returns (k: nat)
    requires SingletonFirst(value)
    ensures 0 < k < |Candidates(value)| && IsSingleton(Candidates(value)[k])
    decreases |value|
  {
    StepKeepsFirst(value);
    LaterCandidate(value, 0);
    var next := Next(value).value;
    if IsSingleton(next) {
      k := 1;
    } else {
      var m := FirstIsTried(next);
      LaterCandidate(value, m);
      k := m + 1;
    }
  }

  lemma StepKeepsFirst(value: string)
    requires SingletonFirst(value)
    ensures Next(value).Some? && (IsSingleton(Next(value).value) || SingletonFirst(Next(value).value))
  {
    var cut := T.LastIndexOf(value, '-');
    var shorter := value[..cut];
    assert cut >= 1;
    assert cut > 1 ==> shorter[1] == '-' && T.LastIndexOf(shorter, '-') >= 1;
  }

  lemma {:induction false} TriedMeansTwo(value: string, k: nat) returns (j: nat)
    requires 0 < k < |Candidates(value)| && EndsInSingleton(Candidates(value)[k])
    ensures TwoSingletons(value, j)
    decreases k
  {
    EarlierCandidate(value, k);
    var next := Next(value).value;
    if k > 1 {
      j := TriedMeansTwo(next, k - 1);
    } else {
      j := |next| - 2;
      DroppedWithParent(value);
    }
  }

  /** A step that ends in a singleton has dropped one, and so passed two in a row. */
  lemma DroppedWithParent(value: string)
    requires Next(value).Some? && EndsInSingleton(Next(value).value)
    ensures TwoSingletons(value, |Next(value).value| - 2)
  {
    var cut := T.LastIndexOf(value, '-');
    var shorter := value[..cut];
    var singleton := T.LastIndexOf(shorter, '-');
    assert singleton >= cut - 1 || cut < 2 || shorter[cut - 1] != '-';
  }

  /** The next candidate keeps two singletons that stand before the last dash but one, or ends in one. */
  lemma StepKeepsTwo(value: string, j: nat)
    requires TwoSingletons(value, j)
    ensures Next(value).Some?
    ensures EndsInSingleton(Next(value).value) || TwoSingletons(Next(value).value, j)
  {
    var cut := T.LastIndexOf(value, '-');
    var shorter := value[..cut];
    var singleton := T.LastIndexOf(shorter, '-');
    var before := if cut == j + 4 then j + 2 else j + 4;
    assert shorter[before] == '-';
    assert before <= singleton < cut;
    assert singleton == j + 3 ==> cut == j + 4;
  }

  lemma {:induction false} TwoMeansTried(value: string, j: nat) returns (k: nat)
    requires TwoSingletons(value, j)
    ensures 0 < k < |Candidates(value)| && EndsInSingleton(Candidates(value)[k])
    decreases |value|
  {
    StepKeepsTwo(value, j);
    LaterCandidate(value, 0);
    var next := Next(value).value;
    if EndsInSingleton(next) {
      k := 1;
    } else {
      var m := TwoMeansTried(next, j);
      LaterCandidate(value, m);
      k := m + 1;
    }
  }

  // ----- The truncations of the standard -----

  /** What is left once every singleton at the end is gone; nothing when that was all. */
  function DropSingletons(s: string): (r: Option<string>)
    ensures r.Some? ==> r.value <= s && !LeavesSingleton(r.value)
    decreases |s|
  {
    if IsSingleton(s) then None
    else if EndsInSingleton(s) then DropSingletons(s[..|s| - 2])
    else Some(s)
  }

  function NextRfc(candidate: string): (next: Option<string>)
    ensures next.Some? ==> next.value < candidate && !LeavesSingleton(next.value)
  {
    var cut := T.LastIndexOf(candidate, '-');
    if cut < 0 then None else DropSingletons(candidate[..cut])
  }

  function CandidatesRfc(value: string): (r: seq<string>)
    ensures r != [] && r[0] == value
    decreases |value|
  {
    [value] + match NextRfc(value) case None => [] case Some(next) => CandidatesRfc(next)
  }

  /** Its truncations are prefixes of the range, and none of them ends in a singleton. */
  lemma {:induction false} NoneLeft(value: string, k: nat)
    requires 0 < k < |CandidatesRfc(value)|
    ensures CandidatesRfc(value)[k] < value && !LeavesSingleton(CandidatesRfc(value)[k])
    decreases k
  {
    var next := NextRfc(value).value;
    assert CandidatesRfc(value)[k] == CandidatesRfc(next)[k - 1];
    if k > 1 {
      NoneLeft(next, k - 1);
    }
  }

  lemma DepartsGrows(part: string, value: string)
    requires part <= value && Departs(part)
    ensures Departs(value)
  {
    if j: nat :| TwoSingletons(part, j) {
      assert TwoSingletons(value, j);
    }
  }

  /** Away from those ranges one step of the source is one step of the standard. */
  lemma NextAgrees(value: string)
    requires !Departs(value)
    ensures Next(value) == NextRfc(value)
    ensures Next(value).Some? ==> !Departs(Next(value).value)
  {
    var next := Next(value);
    if next.Some? {
      var shorter := value[..T.LastIndexOf(value, '-')];
      LastDash(shorter);
      if EndsInSingleton(next.value) {
        DroppedWithParent(value);
      }
      if Departs(next.value) {
        DepartsGrows(next.value, value);
      }
      assert !IsSingleton(next.value);
      if EndsInSingleton(shorter) {
        assert next.value == shorter[..|shorter| - 2] && DropSingletons(next.value) == next;
      }
    }
  }

  /** The last subtag is a singleton exactly when its dash is the last character but one. */
  lemma LastDash(s: string)
    ensures EndsInSingleton(s) <==> T.LastIndexOf(s, '-') >= 0 && |s| - T.LastIndexOf(s, '-') == 2
  {
  }

  lemma {:induction false} CandidatesAgree(value: string)
    requires !Departs(value)
    ensures Candidates(value) == CandidatesRfc(value)
    decreases |value|
  {
    NextAgrees(value);
    if Next(value).Some? {
      CandidatesAgree(Next(value).value);
    }
  }

  /** The source tries the truncations of the standard exactly when the range does not depart. */
  lemma CandidatesAgreeExactly(value: string)
    ensures Candidates(value) == CandidatesRfc(value) <==> !Departs(value)
  {
    if Departs(value) {
      SingletonIsTried(value);
      var k :| 0 < k < |Candidates(value)| && LeavesSingleton(Candidates(value)[k]);
      if k < |CandidatesRfc(value)| {
        NoneLeft(value, k);
      }
    } else {
      CandidatesAgree(value);
    }
  }

  // ----- The tags found -----

  /** The first tag that equals the first candidate that some tag equals. */
  function FirstMatch(candidates: seq<string>, tags: seq<string>): string {
    if candidates == [] then ""
    else
      var i := MatchIndex(candidates[0], tags);
      if i < |tags| then tags[i] else FirstMatch(candidates[1..], tags)
  }

  lemma {:induction false} FoundIsFirst(value: string, tags: seq<string>)
    ensures Found(value, tags) == FirstMatch(Candidates(value), tags)
    decreases |value|
  {
    if Next(value).Some? {
      FoundIsFirst(Next(value).value, tags);
      assert Candidates(value)[1..] == Candidates(Next(value).value);
    } else {
      assert Candidates(value) == [value];
    }
  }

  /** RFC 4647 Lookup, section 3.4. */
  function FoundRfc(value: string, tags: seq<string>): string {
    FirstMatch(CandidatesRfc(value), tags)
  }

  lemma {:induction false} FirstMatchOfOne(candidates: seq<string>, tag: string)
    ensures FirstMatch(candidates, [tag])
         == if exists k :: 0 <= k < |candidates| && T.EqualFold(tag, candidates[k]) then tag else ""
  {
    if candidates != [] {
      FirstMatchOfOne(candidates[1..], tag);
      assert MatchIndex(candidates[0], [tag]) == if T.EqualFold(tag, candidates[0]) then 0 else 1;
      if k :| 0 < k < |candidates| && T.EqualFold(tag, candidates[k]) {
        assert candidates[1..][k - 1] == candidates[k];
      }
    }
  }

  /** A truncation of the source that ends in a singleton is a tag that only the source finds. */
  lemma OnlyTheSourceFinds(value: string, k: nat)
    requires 0 < k < |Candidates(value)| && LeavesSingleton(Candidates(value)[k])
    ensures var tag := Candidates(value)[k]; Found(value, [tag]) == tag && FoundRfc(value, [tag]) == ""
  {
    var tag := Candidates(value)[k];
    CandidatesShrink(value, k);
    FoundIsFirst(value, [tag]);
    FirstMatchOfOne(Candidates(value), tag);
    FirstMatchOfOne(CandidatesRfc(value), tag);
    forall j | 0 <= j < |CandidatesRfc(value)| ensures !T.EqualFold(tag, CandidatesRfc(value)[j]) {
      assert |T.ToLower(tag)| == |tag|;
      if j > 0 {
        NoneLeft(value, j);
        assert |CandidatesRfc(value)[j]| == |tag| ==> CandidatesRfc(value)[j] == tag;
      }
    }
  }

  /**
   Lookup in the source finds what the standard finds, whatever tags there are, exactly for the ranges
   that do not depart: their first subtag is longer than one character and no two singletons follow one
   another before the last subtag.
   */
  lemma LookupAgreesExactly(value: string)
    ensures (forall tags :: "" !in tags ==> Found(value, tags) == FoundRfc(value, tags)) <==> !Departs(value)
  {
    if Departs(value) {
      SingletonIsTried(value);
      var k :| 0 < k < |Candidates(value)| && LeavesSingleton(Candidates(value)[k]);
      OnlyTheSourceFinds(value, k);
      var tags := [Candidates(value)[k]];
      assert "" !in tags && Found(value, tags) != FoundRfc(value, tags);
    } else {
      CandidatesAgree(value);
      forall tags ensures Found(value, tags) == FoundRfc(value, tags) {
        FoundIsFirst(value, tags);
      }
    }
  }

  lemma LastIndexIs(s: string, i: nat)
    requires i < |s| && s[i] == '-' && forall k :: i < k < |s| ==> s[k] != '-'
    ensures T.LastIndexOf(s, '-') == i
  {
  }

  /** A range of a singleton and a subtag is cut down to the singleton. */
  lemma FirstSingletonFound()
    ensures Candidates("x-foo") == ["x-foo", "x"] && Found("x-foo", ["X"]) == "X" && FoundRfc("x-foo", ["X"]) == ""
  {
    LastIndexIs("x-foo", 1);
    assert "x-foo"[..1] == "x";
    assert T.LastIndexOf("x", '-') == -1;
    assert Next("x-foo") == Some("x") && Next("x").None? && NextRfc("x-foo").None?;
    assert Candidates("x") == ["x"] && CandidatesRfc("x-foo") == ["x-foo"];
    FoundIsFirst("x-foo", ["X"]);
    FirstMatchOfOne(["x-foo", "x"], "X");
    FirstMatchOfOne(["x-foo"], "X");
    assert T.EqualFold("X", ["x-foo", "x"][1]);
    assert |T.ToLower("X")| != |T.ToLower("x-foo")|;
  }

  /**
   With two singletons in a row a tag can match that is well-formed under section 2.1 of RFC 5646, where
   the standard goes on to a shorter one.
   */
  lemma PrivateUseFound()
    ensures Found("en-x-a-b-c", ["en", "en-x-a"]) == "en-x-a" && FoundRfc("en-x-a-b-c", ["en", "en-x-a"]) == "en"
  {
    LastIndexIs("en-x-a-b-c", 8);
    LastIndexIs("en-x-a-b", 6);
    assert "en-x-a-b-c"[..8] == "en-x-a-b";
    assert "en-x-a-b-c"[..6] == "en-x-a";
    assert Next("en-x-a-b-c") == Some("en-x-a");
    assert "en-x-a-b"[..6] == "en-x-a" && "en-x-a"[..4] == "en-x" && "en-x"[..2] == "en";
    assert DropSingletons("en") == Some("en");
    assert DropSingletons("en-x") == Some("en");
    assert DropSingletons("en-x-a") == Some("en");
    assert NextRfc("en-x-a-b-c") == Some("en");
    DifferentLengths();
    assert Found("en-x-a-b-c", ["en", "en-x-a"]) == Found("en-x-a", ["en", "en-x-a"]);
    assert CandidatesRfc("en-x-a-b-c")[1..] == CandidatesRfc("en");
    assert FoundRfc("en-x-a-b-c", ["en", "en-x-a"]) == FirstMatch(CandidatesRfc("en"), ["en", "en-x-a"]);
  }

  lemma DifferentLengths()
    ensures MatchIndex("en-x-a-b-c", ["en", "en-x-a"]) == 2
    ensures MatchIndex("en-x-a", ["en", "en-x-a"]) == 1 && MatchIndex("en", ["en", "en-x-a"]) == 0
  {
    assert |T.ToLower("en")| == 2 && |T.ToLower("en-x-a")| == 6 && |T.ToLower("en-x-a-b-c")| == 10;
  }
}

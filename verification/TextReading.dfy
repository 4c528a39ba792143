/** What trimming and folding do to a text, told by the text alone. */
module TextReading {
  import T = Text

  predicate AllSpace(s: string) {
    forall k :: 0 <= k < |s| ==> T.IsSpace(s[k])
  }

  /** The text without the white space around it. */
  ghost predicate Trimmed(s: string, t: string) {
    && (t != "" ==> !T.IsSpace(t[0]) && !T.IsSpace(t[|t| - 1]))
    && exists lead: string, trail: string :: AllSpace(lead) && AllSpace(trail) && s == lead + t + trail
  }

  lemma {:induction false} LeftTrims(s: string) returns (lead: string)
    ensures AllSpace(lead) && s == lead + T.TrimLeft(s)
  {
    lead := "";
    if s != [] && T.IsSpace(s[0]) {
      var rest := LeftTrims(s[1..]);
      lead := [s[0]] + rest;
    }
  }

  lemma {:induction false} RightTrims(s: string) returns (trail: string)
    ensures AllSpace(trail) && s == T.TrimRight(s) + trail
  {
    trail := "";
    if s != [] && T.IsSpace(s[|s| - 1]) {
      var rest := RightTrims(s[..|s| - 1]);
      trail := rest + [s[|s| - 1]];
      assert s == s[..|s| - 1] + [s[|s| - 1]];
    }
  }

  lemma SpaceTrims(s: string)
    ensures Trimmed(s, T.TrimSpace(s))
  {
    var lead := LeftTrims(s);
    var trail := RightTrims(T.TrimLeft(s));
    assert s == lead + T.TrimSpace(s) + trail;
  }

  lemma NoLongerLead(s: string, lead: string, t: string, trail: string, other: string, u: string, end: string)
    requires s == lead + t + trail && s == other + u + end && t != "" && !T.IsSpace(t[0])
    requires AllSpace(other)
    ensures |other| <= |lead|
  {
    forall k | 0 <= k < |other| ensures T.IsSpace(s[k]) {
      assert s[k] == other[k];
    }
    assert s[|lead|] == t[0];
  }

  lemma NoLongerTrail(s: string, lead: string, t: string, trail: string, other: string, u: string, end: string)
    requires s == lead + t + trail && s == other + u + end && t != "" && !T.IsSpace(t[|t| - 1])
    requires AllSpace(end)
    ensures |end| <= |trail|
  {
    forall k | |other| + |u| <= k < |s| ensures T.IsSpace(s[k]) {
      assert s[k] == end[k - |other| - |u|];
    }
    assert s[|s| - |trail| - 1] == t[|t| - 1];
  }

  lemma BlankExactly(s: string, t: string)
    requires Trimmed(s, t)
    ensures t == "" <==> AllSpace(s)
  {
    var lead: string, trail: string :| AllSpace(lead) && AllSpace(trail) && s == lead + t + trail;
    if t != "" {
      assert s[|lead|] == t[0];
    } else {
      assert s == lead + trail;
    }
  }

  lemma TrimmedIsUnique(s: string, t: string, u: string)
    requires Trimmed(s, t) && Trimmed(s, u)
    ensures t == u
  {
    var lead: string, trail: string :| AllSpace(lead) && AllSpace(trail) && s == lead + t + trail;
    var other: string, end: string :| AllSpace(other) && AllSpace(end) && s == other + u + end;
    BlankExactly(s, t);
    BlankExactly(s, u);
    if t != "" {
      NoLongerLead(s, lead, t, trail, other, u, end);
      NoLongerLead(s, other, u, end, lead, t, trail);
      NoLongerTrail(s, lead, t, trail, other, u, end);
      NoLongerTrail(s, other, u, end, lead, t, trail);
      assert t == s[|lead|..|s| - |trail|] && u == s[|other|..|s| - |end|];
    }
  }

  /** The text with its capital letters made small. */
  ghost predicate Lowered(s: string, t: string) {
    |t| == |s| && forall k :: 0 <= k < |s| ==>
      t[k] as int == if 'A' <= s[k] <= 'Z' then s[k] as int + 32 else s[k] as int
  }

  lemma LoweredIsUnique(s: string, t: string, u: string)
    requires Lowered(s, t) && Lowered(s, u)
    ensures t == u
  {
    forall k | 0 <= k < |s| ensures t[k] == u[k] {
      assert t[k] as int == u[k] as int;
    }
  }

  lemma TrimmedIs(s: string, t: string)
    requires Trimmed(s, t)
    ensures t == T.TrimSpace(s)
  {
    SpaceTrims(s);
    TrimmedIsUnique(s, t, T.TrimSpace(s));
  }

  lemma LoweredIs(s: string, t: string)
    requires Lowered(s, t)
    ensures t == T.ToLower(s)
  {
    LoweredIsUnique(s, t, T.ToLower(s));
  }

  lemma ToLowerLowers(s: string)
    ensures Lowered(s, T.ToLower(s))
  {
  }
}

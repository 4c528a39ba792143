/**
 How the caching fields of a response are read, agent/transport.go: the directives of Cache-Control,
 max-age and Age as numbers, and the names that Vary may list.
 */
module HeaderReading {
  import opened Wrappers
  import opened Freshness
  import opened TextReading
  import T = Text

  // ----- Numbers -----

  /** The number that a text stands for: decimal digits, with or without a sign, within 64 bits. */
  ghost predicate IsNumber(s: string, n: int) {
    && -0x8000_0000_0000_0000 <= n < 0x8000_0000_0000_0000
    && exists digits: string :: Signed(s, n, digits)
  }

  predicate Signed(s: string, n: int, digits: string) {
    && digits != "" && T.AllDigits(digits)
    && if s == "-" + digits then n + T.DigitsValue(digits) == 0
       else n == T.DigitsValue(digits) && (s == digits || s == "+" + digits)
  }

  lemma AllDigitsNoSign(digits: string)
    requires digits != "" && T.AllDigits(digits)
    ensures digits[0] != '-' && digits[0] != '+'
  {
    assert digits[0] in digits;
  }

  lemma ParsesNumber(s: string, n: int, digits: string)
    requires Signed(s, n, digits) && -0x8000_0000_0000_0000 <= n < 0x8000_0000_0000_0000
    ensures T.ParseInt64(s) == Some(n)
  {
    AllDigitsNoSign(digits);
    assert s != digits ==> s[1..] == digits;
  }

  lemma ParseExactly(s: string, n: int)
    ensures T.ParseInt64(s) == Some(n) <==> IsNumber(s, n)
  {
    if IsNumber(s, n) {
      var digits: string :| Signed(s, n, digits);
      ParsesNumber(s, n, digits);
    }
    if T.ParseInt64(s) == Some(n) {
      var digits := if s[0] == '-' || s[0] == '+' then s[1..] else s;
      assert s == digits || s == [s[0]] + digits;
      AllDigitsNoSign(digits);
      assert Signed(s, n, digits);
    }
  }

  // ----- Directives -----

  predicate AllQuotes(s: string) {
    forall k :: 0 <= k < |s| ==> s[k] == '"'
  }

  /** The text without the quotation marks around it. */
  ghost predicate Unquoted(s: string, t: string) {
    && (t != "" ==> t[0] != '"' && t[|t| - 1] != '"')
    && exists lead: string, trail: string :: AllQuotes(lead) && AllQuotes(trail) && s == lead + t + trail
  }

  lemma {:induction false} TrimsQuotes(s: string) returns (lead: string, trail: string)
    ensures AllQuotes(lead) && AllQuotes(trail) && s == lead + TrimQuotes(s) + trail
    decreases |s|
  {
    lead, trail := "", "";
    if s != [] && s[0] == '"' {
      lead, trail := TrimsQuotes(s[1..]);
      lead := [s[0]] + lead;
    } else if s != [] && s[|s| - 1] == '"' {
      var last := s[|s| - 1];
      lead, trail := TrimsQuotes(s[..|s| - 1]);
      assert s == s[..|s| - 1] + [last];
      trail := trail + [last];
    }
  }

  lemma {:induction false} NoQuotesLeft(s: string)
    ensures var t := TrimQuotes(s); t != "" ==> t[0] != '"' && t[|t| - 1] != '"'
    decreases |s|
  {
    if s != [] && s[0] == '"' {
      NoQuotesLeft(s[1..]);
    } else if s != [] && s[|s| - 1] == '"' {
      NoQuotesLeft(s[..|s| - 1]);
    }
  }

  lemma QuotesTrim(s: string)
    ensures Unquoted(s, TrimQuotes(s))
  {
    NoQuotesLeft(s);
    var lead, trail := TrimsQuotes(s);
  }

  /** A directive has a name, in small letters, and a value without white space and quotes around it. */
  ghost predicate IsDirective(text: string, name: string, value: string) {
    exists written: string :: Trimmed(text, written) &&
      if '=' !in written then Lowered(written, name) && value == ""
      else HasValue(written, name, value)
  }

  ghost predicate HasValue(written: string, name: string, value: string) {
    exists before: string, after: string, bare: string :: written == before + "=" + after && '=' !in before
      && Lowered(before, name) && Trimmed(after, bare) && Unquoted(bare, value)
  }

  lemma ParsedIs(written: string)
    ensures var (name, value) := Parsed(written);
            if '=' !in written then Lowered(written, name) && value == "" else HasValue(written, name, value)
  {
    var i := T.IndexOf(written, '=');
    if '=' in written {
      var after := written[i + 1..];
      assert written == written[..i] + "=" + after;
      ValueIs(written, written[..i], after);
    } else {
      assert i == |written| && written[..i] == written;
    }
  }

  lemma ValueIs(written: string, before: string, after: string)
    requires written == before + "=" + after && '=' !in before
    ensures HasValue(written, T.ToLower(before), TrimQuotes(T.TrimSpace(after)))
  {
    SpaceTrims(after);
    QuotesTrim(T.TrimSpace(after));
    assert Lowered(before, T.ToLower(before));
  }

  /** Every directive is read as the name and the value written in it. */
  lemma DirectiveIsRead(text: string)
    ensures IsDirective(text, Directive(text).0, Directive(text).1)
  {
    SpaceTrims(text);
    ParsedIs(T.TrimSpace(text));
  }

  // ----- Fields -----

  /** Some directive of the header has this name. */
  ghost predicate Directs(fields: Fields, name: string) {
    exists i: nat :: i < |Pairs(T.Split(fields.cacheControl, ','))|
                     && Pairs(T.Split(fields.cacheControl, ','))[i].0 == name
  }

  /** The value of the last directive of this name. */
  ghost predicate LastDirects(fields: Fields, name: string, value: string) {
    exists i: nat :: LastNamed(Pairs(T.Split(fields.cacheControl, ',')), name, i)
                     && Pairs(T.Split(fields.cacheControl, ','))[i].1 == value
  }

  lemma {:induction false} SomeIsLast(pairs: seq<(string, string)>, name: string, i: nat) returns (last: nat)
    requires i < |pairs| && pairs[i].0 == name
    ensures LastNamed(pairs, name, last)
    decreases |pairs| - i
  {
    if j :| i < j < |pairs| && pairs[j].0 == name {
      last := SomeIsLast(pairs, name, j);
    } else {
      last := i;
    }
  }

  lemma DirectsExactly(fields: Fields, name: string)
    requires name != ""
    ensures var control := DirectivesOf(fields.cacheControl);
            && (name in control <==> Directs(fields, name))
            && (forall value :: name in control && control[name] == value <==> LastDirects(fields, name, value))
  {
    var parts := T.Split(fields.cacheControl, ',');
    CollectHoldsLast(parts);
    if i: nat :| i < |Pairs(parts)| && Pairs(parts)[i].0 == name {
      var last := SomeIsLast(Pairs(parts), name, i);
    }
  }

  /** A max-age is usable exactly when its last directive is a number that is not negative. */
  lemma MaxAgeIsRead(fields: Fields)
    ensures var maxAge := Read(fields).maxAge;
            && (maxAge == Absent <==> !Directs(fields, "max-age"))
            && (forall n: nat :: maxAge == Seconds(n) <==>
                  exists value: string :: LastDirects(fields, "max-age", value) && IsNumber(value, n))
  {
    DirectsExactly(fields, "max-age");
    var control := DirectivesOf(fields.cacheControl);
    if "max-age" in control {
      forall n: int {
        ParseExactly(control["max-age"], n);
      }
    }
  }

  /** The Age is a positive number, or counts as zero. */
  lemma AgeIsRead(fields: Fields)
    ensures exists text: string :: Trimmed(fields.age, text)
              && (forall n: int :: n > 0 ==> (Read(fields).age == n <==> IsNumber(text, n)))
  {
    SpaceTrims(fields.age);
    forall n: int {
      ParseExactly(T.TrimSpace(fields.age), n);
    }
  }

  predicate InKey(name: string) {
    name in {"", "accept", "accept-language", "content-type"}
  }

  /** A name that the cache key covers: a request field that is part of it, or nothing. */
  ghost predicate Covered(listed: string) {
    exists text: string, name: string :: IsNamed(listed, text, name) && InKey(name)
  }

  ghost predicate IsNamed(listed: string, text: string, name: string) {
    Trimmed(listed, text) && Lowered(text, name)
  }

  lemma NamedIs(listed: string, text: string, name: string)
    requires IsNamed(listed, text, name)
    ensures name == T.ToLower(T.TrimSpace(listed))
  {
    TrimmedIs(listed, text);
    LoweredIs(text, name);
  }

  lemma HasName(listed: string)
    ensures IsNamed(listed, T.TrimSpace(listed), T.ToLower(T.TrimSpace(listed)))
  {
    SpaceTrims(listed);
    ToLowerLowers(T.TrimSpace(listed));
  }

  lemma CoveredExactly(listed: string)
    ensures Covered(listed) <==> InKey(T.ToLower(T.TrimSpace(listed)))
  {
    HasName(listed);
    if Covered(listed) {
      var text: string, name: string :| IsNamed(listed, text, name) && InKey(name);
      NamedIs(listed, text, name);
    }
  }

  lemma VaryExactly(vary: seq<string>)
    ensures SupportedVary(vary) <==>
            forall value :: value in vary ==> forall listed :: listed in T.Split(value, ',') ==> Covered(listed)
  {
    assert SupportedVary(vary) <==> forall value :: value in vary ==>
      forall listed :: listed in T.Split(value, ',') ==> InKey(T.ToLower(T.TrimSpace(listed)));
    forall listed ensures Covered(listed) <==> InKey(T.ToLower(T.TrimSpace(listed))) {
      CoveredExactly(listed);
    }
  }

  /** The rest of the header: the two refusals, the names in Vary, and the validators as they are. */
  lemma HeaderIsRead(fields: Fields)
    ensures var header := Read(fields);
            && (header.noStore <==> Directs(fields, "no-store")) && (header.noCache <==> Directs(fields, "no-cache"))
            && (header.supportedVary <==>
                  forall value :: value in fields.vary ==>
                    forall listed :: listed in T.Split(value, ',') ==> Covered(listed))
            && header.expires == fields.expires && header.etag == fields.etag
            && header.lastModified == fields.lastModified
  {
    DirectsExactly(fields, "no-store");
    DirectsExactly(fields, "no-cache");
    VaryExactly(fields.vary);
  }
}

/**
 Cache-Control, expiry and cacheability, as agent/transport.go computes them. Times and durations
 are nanoseconds; a duration is a 64-bit integer, so its arithmetic wraps or saturates as Go's.
 */
module Freshness {
  import opened Text

  const SECOND := 1_000_000_000
  const MAX_DURATION := INT64_MAX
  const MIN_DURATION := -INT64_MAX - 1

  /** The largest number of seconds that fits in a duration. */
  const MAX_SECONDS := 9_223_372_036

  type Time = int

  type Duration = d: int | MIN_DURATION <= d <= MAX_DURATION

  datatype Expires = Missing | Malformed | At(time: Time)

  /** The response header fields that caching reads, as text. Missing fields are empty. */
  datatype Fields = Fields(cacheControl: string, age: string, expires: Expires, vary: seq<string>,
                           etag: string, lastModified: string)

  /** A max-age directive is usable when it is a 64-bit integer that is not negative. */
  datatype MaxAge = Absent | Unusable | Seconds(seconds: nat)

  /** What the fields say. */
  datatype Header = Header(noStore: bool, noCache: bool, maxAge: MaxAge, age: nat, expires: Expires,
                           supportedVary: bool, etag: string, lastModified: string)

  datatype Method = Get | Post | Other

  // ----- Directives -----

  type Directives = map<string, string>

  function TrimQuotes(s: string): string {
    if s != [] && s[0] == '"' then TrimQuotes(s[1..])
    else if s != [] && s[|s| - 1] == '"' then TrimQuotes(s[..|s| - 1])
    else s
  }

  /** The name and value of one directive; an empty name is ignored. */
  function Directive(text: string): (string, string) {
    Parsed(TrimSpace(text))
  }

  function Parsed(d: string): (string, string) {
    var i := IndexOf(d, '=');
    (ToLower(d[..i]), if i == |d| then "" else TrimQuotes(TrimSpace(d[i + 1..])))
  }

  /** The names and values of the directives of a header, in order. */
  function Pairs(directives: seq<string>): (r: seq<(string, string)>)
    ensures |r| == |directives| && forall i :: 0 <= i < |r| ==> r[i] == Directive(directives[i])
  {
    seq(|directives|, i requires 0 <= i < |directives| => Directive(directives[i]))
  }

  /** Pair `i` has this name, and no pair after it does. */
  ghost predicate LastNamed(pairs: seq<(string, string)>, name: string, i: nat) {
    i < |pairs| && pairs[i].0 == name && forall j :: i < j < |pairs| ==> pairs[j].0 != name
  }

  /** The map holds exactly the names that some pair has, each with the value that the last such pair gives it. */
  ghost predicate HoldsLast(pairs: seq<(string, string)>, result: Directives) {
    && (forall name :: name in result <==> name != "" && exists i: nat :: LastNamed(pairs, name, i))
    && (forall name, i: nat :: name != "" && LastNamed(pairs, name, i) ==>
          name in result && result[name] == pairs[i].1)
  }

  lemma LastNamedNext(pairs: seq<(string, string)>, pair: (string, string), name: string, i: nat)
    ensures LastNamed(pairs + [pair], name, i) <==>
            if pair.0 == name then i == |pairs| else LastNamed(pairs, name, i)
  {
    var longer := pairs + [pair];
    assert longer[|pairs|] == pair;
    assert i < |pairs| ==> longer[i] == pairs[i];
    if LastNamed(pairs, name, i) && pair.0 != name {
      forall j | i < j < |longer| ensures longer[j].0 != name {
        assert j < |pairs| ==> longer[j] == pairs[j];
      }
    }
    if LastNamed(longer, name, i) && i < |pairs| {
      forall j | i < j < |pairs| ensures pairs[j].0 != name {
        assert longer[j] == pairs[j];
      }
    }
  }

  lemma HoldsNext(pairs: seq<(string, string)>, result: Directives, pair: (string, string))
    requires HoldsLast(pairs, result)
    ensures HoldsLast(pairs + [pair], if pair.0 == "" then result else result[pair.0 := pair.1])
  {
    forall name, i: nat
      ensures LastNamed(pairs + [pair], name, i) <==>
              if pair.0 == name then i == |pairs| else LastNamed(pairs, name, i)
    {
      LastNamedNext(pairs, pair, name, i);
    }
    assert LastNamed(pairs + [pair], pair.0, |pairs|);
  }

  /** The directive map of a Cache-Control value: for a repeated name the last one stands. */
  method CacheDirectives(value: string) returns (result: Directives)
    ensures result == DirectivesOf(value)
    ensures HoldsLast(Pairs(Split(value, ',')), result)
  {
    result := map[];
    var parts := Split(value, ',');
    for i := 0 to |parts|
      invariant result == Collect(parts[..i])
    {
      assert parts[..i + 1][..i] == parts[..i];
      var (name, raw) := Directive(parts[i]);
      if name != "" {
        result := result[name := raw];
      }
    }
    assert parts[..|parts|] == parts;
    CollectHoldsLast(parts);
  }

  function Collect(directives: seq<string>): Directives {
    if directives == [] then map[]
    else
      var (name, value) := Directive(directives[|directives| - 1]);
      var before := Collect(directives[..|directives| - 1]);
      if name == "" then before else before[name := value]
  }

  function DirectivesOf(value: string): Directives {
    Collect(Split(value, ','))
  }

  lemma PairsNext(directives: seq<string>, n: nat)
    requires |directives| == n + 1
    ensures Pairs(directives) == Pairs(directives[..n]) + [Directive(directives[n])]
  {
  }

  lemma {:induction false} CollectHoldsLast(directives: seq<string>)
    ensures HoldsLast(Pairs(directives), Collect(directives))
    decreases |directives|
  {
    if directives != [] {
      var n := |directives| - 1;
      CollectHoldsLast(directives[..n]);
      HoldsNext(Pairs(directives[..n]), Collect(directives[..n]), Directive(directives[n]));
      PairsNext(directives, n);
    }
  }

  // ----- Duration arithmetic -----

  /** Two's complement wrap-around of a 64-bit product. */
  function Wrap64(x: int): (r: Duration)
    ensures MIN_DURATION <= x <= MAX_DURATION <==> r == x
  {
    (x - MIN_DURATION) % (2 * (MAX_DURATION + 1)) + MIN_DURATION
  }

  /** `Time.Sub`: the difference, saturated. */
  function Sub(a: Time, b: Time): (r: Duration) {
    if a - b > MAX_DURATION then MAX_DURATION else if a - b < MIN_DURATION then MIN_DURATION else a - b
  }

  function Max(a: int, b: int): int {
    if a >= b then a else b
  }

  // ----- Reading the fields -----

  function ReadMaxAge(control: Directives): MaxAge {
    if "max-age" !in control then Absent
    else
      var seconds := ParseInt64(control["max-age"]);
      if seconds.Some? && seconds.value >= 0 then Seconds(seconds.value) else Unusable
  }

  /** A well-formed positive Age; anything else counts as none. */
  function ReadAge(text: string): nat {
    var age := ParseInt64(TrimSpace(text));
    if age.Some? && age.value > 0 then age.value else 0
  }

  /** Every name that Vary lists is one the cache key covers. */
  predicate SupportedVary(vary: seq<string>) {
    forall value :: value in vary ==> forall name :: name in Split(value, ',') ==>
      ToLower(TrimSpace(name)) in {"", "accept", "accept-language", "content-type"}
  }

  function Read(fields: Fields): Header {
    var control := DirectivesOf(fields.cacheControl);
    Header("no-store" in control, "no-cache" in control, ReadMaxAge(control), ReadAge(fields.age),
           fields.expires, SupportedVary(fields.vary), fields.etag, fields.lastModified)
  }

  // ----- Expiry -----

  predicate Revalidates(header: Header) {
    header.noStore || header.noCache
  }

  function Expiry(header: Header, fallback: Duration, now: Time): Time {
    if header.noStore then now
    else if header.noCache then now
    else if header.maxAge.Seconds? then
      var seconds := header.maxAge.seconds;
      var remaining := if header.age > 0 then Max(0, seconds - header.age) else seconds;
      now + Wrap64(remaining * SECOND)
    else if header.expires.At? then header.expires.time
    else now + fallback
  }

  /** The freshness lifetime that section 4.2 of RFC 9111 gives a max-age, in seconds. */
  function RemainingSeconds(header: Header): nat
    requires header.maxAge.Seconds?
  {
    Max(0, header.maxAge.seconds - header.age)
  }

  /**
   A response that may be served without revalidation and has a valid max-age expires max-age
   minus Age after now, if and only if that many seconds fit in a 64-bit duration.
   */
  lemma MaxAgeExpiry(header: Header, fallback: Duration, now: Time)
    requires !Revalidates(header) && header.maxAge.Seconds?
    ensures (Expiry(header, fallback, now) == now + RemainingSeconds(header) * SECOND) <==>
            RemainingSeconds(header) <= MAX_SECONDS
    ensures header.maxAge.seconds <= MAX_SECONDS ==>
              now <= Expiry(header, fallback, now) == now + RemainingSeconds(header) * SECOND
  {
  }

  lemma {:induction false} FirstEquals(name: string, rest: string)
    requires '=' !in name
    ensures IndexOf(name + "=" + rest, '=') == |name|
  {
    if name != "" {
      assert (name + "=" + rest)[1..] == name[1..] + "=" + rest;
      FirstEquals(name[1..], rest);
    }
  }

  /** A directive written without superfluous space, case or quotes is read back as written. */
  lemma DirectiveReadBack(name: string, value: string)
    requires name != "" && value != ""
    requires '=' !in name && ToLower(name) == name && !IsSpace(name[0])
    requires TrimSpace(value) == value && TrimQuotes(value) == value
    ensures Directive(name + "=" + value) == (name, value)
  {
    var text := name + "=" + value;
    assert text[0] == name[0] && text[|text| - 1] == value[|value| - 1];
    assert TrimSpace(text) == text;
    FirstEquals(name, value);
    assert text[..|name|] == name && text[|name| + 1..] == value;
  }

  lemma DigitsArePlain(digits: string)
    requires digits != "" && AllDigits(digits)
    ensures TrimSpace(digits) == digits && TrimQuotes(digits) == digits && ',' !in digits
  {
    assert digits[0] in digits && digits[|digits| - 1] in digits;
  }

  lemma SplitWhole(s: string, c: char)
    requires c !in s
    ensures Split(s, c) == [s]
  {
  }

  lemma CollectOne(text: string, name: string, value: string)
    requires Directive(text) == (name, value) && name != ""
    ensures Collect([text]) == map[name := value]
  {
    assert [text][..0] == [];
    assert Collect([]) == map[];
  }

  /** A Cache-Control value of one plain directive is the map of that directive. */
  lemma OneDirective(name: string, value: string)
    requires name != "" && value != "" && ',' !in name && ',' !in value
    requires '=' !in name && ToLower(name) == name && !IsSpace(name[0])
    requires TrimSpace(value) == value && TrimQuotes(value) == value
    ensures DirectivesOf(name + "=" + value) == map[name := value]
  {
    var text := name + "=" + value;
    SplitWhole(text, ',');
    DirectiveReadBack(name, value);
    CollectOne(text, name, value);
  }

  lemma MaxAgeIsPlain()
    ensures '=' !in "max-age" && ',' !in "max-age" && ToLower("max-age") == "max-age"
  {
  }

  lemma MaxAgeOfDigits(digits: string)
    requires digits != "" && AllDigits(digits)
    ensures DirectivesOf("max-age" + "=" + digits) == map["max-age" := digits]
  {
    MaxAgeIsPlain();
    DigitsArePlain(digits);
    OneDirective("max-age", digits);
  }

  /** The text of a max-age directive is read back as the number written in it. */
  lemma MaxAgeReadBack(fields: Fields, n: nat)
    requires fields.cacheControl == "max-age" + "=" + Decimal(n)
    ensures !Revalidates(Read(fields))
    ensures Read(fields).maxAge == if n <= INT64_MAX then Seconds(n) else Unusable
  {
    MaxAgeOfDigits(Decimal(n));
    ParseDecimal(n);
  }

  lemma WrapsNegative()
    ensures Wrap64(9_223_372_037_000_000_000) < 0
  {
  }

  /** Past the limit the product wraps: this max-age makes a response expire before it is stored. */
  lemma HugeMaxAgeExpiresInThePast(header: Header, fallback: Duration, now: Time)
    requires !Revalidates(header) && header.maxAge == Seconds(MAX_SECONDS + 1) && header.age == 0
    ensures Expiry(header, fallback, now) < now
  {
    assert (MAX_SECONDS + 1) * SECOND == 9_223_372_037_000_000_000;
    WrapsNegative();
  }

  // ----- Cacheability -----

  predicate ExplicitFreshness(header: Header) {
    !header.maxAge.Absent? || !header.expires.Missing?
  }

  predicate HasFreshnessDirective(header: Header) {
    !header.maxAge.Absent? || header.noCache || header.noStore || !header.expires.Missing?
  }

  predicate Cacheable(method_: Method, header: Header, fallback: Duration) {
    if fallback < 0 || method_.Other? then false
    else if !header.supportedVary then false
    else if header.noStore then false
    else (method_.Get? && (fallback > 0 || header.noCache)) || ExplicitFreshness(header)
  }
}

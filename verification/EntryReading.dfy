/**
 How an entry of a negotiation header is read, service/service.go: a range, and the weight that its
 first `q` parameter gives it by the grammar of section 12.4.2 of RFC 9110.
 */
module EntryReading {
  import opened Wrappers
  import opened Sequences
  import opened Negotiation
  import opened TextReading
  import T = Text

  // ----- Quality values -----

  /** The decimals of a quality value: at most three digits. */
  predicate IsDecimals(s: string) {
    |s| <= 3 && forall c :: c in s ==> '0' <= c <= '9'
  }

  /** The grammar: zero with at most three decimals, or one with at most three zeros. */
  ghost predicate IsQuality(s: string) {
    s == "0" || s == "1" || exists decimals: string :: HasDecimals(s, decimals)
  }

  predicate HasDecimals(s: string, decimals: string) {
    IsDecimals(decimals) && (s == "0." + decimals || (s == "1." + decimals && forall c :: c in decimals ==> c == '0'))
  }

  function Power(n: nat): nat {
    if n == 0 then 1 else 10 * Power(n - 1)
  }

  /** The number that up to three decimals stand for, in thousandths. */
  function Fraction(decimals: string): nat
    requires IsDecimals(decimals)
  {
    T.DigitsValue(decimals) * Power(3 - |decimals|)
  }

  lemma FractionIs(decimals: string)
    requires IsDecimals(decimals)
    ensures Fraction(decimals) == Digit(decimals, 0) * 100 + Digit(decimals, 1) * 10 + Digit(decimals, 2)
  {
    assert Power(0) == 1 && Power(1) == 10 && Power(2) == 100 && Power(3) == 1000;
    if |decimals| == 3 {
      ThreeDigits(decimals);
    } else if |decimals| == 2 {
      TwoDigits(decimals);
    } else if |decimals| == 1 {
      OneDigit(decimals);
    }
  }

  lemma OneDigit(s: string)
    requires |s| == 1 && T.AllDigits(s)
    ensures T.DigitsValue(s) == Digit(s, 0)
  {
    assert s[..0] == [];
  }

  lemma TwoDigits(s: string)
    requires |s| == 2 && T.AllDigits(s)
    ensures T.DigitsValue(s) == 10 * Digit(s, 0) + Digit(s, 1)
  {
    OneDigit(s[..1]);
  }

  lemma ThreeDigits(s: string)
    requires |s| == 3 && T.AllDigits(s)
    ensures T.DigitsValue(s) == 100 * Digit(s, 0) + 10 * Digit(s, 1) + Digit(s, 2)
  {
    TwoDigits(s[..2]);
  }

  lemma AfterPoint(s: string, first: char)
    requires |s| >= 2 && s[0] == first && s[1] == '.'
    ensures s == [first, '.'] + s[2..]
  {
  }

  lemma QualityOfZero(decimals: string)
    requires IsDecimals(decimals)
    ensures Thousandths("0." + decimals) == Some(Fraction(decimals))
  {
    var s := "0." + decimals;
    assert s[2..] == decimals;
    FractionIs(decimals);
  }

  lemma QualityOfOne(decimals: string)
    requires IsDecimals(decimals) && forall c :: c in decimals ==> c == '0'
    ensures Thousandths("1." + decimals) == Some(1000)
  {
    var s := "1." + decimals;
    assert s[2..] == decimals;
  }

  /** A value has a weight exactly when the grammar admits it. */
  lemma QualityExactly(s: string)
    ensures Thousandths(s).Some? <==> IsQuality(s)
    ensures Thousandths("0") == Some(0) && Thousandths("1") == Some(1000)
  {
    if decimals: string :| HasDecimals(s, decimals) {
      if s == "0." + decimals {
        QualityOfZero(decimals);
      } else {
        QualityOfOne(decimals);
      }
    }
    if Thousandths(s).Some? && |s| >= 2 {
      AfterPoint(s, s[0]);
      assert IsDecimals(s[2..]);
      assert HasDecimals(s, s[2..]);
    }
  }

  /** What a quality value says, in thousandths; nothing when the grammar does not admit it. */
  ghost predicate Says(s: string, quality: Option<nat>) {
    && (quality.Some? <==> IsQuality(s))
    && (s == "0" ==> quality == Some(0)) && (s == "1" ==> quality == Some(1000))
    && (forall decimals: string | IsDecimals(decimals) :: s == "0." + decimals ==> quality == Some(Fraction(decimals)))
    && (forall decimals: string | IsDecimals(decimals) && (forall c :: c in decimals ==> c == '0') ::
          s == "1." + decimals ==> quality == Some(1000))
  }

  lemma QualityIsRead(s: string)
    ensures Says(s, Thousandths(s))
  {
    QualityExactly(s);
    forall decimals: string | IsDecimals(decimals) ensures Thousandths("0." + decimals) == Some(Fraction(decimals)) {
      QualityOfZero(decimals);
    }
    forall decimals: string | IsDecimals(decimals) && forall c :: c in decimals ==> c == '0'
      ensures Thousandths("1." + decimals) == Some(1000)
    {
      QualityOfOne(decimals);
    }
  }

  /** A number of thousandths written with three decimals is read back. */
  lemma QualityReadBack(a: char, b: char, c: char)
    requires T.IsDigit(a) && T.IsDigit(b) && T.IsDigit(c)
    ensures Thousandths("0." + [a, b, c])
         == Some(100 * (a as int - 48) as nat + 10 * (b as int - 48) as nat + (c as int - 48) as nat)
  {
    var decimals := [a, b, c];
    QualityOfZero(decimals);
    FractionIs(decimals);
  }

  // ----- Entries -----

  /** The parts of an entry between its semicolons. */
  ghost predicate Parted(entry: string, parts: seq<string>) {
    parts != [] && T.Join(parts, ";") == entry && forall p :: p in parts ==> ';' !in p
  }

  /** The parameter is a `q`, in either case, with this value. */
  ghost predicate Weight(parameter: string, value: string) {
    exists name: string, rest: string :: '=' !in name && parameter == name + "=" + rest
      && (Trimmed(name, "q") || Trimmed(name, "Q")) && Trimmed(rest, value)
  }

  ghost predicate IsWeight(parameter: string) {
    exists value: string :: Weight(parameter, value)
  }

  /** The first `q` decides, and an entry without one has full weight. */
  ghost predicate Weighs(parameters: seq<string>, quality: Option<nat>) {
    if forall k :: 0 <= k < |parameters| ==> !IsWeight(parameters[k]) then quality == Some(1000)
    else
      exists k: nat, value: string :: FirstWeight(parameters, k, value) && Says(value, quality)
  }

  ghost predicate FirstWeight(parameters: seq<string>, k: nat, value: string) {
    k < |parameters| && Weight(parameters[k], value) && forall j :: 0 <= j < k ==> !IsWeight(parameters[j])
  }

  /** What an entry says: a range, in small letters, and a weight. */
  ghost predicate Reads(entry: string, range: string, quality: Option<nat>) {
    exists parts: seq<string>, written: string :: Parted(entry, parts)
      && Trimmed(parts[0], written) && Lowered(written, range) && Weighs(parts[1..], quality)
  }

  lemma WeightIs(p: string)
    ensures var i := T.IndexOf(p, '=');
            && (IsWeight(p) <==> i < |p| && T.EqualFold(T.TrimSpace(p[..i]), "q"))
            && (IsWeight(p) ==> Weight(p, T.TrimSpace(p[i + 1..])))
  {
    var i := T.IndexOf(p, '=');
    if IsWeight(p) {
      AWeight(p);
    } else if i < |p| && T.EqualFold(T.TrimSpace(p[..i]), "q") {
      ReadsWeight(p, i);
    }
  }

  lemma AWeight(p: string)
    requires IsWeight(p)
    ensures var i := T.IndexOf(p, '=');
            i < |p| && T.EqualFold(T.TrimSpace(p[..i]), "q") && Weight(p, T.TrimSpace(p[i + 1..]))
  {
    var value: string :| Weight(p, value);
    WeightReads(p, value);
    ReadsWeight(p, T.IndexOf(p, '='));
  }

  lemma ReadsWeight(p: string, i: nat)
    requires i == T.IndexOf(p, '=') < |p| && T.EqualFold(T.TrimSpace(p[..i]), "q")
    ensures Weight(p, T.TrimSpace(p[i + 1..]))
  {
    assert p == p[..i] + "=" + p[i + 1..];
    PartsWeigh(p, p[..i], p[i + 1..]);
  }

  lemma PartsWeigh(p: string, name: string, rest: string)
    requires '=' !in name && p == name + "=" + rest && T.EqualFold(T.TrimSpace(name), "q")
    ensures Weight(p, T.TrimSpace(rest))
  {
    TrimsToQ(name);
    SpaceTrims(rest);
    if Trimmed(name, "q") {
      WeightFrom(p, name, rest, "q", T.TrimSpace(rest));
    } else {
      WeightFrom(p, name, rest, "Q", T.TrimSpace(rest));
    }
  }

  lemma TrimsToQ(name: string)
    requires T.EqualFold(T.TrimSpace(name), "q")
    ensures Trimmed(name, "q") || Trimmed(name, "Q")
  {
    SpaceTrims(name);
    FoldsToQ(T.TrimSpace(name));
  }

  lemma WeightFrom(p: string, name: string, rest: string, trimmed: string, value: string)
    requires '=' !in name && p == name + "=" + rest && Trimmed(rest, value)
    requires Trimmed(name, trimmed) && (trimmed == "q" || trimmed == "Q")
    ensures Weight(p, value)
  {
  }

  lemma WeightReads(p: string, value: string)
    requires Weight(p, value)
    ensures var i := T.IndexOf(p, '='); i < |p| && T.EqualFold(T.TrimSpace(p[..i]), "q")
  {
    var name: string, rest: string :| '=' !in name && p == name + "=" + rest
      && (Trimmed(name, "q") || Trimmed(name, "Q")) && Trimmed(rest, value);
    FirstEquals(p, name, rest);
    assert p[..|name|] == name;
    NameIsQ(name);
  }

  lemma NameIsQ(name: string)
    requires Trimmed(name, "q") || Trimmed(name, "Q")
    ensures T.EqualFold(T.TrimSpace(name), "q")
  {
    SpaceTrims(name);
    if Trimmed(name, "q") {
      TrimmedIsUnique(name, T.TrimSpace(name), "q");
    } else {
      TrimmedIsUnique(name, T.TrimSpace(name), "Q");
    }
    FoldsToQ(T.TrimSpace(name));
  }

  lemma FirstEquals(p: string, name: string, rest: string)
    requires '=' !in name && p == name + "=" + rest
    ensures T.IndexOf(p, '=') == |name|
  {
    forall k | 0 <= k < |name| ensures p[k] != '=' {
      assert p[k] == name[k] && name[k] in name;
    }
    assert p[|name|] == '=';
  }

  lemma FoldsToQ(s: string)
    ensures T.EqualFold(s, "q") <==> s == "q" || s == "Q"
  {
    if |s| == 1 {
      assert T.ToLower(s)[0] == T.LowerChar(s[0]);
      assert T.ToLower("q") == "q";
    }
  }

  lemma {:induction false} FirstDecides(parameters: seq<string>)
    ensures Weighs(parameters, FirstQuality(parameters))
    decreases |parameters|
  {
    if parameters != [] {
      var p, rest := parameters[0], parameters[1..];
      WeightIs(p);
      if IsWeight(p) {
        QualityIsRead(T.TrimSpace(p[T.IndexOf(p, '=') + 1..]));
        assert FirstWeight(parameters, 0, T.TrimSpace(p[T.IndexOf(p, '=') + 1..]));
      } else {
        FirstDecides(rest);
        WeighsLater(parameters, FirstQuality(rest));
      }
    }
  }

  lemma WeighsLater(parameters: seq<string>, quality: Option<nat>)
    requires parameters != [] && !IsWeight(parameters[0]) && Weighs(parameters[1..], quality)
    ensures Weighs(parameters, quality)
  {
    var rest := parameters[1..];
    forall k | 0 <= k < |rest| ensures parameters[k + 1] == rest[k] {
    }
    if exists k :: 0 <= k < |rest| && IsWeight(rest[k]) {
      var k: nat, value: string :| FirstWeight(rest, k, value) && Says(value, quality);
      FirstLater(parameters, k, value);
      assert IsWeight(parameters[k + 1]);
    } else {
      forall k | 0 <= k < |parameters| ensures !IsWeight(parameters[k]) {
        assert k > 0 ==> parameters[k] == rest[k - 1];
      }
    }
  }

  lemma FirstLater(parameters: seq<string>, k: nat, value: string)
    requires parameters != [] && !IsWeight(parameters[0]) && FirstWeight(parameters[1..], k, value)
    ensures FirstWeight(parameters, k + 1, value)
  {
    var rest := parameters[1..];
    assert parameters[k + 1] == rest[k];
    forall j | 0 <= j < k + 1 ensures !IsWeight(parameters[j]) {
      assert j > 0 ==> parameters[j] == rest[j - 1];
    }
  }

  /** Every entry is read as the range and the weight that it says. */
  lemma EntryIsRead(entry: string)
    ensures Reads(entry, RangeOf(entry), QualityOf(entry))
  {
    var parts := T.Split(entry, ';');
    T.SplitJoin(entry, ';');
    PartsAre(entry);
    SpaceTrims(parts[0]);
    ToLowerLowers(T.TrimSpace(parts[0]));
    FirstDecides(parts[1..]);
    ReadsFrom(entry, parts, T.TrimSpace(parts[0]), RangeOf(entry), QualityOf(entry));
  }

  /** The range of an entry comes from its first part, and its weight from the others. */
  lemma PartsAre(entry: string)
    ensures var parts := T.Split(entry, ';');
            RangeOf(entry) == T.ToLower(T.TrimSpace(parts[0])) && QualityOf(entry) == FirstQuality(parts[1..])
  {
    var parts, i := T.Split(entry, ';'), T.IndexOf(entry, ';');
    if i < |entry| {
      assert parts[0] == entry[..i] && parts[1..] == T.Split(entry[i + 1..], ';');
    } else {
      assert parts[0] == entry && entry[..i] == entry && parts[1..] == [];
    }
  }

  lemma ReadsFrom(entry: string, parts: seq<string>, written: string, range: string, quality: Option<nat>)
    requires Parted(entry, parts) && Trimmed(parts[0], written) && Lowered(written, range)
    requires Weighs(parts[1..], quality)
    ensures Reads(entry, range, quality)
  {
  }

  lemma {:induction false} PartsOf(range: string, rest: string)
    requires ';' !in range
    ensures T.IndexOf(range + ";" + rest, ';') == |range|
  {
    var entry := range + ";" + rest;
    forall k | 0 <= k < |range| ensures entry[k] != ';' {
      assert entry[k] == range[k] && range[k] in range;
    }
    assert entry[|range|] == ';';
  }

  lemma OnePart(s: string)
    requires ';' !in s
    ensures T.IndexOf(s, ';') == |s| && T.Split(s, ';') == [s]
  {
    var i := T.IndexOf(s, ';');
    assert forall k :: 0 <= k < |s| ==> s[k] in s;
  }

  /** An entry with a weight and no other parameter is read as it is written; one without parameters has full weight. */
  lemma EntryReadBack(range: string, text: string)
    requires ';' !in range && ';' !in text
    ensures RangeOf(range + ";" + ("q=" + text)) == T.ToLower(T.TrimSpace(range))
    ensures QualityOf(range + ";" + ("q=" + text)) == Thousandths(T.TrimSpace(text))
    ensures RangeOf(range) == T.ToLower(T.TrimSpace(range)) && QualityOf(range) == Some(1000)
  {
    var parameter := "q=" + text;
    var entry := range + ";" + parameter;
    PartsOf(range, parameter);
    OnePart(parameter);
    OnePart(range);
    assert entry[..|range|] == range && entry[|range| + 1..] == parameter && range[..|range|] == range;
    assert parameter == "q" + "=" + text;
    FirstEquals(parameter, "q", text);
    assert parameter[..1] == "q" && parameter[2..] == text;
    assert T.TrimSpace("q") == "q";
    assert [parameter][0] == parameter;
  }

  // ----- Headers -----

  /** The entry names a range, and its weight is well-formed. */
  predicate Counts(entry: string) {
    RangeOf(entry) != "" && QualityOf(entry).Some?
  }

  predicate ReadAs(entry: string, p: Preference) {
    p.range == RangeOf(entry) && Some(p.quality) == QualityOf(entry)
  }

  /** The preferences are the entries that count, in order, each as it is read. */
  ghost predicate PreferencesOf(entries: seq<string>, preferences: seq<Preference>, picks: seq<nat>) {
    Selected(entries, preferences, e => Counts(e), (e, p) => ReadAs(e, p), picks)
  }

  lemma {:induction false} PreferencesAreRead(entries: seq<string>) returns (picks: seq<nat>)
    ensures PreferencesOf(entries, Preferences(entries), picks)
  {
    picks := [];
    if entries != [] {
      var n := |entries| - 1;
      picks := PreferencesAreRead(entries[..n]);
      assert entries == entries[..n] + [entries[n]];
      if Counts(entries[n]) {
        SelectNext(entries[..n], Preferences(entries[..n]), e => Counts(e), (e, p) => ReadAs(e, p), picks, entries[n],
                   Preference(QualityOf(entries[n]).value, RangeOf(entries[n])));
        picks := picks + [n];
      } else {
        SkipNext(entries[..n], Preferences(entries[..n]), e => Counts(e), (e, p) => ReadAs(e, p), picks, entries[n]);
      }
    }
  }
}

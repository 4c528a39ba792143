/**
 What normalisation leaves of each list: exactly the items that an Agent knows by the schemas of the
 protocol, and no list at all when there are none.
 */
module NormalizationSurvivors {
  import opened Wrappers
  import opened Sequences
  import opened Json
  import opened Normalization
  import opened NormalizationStability
  import opened Vocabulary

  // ----- Survivors -----

  /** The positions of the survivors, in rising order: those of all the items that are known. */
  ghost predicate Picks(before: seq<Json>, after: seq<Json>, clauses: set<Clause>, picks: seq<nat>) {
    Selected(before, after, (x: Json) => Recognised(x, clauses), (x: Json, y: Json) => y == x, picks)
  }

  /** The known items of a list, each as often as before and in the same order. */
  ghost predicate KnownItems(before: seq<Json>, after: seq<Json>, clauses: set<Clause>) {
    exists picks :: Picks(before, after, clauses, picks)
  }

  /** A list after filtering: its known items, or no list when no item is known; anything but a list stays. */
  ghost predicate Survive(before: Option<Json>, after: Option<Json>, clauses: set<Clause>) {
    if before.None? || !before.value.Array? then after == before
    else if forall x :: x in before.value.items ==> !Recognised(x, clauses) then after == None
    else after.Some? && after.value.Array? && KnownItems(before.value.items, after.value.items, clauses)
  }

  // ----- Filtering by several rules -----

  /** Every rule keeps the item. */
  predicate KeptBy(rules: set<Rule>, item: Json) {
    forall rule :: rule in rules ==> Keeps(rule, item)
  }

  /** The rules keep exactly what the clauses know. */
  ghost predicate Agree(rules: set<Rule>, clauses: set<Clause>) {
    forall x: Json :: KeptBy(rules, x) <==> Recognised(x, clauses)
  }

  /** Filtering by several rules at once. */
  function KeepAll(items: seq<Json>, rules: set<Rule>): seq<Json> {
    if items == [] then []
    else
      var last := items[|items| - 1];
      KeepAll(items[..|items| - 1], rules) + if KeptBy(rules, last) then [last] else []
  }

  lemma {:induction false} KeepAllNone(items: seq<Json>)
    ensures KeepAll(items, {}) == items
  {
    if items != [] {
      KeepAllNone(items[..|items| - 1]);
    }
  }

  lemma KeepLast(items: seq<Json>, last: Json, rule: Rule)
    ensures Keep(items + [last], rule) == Keep(items, rule) + if Keeps(rule, last) then [last] else []
  {
    assert (items + [last])[..|items|] == items;
  }

  /** One filter after others filters by all their rules. */
  lemma {:induction false} KeepOneMore(items: seq<Json>, rules: set<Rule>, rule: Rule)
    ensures Keep(KeepAll(items, rules), rule) == KeepAll(items, rules + {rule})
  {
    if items != [] {
      var n := |items| - 1;
      var last := items[n];
      KeepOneMore(items[..n], rules, rule);
      KeepLast(KeepAll(items[..n], rules), last, rule);
      assert KeptBy(rules + {rule}, last) <==> KeptBy(rules, last) && Keeps(rule, last);
      if !KeptBy(rules, last) {
        assert KeepAll(items, rules) == KeepAll(items[..n], rules);
      }
    }
  }

  lemma PicksNext(before: seq<Json>, after: seq<Json>, clauses: set<Clause>, picks: seq<nat>, last: Json)
    requires Picks(before, after, clauses, picks)
    ensures if Recognised(last, clauses) then Picks(before + [last], after + [last], clauses, picks + [|before|])
            else Picks(before + [last], after, clauses, picks)
  {
    var known := (x: Json) => Recognised(x, clauses);
    var same := (x: Json, y: Json) => y == x;
    if Recognised(last, clauses) {
      SelectNext(before, after, known, same, picks, last, last);
    } else {
      SkipNext(before, after, known, same, picks, last);
    }
  }

  lemma {:induction false} KeepAllEmpty(items: seq<Json>, rules: set<Rule>, clauses: set<Clause>)
    requires Agree(rules, clauses)
    ensures KeepAll(items, rules) == [] <==> forall x :: x in items ==> !Recognised(x, clauses)
  {
    if items != [] {
      var n := |items| - 1;
      KeepAllEmpty(items[..n], rules, clauses);
      assert items == items[..n] + [items[n]];
    }
  }

  lemma KeepAllLast(items: seq<Json>, last: Json, rules: set<Rule>)
    ensures KeepAll(items + [last], rules) == KeepAll(items, rules) + if KeptBy(rules, last) then [last] else []
  {
    assert (items + [last])[..|items|] == items;
  }

  lemma {:induction false} KeepAllPicks(items: seq<Json>, rules: set<Rule>, clauses: set<Clause>)
    returns (picks: seq<nat>)
    requires Agree(rules, clauses)
    ensures Picks(items, KeepAll(items, rules), clauses, picks)
  {
    picks := [];
    if items != [] {
      var n := |items| - 1;
      var before, last := items[..n], items[n];
      assert items == before + [last];
      picks := KeepAllPicks(before, rules, clauses);
      PicksNext(before, KeepAll(before, rules), clauses, picks, last);
      KeepAllLast(before, last, rules);
      if KeptBy(rules, last) {
        picks := picks + [n];
      } else {
        assert KeepAll(before, rules) + [] == KeepAll(before, rules);
      }
    }
  }

  /** A list filtered by several rules, and deleted when nothing is left. */
  function Filtered(before: Option<Json>, rules: set<Rule>): Option<Json> {
    if before.None? || !before.value.Array? then before
    else if KeepAll(before.value.items, rules) == [] then None
    else Some(Array(KeepAll(before.value.items, rules)))
  }

  lemma FilteredOnce(before: Option<Json>, rule: Rule)
    ensures FilterList(before, rule) == Filtered(before, {rule})
  {
    if before.Some? && before.value.Array? {
      KeepAllNone(before.value.items);
      KeepOneMore(before.value.items, {}, rule);
      assert {} + {rule} == {rule};
    }
  }

  lemma FilteredAgain(before: Option<Json>, rules: set<Rule>, rule: Rule)
    ensures FilterList(Filtered(before, rules), rule) == Filtered(before, rules + {rule})
  {
    if before.Some? && before.value.Array? {
      KeepOneMore(before.value.items, rules, rule);
    }
  }

  lemma FilteredSurvives(before: Option<Json>, rules: set<Rule>, clauses: set<Clause>)
    requires Agree(rules, clauses)
    ensures Survive(before, Filtered(before, rules), clauses)
  {
    if before.Some? && before.value.Array? {
      KeepAllEmpty(before.value.items, rules, clauses);
      var picks := KeepAllPicks(before.value.items, rules, clauses);
    }
  }

  lemma KeptItems(items: seq<Json>, rule: Rule, clauses: set<Clause>)
    requires Agree({rule}, clauses)
    ensures KnownItems(items, Keep(items, rule), clauses)
    ensures Keep(items, rule) == [] <==> forall x :: x in items ==> !Recognised(x, clauses)
  {
    KeepAllNone(items);
    KeepOneMore(items, {}, rule);
    assert {} + {rule} == {rule};
    KeepAllEmpty(items, {rule}, clauses);
    var picks := KeepAllPicks(items, {rule}, clauses);
  }

  lemma ListSurvives(before: Option<Json>, rule: Rule, clauses: set<Clause>)
    requires Agree({rule}, clauses)
    ensures Survive(before, FilterList(before, rule), clauses)
  {
    FilteredOnce(before, rule);
    FilteredSurvives(before, {rule}, clauses);
  }

  // ----- The lists of a document -----

  lemma OperationsSurvive(before: Option<Json>)
    ensures Survive(before, ServiceMemberOf("operations", before), OPERATION_CLAUSES)
  {
    FilteredOnce(before, OPERATIONS);
    FilteredAgain(before, {OPERATIONS}, KnownAuthentication);
    FilteredAgain(before, {OPERATIONS} + {KnownAuthentication}, OPERATION_KEYS);
    var rules := {OPERATIONS} + {KnownAuthentication} + {OPERATION_KEYS};
    forall x: Json ensures KeptBy(rules, x) <==> Recognised(x, OPERATION_CLAUSES) {
      KeepsOperation(x);
    }
    FilteredSurvives(before, rules, OPERATION_CLAUSES);
  }

  /** An operation survives exactly when its name is known, its authentication is, and it has no other member. */
  lemma OperationsExact(d: Members)
    ensures Survive(Get(d, "operations"), Get(Normalize(d, ServiceDocument), "operations"), OPERATION_CLAUSES)
  {
    ServiceMember(d, "operations");
    OperationsSurvive(Get(d, "operations"));
  }

  lemma McpSurvive(before: Option<Json>)
    ensures Survive(before, ServiceMemberOf("mcp", before), MCP_CLAUSES)
  {
    FilteredOnce(before, MCP);
    FilteredAgain(before, {MCP}, MCP_KEYS);
    var rules := {MCP} + {MCP_KEYS};
    forall x: Json ensures KeptBy(rules, x) <==> Recognised(x, MCP_CLAUSES) {
      KeepsMcp(x);
    }
    FilteredSurvives(before, rules, MCP_CLAUSES);
  }

  /** An MCP endpoint survives exactly when its type is known and it has no other member. */
  lemma McpExact(d: Members)
    ensures Survive(Get(d, "mcp"), Get(Normalize(d, ServiceDocument), "mcp"), MCP_CLAUSES)
  {
    ServiceMember(d, "mcp");
    McpSurvive(Get(d, "mcp"));
  }

  lemma ActionsAgree()
    ensures Agree({UsableAction}, ACTION_CLAUSES)
  {
    forall x: Json ensures KeptBy({UsableAction}, x) <==> Recognised(x, ACTION_CLAUSES) {
      KeepsAction(x);
    }
  }

  /** An Action survives exactly when every member that an Agent relies on is one it knows. */
  lemma ActionsExact(d: Members)
    ensures Survive(Get(d, "actions"), Get(Normalize(d, Offering), "actions"), ACTION_CLAUSES)
  {
    ResourceMember(d, true, "actions");
    ActionsAgree();
    ListSurvives(Get(d, "actions"), UsableAction, ACTION_CLAUSES);
  }

  /** The known items of a page or a problem stay, and their list even when it is empty. */
  ghost predicate ItemsSurvive(before: Option<Json>, after: Option<Json>, clauses: set<Clause>) {
    if before.None? || !before.value.Array? then after == before
    else after.Some? && after.value.Array? && KnownItems(before.value.items, after.value.items, clauses)
  }

  lemma OnePass(d: Members, pass: Pass)
    ensures Run([pass], d) == Put(d, pass.member, Apply(pass.transform, Get(d, pass.member)))
  {
    assert [pass][..0] == [];
  }

  lemma ItemsAreKept(before: Option<Json>, rule: Rule, clauses: set<Clause>)
    requires Agree({rule}, clauses)
    ensures ItemsSurvive(before, FilterItems(before, rule), clauses)
  {
    if before.Some? && before.value.Array? {
      KeptItems(before.value.items, rule, clauses);
    }
  }

  lemma PageItems(d: Members, member: string, rule: Rule, clauses: set<Clause>)
    requires Agree({rule}, clauses)
    ensures ItemsSurvive(Get(d, member), Get(Run([Pass(member, Items(rule))], d), member), clauses)
    ensures forall m :: m != member ==> Get(Run([Pass(member, Items(rule))], d), m) == Get(d, m)
  {
    OnePass(d, Pass(member, Items(rule)));
    ItemsAreKept(Get(d, member), rule, clauses);
  }

  lemma DefinitionsAgree()
    ensures Agree({KnownFilter}, FILTER_CLAUSES) && Agree({KnownSort}, SORT_CLAUSES)
  {
    forall x: Json
      ensures KeptBy({KnownFilter}, x) <==> Recognised(x, FILTER_CLAUSES)
      ensures KeptBy({KnownSort}, x) <==> Recognised(x, SORT_CLAUSES)
    {
      KeepsFilter(x);
      KeepsSort(x);
    }
  }

  lemma ParametersAgree()
    ensures Agree({PROBLEM_LOCATIONS}, PARAMETER_CLAUSES)
  {
    forall x: Json ensures KeptBy({PROBLEM_LOCATIONS}, x) <==> Recognised(x, PARAMETER_CLAUSES) {
      KeepsParameter(x);
    }
  }

  /** Pages of filters and sorts, and problem documents, lose exactly the items that are not known. */
  lemma PagesExact(d: Members)
    ensures ItemsSurvive(Get(d, "items"), Get(Normalize(d, FilterPage), "items"), FILTER_CLAUSES)
    ensures ItemsSurvive(Get(d, "items"), Get(Normalize(d, SortPage), "items"), SORT_CLAUSES)
    ensures ItemsSurvive(Get(d, "invalid_params"), Get(Normalize(d, Problem), "invalid_params"), PARAMETER_CLAUSES)
    ensures forall m :: m != "items" ==>
              Get(Normalize(d, FilterPage), m) == Get(d, m) && Get(Normalize(d, SortPage), m) == Get(d, m)
    ensures forall m :: m != "invalid_params" ==> Get(Normalize(d, Problem), m) == Get(d, m)
  {
    DefinitionsAgree();
    ParametersAgree();
    PageItems(d, "items", KnownFilter, FILTER_CLAUSES);
    PageItems(d, "items", KnownSort, SORT_CLAUSES);
    PageItems(d, "invalid_params", PROBLEM_LOCATIONS, PARAMETER_CLAUSES);
  }

  /** Members that no helper names are never touched. */
  lemma OtherMembersUntouched(d: Members, m: string)
    ensures m !in {"protocols", "operations", "mcp", "branding", "search_capabilities"} ==>
              Get(Normalize(d, ServiceDocument), m) == Get(d, m)
    ensures m !in {"images", "search_capabilities"} ==> Get(Normalize(d, Collection), m) == Get(d, m)
    ensures m !in {"images", "search_capabilities", "schema", "price", "actions"} ==>
              Get(Normalize(d, Offering), m) == Get(d, m)
  {
    ServiceMember(d, m);
    ResourceMember(d, false, m);
    ResourceMember(d, true, m);
  }
}

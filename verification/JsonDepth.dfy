/** The explicit-stack nesting measure of internal/jsonvalue/depth.go. */
module JsonDepth {
  import opened Json

  /** `c` is an element or the value of a member of `j`. */
  ghost predicate Child(j: Json, c: Json) {
    match j
    case Array(items) => c in items
    case Object(m) => exists k :: k in m && m[k] == c
    case _ => false
  }

  /** Some chain of `n` nested values starts at `j`; a value on its own is a chain of one. */
  ghost predicate Nests(j: Json, n: nat)
    decreases n
  {
    n == 1 || (n > 1 && exists c :: Child(j, c) && Nests(c, n - 1))
  }

  /** The nesting depth of a value: the longest chain of nested values in it. */
  ghost predicate IsDepth(j: Json, depth: nat) {
    Nests(j, depth) && forall n: nat :: Nests(j, n) ==> n <= depth
  }

  // ----- Termination: the number of values -----

  ghost function Size(j: Json): (n: nat)
    ensures n > 0
    decreases j, 1
  {
    match j
    case Array(items) => 1 + ItemsSize(items)
    case Object(m) => 1 + MembersSize(j, m.Keys)
    case _ => 1
  }

  ghost function ItemsSize(items: seq<Json>): nat
    decreases items, 0
  {
    if items == [] then 0 else ItemsSize(items[..|items| - 1]) + Size(items[|items| - 1])
  }

  ghost function MembersSize(j: Json, keys: set<string>): nat
    requires j.Object? && keys <= j.members.Keys
    decreases j, 0, keys
  {
    if keys == {} then 0
    else
      var k :| k in keys;
      Size(j.members[k]) + MembersSize(j, keys - {k})
  }

  /** Whichever member is visited first, its size and that of the others add up. */
  lemma {:induction false} MembersSizeAny(j: Json, keys: set<string>, k: string)
    requires j.Object? && keys <= j.members.Keys && k in keys
    ensures MembersSize(j, keys) == Size(j.members[k]) + MembersSize(j, keys - {k})
    decreases keys
  {
    var first :| first in keys && MembersSize(j, keys) == Size(j.members[first]) + MembersSize(j, keys - {first});
    if first != k {
      MembersSizeAny(j, keys - {first}, k);
      MembersSizeAny(j, keys - {k}, first);
      assert keys - {first} - {k} == keys - {k} - {first};
    }
  }

  // ----- The loop -----

  datatype Entry = Entry(depth: nat, value: Json)

  ghost function PendingSize(pending: seq<Entry>): nat {
    if pending == [] then 0 else PendingSize(pending[..|pending| - 1]) + Size(pending[|pending| - 1].value)
  }

  /** `n` is reached by a chain of the pending values, counted from the whole document. */
  ghost predicate Reaches(pending: seq<Entry>, n: nat) {
    exists i: nat, m: nat :: i < |pending| && Nests(pending[i].value, m) && n == pending[i].depth + m - 1
  }

  /** What is left to do decides the depth, together with the maximum so far. */
  ghost predicate Covers(root: Json, pending: seq<Entry>, maximum: nat) {
    && Nests(root, maximum)
    && (forall n: nat :: Nests(root, n) ==> n <= maximum || Reaches(pending, n))
    && (forall i :: 0 <= i < |pending| ==> Below(root, pending[i]))
  }

  /** The entry's value lies `depth - 1` levels below the root. */
  ghost predicate Below(root: Json, e: Entry) {
    e.depth > 0 && forall m: nat :: m > 0 && Nests(e.value, m) ==> Nests(root, e.depth + m - 1)
  }

  /** `children` has one entry for each child of the entry `e`, in any order. */
  ghost predicate ChildrenOf(e: Entry, children: seq<Entry>) {
    && (forall c :: Child(e.value, c) ==> Entry(e.depth + 1, c) in children)
    && (forall x :: x in children ==> x.depth == e.depth + 1 && Child(e.value, x.value))
    && PendingSize(children) == Size(e.value) - 1
  }

  lemma PendingSnoc(pending: seq<Entry>, e: Entry)
    ensures PendingSize(pending + [e]) == PendingSize(pending) + Size(e.value)
  {
    assert (pending + [e])[..|pending|] == pending;
  }

  lemma {:induction false} PendingAppend(a: seq<Entry>, b: seq<Entry>)
    ensures PendingSize(a + b) == PendingSize(a) + PendingSize(b)
    decreases |b|
  {
    if b == [] {
      assert a + b == a;
    } else {
      PendingAppend(a, b[..|b| - 1]);
      assert (a + b)[..|a + b| - 1] == a + b[..|b| - 1];
    }
  }

  /** The elements of an array, in order. */
  method PushItems(e: Entry) returns (children: seq<Entry>)
    requires e.value.Array?
    ensures ChildrenOf(e, children)
  {
    var items := e.value.items;
    children := [];
    for i := 0 to |items|
      invariant |children| == i && forall k :: 0 <= k < i ==> children[k] == Entry(e.depth + 1, items[k])
      invariant PendingSize(children) == ItemsSize(items[..i])
    {
      PendingSnoc(children, Entry(e.depth + 1, items[i]));
      assert items[..i + 1][..i] == items[..i];
      children := children + [Entry(e.depth + 1, items[i])];
    }
    assert items[..|items|] == items;
    forall c | Child(e.value, c) ensures Entry(e.depth + 1, c) in children {
      var k :| 0 <= k < |items| && items[k] == c;
      assert children[k] == Entry(e.depth + 1, c);
    }
  }

  /** The members other than `keys` have been pushed. */
  ghost predicate MembersPushed(e: Entry, keys: set<string>, children: seq<Entry>)
    requires e.value.Object?
  {
    && (forall k :: k in e.value.members && k !in keys ==> Entry(e.depth + 1, e.value.members[k]) in children)
    && (forall x :: x in children ==> x.depth == e.depth + 1 && Child(e.value, x.value))
  }

  lemma NextPushed(e: Entry, keys: set<string>, children: seq<Entry>, k: string)
    requires e.value.Object? && k in keys && k in e.value.members && MembersPushed(e, keys, children)
    ensures MembersPushed(e, keys - {k}, children + [Entry(e.depth + 1, e.value.members[k])])
  {
    var x := Entry(e.depth + 1, e.value.members[k]);
    assert (children + [x])[|children|] == x;
    assert Child(e.value, x.value);
  }

  /** The members of an object, in whatever order the map yields them. */
  method PushMembers(e: Entry) returns (children: seq<Entry>)
    requires e.value.Object?
    ensures ChildrenOf(e, children)
  {
    var members := e.value.members;
    var keys := members.Keys;
    children := [];
    while keys != {}
      invariant keys <= members.Keys
      invariant MembersPushed(e, keys, children)
      invariant PendingSize(children) == MembersSize(e.value, members.Keys) - MembersSize(e.value, keys)
      decreases keys
    {
      var k :| k in keys;
      PendingSnoc(children, Entry(e.depth + 1, members[k]));
      MembersSizeAny(e.value, keys, k);
      NextPushed(e, keys, children, k);
      children := children + [Entry(e.depth + 1, members[k])];
      keys := keys - {k};
    }
  }

  lemma PushedBelow(root: Json, e: Entry, x: Entry)
    requires Below(root, e) && x.depth == e.depth + 1 && Child(e.value, x.value)
    ensures Below(root, x)
  {
    forall m: nat | m > 0 && Nests(x.value, m) ensures Nests(root, x.depth + m - 1) {
      assert Nests(e.value, m + 1);
    }
  }

  lemma VisitReaches(rest: seq<Entry>, e: Entry, children: seq<Entry>, n: nat)
    requires ChildrenOf(e, children)
    requires Reaches(rest + [e], n) && n > e.depth
    ensures Reaches(rest + children, n)
  {
    var i: nat, m: nat :| i < |rest + [e]| && Nests((rest + [e])[i].value, m) && n == (rest + [e])[i].depth + m - 1;
    if i < |rest| {
      assert Nests((rest + children)[i].value, m);
    } else {
      var c :| Child(e.value, c) && Nests(c, m - 1);
      assert Entry(e.depth + 1, c) in children;
      var j :| 0 <= j < |children| && children[j] == Entry(e.depth + 1, c);
      assert Nests((rest + children)[|rest| + j].value, m - 1);
    }
  }

  /** One visit: the last pending entry gives way to its children. */
  lemma Visit(root: Json, pending: seq<Entry>, children: seq<Entry>, maximum: nat)
    requires pending != [] && Covers(root, pending, maximum) && ChildrenOf(pending[|pending| - 1], children)
    ensures Covers(root, pending[..|pending| - 1] + children, Larger(maximum, pending[|pending| - 1].depth))
    ensures PendingSize(pending[..|pending| - 1] + children) < PendingSize(pending)
  {
    var rest, e := pending[..|pending| - 1], pending[|pending| - 1];
    assert pending == rest + [e];
    VisitCovers(root, rest, e, children, maximum);
    PendingSnoc(rest, e);
    PendingAppend(rest, children);
  }

  lemma VisitCovers(root: Json, rest: seq<Entry>, e: Entry, children: seq<Entry>, maximum: nat)
    requires Covers(root, rest + [e], maximum) && ChildrenOf(e, children)
    ensures Covers(root, rest + children, Larger(maximum, e.depth))
  {
    assert (rest + [e])[|rest|] == e;
    assert Nests(e.value, 1);
    forall n: nat | Nests(root, n) && n > maximum && n > e.depth ensures Reaches(rest + children, n) {
      VisitReaches(rest, e, children, n);
    }
    forall i | 0 <= i < |rest + children| ensures Below(root, (rest + children)[i]) {
      if i < |rest| {
        assert (rest + children)[i] == (rest + [e])[i];
      } else {
        assert (rest + children)[i] in children;
        PushedBelow(root, e, (rest + children)[i]);
      }
    }
  }

  function Larger(a: nat, b: nat): nat {
    if a >= b then a else b
  }

  lemma RootCovered(root: Json)
    ensures Covers(root, [Entry(1, root)], 1)
  {
    forall n: nat | Nests(root, n) ensures Reaches([Entry(1, root)], n) {
      assert Nests([Entry(1, root)][0].value, n);
    }
  }

  lemma NothingPending(root: Json, pending: seq<Entry>, maximum: nat)
    requires |pending| == 0 && Covers(root, pending, maximum)
    ensures IsDepth(root, maximum)
  {
  }

  /** The children of an entry; a value that is neither an array nor an object has none. */
  method Push(e: Entry) returns (children: seq<Entry>)
    ensures ChildrenOf(e, children)
  {
    match e.value {
      case Array(_) => children := PushItems(e);
      case Object(_) => children := PushMembers(e);
      case _ => children := [];
    }
  }

  /** The loop of the source: it ends, and computes the nesting depth in whatever order members come. */
  method Depth(root: Json) returns (maximum: nat)
    ensures IsDepth(root, maximum)
  {
    maximum := 1;
    var pending := [Entry(1, root)];
    RootCovered(root);
    while |pending| != 0
      invariant Covers(root, pending, maximum)
      decreases PendingSize(pending)
    {
      var current := pending[|pending| - 1];
      var children := Push(current);
      Visit(root, pending, children, maximum);
      pending := pending[..|pending| - 1] + children;
      maximum := Larger(maximum, current.depth);
    }
    NothingPending(root, pending, maximum);
  }

  /** The depth is one more than that of the deepest child, and one for a value without children. */
  lemma DepthIsRecursive(j: Json, depth: nat)
    requires IsDepth(j, depth)
    ensures depth == 1 <==> forall c :: !Child(j, c)
    ensures forall c, d: nat :: Child(j, c) && IsDepth(c, d) ==> d < depth
    ensures depth > 1 ==> exists c :: Child(j, c) && IsDepth(c, depth - 1)
  {
    forall c, d: nat | Child(j, c) && IsDepth(c, d) ensures d < depth {
      assert Nests(j, d + 1);
    }
    forall c | Child(j, c) ensures depth > 1 {
      assert Nests(c, 1) && Nests(j, 2);
    }
    if depth > 1 {
      var c :| Child(j, c) && Nests(c, depth - 1);
      forall n: nat | Nests(c, n) ensures n <= depth - 1 {
        assert Nests(j, n + 1);
      }
      assert IsDepth(c, depth - 1);
    }
  }

  /** Being the one element of an array, or the value of the one member of an object, adds one level. */
  lemma WrappingAddsOne(j: Json, depth: nat, name: string)
    requires IsDepth(j, depth)
    ensures IsDepth(Array([j]), depth + 1) && IsDepth(Object(map[name := j]), depth + 1)
  {
    var a, o := Array([j]), Object(map[name := j]);
    assert Child(a, j) && forall c :: Child(a, c) ==> c == j;
    assert o.members[name] == j && Child(o, j) && forall c :: Child(o, c) ==> c == j;
    forall n: nat | n > 1 ensures (Nests(a, n) <==> Nests(j, n - 1)) && (Nests(o, n) <==> Nests(j, n - 1)) {
    }
    assert depth > 0;
  }

  /** Strings, numbers, booleans, null and what is empty have depth one. */
  lemma FlatDepth(j: Json)
    requires !(j.Array? && j.items != []) && !(j.Object? && j.members != map[])
    ensures IsDepth(j, 1)
  {
    assert forall c :: !Child(j, c);
  }
}

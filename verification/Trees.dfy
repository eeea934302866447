/** Trees seen from outside, by the paths that lead into them: a predicate of all nodes, the
    number of nodes of a kind, and the normal form. */
module Trees {
  import opened Core
  import opened Model

  /** The children of a node, in order. */
  function Parts(v: Value): seq<Value> {
    match v
    case Dict(entries) => seq(|entries|, i requires 0 <= i < |entries| => entries[i].value)
    case List(items) => items
    case Tuple(items) => items
    case _ => []
  }

  /** The node that a path of child numbers leads to. */
  function At(v: Value, path: seq<nat>): Option<Value> {
    if path == [] then Some(v)
    else if path[0] < |Parts(v)| then At(Parts(v)[path[0]], path[1..])
    else None
  }

  lemma AtChild(v: Value, i: nat, path: seq<nat>)
    ensures At(v, [i] + path) == if i < |Parts(v)| then At(Parts(v)[i], path) else None
  {
    assert ([i] + path)[1..] == path;
  }

  // ----- every node -----

  predicate All(v: Value, p: Value -> bool)
    decreases v, 1
  {
    p(v) &&
    match v
    case Dict(entries) => AllEntries(entries, p)
    case List(items) => AllItems(items, p)
    case Tuple(items) => AllItems(items, p)
    case _ => true
  }

  predicate AllItems(items: seq<Value>, p: Value -> bool)
    decreases items, 0
  {
    items == [] || (AllItems(items[..|items| - 1], p) && All(items[|items| - 1], p))
  }

  predicate AllEntries(entries: seq<Entry>, p: Value -> bool)
    decreases entries, 0
  {
    entries == [] || (AllEntries(entries[..|entries| - 1], p) && All(entries[|entries| - 1].value, p))
  }

  lemma {:induction false} AllItemsEach(items: seq<Value>, p: Value -> bool)
    ensures AllItems(items, p) <==> forall i :: 0 <= i < |items| ==> All(items[i], p)
  {
    if items != [] {
      AllItemsEach(items[..|items| - 1], p);
    }
  }

  lemma {:induction false} AllEntriesEach(entries: seq<Entry>, p: Value -> bool)
    ensures AllEntries(entries, p) <==> forall i :: 0 <= i < |entries| ==> All(entries[i].value, p)
  {
    if entries != [] {
      AllEntriesEach(entries[..|entries| - 1], p);
    }
  }

  lemma AllParts(v: Value, p: Value -> bool)
    ensures All(v, p) <==> p(v) && forall i :: 0 <= i < |Parts(v)| ==> All(Parts(v)[i], p)
  {
    match v
    case Dict(entries) =>
      AllEntriesEach(entries, p);
      assert forall i :: 0 <= i < |entries| ==> Parts(v)[i] == entries[i].value;
    case List(items) =>
      AllItemsEach(items, p);
      assert Parts(v) == items;
    case Tuple(items) =>
      AllItemsEach(items, p);
      assert Parts(v) == items;
    case _ =>
  }

  lemma {:induction false} AllAt(v: Value, p: Value -> bool, path: seq<nat>)
    requires All(v, p) && At(v, path).Some?
    ensures p(At(v, path).value)
    decreases |path|
  {
    if path != [] {
      AllParts(v, p);
      AllAt(Parts(v)[path[0]], p, path[1..]);
    }
  }

  lemma {:induction false} ExceptionAt(v: Value, p: Value -> bool) returns (path: seq<nat>)
    requires !All(v, p)
    ensures At(v, path).Some? && !p(At(v, path).value)
    decreases v
  {
    path := [];
    if p(v) {
      AllParts(v, p);
      var i :| 0 <= i < |Parts(v)| && !All(Parts(v)[i], p);
      var rest := ExceptionAt(Parts(v)[i], p);
      path := [i] + rest;
      AtChild(v, i, rest);
    }
  }

  /** The recursion visits exactly the nodes that paths lead to. */
  lemma AllExactly(v: Value, p: Value -> bool)
    ensures All(v, p) <==> forall path: seq<nat> :: At(v, path).Some? ==> p(At(v, path).value)
  {
    if All(v, p) {
      forall path: seq<nat> | At(v, path).Some? ensures p(At(v, path).value) {
        AllAt(v, p, path);
      }
    } else {
      var path := ExceptionAt(v, p);
    }
  }

  lemma AllImplies(v: Value, p: Value -> bool, q: Value -> bool)
    requires All(v, p) && forall x :: p(x) ==> q(x)
    ensures All(v, q)
  {
    AllExactly(v, p);
    AllExactly(v, q);
  }

  lemma AllAlways(v: Value, q: Value -> bool)
    requires forall x :: q(x)
    ensures All(v, q)
  {
    AllExactly(v, q);
  }

  // ----- counting nodes -----

  /** The number of nodes that satisfy p. */
  function Count(v: Value, p: Value -> bool): nat
    decreases v, 1
  {
    (if p(v) then 1 else 0) +
    match v
    case Dict(entries) => CountEntries(entries, p)
    case List(items) => CountItems(items, p)
    case Tuple(items) => CountItems(items, p)
    case _ => 0
  }

  function CountItems(items: seq<Value>, p: Value -> bool): nat
    decreases items, 0
  {
    if items == [] then 0 else CountItems(items[..|items| - 1], p) + Count(items[|items| - 1], p)
  }

  function CountEntries(entries: seq<Entry>, p: Value -> bool): nat
    decreases entries, 0
  {
    if entries == [] then 0 else CountEntries(entries[..|entries| - 1], p) + Count(entries[|entries| - 1].value, p)
  }

  ghost predicate LeadsTo(v: Value, p: Value -> bool, path: seq<nat>) {
    At(v, path).Some? && p(At(v, path).value)
  }

  function Prefixed(i: nat, paths: set<seq<nat>>): (r: set<seq<nat>>)
    ensures forall q :: q in r <==> q != [] && q[0] == i && q[1..] in paths
  {
    var r := set q | q in paths :: [i] + q;
    assert forall q :: q in paths ==> ([i] + q)[1..] == q;
    assert forall q: seq<nat> :: q != [] && q[0] == i ==> q == [i] + q[1..];
    r
  }

  lemma {:induction false} PrefixedSize(i: nat, paths: set<seq<nat>>)
    ensures |Prefixed(i, paths)| == |paths|
  {
    if paths != {} {
      var q :| q in paths;
      PrefixedSize(i, paths - {q});
      assert ([i] + q)[1..] == q;
      assert Prefixed(i, paths) == Prefixed(i, paths - {q}) + {[i] + q};
    }
  }

  /** The paths below a node that lead into its first n children and to nodes with p. */
  ghost predicate Below(v: Value, p: Value -> bool, n: nat, paths: set<seq<nat>>) {
    forall q: seq<nat> :: q in paths <==> q != [] && q[0] < n && LeadsTo(v, p, q)
  }

  lemma OneMoreChild(v: Value, p: Value -> bool, n: nat, before: set<seq<nat>>, child: set<seq<nat>>)
    requires n < |Parts(v)| && Below(v, p, n, before)
    requires forall q: seq<nat> :: q in child <==> LeadsTo(Parts(v)[n], p, q)
    ensures Below(v, p, n + 1, before + Prefixed(n, child))
    ensures |before + Prefixed(n, child)| == |before| + |child|
  {
    PrefixedSize(n, child);
    assert before !! Prefixed(n, child);
  }

  lemma {:induction false} ItemsCounted(v: Value, items: seq<Value>, n: nat, p: Value -> bool)
      returns (paths: set<seq<nat>>)
    requires n <= |items| && Parts(v) == items
    ensures Below(v, p, n, paths) && |paths| == CountItems(items[..n], p)
    decreases items, n
  {
    paths := {};
    if n > 0 {
      var before := ItemsCounted(v, items, n - 1, p);
      var child := NodesCounted(items[n - 1], p);
      assert items[..n][..n - 1] == items[..n - 1];
      OneMoreChild(v, p, n - 1, before, child);
      paths := before + Prefixed(n - 1, child);
    }
  }

  lemma {:induction false} EntriesCounted(v: Value, entries: seq<Entry>, n: nat, p: Value -> bool)
      returns (paths: set<seq<nat>>)
    requires n <= |entries| == |Parts(v)| && forall i :: 0 <= i < |entries| ==> Parts(v)[i] == entries[i].value
    ensures Below(v, p, n, paths) && |paths| == CountEntries(entries[..n], p)
    decreases entries, n
  {
    paths := {};
    if n > 0 {
      var before := EntriesCounted(v, entries, n - 1, p);
      var child := NodesCounted(entries[n - 1].value, p);
      assert entries[..n][..n - 1] == entries[..n - 1];
      OneMoreChild(v, p, n - 1, before, child);
      paths := before + Prefixed(n - 1, child);
    }
  }

  /** Count is the number of paths. */
  lemma {:induction false} NodesCounted(v: Value, p: Value -> bool) returns (paths: set<seq<nat>>)
    ensures forall q: seq<nat> :: q in paths <==> LeadsTo(v, p, q)
    ensures |paths| == Count(v, p)
    decreases v
  {
    var below: set<seq<nat>> := {};
    match v {
      case Dict(entries) =>
        below := EntriesCounted(v, entries, |entries|, p);
        assert entries[..|entries|] == entries;
      case List(items) =>
        below := ItemsCounted(v, items, |items|, p);
        assert items[..|items|] == items;
      case Tuple(items) =>
        below := ItemsCounted(v, items, |items|, p);
        assert items[..|items|] == items;
      case _ =>
    }
    assert Below(v, p, |Parts(v)|, below);
    paths := below + if p(v) then {[]} else {};
    assert [] !in below;
  }

  /** Count is the number of paths to such nodes, whoever lists them. */
  lemma CountExactly(v: Value, p: Value -> bool, paths: set<seq<nat>>)
    requires forall q: seq<nat> :: q in paths <==> At(v, q).Some? && p(At(v, q).value)
    ensures |paths| == Count(v, p)
  {
    var found := NodesCounted(v, p);
    assert found == paths;
  }
}

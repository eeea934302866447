/** Pipelines that start from arrays alone: what a caller can check before the first encode is
    enough for a message to travel unchanged. */
module Pipelines {
  import opened Core
  import opened Format
  import opened Model
  import opened Trees
  import opened Blob
  import opened Manifest
  import opened Container
  import opened RoundTrip
  import opened Vineyard
  import opened Relay
  import opened Chain

  /** No blob references of the user's own, only plain arrays, and the arrays that go to the
      store are neither 0-d nor empty. */
  predicate Departs(v: Value, k: nat) {
    All(v, DepartNode(k))
  }

  function DepartNode(k: nat): Value -> bool {
    (v: Value) =>
      match v
      case Array(a) => PlainDType(a.dtype) && (|a.bytes| >= k ==> a.shape != [] && a.bytes != [])
      case Blob(_) => false
      case _ => true
  }

  /** The daemon gives a new nonempty object memory that no nonempty object has. */
  ghost predicate PlacesApart(d: Daemon) {
    forall objects: map<string, NdArray>, a: NdArray, i: string ::
      a.bytes != [] && i in objects && objects[i].bytes != [] ==> d.place(objects, a) != objects[i].addr
  }

  /** A store that has not resolved anything, over objects with memory of their own. */
  ghost predicate Blank(s: State) {
    s.resolved == map[] && OwnMemory(s.objects)
  }

  ghost predicate Grows(s: State, t: State) {
    forall i :: i in s.objects ==> i in t.objects && t.objects[i] == s.objects[i]
  }

  lemma WholeLater(s: State, t: State, refs: set<BlobRef>)
    requires Grows(s, t) && Whole(s.objects, refs)
    ensures Whole(t.objects, refs)
  {
  }

  lemma PutDeparts(rt: Runtime, d: Daemon, s: State, a: NdArray)
    requires Lawful(rt) && FreshIds(d) && PlacesApart(d) && Blank(s)
    requires Genuine(rt, a) && PlainDType(a.dtype) && a.dtype.itemsize > 0 && a.shape != [] && a.bytes != []
    ensures var (t, ref) := Put(d, s, a);
      Blank(t) && Grows(s, t) && Whole(t.objects, {ref}) && ValidRef(rt, ref)
  {
    PutObeysLaw(rt, d, s, a);
  }

  /** The walk succeeds, and all references it writes are whole. */
  lemma {:induction false} TreeDeparts(rt: Runtime, d: Daemon, v: Value, w: Walk<State>, k: nat)
    requires Lawful(rt) && FreshIds(d) && PlacesApart(d) && Blank(w.store)
    requires Proper(rt, v) && Clean(v) && Departs(v, k)
    ensures var (w', m) := ManifestTree(v, w, Threshold(rt, d, k));
      && m.Ok? && Blank(w'.store) && Grows(w.store, w'.store) && Whole(w'.store.objects, MessageRefs(rt, m.value))
    decreases v, 1
  {
    var p := Threshold(rt, d, k);
    match v
    case Array(a) => ArrayDeparts(rt, d, a, w, k);
    case Dict(entries) =>
      EntriesTravel(rt, d, entries, w, k);
      SentinelsAreSeen(entries, w, p);
    case List(items) => ItemsTravel(rt, d, items, w, k);
    case Tuple(items) => ItemsTravel(rt, d, items, w, k);
    case Leaf(_) =>
  }

  lemma ArrayDeparts(rt: Runtime, d: Daemon, a: NdArray, w: Walk<State>, k: nat)
    requires Lawful(rt) && FreshIds(d) && PlacesApart(d) && Blank(w.store)
    requires Genuine(rt, a) && a.dtype.itemsize > 0 && Departs(Array(a), k)
    ensures var (w', m) := ArrayStep(a, w, Threshold(rt, d, k));
      && m.Ok? && Blank(w'.store) && Grows(w.store, w'.store) && Whole(w'.store.objects, MessageRefs(rt, m.value))
  {
    if Externalizes(Threshold(rt, d, k), a) {
      PutDeparts(rt, d, w.store, a);
      RefsOfBlobJson(rt, Put(d, w.store, a).1);
    } else {
      RefsOfBinJson(rt, AlignUp(w.cursor, ARRAY_ALIGNMENT), a);
    }
  }

  lemma {:induction false} ItemsTravel(rt: Runtime, d: Daemon, items: seq<Value>, w: Walk<State>, k: nat)
    requires Lawful(rt) && FreshIds(d) && PlacesApart(d) && Blank(w.store)
    requires AllItems(items, ProperNode(rt)) && AllItems(items, CleanNode) && AllItems(items, DepartNode(k))
    ensures var (w', m) := ManifestItems(items, w, Threshold(rt, d, k));
      && m.Ok? && Blank(w'.store) && Grows(w.store, w'.store) && Whole(w'.store.objects, ItemRefs(rt, m.value))
    decreases items, 0
  {
    if items != [] {
      var p := Threshold(rt, d, k);
      var init, last := items[..|items| - 1], items[|items| - 1];
      ItemsTravel(rt, d, init, w, k);
      var (w1, js) := ManifestItems(init, w, p);
      TreeDeparts(rt, d, last, w1, k);
      var (w2, j) := ManifestTree(last, w1, p);
      WholeLater(w1.store, w2.store, ItemRefs(rt, js.value));
      assert (js.value + [j.value])[..|js.value|] == js.value;
    }
  }

  lemma {:induction false} EntriesTravel(rt: Runtime, d: Daemon, entries: seq<Entry>, w: Walk<State>, k: nat)
    requires Lawful(rt) && FreshIds(d) && PlacesApart(d) && Blank(w.store)
    requires AllEntries(entries, ProperNode(rt)) && AllEntries(entries, CleanNode) && AllEntries(entries, DepartNode(k))
    ensures var (w', m) := ManifestEntries(entries, w, Threshold(rt, d, k));
      && m.Ok? && Blank(w'.store) && Grows(w.store, w'.store) && Whole(w'.store.objects, EntryRefs(rt, m.value))
    decreases entries, 0
  {
    if entries != [] {
      var p := Threshold(rt, d, k);
      var init, e := entries[..|entries| - 1], entries[|entries| - 1];
      EntriesTravel(rt, d, init, w, k);
      var (w1, js) := ManifestEntries(init, w, p);
      TreeDeparts(rt, d, e.value, w1, k);
      var (w2, j) := ManifestTree(e.value, w1, p);
      WholeLater(w1.store, w2.store, EntryRefs(rt, js.value));
      assert (js.value + [JEntry(e.key, j.value)])[..|js.value|] == js.value;
    }
  }

  lemma DepartingNode(rt: Runtime, d: Daemon, v: Value, s: State, k: nat, storable: (State, NdArray) -> bool)
    requires Blank(s) && (v.Array? ==> Genuine(rt, v.a)) && CleanNode(v) && !v.Blob?
    requires v.Array? ==> PlainDType(v.a.dtype) && (|v.a.bytes| >= k ==> v.a.shape != [])
    requires forall t, a :: Faithful(rt, t, a) ==> storable(t, a)
    ensures StorableAt(Threshold(rt, d, k), s, storable, v)
  {
  }

  /** Departing trees are relayable, and the store takes their arrays over faithfully. */
  lemma DepartingTree(rt: Runtime, d: Daemon, v: Value, s: State, k: nat,
      objects: map<string, NdArray>)
    requires Blank(s) && Proper(rt, v) && Clean(v) && Departs(v, k)
    ensures Relayable(rt, objects, v) && Storable(v, Threshold(rt, d, k), s, (s, a) => Faithful(rt, s, a))
  {
    var storable := (s: State, a: NdArray) => Faithful(rt, s, a);
    var relay, store := RelayNode(rt, objects), StorableNode(Threshold(rt, d, k), s, storable);
    var proper, departs := ProperNode(rt), DepartNode(k);
    forall path: seq<nat> | At(v, path).Some? ensures relay(At(v, path).value) && store(At(v, path).value) {
      var x := At(v, path).value;
      AllAt(v, proper, path);
      AllAt(v, CleanNode, path);
      AllAt(v, departs, path);
      DepartingNode(rt, d, x, s, k, storable);
    }
    AllExactly(v, relay);
    AllExactly(v, store);
  }

  /** Both thresholds send the same arrays of the tree to the store. */
  predicate SplitsAlike(v: Value, k: nat, n: Option<nat>) {
    All(v, SplitNode(k, n))
  }

  function SplitNode(k: nat, n: Option<nat>): Value -> bool {
    (v: Value) => v.Array? ==> (|v.a.bytes| >= k <==> n.Some? && |v.a.bytes| >= n.value)
  }

  /** Then the second one suits the message that the first one makes. */
  lemma {:induction false} TreeSuits(rt: Runtime, d: Daemon, v: Value, w: Walk<State>, k: nat, n: Option<nat>)
    requires Lawful(rt) && w.store.resolved == map[] && Small(w.arrays, n)
    requires Clean(v) && Departs(v, k) && SplitsAlike(v, k, n) && ManifestTree(v, w, Threshold(rt, d, k)).1.Ok?
    ensures var (w', m) := ManifestTree(v, w, Threshold(rt, d, k));
      w'.store.resolved == map[] && Large(MessageRefs(rt, m.value), n) && Small(w'.arrays, n)
    decreases v, 1
  {
    var p := Threshold(rt, d, k);
    match v
    case Array(a) =>
      if Externalizes(p, a) {
        RefsOfBlobJson(rt, Put(d, w.store, a).1);
      } else {
        RefsOfBinJson(rt, AlignUp(w.cursor, ARRAY_ALIGNMENT), a);
      }
    case Dict(entries) =>
      SentinelsAreSeen(entries, w, p);
      EntriesSuit(rt, d, entries, w, k, n);
    case List(items) => ItemsSuit(rt, d, items, w, k, n);
    case Tuple(items) => ItemsSuit(rt, d, items, w, k, n);
    case Leaf(_) =>
  }

  lemma {:induction false} ItemsSuit(rt: Runtime, d: Daemon, items: seq<Value>, w: Walk<State>, k: nat, n: Option<nat>)
    requires Lawful(rt) && w.store.resolved == map[] && Small(w.arrays, n)
    requires AllItems(items, CleanNode) && AllItems(items, DepartNode(k)) && AllItems(items, SplitNode(k, n))
    requires ManifestItems(items, w, Threshold(rt, d, k)).1.Ok?
    ensures var (w', js) := ManifestItems(items, w, Threshold(rt, d, k));
      w'.store.resolved == map[] && Large(ItemRefs(rt, js.value), n) && Small(w'.arrays, n)
    decreases items, 0
  {
    if items != [] {
      var init, last := items[..|items| - 1], items[|items| - 1];
      ItemsSuit(rt, d, init, w, k, n);
      var (w1, js) := ManifestItems(init, w, Threshold(rt, d, k));
      TreeSuits(rt, d, last, w1, k, n);
      var j := ManifestTree(last, w1, Threshold(rt, d, k)).1.value;
      assert (js.value + [j])[..|js.value|] == js.value;
    }
  }

  lemma {:induction false} EntriesSuit(rt: Runtime, d: Daemon, entries: seq<Entry>, w: Walk<State>, k: nat,
      n: Option<nat>)
    requires Lawful(rt) && w.store.resolved == map[] && Small(w.arrays, n)
    requires AllEntries(entries, CleanNode) && AllEntries(entries, DepartNode(k))
    requires AllEntries(entries, SplitNode(k, n))
    requires ManifestEntries(entries, w, Threshold(rt, d, k)).1.Ok?
    ensures var (w', js) := ManifestEntries(entries, w, Threshold(rt, d, k));
      w'.store.resolved == map[] && Large(EntryRefs(rt, js.value), n) && Small(w'.arrays, n)
    decreases entries, 0
  {
    if entries != [] {
      var init, e := entries[..|entries| - 1], entries[|entries| - 1];
      EntriesSuit(rt, d, init, w, k, n);
      var (w1, js) := ManifestEntries(init, w, Threshold(rt, d, k));
      TreeSuits(rt, d, e.value, w1, k, n);
      var j := ManifestTree(e.value, w1, Threshold(rt, d, k)).1.value;
      assert (js.value + [JEntry(e.key, j)])[..|js.value|] == js.value;
    }
  }

  /** The conditions of chain stability follow from what a caller can check. */
  lemma DepartingMessagesTravel(rt: Runtime, d: Daemon, doc: Document, k: nat, first: State)
    requires Lawful(rt) && FreshIds(d) && PlacesApart(d) && Blank(first)
    requires Proper(rt, doc.tree) && Clean(doc.tree) && doc.tree.Dict? && Departs(doc.tree, k)
    ensures CanArrive(rt, d, doc, k, first) && RefsApart(rt, d, doc, k, first)
    ensures forall n :: SplitsAlike(doc.tree, k, n) ==> Suits(rt, d, doc, k, first, n)
  {
    var (w, m) := ManifestTree(doc.tree, Walk(0, [], first), Threshold(rt, d, k));
    TreeDeparts(rt, d, doc.tree, Walk(0, [], first), k);
    DepartingTree(rt, d, doc.tree, first, k, w.store.objects);
    WholeObjectsKeepApart(rt, w.store.objects, MessageRefs(rt, m.value));
    forall n | SplitsAlike(doc.tree, k, n) ensures Suits(rt, d, doc, k, first, n) {
      TreeSuits(rt, d, doc.tree, Walk(0, [], first), k, n);
    }
  }

  /** The arrays of a tree at or above the threshold. */
  function LargeArrays(v: Value, k: nat): nat {
    NewArrays(v, k, map[])
  }

  /** A pipeline in which every stage starts with an empty index and a threshold that sends the
      same arrays to the store: whatever tree of arrays enters it, the message never changes,
      each large array is put exactly once in total, and every stage reads the contents that
      went in. */
  lemma PipelineIsStable(rt: Runtime, d: Daemon, doc: Document, k: nat, first: State, b: seq<byte>, stages: seq<Stage>)
    requires Lawful(rt) && FreshIds(d) && PlacesApart(d) && Blank(first)
    requires Proper(rt, doc.tree) && Clean(doc.tree) && doc.tree.Dict? && Departs(doc.tree, k)
    requires Message(rt, d, doc, k, first, b)
    requires forall i :: 0 <= i < |stages| ==>
      stages[i].resolved == map[] && SplitsAlike(doc.tree, k, stages[i].minBytes)
    ensures var sent := AnalyzeModel(rt, doc, Threshold(rt, d, k), first).0;
      var (t, seen, out) := RunChain(rt, d, doc.schemaId, doc.schemaVersion, b, sent.objects, sent.puts, stages);
      && out == Ok(b) && t.objects == sent.objects && t.puts == first.puts + LargeArrays(doc.tree, k)
      && |seen| == |stages| && forall i :: 0 <= i < |seen| ==> Erase(seen[i]) == Erase(doc.tree)
  {
    DepartingMessagesTravel(rt, d, doc, k, first);
    ChainIsStable(rt, d, doc, k, first, b, stages);
    DepartingIsIdeal(rt, doc.tree, k, Denotation(rt, AnalyzeModel(rt, doc, Threshold(rt, d, k), first).0.objects));
  }

  /** Without references of the user's own the reference meaning is the normal form. */
  lemma {:induction false} DepartingIsIdeal(rt: Runtime, v: Value, k: nat, den: BlobRef -> Result<NdArray, Fault>)
    requires Departs(v, k)
    ensures Ideal(rt, v, Some(KIND), den) == Ok(Erase(v))
    decreases v, 1
  {
    match v
    case Dict(entries) => DepartingEntriesAreIdeal(rt, entries, k, den);
    case List(items) => DepartingItemsAreIdeal(rt, items, k, den);
    case Tuple(items) => DepartingItemsAreIdeal(rt, items, k, den);
    case _ =>
  }

  lemma {:induction false} DepartingItemsAreIdeal(rt: Runtime, items: seq<Value>, k: nat,
      den: BlobRef -> Result<NdArray, Fault>)
    requires AllItems(items, DepartNode(k))
    ensures IdealItems(rt, items, Some(KIND), den) == Ok(EraseItems(items))
    decreases items, 0
  {
    if items != [] {
      DepartingItemsAreIdeal(rt, items[..|items| - 1], k, den);
      DepartingIsIdeal(rt, items[|items| - 1], k, den);
    }
  }

  lemma {:induction false} DepartingEntriesAreIdeal(rt: Runtime, entries: seq<Entry>, k: nat,
      den: BlobRef -> Result<NdArray, Fault>)
    requires AllEntries(entries, DepartNode(k))
    ensures IdealEntries(rt, entries, Some(KIND), den) == Ok(EraseEntries(entries))
    decreases entries, 0
  {
    if entries != [] {
      DepartingEntriesAreIdeal(rt, entries[..|entries| - 1], k, den);
      DepartingIsIdeal(rt, entries[|entries| - 1].value, k, den);
    }
  }
}

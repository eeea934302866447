/** One stage of a pipeline: decoding a message with a VineyardStore and encoding the result
    with the same store renames the message's references according to the store's index. */
module Relay {
  import opened Core
  import opened Format
  import opened Model
  import opened Trees
  import opened Blob
  import opened Manifest
  import opened Restore
  import opened RoundTrip
  import opened Vineyard

  /** The key of the view that a resolvable reference denotes. */
  function RefKey(rt: Runtime, objects: map<string, NdArray>, r: BlobRef): Option<Key> {
    var a := ArrayAt(rt, objects, r);
    if a.Ok? then Some(KeyOf(a.value)) else None
  }

  /** The references that a decoder meets in a manifest. */
  function MessageRefs(rt: Runtime, j: Json): set<BlobRef>
    decreases j, 1
  {
    match j
    case Atom(_) => {}
    case JList(items) => ItemRefs(rt, items)
    case JDict(entries) =>
      if Only(entries, "$blob") then
        var r := BlobRefOf(rt, entries[0].value);
        if r.Ok? then {r.value} else {}
      else if IsArrayRef(entries) then {}
      else EntryRefs(rt, entries)
  }

  function ItemRefs(rt: Runtime, items: seq<Json>): set<BlobRef>
    decreases items, 0
  {
    if items == [] then {} else ItemRefs(rt, items[..|items| - 1]) + MessageRefs(rt, items[|items| - 1])
  }

  function EntryRefs(rt: Runtime, entries: seq<JEntry>): set<BlobRef>
    decreases entries, 0
  {
    if entries == [] then {}
    else EntryRefs(rt, entries[..|entries| - 1]) + MessageRefs(rt, entries[|entries| - 1].value)
  }

  /** No two references of the message resolve to views with the same key. */
  predicate KeysApart(rt: Runtime, objects: map<string, NdArray>, refs: set<BlobRef>) {
    forall r, q | r in refs && q in refs ::
      RefKey(rt, objects, r).Some? && RefKey(rt, objects, r) == RefKey(rt, objects, q) ==> r == q
  }

  /** That is: references whose views agree in address, size, dtype and shape are the same. */
  lemma KeysApartExactly(rt: Runtime, objects: map<string, NdArray>, refs: set<BlobRef>)
    ensures KeysApart(rt, objects, refs) <==>
      forall r, q | r in refs && q in refs ::
        var x, y := ArrayAt(rt, objects, r), ArrayAt(rt, objects, q);
        (&& x.Ok? && y.Ok? && x.value.addr == y.value.addr && |x.value.bytes| == |y.value.bytes|
         && x.value.dtype.name == y.value.dtype.name && x.value.shape == y.value.shape) ==> r == q
  {
    forall r, q | r in refs && q in refs
      ensures RefKey(rt, objects, r).Some? && RefKey(rt, objects, r) == RefKey(rt, objects, q) <==>
        var x, y := ArrayAt(rt, objects, r), ArrayAt(rt, objects, q);
        && x.Ok? && y.Ok? && x.value.addr == y.value.addr && |x.value.bytes| == |y.value.bytes|
        && x.value.dtype.name == y.value.dtype.name && x.value.shape == y.value.shape
    {
    }
  }

  /** Nonempty objects occupy memory of their own. */
  ghost predicate OwnMemory(objects: map<string, NdArray>) {
    forall i, j :: i in objects && j in objects && i != j && objects[i].bytes != [] && objects[j].bytes != [] ==>
      objects[i].addr != objects[j].addr
  }

  /** References as put_array makes them, each to the whole of a nonempty object. */
  ghost predicate Whole(objects: map<string, NdArray>, refs: set<BlobRef>) {
    forall r :: r in refs ==> r.objectId in objects && r == RefFor(r.objectId, objects[r.objectId]) && r.nbytes > 0
  }

  lemma WholeObjectsKeepApart(rt: Runtime, objects: map<string, NdArray>, refs: set<BlobRef>)
    requires OwnMemory(objects) && Whole(objects, refs)
    ensures KeysApart(rt, objects, refs)
  {
    forall r, q | r in refs && q in refs && RefKey(rt, objects, r).Some? &&
      RefKey(rt, objects, r) == RefKey(rt, objects, q)
      ensures r == q
    {
      assert objects[r.objectId].addr == objects[q.objectId].addr;
    }
  }

  /** The key k is registered, for a reference of the message that has this key. */
  predicate Owned(rt: Runtime, s: State, k: Key, refs: set<BlobRef>) {
    k in s.resolved && s.resolved[k] in refs && RefKey(rt, s.objects, s.resolved[k]) == Some(k)
  }

  /** Every resolvable reference of a manifest has its key registered. */
  predicate Registered(rt: Runtime, j: Json, s: State, refs: set<BlobRef>)
    decreases j, 1
  {
    match j
    case Atom(_) => true
    case JList(items) => ItemsRegistered(rt, items, s, refs)
    case JDict(entries) =>
      if Only(entries, "$blob") then
        var r := BlobRefOf(rt, entries[0].value);
        r.Ok? ==> RefKey(rt, s.objects, r.value).Some? && Owned(rt, s, RefKey(rt, s.objects, r.value).value, refs)
      else IsArrayRef(entries) || EntriesRegistered(rt, entries, s, refs)
  }

  predicate ItemsRegistered(rt: Runtime, items: seq<Json>, s: State, refs: set<BlobRef>)
    decreases items, 0
  {
    items == [] ||
    (ItemsRegistered(rt, items[..|items| - 1], s, refs) && Registered(rt, items[|items| - 1], s, refs))
  }

  predicate EntriesRegistered(rt: Runtime, entries: seq<JEntry>, s: State, refs: set<BlobRef>)
    decreases entries, 0
  {
    entries == [] ||
    (EntriesRegistered(rt, entries[..|entries| - 1], s, refs) && Registered(rt, entries[|entries| - 1].value, s, refs))
  }

  /** t serves the same objects and has kept every registration of the message. */
  ghost predicate Keeps(rt: Runtime, s: State, t: State, refs: set<BlobRef>) {
    && t.objects == s.objects && t.puts == s.puts
    && forall k :: Owned(rt, s, k, refs) ==> Owned(rt, t, k, refs)
  }

  lemma {:induction false} RegisteredLater(rt: Runtime, j: Json, s: State, t: State, refs: set<BlobRef>)
    requires Registered(rt, j, s, refs) && Keeps(rt, s, t, refs)
    ensures Registered(rt, j, t, refs)
    decreases j, 1
  {
    match j
    case Atom(_) =>
    case JList(items) => ItemsRegisteredLater(rt, items, s, t, refs);
    case JDict(entries) =>
      if !Only(entries, "$blob") && !IsArrayRef(entries) {
        EntriesRegisteredLater(rt, entries, s, t, refs);
      }
  }

  lemma {:induction false} ItemsRegisteredLater(rt: Runtime, items: seq<Json>, s: State, t: State, refs: set<BlobRef>)
    requires ItemsRegistered(rt, items, s, refs) && Keeps(rt, s, t, refs)
    ensures ItemsRegistered(rt, items, t, refs)
    decreases items, 0
  {
    if items != [] {
      ItemsRegisteredLater(rt, items[..|items| - 1], s, t, refs);
      RegisteredLater(rt, items[|items| - 1], s, t, refs);
    }
  }

  lemma {:induction false} EntriesRegisteredLater(rt: Runtime, entries: seq<JEntry>, s: State, t: State,
      refs: set<BlobRef>)
    requires EntriesRegistered(rt, entries, s, refs) && Keeps(rt, s, t, refs)
    ensures EntriesRegistered(rt, entries, t, refs)
    decreases entries, 0
  {
    if entries != [] {
      EntriesRegisteredLater(rt, entries[..|entries| - 1], s, t, refs);
      RegisteredLater(rt, entries[|entries| - 1].value, s, t, refs);
    }
  }

  /** A decode leaves every reference of the message registered. */
  lemma {:induction false} DecodeRegisters(rt: Runtime, d: Daemon, j: Json, src: Source, s: State, refs: set<BlobRef>)
    requires MessageRefs(rt, j) <= refs
    ensures var (t, r) := RestoreTree(rt, j, src, Some(Api(rt, d)), s);
      Keeps(rt, s, t, refs) && (r.Ok? ==> Registered(rt, j, t, refs))
    decreases j, 1
  {
    match j
    case Atom(_) =>
    case JList(items) => ItemsRegister(rt, d, items, src, s, refs);
    case JDict(entries) =>
      if Only(entries, "$blob") {
      } else if !IsArrayRef(entries) {
        EntriesRegister(rt, d, entries, src, s, refs);
      }
  }

  lemma {:induction false} ItemsRegister(rt: Runtime, d: Daemon, items: seq<Json>, src: Source, s: State,
      refs: set<BlobRef>)
    requires ItemRefs(rt, items) <= refs
    ensures var (t, r) := RestoreItems(rt, items, src, Some(Api(rt, d)), s);
      Keeps(rt, s, t, refs) && (r.Ok? ==> ItemsRegistered(rt, items, t, refs))
    decreases items, 0
  {
    if items != [] {
      var init, last := items[..|items| - 1], items[|items| - 1];
      ItemsRegister(rt, d, init, src, s, refs);
      var (s1, before) := RestoreItems(rt, init, src, Some(Api(rt, d)), s);
      if before.Ok? {
        DecodeRegisters(rt, d, last, src, s1, refs);
        ItemsRegisteredLater(rt, init, s1, RestoreTree(rt, last, src, Some(Api(rt, d)), s1).0, refs);
      }
    }
  }

  lemma {:induction false} EntriesRegister(rt: Runtime, d: Daemon, entries: seq<JEntry>, src: Source, s: State,
      refs: set<BlobRef>)
    requires EntryRefs(rt, entries) <= refs
    ensures var (t, r) := RestoreEntries(rt, entries, src, Some(Api(rt, d)), s);
      Keeps(rt, s, t, refs) && (r.Ok? ==> EntriesRegistered(rt, entries, t, refs))
    decreases entries, 0
  {
    if entries != [] {
      var init, last := entries[..|entries| - 1], entries[|entries| - 1].value;
      EntriesRegister(rt, d, init, src, s, refs);
      var (s1, before) := RestoreEntries(rt, init, src, Some(Api(rt, d)), s);
      if before.Ok? {
        DecodeRegisters(rt, d, last, src, s1, refs);
        EntriesRegisteredLater(rt, init, s1, RestoreTree(rt, last, src, Some(Api(rt, d)), s1).0, refs);
      }
    }
  }

  // ----- encoding what was decoded -----

  /** The store and threshold that a stage passes to encode; it may pass no threshold. */
  function StagePolicy(rt: Runtime, d: Daemon, n: Option<nat>): Policy<State> {
    Policy(Some(Api(rt, d)), if n.Some? then Some(n.value) else None)
  }

  function Threshold(rt: Runtime, d: Daemon, k: nat): Policy<State> {
    StagePolicy(rt, d, Some(k))
  }

  /** The array list up to addresses: all that the container bytes depend on. */
  function EraseArrays(arrays: seq<Placed>): (r: seq<Placed>)
    ensures |r| == |arrays|
    ensures forall i :: 0 <= i < |r| ==> r[i] == Placed(arrays[i].offset, Content(arrays[i].a))
  {
    seq(|arrays|, i requires 0 <= i < |arrays| => Placed(arrays[i].offset, Content(arrays[i].a)))
  }

  /** Two walks in step: same layout so far. */
  predicate InStep(x: Walk<State>, y: Walk<State>) {
    x.cursor == y.cursor && EraseArrays(x.arrays) == EraseArrays(y.arrays)
  }

  /** A stage with this threshold externalises what the references denote. */
  predicate Large(refs: set<BlobRef>, n: Option<nat>) {
    forall r | r in refs :: n.Some? && r.nbytes >= n.value
  }

  /** And it leaves these arrays inline. */
  predicate Small(arrays: seq<Placed>, n: Option<nat>) {
    forall i :: 0 <= i < |arrays| && n.Some? ==> |arrays[i].a.bytes| < n.value
  }

  // ----- what the index makes of a message -----

  /** The reference under which the view of a resolvable reference is put back. */
  function Renamed(rt: Runtime, t: State, r: BlobRef): BlobRef {
    var key := RefKey(rt, t.objects, r);
    if key.Some? && key.value in t.resolved then t.resolved[key.value] else r
  }

  /** The manifest with its references renamed. */
  function Relabel(rt: Runtime, t: State, j: Json): Json
    decreases j, 1
  {
    match j
    case Atom(_) => j
    case JList(items) => JList(RelabelItems(rt, t, items))
    case JDict(entries) =>
      if Only(entries, "$blob") then
        var r := BlobRefOf(rt, entries[0].value);
        if r.Err? || Renamed(rt, t, r.value) == r.value then j else BlobJson(Renamed(rt, t, r.value))
      else if IsArrayRef(entries) then j
      else JDict(RelabelEntries(rt, t, entries))
  }

  function RelabelItems(rt: Runtime, t: State, items: seq<Json>): (r: seq<Json>)
    ensures |r| == |items|
    decreases items, 0
  {
    if items == [] then [] else RelabelItems(rt, t, items[..|items| - 1]) + [Relabel(rt, t, items[|items| - 1])]
  }

  function RelabelEntries(rt: Runtime, t: State, entries: seq<JEntry>): (r: seq<JEntry>)
    ensures |r| == |entries| && forall i :: 0 <= i < |r| ==> r[i].key == entries[i].key
    decreases entries, 0
  {
    if entries == [] then []
    else
      var e := entries[|entries| - 1];
      RelabelEntries(rt, t, entries[..|entries| - 1]) + [JEntry(e.key, Relabel(rt, t, e.value))]
  }

  /** Renaming leaves a manifest as it is exactly if it leaves each of its references. */
  lemma {:induction false} RelabelsNothing(rt: Runtime, t: State, j: Json)
    requires Lawful(rt)
    ensures Relabel(rt, t, j) == j <==> forall r :: r in MessageRefs(rt, j) ==> Renamed(rt, t, r) == r
    decreases j, 1
  {
    match j
    case Atom(_) =>
    case JList(items) => RelabelsNoItem(rt, t, items);
    case JDict(entries) =>
      if Only(entries, "$blob") {
        BlobRelabel(rt, t, entries);
      } else if !IsArrayRef(entries) {
        RelabelsNoEntry(rt, t, entries);
      }
  }

  lemma BlobRelabel(rt: Runtime, t: State, entries: seq<JEntry>)
    requires Lawful(rt) && Only(entries, "$blob")
    ensures Relabel(rt, t, JDict(entries)) == JDict(entries) <==>
      forall r :: r in MessageRefs(rt, JDict(entries)) ==> Renamed(rt, t, r) == r
  {
    var r := BlobRefOf(rt, entries[0].value);
    if r.Ok? && Renamed(rt, t, r.value) != r.value {
      RefRoundTrip(rt, Renamed(rt, t, r.value));
    }
  }

  lemma {:induction false} RelabelsNoItem(rt: Runtime, t: State, items: seq<Json>)
    requires Lawful(rt)
    ensures RelabelItems(rt, t, items) == items <==> forall r :: r in ItemRefs(rt, items) ==> Renamed(rt, t, r) == r
    decreases items, 0
  {
    if items != [] {
      var init, last := items[..|items| - 1], items[|items| - 1];
      RelabelsNoItem(rt, t, init);
      RelabelsNothing(rt, t, last);
      SameEnds(RelabelItems(rt, t, init), Relabel(rt, t, last), init, last);
    }
  }

  lemma {:induction false} RelabelsNoEntry(rt: Runtime, t: State, entries: seq<JEntry>)
    requires Lawful(rt)
    ensures RelabelEntries(rt, t, entries) == entries <==>
      forall r :: r in EntryRefs(rt, entries) ==> Renamed(rt, t, r) == r
    decreases entries, 0
  {
    if entries != [] {
      var init, last := entries[..|entries| - 1], entries[|entries| - 1];
      RelabelsNoEntry(rt, t, init);
      RelabelsNothing(rt, t, last.value);
      SameEnds(RelabelEntries(rt, t, init), JEntry(last.key, Relabel(rt, t, last.value)), init, last);
    }
  }

  lemma {:induction false} RelabelIsWellFormed(rt: Runtime, t: State, j: Json)
    requires WellFormed(j)
    ensures WellFormed(Relabel(rt, t, j))
    decreases j, 1
  {
    match j
    case Atom(_) =>
    case JList(items) => RelabelledItems(rt, t, items);
    case JDict(entries) =>
      if Only(entries, "$blob") {
        var r := BlobRefOf(rt, entries[0].value);
        if r.Ok? {
          BlobIsWellFormed(Renamed(rt, t, r.value));
        }
      } else if !IsArrayRef(entries) {
        RelabelledEntries(rt, t, entries);
        assert KeysOf(RelabelEntries(rt, t, entries)) == KeysOf(entries);
      }
  }

  lemma BlobIsWellFormed(r: BlobRef)
    ensures WellFormed(BlobJson(r))
  {
    ManifestWellFormed(r);
  }

  lemma {:induction false} RelabelledItems(rt: Runtime, t: State, items: seq<Json>)
    requires forall x | x in items :: WellFormed(x)
    ensures forall x | x in RelabelItems(rt, t, items) :: WellFormed(x)
    decreases items, 0
  {
    if items != [] {
      RelabelledItems(rt, t, items[..|items| - 1]);
      RelabelIsWellFormed(rt, t, items[|items| - 1]);
    }
  }

  lemma {:induction false} RelabelledEntries(rt: Runtime, t: State, entries: seq<JEntry>)
    requires forall e | e in entries :: WellFormed(e.value)
    ensures forall e | e in RelabelEntries(rt, t, entries) :: WellFormed(e.value)
    decreases entries, 0
  {
    if entries != [] {
      RelabelledEntries(rt, t, entries[..|entries| - 1]);
      RelabelIsWellFormed(rt, t, entries[|entries| - 1].value);
    }
  }

  /** An index that knows all references of a message renames none of them exactly if no two
      of them share a key. */
  lemma RenamesNoneIfApart(rt: Runtime, t: State, j: Json)
    requires Registered(rt, j, t, MessageRefs(rt, j))
    ensures (forall r :: r in MessageRefs(rt, j) ==> Renamed(rt, t, r) == r) <==>
      KeysApart(rt, t.objects, MessageRefs(rt, j))
  {
    AllOwned(rt, j, t, MessageRefs(rt, j));
  }

  lemma {:induction false} AllOwned(rt: Runtime, j: Json, t: State, refs: set<BlobRef>)
    requires Registered(rt, j, t, refs)
    ensures forall r :: r in MessageRefs(rt, j) ==>
      RefKey(rt, t.objects, r).Some? && Owned(rt, t, RefKey(rt, t.objects, r).value, refs)
    decreases j, 1
  {
    match j
    case Atom(_) =>
    case JList(items) => AllItemsOwned(rt, items, t, refs);
    case JDict(entries) =>
      if !Only(entries, "$blob") && !IsArrayRef(entries) {
        AllEntriesOwned(rt, entries, t, refs);
      }
  }

  lemma {:induction false} AllItemsOwned(rt: Runtime, items: seq<Json>, t: State, refs: set<BlobRef>)
    requires ItemsRegistered(rt, items, t, refs)
    ensures forall r :: r in ItemRefs(rt, items) ==>
      RefKey(rt, t.objects, r).Some? && Owned(rt, t, RefKey(rt, t.objects, r).value, refs)
    decreases items, 0
  {
    if items != [] {
      AllItemsOwned(rt, items[..|items| - 1], t, refs);
      AllOwned(rt, items[|items| - 1], t, refs);
    }
  }

  lemma {:induction false} AllEntriesOwned(rt: Runtime, entries: seq<JEntry>, t: State, refs: set<BlobRef>)
    requires EntriesRegistered(rt, entries, t, refs)
    ensures forall r :: r in EntryRefs(rt, entries) ==>
      RefKey(rt, t.objects, r).Some? && Owned(rt, t, RefKey(rt, t.objects, r).value, refs)
    decreases entries, 0
  {
    if entries != [] {
      AllEntriesOwned(rt, entries[..|entries| - 1], t, refs);
      AllOwned(rt, entries[|entries| - 1].value, t, refs);
    }
  }

  // ----- encoding a decoded tree -----

  /** A resolved reference is put back under its name in the index, without a copy. */
  lemma RefReencodes(rt: Runtime, d: Daemon, r: BlobRef, n: Option<nat>, src: Source, s: State, t: State,
      refs: set<BlobRef>,
      x: Walk<State>)
    requires Lawful(rt) && s.objects == t.objects && Large(refs, n)
    requires MessageRefs(rt, BlobJson(r)) <= refs && Registered(rt, BlobJson(r), t, refs) && x.store == t
    requires RestoreTree(rt, BlobJson(r), src, Some(Api(rt, d)), s).1.Ok?
    ensures ManifestTree(RestoreTree(rt, BlobJson(r), src, Some(Api(rt, d)), s).1.value, x, StagePolicy(rt, d, n))
         == (x, Ok(Relabel(rt, t, BlobJson(r))))
  {
    RefRoundTrip(rt, r);
    var a := ArrayAt(rt, t.objects, r).value;
    assert RefKey(rt, t.objects, r) == Some(KeyOf(a));
    assert |a.bytes| == r.nbytes;
    assert PlainDType(a.dtype);
  }

  lemma SmallPrefix(some: seq<Placed>, all: seq<Placed>, n: Option<nat>)
    requires some <= all && Small(all, n)
    ensures Small(some, n)
  {
    forall i | 0 <= i < |some| && n.Some? ensures |some[i].a.bytes| < n.value {
      assert some[i] == all[i];
    }
  }

  /** What holds of the arrays of a list holds of those before its last item. */
  lemma ItemsFront<S>(items: seq<Value>, w: Walk<S>, p: Policy<S>, src: Source, n: Option<nat>)
    requires items != [] && ManifestItems(items, w, p).1.Ok? && Packed(w.arrays, w.cursor)
    requires Holds(src, ManifestItems(items, w, p).0.arrays) && Small(ManifestItems(items, w, p).0.arrays, n)
    ensures var w1 := ManifestItems(items[..|items| - 1], w, p).0;
      Packed(w1.arrays, w1.cursor) && Holds(src, w1.arrays) && Small(w1.arrays, n)
  {
    var init, last := items[..|items| - 1], items[|items| - 1];
    var w1 := ManifestItems(init, w, p).0;
    ItemsPack(init, w, p);
    WalkPacks(last, w1, p);
    HoldsPrefix(src, w1.arrays, ManifestItems(items, w, p).0.arrays);
    SmallPrefix(w1.arrays, ManifestItems(items, w, p).0.arrays, n);
  }

  lemma EntriesFront<S>(entries: seq<Entry>, w: Walk<S>, p: Policy<S>, src: Source, n: Option<nat>)
    requires entries != [] && ManifestEntries(entries, w, p).1.Ok? && Packed(w.arrays, w.cursor)
    requires Holds(src, ManifestEntries(entries, w, p).0.arrays) && Small(ManifestEntries(entries, w, p).0.arrays, n)
    ensures var w1 := ManifestEntries(entries[..|entries| - 1], w, p).0;
      Packed(w1.arrays, w1.cursor) && Holds(src, w1.arrays) && Small(w1.arrays, n)
  {
    var init, e := entries[..|entries| - 1], entries[|entries| - 1];
    var w1 := ManifestEntries(init, w, p).0;
    EntriesPack(init, w, p);
    WalkPacks(e.value, w1, p);
    HoldsPrefix(src, w1.arrays, ManifestEntries(entries, w, p).0.arrays);
    SmallPrefix(w1.arrays, ManifestEntries(entries, w, p).0.arrays, n);
  }

  ghost predicate ArrayRefIsFixed(rt: Runtime, j: Json) {
    forall t :: Relabel(rt, t, j) == j
  }

  lemma InlineReencodes(rt: Runtime, d: Daemon, a: NdArray, k: nat, n: Option<nat>, src: Source, s: State,
      w: Walk<State>, x: Walk<State>)
    requires Lawful(rt) && Genuine(rt, a) && PlainDType(a.dtype) && a.dtype.itemsize > 0
    requires !Externalizes(Threshold(rt, d, k), a) && Small(ArrayStep(a, w, Threshold(rt, d, k)).0.arrays, n)
    requires Holds(src, ArrayStep(a, w, Threshold(rt, d, k)).0.arrays)
    requires InStep(x, w)
    ensures var p := Threshold(rt, d, k); var (w', m) := ArrayStep(a, w, p);
      var r := RestoreTree(rt, m.value, src, p.store, s).1;
      && r.Ok?
      && var (x', m') := ManifestTree(r.value, x, StagePolicy(rt, d, n));
      m' == m && ArrayRefIsFixed(rt, m.value) && InStep(x', w') && x'.store == x.store
  {
    var w' := ArrayStep(a, w, Threshold(rt, d, k)).0;
    var placed := w'.arrays[|w.arrays|];
    assert HoldsPlaced(src, placed);
    RestoreInline(rt, placed.offset, a, src, Some(Api(rt, d)), s);
    var b := a.(addr := src.base + src.dataStart + placed.offset);
    assert EraseArrays(x.arrays + [Placed(placed.offset, b)]) ==
      EraseArrays(x.arrays) + [Placed(placed.offset, Content(b))];
    assert EraseArrays(w.arrays + [placed]) == EraseArrays(w.arrays) + [Placed(placed.offset, Content(a))];
    assert IsArrayRef(BinJson(placed.offset, a).entries);
  }

  lemma ArrayReencodes(
    rt: Runtime, d: Daemon, a: NdArray, w: Walk<State>, k: nat, n: Option<nat>, src: Source, s: State, t: State,
    refs: set<BlobRef>, x: Walk<State>)
    requires Lawful(rt) && Genuine(rt, a) && a.dtype.itemsize > 0 && Large(refs, n)
    requires ArrayStep(a, w, Threshold(rt, d, k)).1.Ok? && Small(ArrayStep(a, w, Threshold(rt, d, k)).0.arrays, n)
    requires Holds(src, ArrayStep(a, w, Threshold(rt, d, k)).0.arrays)
    requires s.objects == t.objects && InStep(x, w) && x.store == t
    requires var m := ArrayStep(a, w, Threshold(rt, d, k)).1.value;
      && MessageRefs(rt, m) <= refs && Registered(rt, m, t, refs)
      && RestoreTree(rt, m, src, Some(Api(rt, d)), s).1.Ok?
    ensures var p := Threshold(rt, d, k); var (w', m) := ArrayStep(a, w, p);
      var (x', m') := ManifestTree(RestoreTree(rt, m.value, src, p.store, s).1.value, x, StagePolicy(rt, d, n));
      m' == Ok(Relabel(rt, t, m.value)) && InStep(x', w') && x'.store == t
  {
    if Externalizes(Threshold(rt, d, k), a) {
      RefReencodes(rt, d, Put(d, w.store, a).1, n, src, s, t, refs, x);
    } else {
      InlineReencodes(rt, d, a, k, n, src, s, w, x);
    }
  }

  /** What a dictionary that is no sentinel hands on to its entries. */
  lemma DictFront(rt: Runtime, d: Daemon, entries: seq<Entry>, w: Walk<State>, k: nat, src: Source, s: State, t: State,
      refs: set<BlobRef>)
    requires !Sentinel(entries) && ManifestEntries(entries, w, Threshold(rt, d, k)).1.Ok?
    requires var m := ManifestTree(Dict(entries), w, Threshold(rt, d, k)).1.value;
      && MessageRefs(rt, m) <= refs && Registered(rt, m, t, refs)
      && RestoreTree(rt, m, src, Some(Api(rt, d)), s).1.Ok?
    ensures var js := ManifestEntries(entries, w, Threshold(rt, d, k)).1.value;
      && EntryRefs(rt, js) <= refs && EntriesRegistered(rt, js, t, refs)
      && RestoreEntries(rt, js, src, Some(Api(rt, d)), s).1.Ok?
  {
    SentinelsAreSeen(entries, w, Threshold(rt, d, k));
  }

  lemma DictReencodes(rt: Runtime, d: Daemon, entries: seq<Entry>, w: Walk<State>, k: nat, n: Option<nat>, src: Source,
      s: State, t: State, x: Walk<State>)
    requires !Sentinel(entries) && ManifestEntries(entries, w, Threshold(rt, d, k)).1.Ok?
    requires var js := ManifestEntries(entries, w, Threshold(rt, d, k)).1.value;
      RestoreEntries(rt, js, src, Some(Api(rt, d)), s).1.Ok?
    requires var p := Threshold(rt, d, k); var (w', js) := ManifestEntries(entries, w, p);
      var (x', js') := ManifestEntries(RestoreEntries(rt, js.value, src, p.store, s).1.value, x, StagePolicy(rt, d, n));
      js' == Ok(RelabelEntries(rt, t, js.value)) && InStep(x', w') && x'.store == t
    ensures var p := Threshold(rt, d, k); var (w', m) := ManifestTree(Dict(entries), w, p);
      var r := RestoreTree(rt, m.value, src, p.store, s).1;
      r.Ok? &&
      var (x', m') := ManifestTree(r.value, x, StagePolicy(rt, d, n));
      m' == Ok(Relabel(rt, t, m.value)) && InStep(x', w') && x'.store == t
  {
    SentinelsAreSeen(entries, w, Threshold(rt, d, k));
  }

  lemma ListFront(rt: Runtime, d: Daemon, v: Value, items: seq<Value>, w: Walk<State>, k: nat, src: Source, s: State,
      t: State, refs: set<BlobRef>)
    requires (v == List(items) || v == Tuple(items)) && ManifestItems(items, w, Threshold(rt, d, k)).1.Ok?
    requires var m := ManifestTree(v, w, Threshold(rt, d, k)).1.value;
      && MessageRefs(rt, m) <= refs && Registered(rt, m, t, refs)
      && RestoreTree(rt, m, src, Some(Api(rt, d)), s).1.Ok?
    ensures var js := ManifestItems(items, w, Threshold(rt, d, k)).1.value;
      && ItemRefs(rt, js) <= refs && ItemsRegistered(rt, js, t, refs)
      && RestoreItems(rt, js, src, Some(Api(rt, d)), s).1.Ok?
  {
  }

  lemma ListReencodes(rt: Runtime, d: Daemon, v: Value, items: seq<Value>, w: Walk<State>, k: nat, n: Option<nat>,
      src: Source, s: State, t: State, x: Walk<State>)
    requires (v == List(items) || v == Tuple(items)) && ManifestItems(items, w, Threshold(rt, d, k)).1.Ok?
    requires var js := ManifestItems(items, w, Threshold(rt, d, k)).1.value;
      RestoreItems(rt, js, src, Some(Api(rt, d)), s).1.Ok?
    requires var p := Threshold(rt, d, k); var (w', js) := ManifestItems(items, w, p);
      var (x', js') := ManifestItems(RestoreItems(rt, js.value, src, p.store, s).1.value, x, StagePolicy(rt, d, n));
      js' == Ok(RelabelItems(rt, t, js.value)) && InStep(x', w') && x'.store == t
    ensures var p := Threshold(rt, d, k); var (w', m) := ManifestTree(v, w, p);
      var r := RestoreTree(rt, m.value, src, p.store, s).1;
      r.Ok? &&
      var (x', m') := ManifestTree(r.value, x, StagePolicy(rt, d, n));
      m' == Ok(Relabel(rt, t, m.value)) && InStep(x', w') && x'.store == t
  {
  }

  /** Encoding what was decoded, with the same store: the manifest comes back with its
      references renamed by the index, in the same layout, and nothing is put. */
  lemma {:induction false} Reencodes(
    rt: Runtime, d: Daemon, v: Value, w: Walk<State>, k: nat, n: Option<nat>, src: Source, s: State, t: State,
    refs: set<BlobRef>, x: Walk<State>)
    requires Lawful(rt) && Proper(rt, v) && Clean(v) && Packed(w.arrays, w.cursor)
    requires ManifestTree(v, w, Threshold(rt, d, k)).1.Ok?
    requires Small(ManifestTree(v, w, Threshold(rt, d, k)).0.arrays, n)
    requires Holds(src, ManifestTree(v, w, Threshold(rt, d, k)).0.arrays)
    requires s.objects == t.objects && Large(refs, n)
    requires var m := ManifestTree(v, w, Threshold(rt, d, k)).1.value;
      && MessageRefs(rt, m) <= refs && Registered(rt, m, t, refs)
      && RestoreTree(rt, m, src, Some(Api(rt, d)), s).1.Ok?
    requires InStep(x, w) && x.store == t
    ensures var p := Threshold(rt, d, k); var (w', m) := ManifestTree(v, w, p);
      var (x', m') := ManifestTree(RestoreTree(rt, m.value, src, p.store, s).1.value, x, StagePolicy(rt, d, n));
      m' == Ok(Relabel(rt, t, m.value)) && InStep(x', w') && x'.store == t
    decreases v, 1
  {
    var p := Threshold(rt, d, k);
    match v
    case Array(a) => ArrayReencodes(rt, d, a, w, k, n, src, s, t, refs, x);
    case Blob(r) => RefReencodes(rt, d, r, n, src, s, t, refs, x);
    case Dict(entries) =>
      DictFront(rt, d, entries, w, k, src, s, t, refs);
      EntriesReencode(rt, d, entries, w, k, n, src, s, t, refs, x);
      DictReencodes(rt, d, entries, w, k, n, src, s, t, x);
    case List(items) =>
      ListFront(rt, d, v, items, w, k, src, s, t, refs);
      ItemsReencode(rt, d, items, w, k, n, src, s, t, refs, x);
      ListReencodes(rt, d, v, items, w, k, n, src, s, t, x);
    case Tuple(items) =>
      ListFront(rt, d, v, items, w, k, src, s, t, refs);
      ItemsReencode(rt, d, items, w, k, n, src, s, t, refs, x);
      ListReencodes(rt, d, v, items, w, k, n, src, s, t, x);
    case Leaf(_) =>
  }

  lemma {:induction false} ItemsReencode(
    rt: Runtime, d: Daemon, items: seq<Value>, w: Walk<State>, k: nat, n: Option<nat>, src: Source, s: State,
    t: State, refs: set<BlobRef>, x: Walk<State>)
    requires Lawful(rt) && AllItems(items, ProperNode(rt)) && AllItems(items, CleanNode) && Packed(w.arrays, w.cursor)
    requires ManifestItems(items, w, Threshold(rt, d, k)).1.Ok?
    requires Small(ManifestItems(items, w, Threshold(rt, d, k)).0.arrays, n)
    requires Holds(src, ManifestItems(items, w, Threshold(rt, d, k)).0.arrays)
    requires s.objects == t.objects && Large(refs, n)
    requires var js := ManifestItems(items, w, Threshold(rt, d, k)).1.value;
      && ItemRefs(rt, js) <= refs && ItemsRegistered(rt, js, t, refs)
      && RestoreItems(rt, js, src, Some(Api(rt, d)), s).1.Ok?
    requires InStep(x, w) && x.store == t
    ensures var p := Threshold(rt, d, k); var (w', js) := ManifestItems(items, w, p);
      var (x', js') := ManifestItems(RestoreItems(rt, js.value, src, p.store, s).1.value, x, StagePolicy(rt, d, n));
      js' == Ok(RelabelItems(rt, t, js.value)) && InStep(x', w') && x'.store == t
    decreases items, 0
  {
    if items != [] {
      var p, q := Threshold(rt, d, k), StagePolicy(rt, d, n);
      var init, last := items[..|items| - 1], items[|items| - 1];
      var w1 := ManifestItems(init, w, p).0;
      ItemsFront(items, w, p, src, n);
      var js := ManifestItems(items, w, p).1.value;
      assert js[..|js| - 1] == ManifestItems(init, w, p).1.value;
      ItemsReencode(rt, d, init, w, k, n, src, s, t, refs, x);
      var (s1, before) := RestoreItems(rt, js[..|js| - 1], src, p.store, s);
      ItemsKeepObjects(rt, d, js[..|js| - 1], src, s);
      var x1 := ManifestItems(before.value, x, q).0;
      Reencodes(rt, d, last, w1, k, n, src, s1, t, refs, x1);
      var tail := RestoreTree(rt, js[|js| - 1], src, p.store, s1).1.value;
      ManifestAppendItem(before.value, tail, x, q);
    }
  }

  lemma {:induction false} EntriesReencode(
    rt: Runtime, d: Daemon, entries: seq<Entry>, w: Walk<State>, k: nat, n: Option<nat>, src: Source, s: State,
    t: State, refs: set<BlobRef>, x: Walk<State>)
    requires Lawful(rt) && AllEntries(entries, ProperNode(rt)) && AllEntries(entries, CleanNode)
    requires Packed(w.arrays, w.cursor)
    requires ManifestEntries(entries, w, Threshold(rt, d, k)).1.Ok?
    requires Small(ManifestEntries(entries, w, Threshold(rt, d, k)).0.arrays, n)
    requires Holds(src, ManifestEntries(entries, w, Threshold(rt, d, k)).0.arrays)
    requires s.objects == t.objects && Large(refs, n)
    requires var js := ManifestEntries(entries, w, Threshold(rt, d, k)).1.value;
      && EntryRefs(rt, js) <= refs && EntriesRegistered(rt, js, t, refs)
      && RestoreEntries(rt, js, src, Some(Api(rt, d)), s).1.Ok?
    requires InStep(x, w) && x.store == t
    ensures var p := Threshold(rt, d, k); var (w', js) := ManifestEntries(entries, w, p);
      var (x', js') := ManifestEntries(RestoreEntries(rt, js.value, src, p.store, s).1.value, x, StagePolicy(rt, d, n));
      js' == Ok(RelabelEntries(rt, t, js.value)) && InStep(x', w') && x'.store == t
    decreases entries, 0
  {
    if entries != [] {
      var p, q := Threshold(rt, d, k), StagePolicy(rt, d, n);
      var init, e := entries[..|entries| - 1], entries[|entries| - 1];
      var w1 := ManifestEntries(init, w, p).0;
      EntriesFront(entries, w, p, src, n);
      var js := ManifestEntries(entries, w, p).1.value;
      assert js[..|js| - 1] == ManifestEntries(init, w, p).1.value;
      EntriesReencode(rt, d, init, w, k, n, src, s, t, refs, x);
      var (s1, before) := RestoreEntries(rt, js[..|js| - 1], src, p.store, s);
      EntriesKeepObjects(rt, d, js[..|js| - 1], src, s);
      var x1 := ManifestEntries(before.value, x, q).0;
      Reencodes(rt, d, e.value, w1, k, n, src, s1, t, refs, x1);
      var tail := RestoreTree(rt, js[|js| - 1].value, src, p.store, s1).1.value;
      ManifestAppendEntry(before.value, Entry(e.key, tail), x, q);
    }
  }

  lemma ManifestAppendItem<S>(items: seq<Value>, v: Value, w: Walk<S>, p: Policy<S>)
    requires ManifestItems(items, w, p).1.Ok?
    requires ManifestTree(v, ManifestItems(items, w, p).0, p).1.Ok?
    ensures var (w1, js) := ManifestItems(items, w, p); var (w2, j) := ManifestTree(v, w1, p);
      ManifestItems(items + [v], w, p) == (w2, Ok(js.value + [j.value]))
  {
    assert (items + [v])[..|items|] == items;
  }

  lemma ManifestAppendEntry<S>(entries: seq<Entry>, e: Entry, w: Walk<S>, p: Policy<S>)
    requires ManifestEntries(entries, w, p).1.Ok?
    requires ManifestTree(e.value, ManifestEntries(entries, w, p).0, p).1.Ok?
    ensures var (w1, js) := ManifestEntries(entries, w, p); var (w2, j) := ManifestTree(e.value, w1, p);
      ManifestEntries(entries + [e], w, p) == (w2, Ok(js.value + [JEntry(e.key, j.value)]))
  {
    assert (entries + [e])[..|entries|] == entries;
  }

  lemma {:induction false} TreeKeepsObjects(rt: Runtime, d: Daemon, j: Json, src: Source, s: State)
    ensures RestoreTree(rt, j, src, Some(Api(rt, d)), s).0.objects == s.objects
    decreases j, 1
  {
    match j
    case Atom(_) =>
    case JList(items) => ItemsKeepObjects(rt, d, items, src, s);
    case JDict(entries) =>
      if !Only(entries, "$blob") && !IsArrayRef(entries) {
        EntriesKeepObjects(rt, d, entries, src, s);
      }
  }

  lemma {:induction false} ItemsKeepObjects(rt: Runtime, d: Daemon, items: seq<Json>, src: Source, s: State)
    ensures RestoreItems(rt, items, src, Some(Api(rt, d)), s).0.objects == s.objects
    decreases items, 0
  {
    if items != [] {
      ItemsKeepObjects(rt, d, items[..|items| - 1], src, s);
      TreeKeepsObjects(rt, d, items[|items| - 1], src,
        RestoreItems(rt, items[..|items| - 1], src, Some(Api(rt, d)), s).0);
    }
  }

  lemma {:induction false} EntriesKeepObjects(rt: Runtime, d: Daemon, entries: seq<JEntry>, src: Source, s: State)
    ensures RestoreEntries(rt, entries, src, Some(Api(rt, d)), s).0.objects == s.objects
    decreases entries, 0
  {
    if entries != [] {
      EntriesKeepObjects(rt, d, entries[..|entries| - 1], src, s);
      TreeKeepsObjects(rt, d, entries[|entries| - 1].value, src,
        RestoreEntries(rt, entries[..|entries| - 1], src, Some(Api(rt, d)), s).0);
    }
  }

  // ----- which thresholds suit a message -----

  lemma RefsOfBlobJson(rt: Runtime, r: BlobRef)
    requires Lawful(rt)
    ensures MessageRefs(rt, BlobJson(r)) == if ValidRef(rt, r) then {r} else {}
  {
    RefRoundTrip(rt, r);
  }

  lemma RefsOfBinJson(rt: Runtime, offset: nat, a: NdArray)
    ensures MessageRefs(rt, BinJson(offset, a)) == {}
  {
    BinFieldsFound(offset, a);
    assert IsArrayRef(BinJson(offset, a).entries);
  }

  /** A decoded tree is proper: distinct keys, and payloads that fit their shapes. */
  lemma {:induction false} RestoredIsProper(rt: Runtime, d: Daemon, j: Json, src: Source, s: State)
    requires Lawful(rt) && WellFormed(j) && RestoreTree(rt, j, src, Some(Api(rt, d)), s).1.Ok?
    ensures Proper(rt, RestoreTree(rt, j, src, Some(Api(rt, d)), s).1.value)
    decreases j, 1
  {
    match j
    case Atom(_) =>
    case JList(items) => RestoredItemsAreProper(rt, d, items, src, s);
    case JDict(entries) =>
      if !Only(entries, "$blob") && !IsArrayRef(entries) {
        RestoredEntriesAreProper(rt, d, entries, src, s);
        var r := RestoreEntries(rt, entries, src, Some(Api(rt, d)), s).1.value;
        assert EntryKeys(r) == KeysOf(entries);
      }
  }

  lemma {:induction false} RestoredItemsAreProper(rt: Runtime, d: Daemon, items: seq<Json>, src: Source, s: State)
    requires Lawful(rt) && (forall x | x in items :: WellFormed(x))
    requires RestoreItems(rt, items, src, Some(Api(rt, d)), s).1.Ok?
    ensures AllItems(RestoreItems(rt, items, src, Some(Api(rt, d)), s).1.value, ProperNode(rt))
    decreases items, 0
  {
    if items != [] {
      var init, last := items[..|items| - 1], items[|items| - 1];
      RestoredItemsAreProper(rt, d, init, src, s);
      var (s1, before) := RestoreItems(rt, init, src, Some(Api(rt, d)), s);
      RestoredIsProper(rt, d, last, src, s1);
      var r := RestoreItems(rt, items, src, Some(Api(rt, d)), s).1.value;
      assert r[..|r| - 1] == before.value;
    }
  }

  lemma {:induction false} RestoredEntriesAreProper(rt: Runtime, d: Daemon, entries: seq<JEntry>, src: Source, s: State)
    requires Lawful(rt) && (forall e | e in entries :: WellFormed(e.value))
    requires RestoreEntries(rt, entries, src, Some(Api(rt, d)), s).1.Ok?
    ensures var r := RestoreEntries(rt, entries, src, Some(Api(rt, d)), s).1.value;
      AllEntries(r, ProperNode(rt)) && |r| == |entries| && forall i :: 0 <= i < |r| ==> r[i].key == entries[i].key
    decreases entries, 0
  {
    if entries != [] {
      var init, last := entries[..|entries| - 1], entries[|entries| - 1];
      RestoredEntriesAreProper(rt, d, init, src, s);
      var (s1, before) := RestoreEntries(rt, init, src, Some(Api(rt, d)), s);
      RestoredIsProper(rt, d, last.value, src, s1);
      var r := RestoreEntries(rt, entries, src, Some(Api(rt, d)), s).1.value;
      assert r[..|r| - 1] == before.value;
    }
  }

  /** A reference comes back as a reference only at or below its size. */
  lemma RefNeedsThreshold(rt: Runtime, d: Daemon, r: BlobRef, n: Option<nat>, src: Source, s: State, x: Walk<State>)
    requires Lawful(rt) && RestoreTree(rt, BlobJson(r), src, Some(Api(rt, d)), s).1.Ok?
    requires ManifestTree(RestoreTree(rt, BlobJson(r), src, Some(Api(rt, d)), s).1.value, x, StagePolicy(rt, d, n)).1
          == Ok(BlobJson(r))
    ensures Large(MessageRefs(rt, BlobJson(r)), n)
  {
    RefRoundTrip(rt, r);
    RefsOfBlobJson(rt, r);
    var a := ArrayAt(rt, s.objects, r).value;
    assert |a.bytes| == r.nbytes;
    DifferentMarks(AlignUp(x.cursor, ARRAY_ALIGNMENT), a, r);
    assert Externalizes(StagePolicy(rt, d, n), a);
  }

  lemma DifferentMarks(offset: nat, a: NdArray, r: BlobRef)
    ensures BinJson(offset, a) != BlobJson(r)
  {
    assert BinJson(offset, a).entries[0].key != BlobJson(r).entries[0].key;
  }

  lemma InlineNeedsThreshold(rt: Runtime, d: Daemon, a: NdArray, k: nat, n: Option<nat>, src: Source, s: State,
      w: Walk<State>, x: Walk<State>)
    requires Lawful(rt) && Genuine(rt, a) && PlainDType(a.dtype) && a.dtype.itemsize > 0
    requires !Externalizes(Threshold(rt, d, k), a) && Small(w.arrays, n)
    requires Holds(src, ArrayStep(a, w, Threshold(rt, d, k)).0.arrays)
    requires var m := ArrayStep(a, w, Threshold(rt, d, k)).1.value;
      var r := RestoreTree(rt, m, src, Some(Api(rt, d)), s).1;
      r.Ok? && ManifestTree(r.value, x, StagePolicy(rt, d, n)).1 == Ok(m)
    ensures Small(ArrayStep(a, w, Threshold(rt, d, k)).0.arrays, n)
  {
    var w' := ArrayStep(a, w, Threshold(rt, d, k)).0;
    var placed := w'.arrays[|w.arrays|];
    assert HoldsPlaced(src, placed);
    RestoreInline(rt, placed.offset, a, src, Some(Api(rt, d)), s);
    var b := a.(addr := src.base + src.dataStart + placed.offset);
    if Externalizes(StagePolicy(rt, d, n), b) {
      DifferentMarks(placed.offset, a, Put(d, x.store, b).1);
    }
    assert forall i :: 0 <= i < |w.arrays| ==> w'.arrays[i] == w.arrays[i];
  }

  /** If encoding what was decoded gives the message's manifest again, the stage's threshold
      externalises what the message refers to and leaves the message's arrays inline. */
  lemma {:induction false} OnlySuitingReproduces(
    rt: Runtime, d: Daemon, v: Value, w: Walk<State>, k: nat, n: Option<nat>, src: Source, s: State, x: Walk<State>)
    requires Lawful(rt) && Proper(rt, v) && Clean(v) && Packed(w.arrays, w.cursor) && Small(w.arrays, n)
    requires ManifestTree(v, w, Threshold(rt, d, k)).1.Ok?
    requires Holds(src, ManifestTree(v, w, Threshold(rt, d, k)).0.arrays)
    requires var m := ManifestTree(v, w, Threshold(rt, d, k)).1.value;
      var r := RestoreTree(rt, m, src, Some(Api(rt, d)), s).1;
      r.Ok? && ManifestTree(r.value, x, StagePolicy(rt, d, n)).1 == Ok(m)
    ensures var (w', m) := ManifestTree(v, w, Threshold(rt, d, k));
      Large(MessageRefs(rt, m.value), n) && Small(w'.arrays, n)
    decreases v, 1
  {
    var p := Threshold(rt, d, k);
    match v
    case Array(a) =>
      if Externalizes(p, a) {
        RefNeedsThreshold(rt, d, Put(d, w.store, a).1, n, src, s, x);
      } else {
        InlineNeedsThreshold(rt, d, a, k, n, src, s, w, x);
        RefsOfBinJson(rt, AlignUp(w.cursor, ARRAY_ALIGNMENT), a);
      }
    case Blob(r) => RefNeedsThreshold(rt, d, r, n, src, s, x);
    case Dict(entries) =>
      SentinelsAreSeen(entries, w, p);
      OnlySuitingReproducesEntries(rt, d, entries, w, k, n, src, s, x);
    case List(items) => OnlySuitingReproducesItems(rt, d, items, w, k, n, src, s, x);
    case Tuple(items) => OnlySuitingReproducesItems(rt, d, items, w, k, n, src, s, x);
    case Leaf(_) =>
  }

  lemma {:induction false} OnlySuitingReproducesItems(
    rt: Runtime, d: Daemon, items: seq<Value>, w: Walk<State>, k: nat, n: Option<nat>, src: Source, s: State,
    x: Walk<State>)
    requires Lawful(rt) && AllItems(items, ProperNode(rt)) && AllItems(items, CleanNode) && Packed(w.arrays, w.cursor)
    requires Small(w.arrays, n) && ManifestItems(items, w, Threshold(rt, d, k)).1.Ok?
    requires Holds(src, ManifestItems(items, w, Threshold(rt, d, k)).0.arrays)
    requires var js := ManifestItems(items, w, Threshold(rt, d, k)).1.value;
      var r := RestoreItems(rt, js, src, Some(Api(rt, d)), s).1;
      r.Ok? && ManifestItems(r.value, x, StagePolicy(rt, d, n)).1 == Ok(js)
    ensures var (w', js) := ManifestItems(items, w, Threshold(rt, d, k));
      Large(ItemRefs(rt, js.value), n) && Small(w'.arrays, n)
    decreases items, 0
  {
    if items != [] {
      var p, q := Threshold(rt, d, k), StagePolicy(rt, d, n);
      var init, last := items[..|items| - 1], items[|items| - 1];
      var (w1, js1) := ManifestItems(init, w, p);
      ItemsPack(init, w, p);
      WalkPacks(last, w1, p);
      HoldsPrefix(src, w1.arrays, ManifestItems(items, w, p).0.arrays);
      var j := ManifestTree(last, w1, p).1.value;
      var (s1, before) := RestoreItems(rt, js1.value, src, p.store, s);
      assert (js1.value + [j])[..|js1.value|] == js1.value;
      var tail := RestoreTree(rt, j, src, p.store, s1).1.value;
      var x1 := SplitManifestItems(before.value, tail, x, q, js1.value, j);
      OnlySuitingReproducesItems(rt, d, init, w, k, n, src, s, x);
      OnlySuitingReproduces(rt, d, last, w1, k, n, src, s1, x1);
    }
  }

  lemma {:induction false} OnlySuitingReproducesEntries(
    rt: Runtime, d: Daemon, entries: seq<Entry>, w: Walk<State>, k: nat, n: Option<nat>, src: Source, s: State,
    x: Walk<State>)
    requires Lawful(rt) && AllEntries(entries, ProperNode(rt)) && AllEntries(entries, CleanNode)
    requires Packed(w.arrays, w.cursor)
    requires Small(w.arrays, n) && ManifestEntries(entries, w, Threshold(rt, d, k)).1.Ok?
    requires Holds(src, ManifestEntries(entries, w, Threshold(rt, d, k)).0.arrays)
    requires var js := ManifestEntries(entries, w, Threshold(rt, d, k)).1.value;
      var r := RestoreEntries(rt, js, src, Some(Api(rt, d)), s).1;
      r.Ok? && ManifestEntries(r.value, x, StagePolicy(rt, d, n)).1 == Ok(js)
    ensures var (w', js) := ManifestEntries(entries, w, Threshold(rt, d, k));
      Large(EntryRefs(rt, js.value), n) && Small(w'.arrays, n)
    decreases entries, 0
  {
    if entries != [] {
      var p, q := Threshold(rt, d, k), StagePolicy(rt, d, n);
      var init, e := entries[..|entries| - 1], entries[|entries| - 1];
      var (w1, js1) := ManifestEntries(init, w, p);
      EntriesPack(init, w, p);
      WalkPacks(e.value, w1, p);
      HoldsPrefix(src, w1.arrays, ManifestEntries(entries, w, p).0.arrays);
      var j := ManifestTree(e.value, w1, p).1.value;
      var (s1, before) := RestoreEntries(rt, js1.value, src, p.store, s);
      assert (js1.value + [JEntry(e.key, j)])[..|js1.value|] == js1.value;
      var tail := RestoreTree(rt, j, src, p.store, s1).1.value;
      var x1 := SplitManifestEntries(before.value, Entry(e.key, tail), x, q, js1.value, JEntry(e.key, j));
      OnlySuitingReproducesEntries(rt, d, init, w, k, n, src, s, x);
      OnlySuitingReproduces(rt, d, e.value, w1, k, n, src, s1, x1);
    }
  }

  lemma SplitManifestItems<S>(items: seq<Value>, v: Value, w: Walk<S>, p: Policy<S>, js: seq<Json>, j: Json)
    returns (w1: Walk<S>)
    requires ManifestItems(items + [v], w, p).1 == Ok(js + [j])
    ensures ManifestItems(items, w, p) == (w1, Ok(js)) && ManifestTree(v, w1, p).1 == Ok(j)
  {
    assert (items + [v])[..|items|] == items;
    w1 := ManifestItems(items, w, p).0;
    SameEnds(ManifestItems(items, w, p).1.value, ManifestTree(v, w1, p).1.value, js, j);
  }

  lemma SplitManifestEntries<S>(entries: seq<Entry>, e: Entry, w: Walk<S>, p: Policy<S>, js: seq<JEntry>, j: JEntry)
    returns (w1: Walk<S>)
    requires ManifestEntries(entries + [e], w, p).1 == Ok(js + [j])
    ensures ManifestEntries(entries, w, p) == (w1, Ok(js)) && ManifestTree(e.value, w1, p).1 == Ok(j.value)
  {
    assert (entries + [e])[..|entries|] == entries;
    w1 := ManifestEntries(entries, w, p).0;
    SameEnds(ManifestEntries(entries, w, p).1.value, JEntry(e.key, ManifestTree(e.value, w1, p).1.value), js, j);
  }
}

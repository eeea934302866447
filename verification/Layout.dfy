/** The layout of any encoded tree: manifest references and array list agree, and the arrays
    lie aligned, in order and apart (src/npb/_codec.py, _manifest_tree and _analyze_model). */
module Layout {
  import opened Core
  import opened Format
  import opened Model
  import opened Trees
  import opened Manifest
  import opened Container
  import opened Restore
  import opened RoundTrip

  /** The array references that a decoder finds in a manifest, in traversal order. */
  function ArrayRefs(j: Json): seq<Json>
    decreases j, 1
  {
    match j
    case Atom(_) => []
    case JList(items) => ItemRefs(items)
    case JDict(entries) =>
      if Only(entries, "$blob") then []
      else if IsArrayRef(entries) then [j]
      else EntryRefs(entries)
  }

  function ItemRefs(items: seq<Json>): seq<Json>
    decreases items, 0
  {
    if items == [] then [] else ItemRefs(items[..|items| - 1]) + ArrayRefs(items[|items| - 1])
  }

  function EntryRefs(entries: seq<JEntry>): seq<Json>
    decreases entries, 0
  {
    if entries == [] then [] else EntryRefs(entries[..|entries| - 1]) + ArrayRefs(entries[|entries| - 1].value)
  }

  /** What the manifest says about each array of the list. */
  function Described(arrays: seq<Placed>): seq<Json> {
    seq(|arrays|, i requires 0 <= i < |arrays| => BinJson(arrays[i].offset, arrays[i].a))
  }

  lemma DescribedAppend(xs: seq<Placed>, ys: seq<Placed>)
    ensures Described(xs + ys) == Described(xs) + Described(ys)
  {
  }

  /** What a walk has appended. */
  function Added(before: seq<Placed>, after: seq<Placed>): seq<Placed>
    requires before <= after
  {
    after[|before|..]
  }

  lemma AddedInTurn(x: seq<Placed>, y: seq<Placed>, z: seq<Placed>)
    requires x <= y <= z
    ensures x <= z && Described(Added(x, z)) == Described(Added(x, y)) + Described(Added(y, z))
  {
    assert Added(x, z) == Added(x, y) + Added(y, z);
    DescribedAppend(Added(x, y), Added(y, z));
  }

  lemma ArrayIsReferred<S>(a: NdArray, w: Walk<S>, p: Policy<S>)
    requires ArrayStep(a, w, p).1.Ok?
    ensures var (w', j) := ArrayStep(a, w, p);
      w.arrays <= w'.arrays && ArrayRefs(j.value) == Described(Added(w.arrays, w'.arrays))
  {
    var offset := AlignUp(w.cursor, ARRAY_ALIGNMENT);
    if !Externalizes(p, a) {
      BinFieldsFound(offset, a);
      assert Added(w.arrays, w.arrays + [Placed(offset, a)]) == [Placed(offset, a)];
      assert Described([Placed(offset, a)]) == [BinJson(offset, a)];
    }
  }

  /** No dictionary of the user's own looks like a reference. */
  predicate NoSentinels(v: Value) {
    All(v, NoSentinel)
  }

  predicate NoSentinel(v: Value) {
    v.Dict? ==> !Sentinel(v.entries)
  }

  /** The references in the manifest and the arrays that the walk lists correspond one to
      one, in order, with the same offset, size, dtype and shape. */
  lemma {:induction false} RefsMatchArrays<S>(v: Value, w: Walk<S>, p: Policy<S>)
    requires NoSentinels(v) && ManifestTree(v, w, p).1.Ok?
    ensures var (w', j) := ManifestTree(v, w, p);
      w.arrays <= w'.arrays && ArrayRefs(j.value) == Described(Added(w.arrays, w'.arrays))
    decreases v, 1
  {
    match v
    case Array(a) => ArrayIsReferred(a, w, p);
    case Dict(entries) =>
      SentinelsAreSeen(entries, w, p);
      EntriesMatchArrays(entries, w, p);
    case List(items) => ItemsMatchArrays(items, w, p);
    case Tuple(items) => ItemsMatchArrays(items, w, p);
    case _ =>
  }

  lemma {:induction false} ItemsMatchArrays<S>(items: seq<Value>, w: Walk<S>, p: Policy<S>)
    requires AllItems(items, NoSentinel) && ManifestItems(items, w, p).1.Ok?
    ensures var (w', js) := ManifestItems(items, w, p);
      w.arrays <= w'.arrays && ItemRefs(js.value) == Described(Added(w.arrays, w'.arrays))
    decreases items, 0
  {
    if items != [] {
      var init, last := items[..|items| - 1], items[|items| - 1];
      var (w1, js) := ManifestItems(init, w, p);
      ItemsMatchArrays(init, w, p);
      RefsMatchArrays(last, w1, p);
      var (w2, j) := ManifestTree(last, w1, p);
      assert (js.value + [j.value])[..|js.value|] == js.value;
      AddedInTurn(w.arrays, w1.arrays, w2.arrays);
    }
  }

  lemma {:induction false} EntriesMatchArrays<S>(entries: seq<Entry>, w: Walk<S>, p: Policy<S>)
    requires AllEntries(entries, NoSentinel) && ManifestEntries(entries, w, p).1.Ok?
    ensures var (w', js) := ManifestEntries(entries, w, p);
      w.arrays <= w'.arrays && EntryRefs(js.value) == Described(Added(w.arrays, w'.arrays))
    decreases entries, 0
  {
    if entries != [] {
      var init, e := entries[..|entries| - 1], entries[|entries| - 1];
      var (w1, js) := ManifestEntries(init, w, p);
      EntriesMatchArrays(init, w, p);
      RefsMatchArrays(e.value, w1, p);
      var (w2, j) := ManifestTree(e.value, w1, p);
      assert (js.value + [JEntry(e.key, j.value)])[..|js.value|] == js.value;
      AddedInTurn(w.arrays, w1.arrays, w2.arrays);
    }
  }

  /** Aligned, ordered, disjoint, less than 64 bytes apart, and exactly as long as the data
      section. */
  ghost predicate WellLaid(arrays: seq<Placed>, start: nat, dataBytes: nat) {
    && (forall i :: 0 <= i < |arrays| ==> (start + arrays[i].offset) % 64 == 0)
    && (forall i, j :: 0 <= i < j < |arrays| ==> End(arrays[i]) <= arrays[j].offset)
    && (forall i :: 0 < i < |arrays| ==> arrays[i].offset < End(arrays[i - 1]) + 64)
    && (arrays == [] ==> dataBytes == 0)
    && (arrays != [] ==> arrays[0].offset == 0 && dataBytes == End(arrays[|arrays| - 1]))
  }

  lemma PackedIsWellLaid(arrays: seq<Placed>, start: nat, dataBytes: nat)
    requires Packed(arrays, dataBytes) && start % FRAME_SIZE == 0
    ensures WellLaid(arrays, start, dataBytes)
  {
    PackedExtents(arrays, dataBytes);
    forall i | 0 <= i < |arrays| ensures (start + arrays[i].offset) % ARRAY_ALIGNMENT == 0 {
      AlignedBehindFrame(start, arrays[i].offset);
    }
  }

  lemma AlignedBehindFrame(start: nat, offset: nat)
    requires start % FRAME_SIZE == 0 && offset % ARRAY_ALIGNMENT == 0
    ensures (start + offset) % ARRAY_ALIGNMENT == 0
  {
    var q := start / FRAME_SIZE;
    assert start == ARRAY_ALIGNMENT * (q * 1024);
  }

  /** The layout of every document that encodes: inside the container the arrays are well laid,
      and unless the document holds sentinels of its own, the manifest has one reference per
      array and one array per reference. */
  lemma LayoutOfAnyTree<S>(rt: Runtime, doc: Document, p: Policy<S>, store: S)
    requires AnalyzeModel(rt, doc, p, store).1.Ok?
    ensures var plan := AnalyzeModel(rt, doc, p, store).1.value;
      && WellLaid(plan.arrays, plan.dataStart, plan.dataBytes)
      && (NoSentinels(doc.tree) ==>
            ArrayRefs(ManifestTree(doc.tree, Walk(0, [], store), p).1.value) == Described(plan.arrays))
  {
    var plan := AnalyzeModel(rt, doc, p, store).1.value;
    PlansAreLaid(rt, doc, p, store);
    PackedIsWellLaid(plan.arrays, plan.dataStart, plan.dataBytes);
    if NoSentinels(doc.tree) {
      RefsMatchArrays(doc.tree, Walk(0, [], store), p);
      assert Added([], plan.arrays) == plan.arrays;
    }
  }

  // ----- encoded_size -----

  lemma {:induction false} StoreUntouched<S>(v: Value, w: Walk<S>, p: Policy<S>)
    requires !Active(p)
    ensures ManifestTree(v, w, p).0.store == w.store
    decreases v, 1
  {
    match v
    case Dict(entries) => EntriesLeaveStore(entries, w, p);
    case List(items) => ItemsLeaveStore(items, w, p);
    case Tuple(items) => ItemsLeaveStore(items, w, p);
    case _ =>
  }

  lemma {:induction false} ItemsLeaveStore<S>(items: seq<Value>, w: Walk<S>, p: Policy<S>)
    requires !Active(p)
    ensures ManifestItems(items, w, p).0.store == w.store
    decreases items, 0
  {
    if items != [] {
      var init := items[..|items| - 1];
      ItemsLeaveStore(init, w, p);
      StoreUntouched(items[|items| - 1], ManifestItems(init, w, p).0, p);
    }
  }

  lemma {:induction false} EntriesLeaveStore<S>(entries: seq<Entry>, w: Walk<S>, p: Policy<S>)
    requires !Active(p)
    ensures ManifestEntries(entries, w, p).0.store == w.store
    decreases entries, 0
  {
    if entries != [] {
      var init := entries[..|entries| - 1];
      EntriesLeaveStore(init, w, p);
      StoreUntouched(entries[|entries| - 1].value, ManifestEntries(init, w, p).0, p);
    }
  }

  /** encoded_size fails exactly when the analysis of encode does, with the same effect on the
      store, and else is the length of the container of that analysis. Without externalisation
      there is no effect, so that it foretells the length of what a later encode writes. */
  lemma SizeForetellsEncode<S>(rt: Runtime, doc: Document, p: Policy<S>, store: S)
    ensures var (after, plan) := AnalyzeModel(rt, doc, p, store);
      var (left, size) := EncodedSize(rt, doc, p, store);
      && left == after && (!Active(p) ==> left == store)
      && (plan.Err? ==> size == Err(plan.error))
      && (plan.Ok? ==> size.Ok? && Laid(plan.value))
      && (plan.Ok? && Packable(InfoOf(plan.value)) ==> size == Ok(|ContainerBytes(plan.value)|))
  {
    var plan := AnalyzeModel(rt, doc, p, store).1;
    if !Active(p) {
      StoreUntouched(doc.tree, Walk(0, [], store), p);
    }
    if plan.Ok? {
      PlansAreLaid(rt, doc, p, store);
      if Packable(InfoOf(plan.value)) {
        ContainerInFiveParts(plan.value);
      }
    }
  }
}

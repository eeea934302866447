/** Exactly which trees survive a round trip, and that externalising changes nothing. */
module Exactness {
  import opened Core
  import opened Format
  import opened Model
  import opened Trees
  import opened Blob
  import opened Manifest
  import opened Container
  import opened Restore
  import opened RoundTrip

  /** Every blob reference of the tree is one that the decoder accepts. */
  predicate RefsValid(rt: Runtime, v: Value) {
    All(v, RefNode(rt))
  }

  function RefNode(rt: Runtime): Value -> bool {
    (v: Value) => v.Blob? ==> ValidRef(rt, v.ref)
  }

  /** What a caller can check beforehand: no sentinel dictionaries, no zero-width dtypes, and
      only valid references. */
  predicate Admissible(rt: Runtime, v: Value) {
    Clean(v) && RefsValid(rt, v)
  }

  // ----- without a store the reference meaning is the normal form -----

  lemma {:induction false} IdealIsErase(rt: Runtime, v: Value, den: BlobRef -> Result<NdArray, Fault>)
    requires RefsValid(rt, v)
    ensures Ideal(rt, v, None, den) == Ok(Erase(v))
    decreases v, 1
  {
    match v
    case Dict(entries) => IdealEntriesIsErase(rt, entries, den);
    case List(items) => IdealItemsIsErase(rt, items, den);
    case Tuple(items) => IdealItemsIsErase(rt, items, den);
    case _ =>
  }

  lemma {:induction false} IdealItemsIsErase(rt: Runtime, items: seq<Value>, den: BlobRef -> Result<NdArray, Fault>)
    requires AllItems(items, RefNode(rt))
    ensures IdealItems(rt, items, None, den) == Ok(EraseItems(items))
    decreases items, 0
  {
    if items != [] {
      IdealItemsIsErase(rt, items[..|items| - 1], den);
      IdealIsErase(rt, items[|items| - 1], den);
    }
  }

  lemma {:induction false} IdealEntriesIsErase(rt: Runtime, entries: seq<Entry>, den: BlobRef -> Result<NdArray, Fault>)
    requires AllEntries(entries, RefNode(rt))
    ensures IdealEntries(rt, entries, None, den) == Ok(EraseEntries(entries))
    decreases entries, 0
  {
    if entries != [] {
      IdealEntriesIsErase(rt, entries[..|entries| - 1], den);
      IdealIsErase(rt, entries[|entries| - 1].value, den);
    }
  }

  // ----- and only admissible trees come back -----

  lemma {:induction false} OnlyAdmissibleReturns<S>(rt: Runtime, v: Value, w: Walk<S>, p: Policy<S>, src: Source, s: S)
    requires Lawful(rt) && Proper(rt, v) && !Active(p)
    requires ManifestTree(v, w, p).1.Ok? && Packed(w.arrays, w.cursor)
    requires Holds(src, ManifestTree(v, w, p).0.arrays)
    requires EraseResult(RestoreTree(rt, ManifestTree(v, w, p).1.value, src, None, s).1) == Ok(Erase(v))
    ensures Admissible(rt, v)
    decreases v, 1
  {
    match v
    case Array(a) => OnlyWideArraysReturn(rt, a, w, p, src, s);
    case Blob(r) => OnlyValidRefsReturn(rt, r, src, s);
    case Dict(entries) =>
      SentinelsAreSeen(entries, w, p);
      OnlyPlainDictsReturn(rt, ManifestEntries(entries, w, p).1.value, src, s);
      OnlyAdmissibleEntriesReturn(rt, entries, w, p, src, s);
    case List(items) => OnlyAdmissibleItemsReturn(rt, items, w, p, src, s);
    case Tuple(items) => OnlyAdmissibleItemsReturn(rt, items, w, p, src, s);
    case Leaf(_) =>
  }

  lemma OnlyWideArraysReturn<S>(rt: Runtime, a: NdArray, w: Walk<S>, p: Policy<S>, src: Source, s: S)
    requires Lawful(rt) && Genuine(rt, a) && !Active(p)
    requires ArrayStep(a, w, p).1.Ok? && Holds(src, ArrayStep(a, w, p).0.arrays)
    requires RestoreTree<S>(rt, ArrayStep(a, w, p).1.value, src, None, s).1.Ok?
    ensures a.dtype.itemsize > 0
  {
    var arrays := ArrayStep(a, w, p).0.arrays;
    assert HoldsPlaced(src, arrays[|arrays| - 1]);
    RestoreInline<S>(rt, arrays[|arrays| - 1].offset, a, src, None, s);
  }

  lemma OnlyValidRefsReturn<S>(rt: Runtime, r: BlobRef, src: Source, s: S)
    requires Lawful(rt) && RestoreTree<S>(rt, BlobJson(r), src, None, s).1.Ok?
    ensures ValidRef(rt, r)
  {
    RefRoundTrip(rt, r);
  }

  lemma OnlyPlainDictsReturn<S>(rt: Runtime, js: seq<JEntry>, src: Source, s: S)
    requires var r := RestoreTree<S>(rt, JDict(js), src, None, s).1; r.Ok? && r.value.Dict?
    ensures !Only(js, "$blob") && !IsArrayRef(js)
    ensures RestoreEntries<S>(rt, js, src, None, s).1 == Ok(RestoreTree<S>(rt, JDict(js), src, None, s).1.value.entries)
  {
  }

  /** If a list comes back, so do its front and its last item. */
  lemma LastItemReturned<S>(rt: Runtime, js: seq<Json>, j: Json, src: Source, s: S, front: seq<Value>, last: Value)
    returns (s1: S)
    requires EraseItemsResult(RestoreItems(rt, js + [j], src, None, s).1) == Ok(front + [last])
    ensures s1 == RestoreItems(rt, js, src, None, s).0
    ensures EraseItemsResult(RestoreItems(rt, js, src, None, s).1) == Ok(front)
    ensures EraseResult(RestoreTree(rt, j, src, None, s1).1) == Ok(last)
  {
    assert (js + [j])[..|js|] == js;
    var before := RestoreItems(rt, js, src, None, s);
    s1 := before.0;
    var tail := RestoreTree(rt, j, src, None, s1).1;
    EraseAppendItem(before.1.value, tail.value);
    SameEnds(EraseItems(before.1.value), Erase(tail.value), front, last);
  }

  lemma LastEntryReturned<S>(rt: Runtime, js: seq<JEntry>, j: JEntry, src: Source, s: S, front: seq<Entry>, last: Entry)
    returns (s1: S)
    requires EraseEntriesResult(RestoreEntries(rt, js + [j], src, None, s).1) == Ok(front + [last])
    ensures s1 == RestoreEntries(rt, js, src, None, s).0
    ensures EraseEntriesResult(RestoreEntries(rt, js, src, None, s).1) == Ok(front)
    ensures EraseResult(RestoreTree(rt, j.value, src, None, s1).1) == Ok(last.value)
  {
    assert (js + [j])[..|js|] == js;
    var before := RestoreEntries(rt, js, src, None, s);
    s1 := before.0;
    var tail := RestoreTree(rt, j.value, src, None, s1).1;
    EraseAppendEntry(before.1.value, Entry(j.key, tail.value));
    SameEnds(EraseEntries(before.1.value), Entry(j.key, Erase(tail.value)), front, last);
  }

  lemma {:induction false} OnlyAdmissibleItemsReturn<S>(rt: Runtime, items: seq<Value>, w: Walk<S>, p: Policy<S>,
      src: Source, s: S)
    requires Lawful(rt) && AllItems(items, ProperNode(rt)) && !Active(p)
    requires ManifestItems(items, w, p).1.Ok? && Packed(w.arrays, w.cursor)
    requires Holds(src, ManifestItems(items, w, p).0.arrays)
    requires EraseItemsResult(RestoreItems(rt, ManifestItems(items, w, p).1.value, src, None, s).1) ==
      Ok(EraseItems(items))
    ensures AllItems(items, CleanNode) && AllItems(items, RefNode(rt))
    decreases items, 0
  {
    if items != [] {
      var init, last := items[..|items| - 1], items[|items| - 1];
      var w1 := ManifestItems(init, w, p).0;
      ItemsPack(init, w, p);
      WalkPacks(last, w1, p);
      HoldsPrefix(src, w1.arrays, ManifestItems(items, w, p).0.arrays);
      var js, j := ManifestItems(init, w, p).1.value, ManifestTree(last, w1, p).1.value;
      var s1 := LastItemReturned(rt, js, j, src, s, EraseItems(init), Erase(last));
      OnlyAdmissibleItemsReturn(rt, init, w, p, src, s);
      OnlyAdmissibleReturns(rt, last, w1, p, src, s1);
    }
  }

  lemma {:induction false} OnlyAdmissibleEntriesReturn<S>(rt: Runtime, entries: seq<Entry>, w: Walk<S>, p: Policy<S>,
      src: Source, s: S)
    requires Lawful(rt) && AllEntries(entries, ProperNode(rt)) && !Active(p)
    requires ManifestEntries(entries, w, p).1.Ok? && Packed(w.arrays, w.cursor)
    requires Holds(src, ManifestEntries(entries, w, p).0.arrays)
    requires EraseEntriesResult(RestoreEntries(rt, ManifestEntries(entries, w, p).1.value, src, None, s).1) ==
      Ok(EraseEntries(entries))
    ensures AllEntries(entries, CleanNode) && AllEntries(entries, RefNode(rt))
    decreases entries, 0
  {
    if entries != [] {
      var init, e := entries[..|entries| - 1], entries[|entries| - 1];
      var w1 := ManifestEntries(init, w, p).0;
      EntriesPack(init, w, p);
      WalkPacks(e.value, w1, p);
      HoldsPrefix(src, w1.arrays, ManifestEntries(entries, w, p).0.arrays);
      var js, j := ManifestEntries(init, w, p).1.value, ManifestTree(e.value, w1, p).1.value;
      var s1 := LastEntryReturned(rt, js, JEntry(e.key, j), src, s, EraseEntries(init), Entry(e.key, Erase(e.value)));
      OnlyAdmissibleEntriesReturn(rt, init, w, p, src, s);
      OnlyAdmissibleReturns(rt, e.value, w1, p, src, s1);
    }
  }

  /** The round trip, with its exact condition. For every document that encodes, and every
      buffer that starts with the encoding, the generic decoder returns the tree in normal
      form if and only if the tree is an admissible dictionary; any other admissible tree is
      refused for not being one. */
  lemma RoundTripExactly<S(!new)>(rt: Runtime, doc: Document, p: Policy<S>, store: S, b: seq<byte>, base: int, s: S)
    requires Lawful(rt) && Proper(rt, doc.tree) && !Active(p)
    requires AnalyzeModel(rt, doc, p, store).1.Ok? && Carries(b, AnalyzeModel(rt, doc, p, store).1.value)
    ensures EraseResult(DecodeAuto(rt, b, base, None, s).1) == Ok(Erase(doc.tree)) <==>
      Admissible(rt, doc.tree) && doc.tree.Dict?
    ensures Admissible(rt, doc.tree) && !doc.tree.Dict? ==>
      DecodeAuto(rt, b, base, None, s).1 == Err(TopLevelNotObject)
  {
    var plan := AnalyzeModel(rt, doc, p, store).1.value;
    CarriedIsReadable(b, base, plan);
    if Admissible(rt, doc.tree) {
      if doc.tree.Dict? {
        AdmissibleReturns(rt, doc, p, store, b, base, s);
      } else {
        OthersAreRefused(rt, doc, p, store, b, base, s);
      }
    }
    if EraseResult(DecodeAuto(rt, b, base, None, s).1) == Ok(Erase(doc.tree)) {
      ReturnedWasAdmissible(rt, doc, p, store, b, base, s);
    }
  }

  lemma OthersAreRefused<S(!new)>(rt: Runtime, doc: Document, p: Policy<S>, store: S, b: seq<byte>, base: int, s: S)
    requires Lawful(rt) && Proper(rt, doc.tree) && !doc.tree.Dict? && !Active(p) && Admissible(rt, doc.tree)
    requires AnalyzeModel(rt, doc, p, store).1.Ok? && Readable(b, base, AnalyzeModel(rt, doc, p, store).1.value)
    ensures DecodeAuto(rt, b, base, None, s).1 == Err(TopLevelNotObject)
  {
    var den: BlobRef -> Result<NdArray, Fault> := r => Err(BlobMissing);
    var storable := (t: S, a: NdArray) => true;
    var src := SourceOf(b, base, InfoOf(AnalyzeModel(rt, doc, p, store).1.value));
    NothingExternalized(doc.tree, p, store, storable);
    RestoreMeetsIdeal(rt, doc, p, store, src, None, s, t => true, storable, den);
    IdealIsErase(rt, doc.tree, den);
    DecodeIsRestore<S, S>(rt, doc, p, store, b, base, None, s);
    DictsErase(RestoreTree<S>(rt, ManifestTree(doc.tree, Walk(0, [], store), p).1.value, src, None, s).1);
  }

  lemma AdmissibleReturns<S(!new)>(rt: Runtime, doc: Document, p: Policy<S>, store: S, b: seq<byte>, base: int, s: S)
    requires Lawful(rt) && Proper(rt, doc.tree) && doc.tree.Dict? && !Active(p) && Admissible(rt, doc.tree)
    requires AnalyzeModel(rt, doc, p, store).1.Ok? && Readable(b, base, AnalyzeModel(rt, doc, p, store).1.value)
    ensures EraseResult(DecodeAuto(rt, b, base, None, s).1) == Ok(Erase(doc.tree))
  {
    var den: BlobRef -> Result<NdArray, Fault> := r => Err(BlobMissing);
    var storable := (t: S, a: NdArray) => true;
    NothingExternalized(doc.tree, p, store, storable);
    DecodeMeetsIdeal(rt, doc, p, store, b, base, None, s, t => true, storable, den);
    IdealIsErase(rt, doc.tree, den);
  }

  lemma ReturnedWasAdmissible<S>(rt: Runtime, doc: Document, p: Policy<S>, store: S, b: seq<byte>, base: int, s: S)
    requires Lawful(rt) && Proper(rt, doc.tree) && !Active(p)
    requires AnalyzeModel(rt, doc, p, store).1.Ok? && Readable(b, base, AnalyzeModel(rt, doc, p, store).1.value)
    requires EraseResult(DecodeAuto(rt, b, base, None, s).1) == Ok(Erase(doc.tree))
    ensures Admissible(rt, doc.tree)
  {
    var plan := AnalyzeModel(rt, doc, p, store).1.value;
    DecodeIsRestore<S, S>(rt, doc, p, store, b, base, None, s);
    OnlyAdmissibleReturns(rt, doc.tree, Walk(0, [], store), p, SourceOf(b, base, InfoOf(plan)), s);
  }

  /** A nested `{"$blob": null}` of the user's own. */
  function Lost(): Value {
    Dict([Entry("x", Dict([Entry("$blob", Leaf(Null))]))])
  }

  /** It encodes, and no buffer that carries the encoding decodes: the condition of
      RoundTripExactly is needed. */
  lemma SentinelIsLost<S(!new)>(rt: Runtime, schemaId: seq<byte>, version: nat, p: Policy<S>, store: S, b: seq<byte>,
      base: int, s: S)
    requires Lawful(rt) && PolicyFault(p).None?
    ensures var plan := AnalyzeModel(rt, Document(schemaId, version, Lost()), p, store).1;
      plan.Ok? && (Carries(b, plan.value) ==> DecodeAuto(rt, b, base, None, s).1 == Err(BadBlobRef))
  {
    var doc := Document(schemaId, version, Lost());
    var plan := AnalyzeModel(rt, doc, p, store).1;
    LostManifest(Walk(0, [], store), p);
    if Carries(b, plan.value) {
      CarriedIsReadable(b, base, plan.value);
      LostIsProper(rt);
      RefusedDocument(rt, doc, p, store, b, base, s);
    }
  }

  lemma RefusedDocument<S(!new)>(rt: Runtime, doc: Document, p: Policy<S>, store: S, b: seq<byte>, base: int, s: S)
    requires Lawful(rt) && Proper(rt, doc.tree) && ManifestTree(doc.tree, Walk(0, [], store), p).1 == Ok(LostJson())
    requires AnalyzeModel(rt, doc, p, store).1.Ok? && Readable(b, base, AnalyzeModel(rt, doc, p, store).1.value)
    ensures DecodeAuto(rt, b, base, None, s).1 == Err(BadBlobRef)
  {
    DecodeIsRestore<S, S>(rt, doc, p, store, b, base, None, s);
    LostIsRefused<S>(rt, SourceOf(b, base, InfoOf(AnalyzeModel(rt, doc, p, store).1.value)), s);
  }

  lemma LostIsProper(rt: Runtime)
    ensures Proper(rt, Lost())
  {
    var inner := [Entry("$blob", Leaf(Null))];
    assert inner[..|inner| - 1] == [] && AllEntries(inner, ProperNode(rt));
    assert Lost().entries[..0] == [];
  }

  /** The manifest of the lost tree. */
  function LostJson(): Json {
    JDict([JEntry("x", JDict([JEntry("$blob", Atom(Null))]))])
  }

  lemma SingletonManifest<S>(key: string, v: Value, w: Walk<S>, p: Policy<S>)
    requires ManifestTree(v, w, p).1.Ok?
    ensures var (w', j) := ManifestTree(v, w, p);
      ManifestTree(Dict([Entry(key, v)]), w, p) == (w', Ok(JDict([JEntry(key, j.value)])))
  {
    var es := [Entry(key, v)];
    assert es[..|es| - 1] == [];
    assert ManifestEntries([], w, p) == (w, Ok([]));
    var j := ManifestTree(v, w, p).1.value;
    assert [] + [JEntry(key, j)] == [JEntry(key, j)];
  }

  lemma LostManifest<S>(w: Walk<S>, p: Policy<S>)
    ensures ManifestTree(Lost(), w, p) == (w, Ok(LostJson()))
  {
    SingletonManifest("$blob", Leaf(Null), w, p);
    SingletonManifest("x", Dict([Entry("$blob", Leaf(Null))]), w, p);
  }

  lemma LostIsRefused<S>(rt: Runtime, src: Source, s: S)
    ensures RestoreTree<S>(rt, LostJson(), src, None, s).1 == Err(BadBlobRef)
  {
    var js := LostJson().entries;
    assert js[..|js| - 1] == [];
    assert RestoreTree<S>(rt, js[0].value, src, None, s).1 == Err(BadBlobRef);
  }

  /** Externalising preserves meaning. For every threshold, encoding with a lawful store and
      decoding with the same store (in that state or any later one) gives the same outcome as
      encoding everything inline, faults of user-supplied references included. */
  lemma ExternalizingPreservesMeaning<S(!new)>(
    rt: Runtime, doc: Document, api: BlobApi<S>, threshold: nat, before: S, later: S,
    external: seq<byte>, inline: seq<byte>, base: int, base': int, inv: S -> bool, storable: (S, NdArray) -> bool)
    requires Lawful(rt) && LawfulStore(rt, api, inv, storable)
    requires Proper(rt, doc.tree) && Clean(doc.tree) && doc.tree.Dict?
    requires inv(before) && Storable(doc.tree, Policy(Some(api), Some(threshold)), before, storable)
    requires var (after, plan) := AnalyzeModel(rt, doc, Policy(Some(api), Some(threshold)), before);
      plan.Ok? && Carries(external, plan.value) && inv(later) && Extends(api, after, later)
    requires var plan := AnalyzeModel(rt, doc, InlinePolicy(), before).1;
      plan.Ok? && Carries(inline, plan.value)
    ensures EraseResult(DecodeAuto(rt, external, base, Some(api), later).1)
         == EraseResult(DecodeAuto(rt, inline, base', Some(api), later).1)
  {
    var den: BlobRef -> Result<NdArray, Fault> := r => Denotes(api, later, r);
    var p, q := Policy(Some(api), Some(threshold)), InlinePolicy();
    CarriedIsReadable(external, base, AnalyzeModel(rt, doc, p, before).1.value);
    CarriedIsReadable(inline, base', AnalyzeModel(rt, doc, q, before).1.value);
    DecodeMeetsIdeal(rt, doc, p, before, external, base, Some(api), later, inv, storable, den);
    NothingExternalized(doc.tree, q, before, storable);
    DecodeMeetsIdeal(rt, doc, q, before, inline, base', Some(api), later, inv, storable, den);
  }
}

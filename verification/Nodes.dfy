/** What encoding and decoding do to a tree, said node by node: which trees encode, what the
    normal form and the reference meaning keep, and which blob references decide the outcome. */
module Nodes {
  import opened Core
  import opened Format
  import opened Model
  import opened Trees
  import opened Blob
  import opened Manifest
  import opened Container
  import opened Restore
  import opened RoundTrip
  import opened Exactness

  // ----- which trees encode -----

  predicate PlainNode(v: Value) {
    v.Array? ==> !v.a.dtype.hasObject && !v.a.dtype.structured
  }

  lemma {:induction false} WalkSucceeds<S>(v: Value, w: Walk<S>, p: Policy<S>)
    ensures var r := ManifestTree(v, w, p).1; if All(v, PlainNode) then r.Ok? else r == Err(UnsupportedDType)
    decreases v, 1
  {
    match v
    case Dict(entries) => EntriesSucceed(entries, w, p);
    case List(items) => ItemsSucceed(items, w, p);
    case Tuple(items) => ItemsSucceed(items, w, p);
    case _ =>
  }

  lemma {:induction false} ItemsSucceed<S>(items: seq<Value>, w: Walk<S>, p: Policy<S>)
    ensures var r := ManifestItems(items, w, p).1;
      if AllItems(items, PlainNode) then r.Ok? else r == Err(UnsupportedDType)
    decreases items, 0
  {
    if items != [] {
      var init := items[..|items| - 1];
      ItemsSucceed(init, w, p);
      WalkSucceeds(items[|items| - 1], ManifestItems(init, w, p).0, p);
    }
  }

  lemma {:induction false} EntriesSucceed<S>(entries: seq<Entry>, w: Walk<S>, p: Policy<S>)
    ensures var r := ManifestEntries(entries, w, p).1;
      if AllEntries(entries, PlainNode) then r.Ok? else r == Err(UnsupportedDType)
    decreases entries, 0
  {
    if entries != [] {
      var init := entries[..|entries| - 1];
      EntriesSucceed(init, w, p);
      WalkSucceeds(entries[|entries| - 1].value, ManifestEntries(init, w, p).0, p);
    }
  }

  /** What can stop the analysis, exactly: a negative threshold, a threshold without a store
      (both before anything is stored), or an array of objects or records anywhere in the tree. */
  lemma AnalysisFailsExactly<S>(rt: Runtime, doc: Document, p: Policy<S>, store: S)
    ensures var (after, r) := AnalyzeModel(rt, doc, p, store);
      var negative, homeless := p.minBytes.Some? && p.minBytes.value < 0, p.minBytes.Some? && p.store.None?;
      && (r == Err(NegativeThreshold) <==> negative)
      && (r == Err(StoreNeeded) <==> homeless && !negative)
      && (negative || homeless ==> after == store)
      && (r == Err(UnsupportedDType) <==>
            (&& !negative && !homeless
             && exists path: seq<nat>, a ::
                  At(doc.tree, path) == Some(Array(a)) && (a.dtype.hasObject || a.dtype.structured)))
      && (r.Err? ==> r.error in {NegativeThreshold, StoreNeeded, UnsupportedDType})
  {
    WalkSucceeds(doc.tree, Walk(0, [], store), p);
    AllExactly(doc.tree, PlainNode);
    if !All(doc.tree, PlainNode) {
      var path := ExceptionAt(doc.tree, PlainNode);
      assert At(doc.tree, path) == Some(Array(At(doc.tree, path).value.a));
    }
  }

  // ----- the normal form -----

  lemma {:induction false} EraseItemsEach(items: seq<Value>)
    ensures |EraseItems(items)| == |items| && forall i :: 0 <= i < |items| ==> EraseItems(items)[i] == Erase(items[i])
  {
    if items != [] {
      EraseItemsEach(items[..|items| - 1]);
    }
  }

  lemma {:induction false} EraseEntriesEach(entries: seq<Entry>)
    ensures |EraseEntries(entries)| == |entries|
    ensures forall i :: 0 <= i < |entries| ==>
      EraseEntries(entries)[i] == Entry(entries[i].key, Erase(entries[i].value))
  {
    if entries != [] {
      EraseEntriesEach(entries[..|entries| - 1]);
    }
  }

  lemma EraseParts(v: Value)
    ensures |Parts(Erase(v))| == |Parts(v)|
    ensures forall i :: 0 <= i < |Parts(v)| ==> Parts(Erase(v))[i] == Erase(Parts(v)[i])
    ensures v.Dict? ==> EntryKeys(Erase(v).entries) == EntryKeys(v.entries)
  {
    match v
    case Dict(entries) => EraseEntriesEach(entries);
    case List(items) => EraseItemsEach(items);
    case Tuple(items) => EraseItemsEach(items);
    case _ =>
  }

  /** The normal form has the nodes of the tree, at the same paths: scalars and references as
      they were, dictionaries with their keys, lists and tuples as lists, and arrays with their
      dtype, shape and bytes, but without an address. */
  lemma {:induction false} NormalFormNodewise(v: Value, path: seq<nat>)
    ensures At(Erase(v), path).Some? <==> At(v, path).Some?
    ensures At(v, path).Some? ==>
      var x, y := At(v, path).value, At(Erase(v), path).value;
      match x
      case Leaf(_) => y == x
      case Blob(_) => y == x
      case Array(a) => y == Array(NdArray(a.dtype, a.shape, a.bytes, 0))
      case List(items) => y.List? && |y.items| == |items|
      case Tuple(items) => y.List? && |y.items| == |items|
      case Dict(entries) => y.Dict? && EntryKeys(y.entries) == EntryKeys(entries)
    decreases |path|
  {
    EraseParts(v);
    if path == [] {
      match v
      case List(items) => EraseItemsEach(items);
      case Tuple(items) => EraseItemsEach(items);
      case _ =>
    } else if path[0] < |Parts(v)| {
      NormalFormNodewise(Parts(v)[path[0]], path[1..]);
    }
  }

  // ----- the reference meaning -----

  lemma {:induction false} IdealItemsEach(rt: Runtime, items: seq<Value>, kind: Option<string>,
      den: BlobRef -> Result<NdArray, Fault>)
    requires IdealItems(rt, items, kind, den).Ok?
    ensures var r := IdealItems(rt, items, kind, den).value;
      |r| == |items| && forall i :: 0 <= i < |r| ==> Ideal(rt, items[i], kind, den) == Ok(r[i])
  {
    if items != [] {
      IdealItemsEach(rt, items[..|items| - 1], kind, den);
    }
  }

  lemma {:induction false} IdealEntriesEach(rt: Runtime, entries: seq<Entry>, kind: Option<string>,
      den: BlobRef -> Result<NdArray, Fault>)
    requires IdealEntries(rt, entries, kind, den).Ok?
    ensures var r := IdealEntries(rt, entries, kind, den).value;
      |r| == |entries| && forall i :: 0 <= i < |r| ==>
        r[i].key == entries[i].key && Ideal(rt, entries[i].value, kind, den) == Ok(r[i].value)
  {
    if entries != [] {
      IdealEntriesEach(rt, entries[..|entries| - 1], kind, den);
    }
  }

  lemma IdealParts(rt: Runtime, v: Value, kind: Option<string>, den: BlobRef -> Result<NdArray, Fault>)
    requires Ideal(rt, v, kind, den).Ok?
    ensures var x := Ideal(rt, v, kind, den).value;
      && |Parts(x)| == |Parts(v)|
      && (forall i :: 0 <= i < |Parts(v)| ==> Ideal(rt, Parts(v)[i], kind, den) == Ok(Parts(x)[i]))
      && (v.Dict? ==> x.Dict? && EntryKeys(x.entries) == EntryKeys(v.entries))
  {
    match v
    case Dict(entries) => IdealEntriesEach(rt, entries, kind, den);
    case List(items) => IdealItemsEach(rt, items, kind, den);
    case Tuple(items) => IdealItemsEach(rt, items, kind, den);
    case _ =>
  }

  /** What a successful decode gives, node by node: the normal form, in which each reference has
      become the array it denotes, if there is a store, and stands as it was, if there is none. */
  lemma {:induction false} MeaningNodewise(rt: Runtime, v: Value, kind: Option<string>,
      den: BlobRef -> Result<NdArray, Fault>, path: seq<nat>)
    requires Ideal(rt, v, kind, den).Ok?
    ensures At(Ideal(rt, v, kind, den).value, path).Some? <==> At(v, path).Some?
    ensures At(v, path).Some? ==>
      var x, y := At(v, path).value, At(Ideal(rt, v, kind, den).value, path).value;
      match x
      case Leaf(_) => y == x
      case Blob(r) => if kind.None? then y == x else den(r).Ok? && y == Array(den(r).value)
      case Array(a) => y == Array(NdArray(a.dtype, a.shape, a.bytes, 0))
      case List(items) => y.List? && |y.items| == |items|
      case Tuple(items) => y.List? && |y.items| == |items|
      case Dict(entries) => y.Dict? && EntryKeys(y.entries) == EntryKeys(entries)
    decreases |path|
  {
    IdealParts(rt, v, kind, den);
    if path == [] {
      assert At(v, path) == Some(v);
    } else if path[0] < |Parts(v)| {
      MeaningNodewise(rt, Parts(v)[path[0]], kind, den, path[1..]);
    }
  }

  function ResolvesNode(rt: Runtime, kind: Option<string>, den: BlobRef -> Result<NdArray, Fault>): Value -> bool {
    (v: Value) => v.Blob? ==> IdealRef(rt, v.ref, kind, den).Ok?
  }

  lemma {:induction false} IdealSucceeds(rt: Runtime, v: Value, kind: Option<string>,
      den: BlobRef -> Result<NdArray, Fault>)
    ensures Ideal(rt, v, kind, den).Ok? <==> All(v, ResolvesNode(rt, kind, den))
    decreases v, 1
  {
    match v
    case Dict(entries) => IdealEntriesSucceed(rt, entries, kind, den);
    case List(items) => IdealItemsSucceed(rt, items, kind, den);
    case Tuple(items) => IdealItemsSucceed(rt, items, kind, den);
    case _ =>
  }

  lemma {:induction false} IdealItemsSucceed(rt: Runtime, items: seq<Value>, kind: Option<string>,
      den: BlobRef -> Result<NdArray, Fault>)
    ensures IdealItems(rt, items, kind, den).Ok? <==> AllItems(items, ResolvesNode(rt, kind, den))
    decreases items, 0
  {
    if items != [] {
      IdealItemsSucceed(rt, items[..|items| - 1], kind, den);
      IdealSucceeds(rt, items[|items| - 1], kind, den);
    }
  }

  lemma {:induction false} IdealEntriesSucceed(rt: Runtime, entries: seq<Entry>, kind: Option<string>,
      den: BlobRef -> Result<NdArray, Fault>)
    ensures IdealEntries(rt, entries, kind, den).Ok? <==> AllEntries(entries, ResolvesNode(rt, kind, den))
    decreases entries, 0
  {
    if entries != [] {
      IdealEntriesSucceed(rt, entries[..|entries| - 1], kind, den);
      IdealSucceeds(rt, entries[|entries| - 1].value, kind, den);
    }
  }

  /** Which trees decode, exactly: every reference anywhere in the tree is valid and, if there
      is a store, names its kind and denotes an array. */
  lemma MeaningExistsExactly(rt: Runtime, v: Value, kind: Option<string>, den: BlobRef -> Result<NdArray, Fault>)
    ensures Ideal(rt, v, kind, den).Ok? <==>
      forall path: seq<nat>, r :: At(v, path) == Some(Blob(r)) ==>
        ValidRef(rt, r) && (kind.None? || (kind.value == r.store && den(r).Ok?))
  {
    IdealSucceeds(rt, v, kind, den);
    var resolves := ResolvesNode(rt, kind, den);
    AllExactly(v, resolves);
    if All(v, resolves) {
      forall path: seq<nat>, r | At(v, path) == Some(Blob(r))
        ensures ValidRef(rt, r) && (kind.None? || (kind.value == r.store && den(r).Ok?))
      {
        assert resolves(At(v, path).value);
      }
    } else {
      var path := ExceptionAt(v, resolves);
      assert At(v, path) == Some(Blob(At(v, path).value.ref));
    }
  }

  /** What RoundTripExactly asks of a tree, node by node. */
  lemma AdmissibleExactly(rt: Runtime, v: Value)
    ensures Admissible(rt, v) <==> forall path: seq<nat> :: At(v, path).Some? ==>
      match At(v, path).value
      case Array(a) => a.dtype.itemsize > 0
      case Blob(r) => ValidRef(rt, r)
      case Dict(entries) => !Sentinel(entries)
      case _ => true
  {
    var refs := RefNode(rt);
    AllExactly(v, CleanNode);
    AllExactly(v, refs);
    if Admissible(rt, v) {
      forall path: seq<nat> | At(v, path).Some? ensures CleanNode(At(v, path).value) && refs(At(v, path).value) {
      }
    } else if !Clean(v) {
      var path := ExceptionAt(v, CleanNode);
    } else {
      var path := ExceptionAt(v, refs);
    }
  }

  // ----- typed decode -----

  /** Nothing of this node lies outside the container. */
  function InlineNode<S>(p: Policy<S>): Value -> bool {
    (v: Value) => !v.Blob? && !(v.Array? && Externalizes(p, v.a))
  }

  lemma ArrayUnresolved<S(!new), R>(rt: Runtime, a: NdArray, w: Walk<S>, p: Policy<S>, src: Source, s: R,
      inv: S -> bool, storable: (S, NdArray) -> bool)
    requires Lawful(rt) && Genuine(rt, a) && a.dtype.itemsize > 0
    requires StoreReady(rt, p, inv, storable, w.store) && (Externalizes(p, a) ==> storable(w.store, a))
    requires ArrayStep(a, w, p).1.Ok? && Holds(src, ArrayStep(a, w, p).0.arrays)
    ensures var (s', r) := RestoreTree<R>(rt, ArrayStep(a, w, p).1.value, src, None, s);
      s' == s && r.Ok? && (ContainsBlobRef(r.value) <==> Externalizes(p, a))
  {
    if Externalizes(p, a) {
      assert PutLaw(rt, p.store.value, inv, storable, w.store, a);
      RefRoundTrip(rt, p.store.value.put(w.store, a).1);
    } else {
      var arrays := ArrayStep(a, w, p).0.arrays;
      assert HoldsPlaced(src, arrays[|arrays| - 1]);
      RestoreInline<R>(rt, arrays[|arrays| - 1].offset, a, src, None, s);
    }
  }

  /** Restoring a manifest without a store. */
  lemma {:induction false} TreeUnresolved<S(!new), R>(rt: Runtime, v: Value, w: Walk<S>, p: Policy<S>, src: Source,
      s: R, inv: S -> bool, storable: (S, NdArray) -> bool)
    requires Lawful(rt) && Proper(rt, v) && Clean(v)
    requires StoreReady(rt, p, inv, storable, w.store) && Storable(v, p, w.store, storable)
    requires ManifestTree(v, w, p).1.Ok? && Packed(w.arrays, w.cursor) && Holds(src, ManifestTree(v, w, p).0.arrays)
    ensures var (s', r) := RestoreTree<R>(rt, ManifestTree(v, w, p).1.value, src, None, s);
      s' == s && if RefsValid(rt, v) then r.Ok? && (ContainsBlobRef(r.value) <==> !All(v, InlineNode(p)))
      else r == Err(BadBlobRef)
    decreases v, 1
  {
    match v
    case Array(a) => ArrayUnresolved(rt, a, w, p, src, s, inv, storable);
    case Blob(r) => RefRoundTrip(rt, r);
    case Dict(entries) =>
      DictRestores<S, R>(rt, entries, w, p, src, None, s);
      EntriesUnresolved(rt, entries, w, p, src, s, inv, storable);
    case List(items) => ItemsUnresolved(rt, items, w, p, src, s, inv, storable);
    case Tuple(items) => ItemsUnresolved(rt, items, w, p, src, s, inv, storable);
    case Leaf(_) =>
  }

  lemma {:induction false} ItemsUnresolved<S(!new), R>(rt: Runtime, items: seq<Value>, w: Walk<S>, p: Policy<S>,
      src: Source, s: R, inv: S -> bool, storable: (S, NdArray) -> bool)
    requires Lawful(rt) && AllItems(items, ProperNode(rt)) && AllItems(items, CleanNode)
    requires StoreReady(rt, p, inv, storable, w.store) && AllItems(items, StorableNode(p, w.store, storable))
    requires ManifestItems(items, w, p).1.Ok? && Packed(w.arrays, w.cursor)
    requires Holds(src, ManifestItems(items, w, p).0.arrays)
    ensures var (s', r) := RestoreItems<R>(rt, ManifestItems(items, w, p).1.value, src, None, s);
      s' == s && if AllItems(items, RefNode(rt)) then
        r.Ok? && (ItemsContainBlobRef(r.value) <==> !AllItems(items, InlineNode(p)))
      else r == Err(BadBlobRef)
    decreases items, 0
  {
    if items != [] {
      var init, last := items[..|items| - 1], items[|items| - 1];
      var w1 := ManifestItems(init, w, p).0;
      ItemsPack(init, w, p);
      ItemsGrowStore(rt, init, w, p, inv, storable);
      HandOnStore(rt, last, w, w1, p, src, inv, storable);
      ItemsUnresolved(rt, init, w, p, src, s, inv, storable);
      TreeUnresolved(rt, last, w1, p, src, s, inv, storable);
      var js := ManifestItems(items, w, p).1.value;
      assert js[..|js| - 1] == ManifestItems(init, w, p).1.value;
      var r := RestoreItems<R>(rt, js, src, None, s).1;
      assert r.Ok? ==> r.value[..|r.value| - 1] == RestoreItems<R>(rt, js[..|js| - 1], src, None, s).1.value;
    }
  }

  lemma {:induction false} EntriesUnresolved<S(!new), R>(rt: Runtime, entries: seq<Entry>, w: Walk<S>, p: Policy<S>,
      src: Source, s: R, inv: S -> bool, storable: (S, NdArray) -> bool)
    requires Lawful(rt) && AllEntries(entries, ProperNode(rt)) && AllEntries(entries, CleanNode)
    requires StoreReady(rt, p, inv, storable, w.store) && AllEntries(entries, StorableNode(p, w.store, storable))
    requires ManifestEntries(entries, w, p).1.Ok? && Packed(w.arrays, w.cursor)
    requires Holds(src, ManifestEntries(entries, w, p).0.arrays)
    ensures var (s', r) := RestoreEntries<R>(rt, ManifestEntries(entries, w, p).1.value, src, None, s);
      s' == s && if AllEntries(entries, RefNode(rt)) then
        r.Ok? && (EntriesContainBlobRef(r.value) <==> !AllEntries(entries, InlineNode(p)))
      else r == Err(BadBlobRef)
    decreases entries, 0
  {
    if entries != [] {
      var init, last := entries[..|entries| - 1], entries[|entries| - 1].value;
      var w1 := ManifestEntries(init, w, p).0;
      EntriesPack(init, w, p);
      EntriesGrowStore(rt, init, w, p, inv, storable);
      HandOnStore(rt, last, w, w1, p, src, inv, storable);
      EntriesUnresolved(rt, init, w, p, src, s, inv, storable);
      TreeUnresolved(rt, last, w1, p, src, s, inv, storable);
      var js := ManifestEntries(entries, w, p).1.value;
      assert js[..|js| - 1] == ManifestEntries(init, w, p).1.value;
      var r := RestoreEntries<R>(rt, js, src, None, s).1;
      assert r.Ok? ==> r.value[..|r.value| - 1] == RestoreEntries<R>(rt, js[..|js| - 1], src, None, s).1.value;
    }
  }

  lemma HandOnStore<S(!new)>(rt: Runtime, last: Value, w: Walk<S>, w1: Walk<S>, p: Policy<S>, src: Source,
      inv: S -> bool, storable: (S, NdArray) -> bool)
    requires StoreReady(rt, p, inv, storable, w.store) && Grown(p, inv, storable, w.store, w1.store)
    requires Storable(last, p, w.store, storable) && Packed(w1.arrays, w1.cursor)
    requires Holds(src, ManifestTree(last, w1, p).0.arrays)
    ensures StoreReady(rt, p, inv, storable, w1.store) && Storable(last, p, w1.store, storable) && Holds(src, w1.arrays)
  {
    WalkPacks(last, w1, p);
    HoldsPrefix(src, w1.arrays, ManifestTree(last, w1, p).0.arrays);
    if Active(p) {
      StorableLater(last, p, w.store, w1.store, storable);
    } else {
      NothingExternalized(last, p, w1.store, storable);
    }
  }

  /** Every container is bound to the class of its document: for a class with another id or
      version, decode refuses it before the store is asked anything; and for the class itself
      that complaint can only be the store's own. */
  lemma OnlyItsOwnClass<S, R(!new)>(rt: Runtime, doc: Document, p: Policy<S>, store: S, b: seq<byte>, base: int,
      schemaId: seq<byte>, version: nat, api: Option<BlobApi<R>>, s: R)
    requires AnalyzeModel(rt, doc, p, store).1.Ok? && Carries(b, AnalyzeModel(rt, doc, p, store).1.value)
    ensures var r := Decode(rt, schemaId, version, b, base, api, s);
      && (schemaId != doc.schemaId || version != doc.schemaVersion ==> r == (s, Err(SchemaMismatch)))
      && (schemaId == doc.schemaId && version == doc.schemaVersion && r.1 == Err(SchemaMismatch) ==>
            Answers(api, t => true, Err(SchemaMismatch)))
  {
    CarriedHeader(b, AnalyzeModel(rt, doc, p, store).1.value);
    SchemaMismatchExactly(rt, schemaId, version, b, base, api, s);
  }

  /** Typed decode without a store, exactly: refused if a reference anywhere in the tree is
      invalid; else asking for a store if the tree holds a reference, or an array that the
      encoder put elsewhere; else successful. */
  lemma StoreRequiredExactly<S(!new), R(!new)>(rt: Runtime, doc: Document, p: Policy<S>, store: S, b: seq<byte>,
      base: int, s: R, inv: S -> bool, storable: (S, NdArray) -> bool)
    requires Lawful(rt) && Proper(rt, doc.tree) && Clean(doc.tree) && doc.tree.Dict?
    requires StoreReady(rt, p, inv, storable, store) && Storable(doc.tree, p, store, storable)
    requires AnalyzeModel(rt, doc, p, store).1.Ok? && Carries(b, AnalyzeModel(rt, doc, p, store).1.value)
    ensures var (s', r) := Decode<R>(rt, doc.schemaId, doc.schemaVersion, b, base, None, s);
      var invalid := exists path: seq<nat>, q :: At(doc.tree, path) == Some(Blob(q)) && !ValidRef(rt, q);
      var refers := exists path: seq<nat>, q :: At(doc.tree, path) == Some(Blob(q));
      var externalized := p.store.Some? && p.minBytes.Some? && exists path: seq<nat>, a ::
        At(doc.tree, path) == Some(Array(a)) && |a.bytes| >= p.minBytes.value;
      && s' == s
      && (r == Err(BadBlobRef) <==> invalid)
      && (r == Err(StoreRequired) <==> !invalid && (refers || externalized))
      && (r.Ok? <==> !invalid && !refers && !externalized)
  {
    DecodedWithoutStore(rt, doc, p, store, b, base, s, inv, storable);
    SomeInvalid(rt, doc.tree);
    SomeOutside(doc.tree, p);
  }

  lemma TypedFromGeneric<R>(rt: Runtime, b: seq<byte>, base: int, info: BinaryInfo, api: Option<BlobApi<R>>, s: R)
    requires ParseHeader(b) == Ok(info)
    ensures var (s', r) := DecodeAuto(rt, b, base, api, s);
      Decode(rt, info.schemaId, info.schemaVersion, b, base, api, s)
        == (s', if r.Ok? && ContainsBlobRef(r.value) then Err(StoreRequired) else r)
  {
  }

  lemma RootUnresolved<S(!new), R>(rt: Runtime, entries: seq<Entry>, w: Walk<S>, p: Policy<S>, src: Source, s: R,
      inv: S -> bool, storable: (S, NdArray) -> bool)
    requires Lawful(rt) && Proper(rt, Dict(entries)) && Clean(Dict(entries))
    requires StoreReady(rt, p, inv, storable, w.store) && Storable(Dict(entries), p, w.store, storable)
    requires var (w', m) := ManifestTree(Dict(entries), w, p);
      m.Ok? && Packed(w.arrays, w.cursor) && Holds(src, w'.arrays)
    ensures var (s', r) := RestoreTree<R>(rt, ManifestTree(Dict(entries), w, p).1.value, src, None, s);
      && (r.Ok? ==> r.value.Dict?)
      && s' == s && if !RefsValid(rt, Dict(entries)) then r == Err(BadBlobRef)
         else r.Ok? && (ContainsBlobRef(r.value) <==> !All(Dict(entries), InlineNode(p)))
  {
    TreeUnresolved(rt, Dict(entries), w, p, src, s, inv, storable);
    DictRestores<S, R>(rt, entries, w, p, src, None, s);
  }

  lemma DecodedWithoutStore<S(!new), R>(rt: Runtime, doc: Document, p: Policy<S>, store: S, b: seq<byte>,
      base: int, s: R, inv: S -> bool, storable: (S, NdArray) -> bool)
    requires Lawful(rt) && Proper(rt, doc.tree) && Clean(doc.tree) && doc.tree.Dict?
    requires StoreReady(rt, p, inv, storable, store) && Storable(doc.tree, p, store, storable)
    requires AnalyzeModel(rt, doc, p, store).1.Ok? && Carries(b, AnalyzeModel(rt, doc, p, store).1.value)
    ensures var (s', r) := Decode<R>(rt, doc.schemaId, doc.schemaVersion, b, base, None, s);
      s' == s && if !RefsValid(rt, doc.tree) then r == Err(BadBlobRef)
      else if !All(doc.tree, InlineNode(p)) then r == Err(StoreRequired)
      else r.Ok?
  {
    var plan := AnalyzeModel(rt, doc, p, store).1.value;
    CarriedIsReadable(b, base, plan);
    DecodeIsRestore<S, R>(rt, doc, p, store, b, base, None, s);
    RootUnresolved(rt, doc.tree.entries, Walk(0, [], store), p, SourceOf(b, base, InfoOf(plan)), s, inv, storable);
    TypedFromGeneric<R>(rt, b, base, InfoOf(plan), None, s);
  }

  lemma SomeInvalid(rt: Runtime, v: Value)
    ensures RefsValid(rt, v) <==> !exists path: seq<nat>, q :: At(v, path) == Some(Blob(q)) && !ValidRef(rt, q)
  {
    var refs := RefNode(rt);
    AllExactly(v, refs);
    if !RefsValid(rt, v) {
      var path := ExceptionAt(v, refs);
      assert At(v, path) == Some(Blob(At(v, path).value.ref));
    }
  }

  lemma SomeOutside<S>(v: Value, p: Policy<S>)
    ensures !All(v, InlineNode(p)) <==>
      || (exists path: seq<nat>, q :: At(v, path) == Some(Blob(q)))
      || (p.store.Some? && p.minBytes.Some? && exists path: seq<nat>, a ::
            At(v, path) == Some(Array(a)) && |a.bytes| >= p.minBytes.value)
  {
    var inline := InlineNode(p);
    AllExactly(v, inline);
    if !All(v, inline) {
      var path := ExceptionAt(v, inline);
      var x := At(v, path).value;
      assert At(v, path) == Some(if x.Blob? then Blob(x.ref) else Array(x.a));
    }
  }
}

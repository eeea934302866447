/** What a decode gives back: the reference meaning of a tree, and the proof that encoding
    and decoding realise it. */
module RoundTrip {
  import opened Core
  import opened Format
  import opened Model
  import opened Trees
  import opened Blob
  import opened Manifest
  import opened Container
  import opened Restore

  // ----- the trees the codec can carry -----

  /** Python's and NumPy's own invariants: distinct keys, payloads that fit their shapes. */
  predicate Proper(rt: Runtime, v: Value) {
    All(v, ProperNode(rt))
  }

  function ProperNode(rt: Runtime): Value -> bool {
    (v: Value) =>
      match v
      case Array(a) => Genuine(rt, a)
      case Dict(entries) => Distinct(EntryKeys(entries))
      case _ => true
  }

  function EntryKeys(entries: seq<Entry>): (keys: seq<string>)
    ensures |keys| == |entries|
    ensures forall i :: 0 <= i < |keys| ==> keys[i] == entries[i].key
  {
    seq(|entries|, i requires 0 <= i < |entries| => entries[i].key)
  }

  function ValueAt(entries: seq<Entry>, key: string): Option<Value> {
    if entries == [] then None
    else if entries[|entries| - 1].key == key then Some(entries[|entries| - 1].value)
    else ValueAt(entries[..|entries| - 1], key)
  }

  /** User data that the decoder would take for a reference: a singleton `$blob`, or a
      singleton `$bin` whose value has kind `ndarray`. */
  predicate Sentinel(entries: seq<Entry>) {
    |entries| == 1 &&
    (|| entries[0].key == "$blob"
     || (&& entries[0].key == "$bin" && entries[0].value.Dict?
         && ValueAt(entries[0].value.entries, "kind") == Some(Leaf(Str("ndarray")))))
  }

  /** No dictionary is a sentinel and no array has zero-byte elements. */
  predicate Clean(v: Value) {
    All(v, CleanNode)
  }

  predicate CleanNode(v: Value) {
    match v
    case Array(a) => a.dtype.itemsize > 0
    case Dict(entries) => !Sentinel(entries)
    case _ => true
  }

  // ----- the reference meaning -----

  /** What a decode should return for a tree: its normal form, with blob references resolved
      through den when a store of the given kind is at hand. No layout, no bytes. */
  function Ideal(rt: Runtime, v: Value, kind: Option<string>, den: BlobRef -> Result<NdArray, Fault>):
      Result<Value, Fault>
    decreases v, 1
  {
    match v
    case Blob(r) => IdealRef(rt, r, kind, den)
    case Dict(entries) =>
      var r := IdealEntries(rt, entries, kind, den);
      if r.Ok? then Ok(Dict(r.value)) else Err(r.error)
    case List(items) =>
      var r := IdealItems(rt, items, kind, den);
      if r.Ok? then Ok(List(r.value)) else Err(r.error)
    case Tuple(items) =>
      var r := IdealItems(rt, items, kind, den);
      if r.Ok? then Ok(List(r.value)) else Err(r.error)
    case _ => Ok(Erase(v))
  }

  function IdealRef(rt: Runtime, r: BlobRef, kind: Option<string>, den: BlobRef -> Result<NdArray, Fault>):
      Result<Value, Fault> {
    if !ValidRef(rt, r) then Err(BadBlobRef)
    else if kind.None? then Ok(Blob(r))
    else if kind.value != r.store then Err(WrongStore)
    else if den(r).Ok? then Ok(Array(den(r).value))
    else Err(den(r).error)
  }

  function IdealItems(rt: Runtime, items: seq<Value>, kind: Option<string>, den: BlobRef -> Result<NdArray, Fault>):
      Result<seq<Value>, Fault>
    decreases items, 0
  {
    if items == [] then Ok([])
    else
      var init := IdealItems(rt, items[..|items| - 1], kind, den);
      if init.Err? then init
      else
        var last := Ideal(rt, items[|items| - 1], kind, den);
        if last.Ok? then Ok(init.value + [last.value]) else Err(last.error)
  }

  function IdealEntries(rt: Runtime, entries: seq<Entry>, kind: Option<string>,
      den: BlobRef -> Result<NdArray, Fault>): Result<seq<Entry>, Fault>
    decreases entries, 0
  {
    if entries == [] then Ok([])
    else
      var e := entries[|entries| - 1];
      var init := IdealEntries(rt, entries[..|entries| - 1], kind, den);
      if init.Err? then init
      else
        var last := Ideal(rt, e.value, kind, den);
        if last.Ok? then Ok(init.value + [Entry(e.key, last.value)]) else Err(last.error)
  }

  // ----- stores during a walk -----

  /** The policy can externalise at all. */
  predicate Active<S>(p: Policy<S>) {
    p.store.Some? && p.minBytes.Some?
  }

  predicate Storable<S>(v: Value, p: Policy<S>, s: S, storable: (S, NdArray) -> bool) {
    All(v, StorableNode(p, s, storable))
  }

  function StorableNode<S>(p: Policy<S>, s: S, storable: (S, NdArray) -> bool): Value -> bool {
    (v: Value) => StorableAt(p, s, storable, v)
  }

  predicate StorableAt<S>(p: Policy<S>, s: S, storable: (S, NdArray) -> bool, v: Value) {
    v.Array? && Externalizes(p, v.a) ==> storable(s, v.a)
  }

  /** Everything s stores faithfully, t stores faithfully. */
  ghost predicate StoresAtLeast<S>(s: S, t: S, storable: (S, NdArray) -> bool) {
    forall a :: storable(s, a) ==> storable(t, a)
  }

  lemma StorableLater<S>(v: Value, p: Policy<S>, s: S, t: S, storable: (S, NdArray) -> bool)
    requires Storable(v, p, s, storable) && StoresAtLeast(s, t, storable)
    ensures Storable(v, p, t, storable)
  {
    AllImplies(v, StorableNode(p, s, storable), StorableNode(p, t, storable));
  }

  /** How the store may differ after a walk: still sound, nothing lost. */
  ghost predicate Grown<S(!new)>(p: Policy<S>, inv: S -> bool, storable: (S, NdArray) -> bool, s: S, t: S) {
    Active(p) ==> inv(t) && Extends(p.store.value, s, t) && StoresAtLeast(s, t, storable)
  }

  ghost predicate StoreReady<S(!new)>(rt: Runtime, p: Policy<S>, inv: S -> bool, storable: (S, NdArray) -> bool, s: S) {
    Active(p) ==> LawfulStore(rt, p.store.value, inv, storable) && inv(s)
  }

  lemma {:induction false} WalkGrowsStore<S(!new)>(
    rt: Runtime, v: Value, w: Walk<S>, p: Policy<S>, inv: S -> bool, storable: (S, NdArray) -> bool)
    requires StoreReady(rt, p, inv, storable, w.store) && Storable(v, p, w.store, storable)
    ensures Grown(p, inv, storable, w.store, ManifestTree(v, w, p).0.store)
    decreases v, 1
  {
    match v
    case Array(a) =>
      if PlainDType(a.dtype) && Externalizes(p, a) {
        assert PutLaw(rt, p.store.value, inv, storable, w.store, a);
      }
    case Dict(entries) => EntriesGrowStore(rt, entries, w, p, inv, storable);
    case List(items) => ItemsGrowStore(rt, items, w, p, inv, storable);
    case Tuple(items) => ItemsGrowStore(rt, items, w, p, inv, storable);
    case _ =>
  }

  lemma {:induction false} ItemsGrowStore<S(!new)>(
    rt: Runtime, items: seq<Value>, w: Walk<S>, p: Policy<S>, inv: S -> bool, storable: (S, NdArray) -> bool)
    requires StoreReady(rt, p, inv, storable, w.store) && AllItems(items, StorableNode(p, w.store, storable))
    ensures Grown(p, inv, storable, w.store, ManifestItems(items, w, p).0.store)
    decreases items, 0
  {
    if items != [] {
      var init, last := items[..|items| - 1], items[|items| - 1];
      ItemsGrowStore(rt, init, w, p, inv, storable);
      var w1 := ManifestItems(init, w, p).0;
      if Active(p) {
        StorableLater(last, p, w.store, w1.store, storable);
        WalkGrowsStore(rt, last, w1, p, inv, storable);
      }
    }
  }

  lemma {:induction false} EntriesGrowStore<S(!new)>(
    rt: Runtime, entries: seq<Entry>, w: Walk<S>, p: Policy<S>, inv: S -> bool, storable: (S, NdArray) -> bool)
    requires StoreReady(rt, p, inv, storable, w.store) && AllEntries(entries, StorableNode(p, w.store, storable))
    ensures Grown(p, inv, storable, w.store, ManifestEntries(entries, w, p).0.store)
    decreases entries, 0
  {
    if entries != [] {
      var init, last := entries[..|entries| - 1], entries[|entries| - 1].value;
      EntriesGrowStore(rt, init, w, p, inv, storable);
      var w1 := ManifestEntries(init, w, p).0;
      if Active(p) {
        StorableLater(last, p, w.store, w1.store, storable);
        WalkGrowsStore(rt, last, w1, p, inv, storable);
      }
    }
  }

  // ----- the decoder meets the reference meaning -----

  /** den is what the store serves. */
  ghost predicate Serves<S(!new)>(api: Option<BlobApi<S>>, s: S, den: BlobRef -> Result<NdArray, Fault>) {
    api.Some? ==> forall r :: Denotes(api.value, s, r) == den(r)
  }

  /** den covers what a walk has stored up to state s. */
  ghost predicate Covers<S(!new)>(p: Policy<S>, s: S, den: BlobRef -> Result<NdArray, Fault>) {
    Active(p) ==> forall r :: Denotes(p.store.value, s, r).Ok? ==> den(r) == Denotes(p.store.value, s, r)
  }

  /** The data section holds every array of the list. */
  ghost predicate Holds(src: Source, arrays: seq<Placed>) {
    forall i :: 0 <= i < |arrays| ==> HoldsPlaced(src, arrays[i])
  }

  predicate HoldsPlaced(src: Source, q: Placed) {
    && End(q) <= src.dataBytes && src.dataStart + End(q) <= |src.bytes|
    && src.bytes[src.dataStart + q.offset..src.dataStart + End(q)] == q.a.bytes
  }

  lemma HoldsPrefix(src: Source, some: seq<Placed>, all: seq<Placed>)
    requires some <= all && Holds(src, all)
    ensures Holds(src, some)
  {
    forall i | 0 <= i < |some| ensures HoldsPlaced(src, some[i]) {
      assert some[i] == all[i];
    }
  }

  /** The state of a decode that runs against a matching store. */
  ghost predicate DecodeReady<S(!new)>(rt: Runtime, p: Policy<S>, api: Option<BlobApi<S>>, s: S, inv: S -> bool,
                                       storable: (S, NdArray) -> bool, den: BlobRef -> Result<NdArray, Fault>)
  {
    && Lawful(rt)
    && (Active(p) ==> api == p.store)
    && (api.Some? ==> LawfulStore(rt, api.value, inv, storable) && inv(s))
    && Serves(api, s, den)
  }

  function KindOf<S>(api: Option<BlobApi<S>>): Option<string> {
    if api.Some? then Some(api.value.kind) else None
  }

  lemma ManifestKeepsKeys<S>(entries: seq<Entry>, w: Walk<S>, p: Policy<S>)
    requires ManifestEntries(entries, w, p).1.Ok?
    ensures var js := ManifestEntries(entries, w, p).1.value;
      |js| == |entries| && forall i :: 0 <= i < |js| ==> js[i].key == entries[i].key
    decreases |entries|
  {
    if entries != [] {
      ManifestKeepsKeys(entries[..|entries| - 1], w, p);
    }
  }

  /** A looked-up scalar is a manifest scalar, and nothing else is. */
  lemma {:induction false} LookupInManifest<S>(entries: seq<Entry>, w: Walk<S>, p: Policy<S>, key: string,
      scalar: Scalar)
    requires ManifestEntries(entries, w, p).1.Ok?
    ensures Lookup(ManifestEntries(entries, w, p).1.value, key) == Some(Atom(scalar))
            <==> ValueAt(entries, key) == Some(Leaf(scalar))
    decreases |entries|
  {
    if entries != [] {
      var init, e := entries[..|entries| - 1], entries[|entries| - 1];
      LookupInManifest(init, w, p, key, scalar);
      var js := ManifestEntries(entries, w, p).1.value;
      assert js[..|js| - 1] == ManifestEntries(init, w, p).1.value;
    }
  }

  /** The decoder takes a manifest dictionary for a reference exactly if the user's
      dictionary was a sentinel. */
  lemma SentinelsAreSeen<S>(entries: seq<Entry>, w: Walk<S>, p: Policy<S>)
    requires ManifestEntries(entries, w, p).1.Ok?
    ensures var js := ManifestEntries(entries, w, p).1.value;
      Sentinel(entries) <==> Only(js, "$blob") || IsArrayRef(js)
  {
    var js := ManifestEntries(entries, w, p).1.value;
    ManifestKeepsKeys(entries, w, p);
    if |entries| == 1 {
      var init := entries[..0];
      assert ManifestEntries(init, w, p) == (w, Ok([]));
      assert js == [] + [JEntry(entries[0].key, ManifestTree(entries[0].value, w, p).1.value)];
      var v := entries[0].value;
      var j := ManifestTree(v, w, p).1.value;
      match v {
        case Dict(inner) => LookupInManifest(inner, w, p, "kind", Str("ndarray"));
        case Array(_) => LookupInSingleton(j.entries[0], "kind");
        case Blob(_) => LookupInSingleton(j.entries[0], "kind");
        case _ =>
      }
    }
  }

  lemma LookupInSingleton(e: JEntry, key: string)
    ensures Lookup([e], key) == if e.key == key then Some(e.value) else None
  {
    assert Lookup([e][..0], key) == None;
  }

  lemma BinFieldsFound(offset: nat, a: NdArray)
    ensures var fs := BinFields(offset, a);
      && Lookup(fs, "kind") == Some(Atom(Str("ndarray")))
      && Lookup(fs, "offset") == Some(Atom(Int(offset)))
      && Lookup(fs, "nbytes") == Some(Atom(Int(|a.bytes|)))
      && Lookup(fs, "dtype") == Some(Atom(Str(a.dtype.name)))
      && Lookup(fs, "shape") == Some(ShapeJson(a.shape))
  {
    var fs := BinFields(offset, a);
    LookupFinds(fs, 0);
    LookupFinds(fs, 1);
    LookupFinds(fs, 2);
    LookupFinds(fs, 3);
    LookupFinds(fs, 4);
  }

  /** An inline array comes back as a view with the same dtype, shape and bytes. */
  lemma InlineReadsBack(rt: Runtime, offset: nat, a: NdArray, src: Source)
    requires Lawful(rt) && Genuine(rt, a) && PlainDType(a.dtype)
    requires HoldsPlaced(src, Placed(offset, a))
    ensures RestoreArray(rt, BinFields(offset, a), src) ==
      if a.dtype.itemsize == 0 then Err(BadByteSize)
      else Ok(a.(addr := src.base + src.dataStart + offset))
  {
    BinFieldsFound(offset, a);
    ShapeReadsBack(rt, a.shape);
    ExactDivision(Product(a.shape), a.dtype.itemsize);
  }

  lemma ExactDivision(count: int, size: nat)
    ensures size > 0 && count * size >= 0 ==> (count * size) % size == 0
  {
    if size > 0 && count >= 0 {
      MultipleHasNoRemainder(count, size);
    }
  }

  lemma RestoreInline<S>(rt: Runtime, offset: nat, a: NdArray, src: Source, api: Option<BlobApi<S>>, s: S)
    requires Lawful(rt) && Genuine(rt, a) && PlainDType(a.dtype)
    requires HoldsPlaced(src, Placed(offset, a))
    ensures RestoreTree(rt, BinJson(offset, a), src, api, s) ==
      (s, if a.dtype.itemsize == 0 then Err(BadByteSize)
          else Ok(Array(a.(addr := src.base + src.dataStart + offset))))
  {
    BinFieldsFound(offset, a);
    InlineReadsBack(rt, offset, a, src);
    assert IsArrayRef(BinJson(offset, a).entries);
  }

  /** The store does not notice that it is being decoded from. */
  ghost predicate StillReady<S(!new)>(api: Option<BlobApi<S>>, s: S, inv: S -> bool,
      den: BlobRef -> Result<NdArray, Fault>) {
    api.Some? ==> inv(s) && Serves(api, s, den)
  }

  lemma RestoreRefIsIdeal<S(!new)>(
    rt: Runtime, r: BlobRef, p: Policy<S>, src: Source, api: Option<BlobApi<S>>, s: S,
    inv: S -> bool, storable: (S, NdArray) -> bool, den: BlobRef -> Result<NdArray, Fault>)
    requires DecodeReady(rt, p, api, s, inv, storable, den)
    ensures var (s', v) := RestoreTree(rt, BlobJson(r), src, api, s);
      EraseResult(v) == IdealRef(rt, r, KindOf(api), den) && StillReady(api, s', inv, den)
  {
    RefRoundTrip(rt, r);
    if api.Some? {
      assert GetLaw(rt, api.value, inv, storable, s, r);
      assert Denotes(api.value, s, r) == den(r);
    }
  }

  lemma ArrayIsIdeal<S(!new)>(
    rt: Runtime, a: NdArray, w: Walk<S>, p: Policy<S>, src: Source, api: Option<BlobApi<S>>, s: S,
    inv: S -> bool, storable: (S, NdArray) -> bool, den: BlobRef -> Result<NdArray, Fault>)
    requires DecodeReady(rt, p, api, s, inv, storable, den)
    requires Genuine(rt, a) && a.dtype.itemsize > 0
    requires ArrayStep(a, w, p).1.Ok?
    requires Active(p) ==> inv(w.store)
    requires Externalizes(p, a) ==> storable(w.store, a)
    requires Covers(p, ArrayStep(a, w, p).0.store, den)
    requires Holds(src, ArrayStep(a, w, p).0.arrays)
    ensures var (s', r) := RestoreTree(rt, ArrayStep(a, w, p).1.value, src, api, s);
      EraseResult(r) == Ok(Array(Content(a))) && StillReady(api, s', inv, den)
  {
    if Externalizes(p, a) {
      var (t, ref) := p.store.value.put(w.store, a);
      assert PutLaw(rt, p.store.value, inv, storable, w.store, a);
      assert Denotes(p.store.value, t, ref) == den(ref);
      RestoreRefIsIdeal(rt, ref, p, src, api, s, inv, storable, den);
    } else {
      var arrays := ArrayStep(a, w, p).0.arrays;
      var placed := arrays[|arrays| - 1];
      assert HoldsPlaced(src, placed);
      RestoreInline(rt, placed.offset, a, src, api, s);
    }
  }

  /** The manifest of a dictionary that is no sentinel is restored entry by entry. */
  lemma DictRestores<S, R>(rt: Runtime, entries: seq<Entry>, w: Walk<S>, p: Policy<S>, src: Source,
      api: Option<BlobApi<R>>, s: R)
    requires ManifestEntries(entries, w, p).1.Ok? && !Sentinel(entries)
    ensures var js := ManifestEntries(entries, w, p).1.value;
      var (s', r) := RestoreEntries(rt, js, src, api, s);
      RestoreTree(rt, JDict(js), src, api, s) == (s', if r.Ok? then Ok(Dict(r.value)) else Err(r.error))
  {
    SentinelsAreSeen(entries, w, p);
  }

  lemma DictIsIdeal<S>(rt: Runtime, entries: seq<Entry>, w: Walk<S>, p: Policy<S>, src: Source,
      api: Option<BlobApi<S>>, s: S, den: BlobRef -> Result<NdArray, Fault>)
    requires ManifestEntries(entries, w, p).1.Ok? && !Sentinel(entries)
    requires EraseEntriesResult(RestoreEntries(rt, ManifestEntries(entries, w, p).1.value, src, api, s).1)
          == IdealEntries(rt, entries, KindOf(api), den)
    ensures var j := ManifestTree(Dict(entries), w, p).1.value;
      && RestoreTree(rt, j, src, api, s).0 == RestoreEntries(rt, j.entries, src, api, s).0
      && EraseResult(RestoreTree(rt, j, src, api, s).1) == Ideal(rt, Dict(entries), KindOf(api), den)
  {
    DictRestores(rt, entries, w, p, src, api, s);
  }

  lemma {:induction false} RestoreIsIdeal<S(!new)>(
    rt: Runtime, v: Value, w: Walk<S>, p: Policy<S>, src: Source, api: Option<BlobApi<S>>, s: S,
    inv: S -> bool, storable: (S, NdArray) -> bool, den: BlobRef -> Result<NdArray, Fault>)
    requires DecodeReady(rt, p, api, s, inv, storable, den)
    requires Proper(rt, v) && Clean(v)
    requires ManifestTree(v, w, p).1.Ok? && Packed(w.arrays, w.cursor)
    requires Active(p) ==> inv(w.store)
    requires Storable(v, p, w.store, storable)
    requires Covers(p, ManifestTree(v, w, p).0.store, den)
    requires Holds(src, ManifestTree(v, w, p).0.arrays)
    ensures var (s', r) := RestoreTree(rt, ManifestTree(v, w, p).1.value, src, api, s);
      EraseResult(r) == Ideal(rt, v, KindOf(api), den) && StillReady(api, s', inv, den)
    decreases v, 1
  {
    match v
    case Array(a) =>
      ArrayIsIdeal(rt, a, w, p, src, api, s, inv, storable, den);
    case Blob(r) => RestoreRefIsIdeal(rt, r, p, src, api, s, inv, storable, den);
    case Dict(entries) =>
      EntriesAreIdeal(rt, entries, w, p, src, api, s, inv, storable, den);
      DictIsIdeal(rt, entries, w, p, src, api, s, den);
    case List(items) => ItemsAreIdeal(rt, items, w, p, src, api, s, inv, storable, den);
    case Tuple(items) => ItemsAreIdeal(rt, items, w, p, src, api, s, inv, storable, den);
    case Leaf(_) =>
  }

  function EraseItemsResult(r: Result<seq<Value>, Fault>): Result<seq<Value>, Fault> {
    match r
    case Ok(items) => Ok(EraseItems(items))
    case Err(f) => Err(f)
  }

  function EraseEntriesResult(r: Result<seq<Entry>, Fault>): Result<seq<Entry>, Fault> {
    match r
    case Ok(entries) => Ok(EraseEntries(entries))
    case Err(f) => Err(f)
  }

  lemma EraseAppendItem(items: seq<Value>, v: Value)
    ensures EraseItems(items + [v]) == EraseItems(items) + [Erase(v)]
  {
    assert (items + [v])[..|items|] == items;
  }

  lemma EraseAppendEntry(entries: seq<Entry>, e: Entry)
    ensures EraseEntries(entries + [e]) == EraseEntries(entries) + [Entry(e.key, Erase(e.value))]
  {
    assert (entries + [e])[..|entries|] == entries;
  }

  /** The step conditions that a walk over all but the last child hands on. */
  lemma HandOn<S(!new)>(
    rt: Runtime, last: Value, w: Walk<S>, w1: Walk<S>, p: Policy<S>, src: Source,
    inv: S -> bool, storable: (S, NdArray) -> bool, den: BlobRef -> Result<NdArray, Fault>)
    requires StoreReady(rt, p, inv, storable, w.store) && Grown(p, inv, storable, w.store, w1.store)
    requires Storable(last, p, w.store, storable) && Packed(w1.arrays, w1.cursor)
    requires Covers(p, ManifestTree(last, w1, p).0.store, den)
    requires Holds(src, ManifestTree(last, w1, p).0.arrays)
    ensures Active(p) ==> inv(w1.store)
    ensures Storable(last, p, w1.store, storable)
    ensures Covers(p, w1.store, den)
    ensures Holds(src, w1.arrays)
  {
    WalkPacks(last, w1, p);
    if Active(p) {
      StorableLater(last, p, w.store, w1.store, storable);
      WalkGrowsStore(rt, last, w1, p, inv, storable);
    } else {
      NothingExternalized(last, p, w1.store, storable);
    }
    HoldsPrefix(src, w1.arrays, ManifestTree(last, w1, p).0.arrays);
  }

  lemma NothingExternalized<S>(v: Value, p: Policy<S>, t: S, storable: (S, NdArray) -> bool)
    requires !Active(p)
    ensures Storable(v, p, t, storable)
  {
    forall x ensures StorableNode(p, t, storable)(x) {
      assert StorableAt(p, t, storable, x);
    }
    AllAlways(v, StorableNode(p, t, storable));
  }

  lemma {:induction false} ItemsAreIdeal<S(!new)>(
    rt: Runtime, items: seq<Value>, w: Walk<S>, p: Policy<S>, src: Source, api: Option<BlobApi<S>>, s: S,
    inv: S -> bool, storable: (S, NdArray) -> bool, den: BlobRef -> Result<NdArray, Fault>)
    requires DecodeReady(rt, p, api, s, inv, storable, den)
    requires AllItems(items, ProperNode(rt)) && AllItems(items, CleanNode)
    requires ManifestItems(items, w, p).1.Ok? && Packed(w.arrays, w.cursor)
    requires Active(p) ==> inv(w.store)
    requires AllItems(items, StorableNode(p, w.store, storable))
    requires Covers(p, ManifestItems(items, w, p).0.store, den)
    requires Holds(src, ManifestItems(items, w, p).0.arrays)
    ensures var (s', r) := RestoreItems(rt, ManifestItems(items, w, p).1.value, src, api, s);
      EraseItemsResult(r) == IdealItems(rt, items, KindOf(api), den) && StillReady(api, s', inv, den)
    decreases items, 0
  {
    if items != [] {
      var init, last := items[..|items| - 1], items[|items| - 1];
      var w1 := ManifestItems(init, w, p).0;
      ItemsPack(init, w, p);
      ItemsGrowStore(rt, init, w, p, inv, storable);
      HandOn(rt, last, w, w1, p, src, inv, storable, den);
      ItemsAreIdeal(rt, init, w, p, src, api, s, inv, storable, den);
      var js := ManifestItems(items, w, p).1.value;
      assert js[..|js| - 1] == ManifestItems(init, w, p).1.value;
      var (s1, before) := RestoreItems(rt, js[..|js| - 1], src, api, s);
      if before.Ok? {
        RestoreIsIdeal(rt, last, w1, p, src, api, s1, inv, storable, den);
        var tail := RestoreTree(rt, js[|js| - 1], src, api, s1).1;
        if tail.Ok? {
          EraseAppendItem(before.value, tail.value);
        }
      }
    }
  }

  lemma {:induction false} EntriesAreIdeal<S(!new)>(
    rt: Runtime, entries: seq<Entry>, w: Walk<S>, p: Policy<S>, src: Source, api: Option<BlobApi<S>>, s: S,
    inv: S -> bool, storable: (S, NdArray) -> bool, den: BlobRef -> Result<NdArray, Fault>)
    requires DecodeReady(rt, p, api, s, inv, storable, den)
    requires AllEntries(entries, ProperNode(rt)) && AllEntries(entries, CleanNode)
    requires ManifestEntries(entries, w, p).1.Ok? && Packed(w.arrays, w.cursor)
    requires Active(p) ==> inv(w.store)
    requires AllEntries(entries, StorableNode(p, w.store, storable))
    requires Covers(p, ManifestEntries(entries, w, p).0.store, den)
    requires Holds(src, ManifestEntries(entries, w, p).0.arrays)
    ensures var (s', r) := RestoreEntries(rt, ManifestEntries(entries, w, p).1.value, src, api, s);
      EraseEntriesResult(r) == IdealEntries(rt, entries, KindOf(api), den) && StillReady(api, s', inv, den)
    decreases entries, 0
  {
    if entries != [] {
      var init, e := entries[..|entries| - 1], entries[|entries| - 1];
      var w1 := ManifestEntries(init, w, p).0;
      EntriesPack(init, w, p);
      EntriesGrowStore(rt, init, w, p, inv, storable);
      HandOn(rt, e.value, w, w1, p, src, inv, storable, den);
      EntriesAreIdeal(rt, init, w, p, src, api, s, inv, storable, den);
      var js := ManifestEntries(entries, w, p).1.value;
      assert js[..|js| - 1] == ManifestEntries(init, w, p).1.value;
      var (s1, before) := RestoreEntries(rt, js[..|js| - 1], src, api, s);
      if before.Ok? {
        RestoreIsIdeal(rt, e.value, w1, p, src, api, s1, inv, storable, den);
        var tail := RestoreTree(rt, js[|js| - 1].value, src, api, s1).1;
        if tail.Ok? {
          EraseAppendEntry(before.value, Entry(e.key, tail.value));
        }
      }
    }
  }

  // ----- whole containers -----

  /** A buffer that starts with the container of a plan. */
  ghost predicate Carries(b: seq<byte>, plan: Plan) {
    && Laid(plan) && Packable(InfoOf(plan))
    && TotalSize(plan) <= |b|
    && b[..TotalSize(plan)] == ContainerBytes(plan)
  }

  lemma CarriedBytes(b: seq<byte>, plan: Plan)
    requires Carries(b, plan)
    ensures InFiveParts(b[..TotalSize(plan)], PackHeader(InfoOf(plan)), plan.metadata, plan.dataStart,
      Payload(plan.arrays))
  {
    ContainerInFiveParts(plan);
  }

  lemma CarriedHeader(b: seq<byte>, plan: Plan)
    requires Carries(b, plan)
    ensures ParseHeader(b) == Ok(InfoOf(plan))
  {
    CarriedBytes(b, plan);
    var c, h := b[..TotalSize(plan)], PackHeader(InfoOf(plan));
    SizeIsTight(plan);
    forall k | 0 <= k < HEADER_SIZE ensures b[k] == h[k] {
      assert b[k] == c[k];
    }
    assert b[..HEADER_SIZE] == h;
    PlansAreCoherent(plan);
    ParseUndoesPack(InfoOf(plan), b);
  }

  lemma CarriedMetadata(b: seq<byte>, plan: Plan)
    requires Carries(b, plan)
    ensures HEADER_SIZE + |plan.metadata| <= |b|
    ensures b[HEADER_SIZE..HEADER_SIZE + |plan.metadata|] == plan.metadata
  {
    CarriedBytes(b, plan);
    SizeIsTight(plan);
    MetadataSlice(b, b[..TotalSize(plan)], PackHeader(InfoOf(plan)), plan.metadata, plan.dataStart,
      Payload(plan.arrays));
  }

  lemma MetadataSlice(b: seq<byte>, c: seq<byte>, header: seq<byte>, metadata: seq<byte>, start: nat,
      payload: seq<byte>)
    requires |header| == HEADER_SIZE && c <= b && InFiveParts(c, header, metadata, start, payload)
    ensures b[HEADER_SIZE..HEADER_SIZE + |metadata|] == metadata
  {
    forall k | 0 <= k < |metadata| ensures b[HEADER_SIZE + k] == metadata[k] {
      assert b[HEADER_SIZE + k] == c[HEADER_SIZE + k];
    }
  }

  lemma CarriedArrays(b: seq<byte>, base: int, plan: Plan)
    requires Carries(b, plan)
    ensures Holds(SourceOf(b, base, InfoOf(plan)), plan.arrays)
  {
    CarriedBytes(b, plan);
    PayloadHoldsAll(plan);
    SizeIsTight(plan);
    ArraysInPlace(SourceOf(b, base, InfoOf(plan)), b[..TotalSize(plan)], PackHeader(InfoOf(plan)), plan.metadata,
                  Payload(plan.arrays), plan.arrays);
  }

  lemma ArraysInPlace(src: Source, c: seq<byte>, header: seq<byte>, metadata: seq<byte>, payload: seq<byte>,
      arrays: seq<Placed>)
    requires c <= src.bytes && InFiveParts(c, header, metadata, src.dataStart, payload) && |payload| == src.dataBytes
    requires forall i :: 0 <= i < |arrays| ==> HoldsArray(payload, arrays, i)
    ensures Holds(src, arrays)
  {
    var b, start := src.bytes, src.dataStart;
    forall i | 0 <= i < |arrays| ensures HoldsPlaced(src, arrays[i]) {
      var q := arrays[i];
      assert HoldsArray(payload, arrays, i);
      forall k | start + q.offset <= k < start + End(q) ensures b[k] == q.a.bytes[k - start - q.offset] {
        assert b[k] == c[k] == payload[k - start];
      }
    }
  }

  /** What the decoder needs to find in a buffer. */
  ghost predicate Readable(b: seq<byte>, base: int, plan: Plan) {
    && ParseHeader(b) == Ok(InfoOf(plan))
    && HEADER_SIZE + |plan.metadata| <= |b|
    && b[HEADER_SIZE..HEADER_SIZE + |plan.metadata|] == plan.metadata
    && Holds(SourceOf(b, base, InfoOf(plan)), plan.arrays)
  }

  lemma CarriedIsReadable(b: seq<byte>, base: int, plan: Plan)
    requires Carries(b, plan)
    ensures Readable(b, base, plan)
  {
    CarriedHeader(b, plan);
    CarriedMetadata(b, plan);
    CarriedArrays(b, base, plan);
  }

  lemma BinIsWellFormed(offset: nat, a: NdArray)
    ensures WellFormed(BinJson(offset, a))
  {
    var fields := BinFields(offset, a);
    forall e | e in fields ensures WellFormed(e.value) {
    }
    assert WellFormed(JDict(fields));
  }

  lemma {:induction false} ManifestIsWellFormed<S>(rt: Runtime, v: Value, w: Walk<S>, p: Policy<S>)
    requires Proper(rt, v) && ManifestTree(v, w, p).1.Ok?
    ensures WellFormed(ManifestTree(v, w, p).1.value)
    decreases v, 1
  {
    match v
    case Array(a) =>
      if Externalizes(p, a) {
        ManifestWellFormed(p.store.value.put(w.store, a).1);
      } else {
        BinIsWellFormed(AlignUp(w.cursor, ARRAY_ALIGNMENT), a);
      }
    case Blob(r) => ManifestWellFormed(r);
    case Dict(entries) =>
      EntriesAreWellFormed(rt, entries, w, p);
      ManifestKeepsKeys(entries, w, p);
      var js := ManifestEntries(entries, w, p).1.value;
      assert KeysOf(js) == EntryKeys(entries);
    case List(items) => ItemsAreWellFormed(rt, items, w, p);
    case Tuple(items) => ItemsAreWellFormed(rt, items, w, p);
    case Leaf(_) =>
  }

  lemma {:induction false} ItemsAreWellFormed<S>(rt: Runtime, items: seq<Value>, w: Walk<S>, p: Policy<S>)
    requires AllItems(items, ProperNode(rt)) && ManifestItems(items, w, p).1.Ok?
    ensures forall j | j in ManifestItems(items, w, p).1.value :: WellFormed(j)
    decreases items, 0
  {
    if items != [] {
      var init := items[..|items| - 1];
      ItemsAreWellFormed(rt, init, w, p);
      ManifestIsWellFormed(rt, items[|items| - 1], ManifestItems(init, w, p).0, p);
    }
  }

  lemma {:induction false} EntriesAreWellFormed<S>(rt: Runtime, entries: seq<Entry>, w: Walk<S>, p: Policy<S>)
    requires AllEntries(entries, ProperNode(rt)) && ManifestEntries(entries, w, p).1.Ok?
    ensures forall e | e in ManifestEntries(entries, w, p).1.value :: WellFormed(e.value)
    decreases entries, 0
  {
    if entries != [] {
      var init := entries[..|entries| - 1];
      EntriesAreWellFormed(rt, init, w, p);
      ManifestIsWellFormed(rt, entries[|entries| - 1].value, ManifestEntries(init, w, p).0, p);
    }
  }

  /** Decoding a carried container is restoring its manifest. */
  lemma DecodeIsRestore<S, R>(rt: Runtime, doc: Document, p: Policy<S>, store: S, b: seq<byte>, base: int,
                              api: Option<BlobApi<R>>, s: R)
    requires Lawful(rt) && Proper(rt, doc.tree)
    requires AnalyzeModel(rt, doc, p, store).1.Ok? && Readable(b, base, AnalyzeModel(rt, doc, p, store).1.value)
    ensures var m := ManifestTree(doc.tree, Walk(0, [], store), p).1.value;
      var plan := AnalyzeModel(rt, doc, p, store).1.value;
      var (s', r) := RestoreTree(rt, m, SourceOf(b, base, InfoOf(plan)), api, s);
      DecodeAuto(rt, b, base, api, s) == (s', if r.Ok? && !r.value.Dict? then Err(TopLevelNotObject) else r)
  {
    var plan := AnalyzeModel(rt, doc, p, store).1.value;
    ManifestIsWellFormed(rt, doc.tree, Walk(0, [], store), p);
  }

  /** The central result: whatever the layout, the threshold and the store, decoding an
      encoded tree yields its reference meaning. The buffer may be longer than needed. */
  lemma DecodeMeetsIdeal<S(!new)>(
    rt: Runtime, doc: Document, p: Policy<S>, store: S, b: seq<byte>, base: int, api: Option<BlobApi<S>>, s: S,
    inv: S -> bool, storable: (S, NdArray) -> bool, den: BlobRef -> Result<NdArray, Fault>)
    requires DecodeReady(rt, p, api, s, inv, storable, den)
    requires Proper(rt, doc.tree) && Clean(doc.tree) && doc.tree.Dict?
    requires AnalyzeModel(rt, doc, p, store).1.Ok? && Readable(b, base, AnalyzeModel(rt, doc, p, store).1.value)
    requires Active(p) ==> inv(store)
    requires Storable(doc.tree, p, store, storable)
    requires Covers(p, AnalyzeModel(rt, doc, p, store).0, den)
    ensures var (s', r) := DecodeAuto(rt, b, base, api, s);
      EraseResult(r) == Ideal(rt, doc.tree, KindOf(api), den) && StillReady(api, s', inv, den)
  {
    var plan := AnalyzeModel(rt, doc, p, store).1.value;
    var src := SourceOf(b, base, InfoOf(plan));
    RestoreMeetsIdeal(rt, doc, p, store, src, api, s, inv, storable, den);
    IdealOfDict(rt, doc.tree, KindOf(api), den);
    DecodeIsRestore(rt, doc, p, store, b, base, api, s);
    DictsErase(RestoreTree(rt, ManifestTree(doc.tree, Walk(0, [], store), p).1.value, src, api, s).1);
  }

  lemma RestoreMeetsIdeal<S(!new)>(
    rt: Runtime, doc: Document, p: Policy<S>, store: S, src: Source, api: Option<BlobApi<S>>, s: S,
    inv: S -> bool, storable: (S, NdArray) -> bool, den: BlobRef -> Result<NdArray, Fault>)
    requires DecodeReady(rt, p, api, s, inv, storable, den)
    requires Proper(rt, doc.tree) && Clean(doc.tree)
    requires AnalyzeModel(rt, doc, p, store).1.Ok?
    requires Holds(src, AnalyzeModel(rt, doc, p, store).1.value.arrays)
    requires Active(p) ==> inv(store)
    requires Storable(doc.tree, p, store, storable)
    requires Covers(p, AnalyzeModel(rt, doc, p, store).0, den)
    ensures var (s', r) := RestoreTree(rt, ManifestTree(doc.tree, Walk(0, [], store), p).1.value, src, api, s);
      EraseResult(r) == Ideal(rt, doc.tree, KindOf(api), den) && StillReady(api, s', inv, den)
  {
    RestoreIsIdeal(rt, doc.tree, Walk(0, [], store), p, src, api, s, inv, storable, den);
  }

  lemma DictsErase(r: Result<Value, Fault>)
    ensures r.Ok? ==> (EraseResult(r).value.Dict? <==> r.value.Dict?)
  {
  }

  lemma IdealOfDict(rt: Runtime, v: Value, kind: Option<string>, den: BlobRef -> Result<NdArray, Fault>)
    requires v.Dict?
    ensures Ideal(rt, v, kind, den).Ok? ==> Ideal(rt, v, kind, den).value.Dict?
  {
  }
}

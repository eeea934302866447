/** The decoder: references in the manifest become views of the buffer or stored arrays
    (src/npb/_codec.py, _restore_tree to decode). */
module Restore {
  import opened Core
  import opened Format
  import opened Model
  import opened Blob

  /** The buffer being decoded, the address it lives at, and its data section. */
  datatype Source = Source(bytes: seq<byte>, base: int, dataStart: nat, dataBytes: nat)

  /** A `$bin` reference of kind ndarray, turned into a zero-copy view. */
  function RestoreArray(rt: Runtime, fields: seq<JEntry>, src: Source): Result<NdArray, Fault> {
    var offset := IntField(rt, fields, "offset", BadArrayRef);
    if offset.Err? then Err(offset.error) else
    var nbytes := IntField(rt, fields, "nbytes", BadArrayRef);
    if nbytes.Err? then Err(nbytes.error) else
    var dtype := Lookup(fields, "dtype");
    if dtype.None? || rt.dtypeOf(dtype.value).None? then Err(BadArrayRef) else
    var dims := ShapeField(rt, fields, BadArrayRef);
    if dims.Err? then Err(dims.error)
    else ViewOf(offset.value, nbytes.value, rt.dtypeOf(dtype.value).value, dims.value, src)
  }

  function ViewOf(offset: int, nbytes: int, dtype: DType, shape: seq<int>, src: Source): Result<NdArray, Fault> {
    if !PlainDType(dtype) then Err(ArrayDType)
    else if offset < 0 || nbytes < 0 then Err(NegativeExtent)
    else if !NonNegative(shape) then Err(NegativeDim)
    else if dtype.itemsize <= 0 || nbytes % dtype.itemsize != 0 then Err(BadByteSize)
    else if Product(shape) * dtype.itemsize != nbytes then Err(ShapeMismatch)
    else if offset + nbytes > src.dataBytes then Err(BeyondData)
    else if src.dataStart + offset + nbytes > |src.bytes| then Err(BeyondEncoded)
    else
      var at := src.dataStart + offset;
      Ok(NdArray(dtype, shape, src.bytes[at..at + nbytes], src.base + at))
  }

  /** Which array an array reference stands for, exactly: a plain one whose payload fits its
      shape, with the size, dtype and shape that the fields spell out, lying at the offset that
      they give in the data section. */
  lemma RestoresExactly(rt: Runtime, fields: seq<JEntry>, src: Source, a: NdArray)
    ensures RestoreArray(rt, fields, src) == Ok(a) <==>
      var at := a.addr - src.base;
      && (exists x :: Lookup(fields, "offset") == Some(x) && rt.intOf(x) == Ok(at - src.dataStart))
      && (exists x :: Lookup(fields, "nbytes") == Some(x) && rt.intOf(x) == Ok(|a.bytes|))
      && (exists x :: Lookup(fields, "dtype") == Some(x) && rt.dtypeOf(x) == Some(a.dtype))
      && (exists x :: Lookup(fields, "shape") == Some(x) && ShapeOf(rt, x) == Ok(a.shape))
      && !a.dtype.hasObject && !a.dtype.structured && a.dtype.itemsize > 0
      && |a.bytes| == Product(a.shape) * a.dtype.itemsize
      && src.dataStart <= at && at + |a.bytes| <= src.dataStart + src.dataBytes
      && at + |a.bytes| <= |src.bytes| && a.bytes == src.bytes[at..at + |a.bytes|]
  {
    ViewsExactly(a.addr - src.base - src.dataStart, |a.bytes|, a.dtype, a.shape, src, a);
    var r := RestoreArray(rt, fields, src);
    if r == Ok(a) {
      var offset := rt.intOf(Lookup(fields, "offset").value).value;
      var nbytes := rt.intOf(Lookup(fields, "nbytes").value).value;
      var dims := ShapeOf(rt, Lookup(fields, "shape").value).value;
      ViewsSayWhere(offset, nbytes, rt.dtypeOf(Lookup(fields, "dtype").value).value, dims, src);
    }
  }

  /** When the numbers of a reference lead to the array they describe. */
  lemma ViewsExactly(offset: int, nbytes: int, dtype: DType, shape: seq<nat>, src: Source, a: NdArray)
    requires offset == a.addr - src.base - src.dataStart && nbytes == |a.bytes| && dtype == a.dtype && shape == a.shape
    ensures ViewOf(offset, nbytes, dtype, shape, src) == Ok(a) <==>
      var at := a.addr - src.base;
      && !dtype.hasObject && !dtype.structured && dtype.itemsize > 0 && nbytes == Product(shape) * dtype.itemsize
      && src.dataStart <= at && at + nbytes <= src.dataStart + src.dataBytes
      && at + nbytes <= |src.bytes| && a.bytes == src.bytes[at..at + nbytes]
  {
    if dtype.itemsize > 0 {
      ProductNonNeg(shape);
      MultipleHasNoRemainder(Product(shape), dtype.itemsize);
    }
  }

  lemma ViewsSayWhere(offset: int, nbytes: int, dtype: DType, shape: seq<int>, src: Source)
    requires ViewOf(offset, nbytes, dtype, shape, src).Ok?
    ensures var a := ViewOf(offset, nbytes, dtype, shape, src).value;
      a.addr - src.base - src.dataStart == offset && |a.bytes| == nbytes && a.dtype == dtype && a.shape == shape
  {
  }

  function RestoreBlob<S>(rt: Runtime, j: Json, api: Option<BlobApi<S>>, s: S): (S, Result<Value, Fault>) {
    var ref := BlobRefOf(rt, j);
    if ref.Err? then (s, Err(ref.error))
    else if api.None? then (s, Ok(Blob(ref.value)))
    else if api.value.kind != ref.value.store then (s, Err(WrongStore))
    else
      var (s', a) := api.value.get(s, ref.value);
      (s', if a.Ok? then Ok(Array(a.value)) else Err(a.error))
  }

  /** A dictionary that the decoder reads as an array reference. */
  predicate IsArrayRef(entries: seq<JEntry>) {
    && Only(entries, "$bin")
    && entries[0].value.JDict?
    && Lookup(entries[0].value.entries, "kind") == Some(Atom(Str("ndarray")))
  }

  function RestoreTree<S>(rt: Runtime, j: Json, src: Source, api: Option<BlobApi<S>>, s: S): (S, Result<Value, Fault>)
    decreases j, 1
  {
    match j
    case JDict(entries) =>
      if Only(entries, "$blob") then RestoreBlob(rt, entries[0].value, api, s)
      else if IsArrayRef(entries) then
        var a := RestoreArray(rt, entries[0].value.entries, src);
        (s, if a.Ok? then Ok(Array(a.value)) else Err(a.error))
      else
        var (s', r) := RestoreEntries(rt, entries, src, api, s);
        (s', if r.Ok? then Ok(Dict(r.value)) else Err(r.error))
    case JList(items) =>
      var (s', r) := RestoreItems(rt, items, src, api, s);
      (s', if r.Ok? then Ok(List(r.value)) else Err(r.error))
    case Atom(scalar) => (s, Ok(Leaf(scalar)))
  }

  function RestoreItems<S>(rt: Runtime, items: seq<Json>, src: Source, api: Option<BlobApi<S>>, s: S):
      (S, Result<seq<Value>, Fault>)
    decreases items, 0
  {
    if items == [] then (s, Ok([]))
    else
      var (s1, init) := RestoreItems(rt, items[..|items| - 1], src, api, s);
      if init.Err? then (s1, init)
      else
        var (s2, last) := RestoreTree(rt, items[|items| - 1], src, api, s1);
        (s2, if last.Ok? then Ok(init.value + [last.value]) else Err(last.error))
  }

  function RestoreEntries<S>(rt: Runtime, entries: seq<JEntry>, src: Source, api: Option<BlobApi<S>>, s: S):
      (S, Result<seq<Entry>, Fault>)
    decreases entries, 0
  {
    if entries == [] then (s, Ok([]))
    else
      var e := entries[|entries| - 1];
      var (s1, init) := RestoreEntries(rt, entries[..|entries| - 1], src, api, s);
      if init.Err? then (s1, init)
      else
        var (s2, last) := RestoreTree(rt, e.value, src, api, s1);
        (s2, if last.Ok? then Ok(init.value + [Entry(e.key, last.value)]) else Err(last.error))
  }

  /** The buffer as the tree decoder sees it behind an accepted header. */
  function SourceOf(b: seq<byte>, base: int, info: BinaryInfo): Source {
    Source(b, base, info.dataStart, info.dataBytes)
  }

  /** _decode_tree, for a header that parse_header returned for this buffer. */
  function DecodeTree<S>(rt: Runtime, b: seq<byte>, base: int, info: BinaryInfo, api: Option<BlobApi<S>>, s: S):
      (S, Result<Value, Fault>)
    requires ParseHeader(b) == Ok(info)
  {
    var manifest := rt.fromJson(b[HEADER_SIZE..HEADER_SIZE + info.metadataBytes]);
    if manifest.None? then (s, Err(BadJson))
    else
      var (s', tree) := RestoreTree(rt, manifest.value, SourceOf(b, base, info), api, s);
      if tree.Ok? && !tree.value.Dict? then (s', Err(TopLevelNotObject)) else (s', tree)
  }

  function DecodeAuto<S>(rt: Runtime, b: seq<byte>, base: int, api: Option<BlobApi<S>>, s: S):
      (S, Result<Value, Fault>) {
    var info := ParseHeader(b);
    if info.Err? then (s, Err(info.error)) else DecodeTree(rt, b, base, info.value, api, s)
  }

  /** _contains_unresolved_blob_ref. */
  predicate ContainsBlobRef(v: Value)
    decreases v, 1
  {
    match v
    case Blob(_) => true
    case Dict(entries) => EntriesContainBlobRef(entries)
    case List(items) => ItemsContainBlobRef(items)
    case _ => false
  }

  predicate ItemsContainBlobRef(items: seq<Value>)
    decreases items, 0
  {
    items != [] && (ItemsContainBlobRef(items[..|items| - 1]) || ContainsBlobRef(items[|items| - 1]))
  }

  predicate EntriesContainBlobRef(entries: seq<Entry>)
    decreases entries, 0
  {
    entries != [] && (EntriesContainBlobRef(entries[..|entries| - 1]) || ContainsBlobRef(entries[|entries| - 1].value))
  }

  /** Typed decode up to the model validation that follows it. */
  function Decode<S>(rt: Runtime, schemaId: seq<byte>, schemaVersion: nat, b: seq<byte>, base: int,
                     api: Option<BlobApi<S>>, s: S): (S, Result<Value, Fault>)
  {
    var info := ParseHeader(b);
    if info.Err? then (s, Err(info.error))
    else if info.value.schemaId != schemaId || info.value.schemaVersion != schemaVersion then (s, Err(SchemaMismatch))
    else
      var (s', tree) := DecodeTree(rt, b, base, info.value, api, s);
      if tree.Ok? && ContainsBlobRef(tree.value) then (s', Err(StoreRequired)) else (s', tree)
  }

  /** An int() that overflows is not caught, in whichever field of an array reference. */
  lemma OverflowPasses(rt: Runtime, fields: seq<JEntry>, src: Source, x: Json)
    requires rt.intOf(x) == Err(IntegerOverflow)
    ensures Lookup(fields, "offset") == Some(x) ==> RestoreArray(rt, fields, src) == Err(IntegerOverflow)
    ensures Lookup(fields, "nbytes") == Some(x) && IntField(rt, fields, "offset", BadArrayRef).Ok? ==>
      RestoreArray(rt, fields, src) == Err(IntegerOverflow)
  {
  }

  // ----- every accepted buffer -----

  /** inv holds of every state that gets lead to. */
  ghost predicate KeptByGets<S(!new)>(api: Option<BlobApi<S>>, inv: S -> bool) {
    api.Some? ==> forall t, r :: inv(t) ==> inv(api.value.get(t, r).0)
  }

  /** Some get, in a state with inv, answers so. */
  ghost predicate Answers<S(!new)>(api: Option<BlobApi<S>>, inv: S -> bool, answer: Result<NdArray, Fault>) {
    api.Some? && exists t, r :: inv(t) && api.value.get(t, r).1 == answer
  }

  /** Every array of a decoded tree is a view of the data section, or what the store gave; and
      there are no tuples. */
  ghost predicate ViewsInside<S(!new)>(v: Value, src: Source, api: Option<BlobApi<S>>, inv: S -> bool)
    decreases v, 1
  {
    match v
    case Array(a) => IsView(a, src) || Answers(api, inv, Ok(a))
    case Dict(entries) => EntriesInside(entries, src, api, inv)
    case List(items) => ItemsInside(items, src, api, inv)
    case Tuple(_) => false
    case _ => true
  }

  ghost predicate ItemsInside<S(!new)>(items: seq<Value>, src: Source, api: Option<BlobApi<S>>, inv: S -> bool)
    decreases items, 0
  {
    items == [] || (ItemsInside(items[..|items| - 1], src, api, inv) && ViewsInside(items[|items| - 1], src, api, inv))
  }

  ghost predicate EntriesInside<S(!new)>(entries: seq<Entry>, src: Source, api: Option<BlobApi<S>>, inv: S -> bool)
    decreases entries, 0
  {
    entries == [] ||
    (EntriesInside(entries[..|entries| - 1], src, api, inv) && ViewsInside(entries[|entries| - 1].value, src, api, inv))
  }

  /** a aliases the buffer, and lies inside its data section. */
  predicate IsView(a: NdArray, src: Source) {
    var at := a.addr - src.base;
    && src.dataStart <= at
    && at + |a.bytes| <= src.dataStart + src.dataBytes
    && at + |a.bytes| <= |src.bytes|
    && a.bytes == src.bytes[at..at + |a.bytes|]
  }

  /** Faults that rebuilding a tree does not raise of itself. */
  predicate Foreign(f: Fault) {
    f == BeyondEncoded || f == SchemaMismatch || f == StoreRequired
  }

  lemma {:induction false} RestoredViewsInside<S(!new)>(rt: Runtime, j: Json, src: Source, api: Option<BlobApi<S>>,
      s: S, inv: S -> bool)
    requires src.dataStart + src.dataBytes <= |src.bytes| && inv(s) && KeptByGets(api, inv)
    ensures var (s', r) := RestoreTree(rt, j, src, api, s);
      inv(s') && (r.Ok? ==> ViewsInside(r.value, src, api, inv)) &&
      (r.Err? && Foreign(r.error) ==> Answers(api, inv, Err(r.error)))
    decreases j, 1
  {
    match j
    case JDict(entries) =>
      if Only(entries, "$blob") {
        RestoredBlobInside(rt, entries[0].value, src, api, s, inv);
      } else if IsArrayRef(entries) {
        RestoredArrayInside(rt, entries[0].value.entries, src);
      } else {
        RestoredEntriesInside(rt, entries, src, api, s, inv);
      }
    case JList(items) => RestoredItemsInside(rt, items, src, api, s, inv);
    case Atom(_) =>
  }

  lemma RestoredBlobInside<S(!new)>(rt: Runtime, j: Json, src: Source, api: Option<BlobApi<S>>, s: S, inv: S -> bool)
    requires inv(s) && KeptByGets(api, inv)
    ensures var (s', r) := RestoreBlob(rt, j, api, s);
      inv(s') && (r.Ok? ==> ViewsInside(r.value, src, api, inv)) &&
      (r.Err? && Foreign(r.error) ==> Answers(api, inv, Err(r.error)))
  {
  }

  lemma RestoredArrayInside(rt: Runtime, fields: seq<JEntry>, src: Source)
    requires src.dataStart + src.dataBytes <= |src.bytes|
    ensures var r := RestoreArray(rt, fields, src);
      (r.Ok? ==> IsView(r.value, src)) && (r.Err? ==> !Foreign(r.error))
  {
  }

  lemma {:induction false} RestoredItemsInside<S(!new)>(rt: Runtime, items: seq<Json>, src: Source,
      api: Option<BlobApi<S>>, s: S, inv: S -> bool)
    requires src.dataStart + src.dataBytes <= |src.bytes| && inv(s) && KeptByGets(api, inv)
    ensures var (s', r) := RestoreItems(rt, items, src, api, s);
      inv(s') && (r.Ok? ==> ItemsInside(r.value, src, api, inv)) &&
      (r.Err? && Foreign(r.error) ==> Answers(api, inv, Err(r.error)))
    decreases items, 0
  {
    if items != [] {
      var init := items[..|items| - 1];
      RestoredItemsInside(rt, init, src, api, s, inv);
      var (s1, before) := RestoreItems(rt, init, src, api, s);
      if before.Ok? {
        RestoredViewsInside(rt, items[|items| - 1], src, api, s1, inv);
        var r := RestoreItems(rt, items, src, api, s).1;
        assert r.Ok? ==> r.value[..|r.value| - 1] == before.value;
      }
    }
  }

  lemma {:induction false} RestoredEntriesInside<S(!new)>(rt: Runtime, entries: seq<JEntry>, src: Source,
      api: Option<BlobApi<S>>, s: S, inv: S -> bool)
    requires src.dataStart + src.dataBytes <= |src.bytes| && inv(s) && KeptByGets(api, inv)
    ensures var (s', r) := RestoreEntries(rt, entries, src, api, s);
      inv(s') && (r.Ok? ==> EntriesInside(r.value, src, api, inv)) &&
      (r.Err? && Foreign(r.error) ==> Answers(api, inv, Err(r.error)))
    decreases entries, 0
  {
    if entries != [] {
      var init := entries[..|entries| - 1];
      RestoredEntriesInside(rt, init, src, api, s, inv);
      var (s1, before) := RestoreEntries(rt, init, src, api, s);
      if before.Ok? {
        RestoredViewsInside(rt, entries[|entries| - 1].value, src, api, s1, inv);
        var r := RestoreEntries(rt, entries, src, api, s).1;
        assert r.Ok? ==> r.value[..|r.value| - 1] == before.value;
      }
    }
  }

  /** The two sources agree on everything up to the end of the data section. */
  predicate SameSource(x: Source, y: Source) {
    && x.base == y.base && x.dataStart == y.dataStart && x.dataBytes == y.dataBytes
    && var end := x.dataStart + x.dataBytes;
    && end <= |x.bytes| && end <= |y.bytes| && x.bytes[..end] == y.bytes[..end]
  }

  lemma {:induction false} RestoreReadsDataOnly<S>(rt: Runtime, j: Json, x: Source, y: Source, api: Option<BlobApi<S>>,
      s: S)
    requires SameSource(x, y)
    ensures RestoreTree(rt, j, x, api, s) == RestoreTree(rt, j, y, api, s)
    decreases j, 1
  {
    match j
    case JDict(entries) =>
      if Only(entries, "$blob") {
      } else if IsArrayRef(entries) {
        ArrayReadsDataOnly(rt, entries[0].value.entries, x, y);
      } else {
        EntriesReadDataOnly(rt, entries, x, y, api, s);
      }
    case JList(items) => ItemsReadDataOnly(rt, items, x, y, api, s);
    case Atom(_) =>
  }

  lemma ArrayReadsDataOnly(rt: Runtime, fields: seq<JEntry>, x: Source, y: Source)
    requires SameSource(x, y)
    ensures RestoreArray(rt, fields, x) == RestoreArray(rt, fields, y)
  {
    forall offset, nbytes, dtype, shape
      ensures ViewOf(offset, nbytes, dtype, shape, x) == ViewOf(offset, nbytes, dtype, shape, y)
    {
      ViewReadsDataOnly(offset, nbytes, dtype, shape, x, y);
    }
  }

  lemma ViewReadsDataOnly(offset: int, nbytes: int, dtype: DType, shape: seq<int>, x: Source, y: Source)
    requires SameSource(x, y)
    ensures ViewOf(offset, nbytes, dtype, shape, x) == ViewOf(offset, nbytes, dtype, shape, y)
  {
    if 0 <= offset && 0 <= nbytes && offset + nbytes <= x.dataBytes {
      var lo := x.dataStart + offset;
      var end := x.dataStart + x.dataBytes;
      assert x.bytes[lo..lo + nbytes] == x.bytes[..end][lo..lo + nbytes];
      assert y.bytes[lo..lo + nbytes] == y.bytes[..end][lo..lo + nbytes];
    }
  }

  lemma {:induction false} ItemsReadDataOnly<S>(rt: Runtime, items: seq<Json>, x: Source, y: Source,
      api: Option<BlobApi<S>>, s: S)
    requires SameSource(x, y)
    ensures RestoreItems(rt, items, x, api, s) == RestoreItems(rt, items, y, api, s)
    decreases items, 0
  {
    if items != [] {
      var init := items[..|items| - 1];
      ItemsReadDataOnly(rt, init, x, y, api, s);
      RestoreReadsDataOnly(rt, items[|items| - 1], x, y, api, RestoreItems(rt, init, x, api, s).0);
    }
  }

  lemma {:induction false} EntriesReadDataOnly<S>(rt: Runtime, entries: seq<JEntry>, x: Source, y: Source,
      api: Option<BlobApi<S>>, s: S)
    requires SameSource(x, y)
    ensures RestoreEntries(rt, entries, x, api, s) == RestoreEntries(rt, entries, y, api, s)
    decreases entries, 0
  {
    if entries != [] {
      var init := entries[..|entries| - 1];
      EntriesReadDataOnly(rt, init, x, y, api, s);
      RestoreReadsDataOnly(rt, entries[|entries| - 1].value, x, y, api, RestoreEntries(rt, init, x, api, s).0);
    }
  }

  /** Every buffer, encoder output or not: the outcome of a decode depends on nothing beyond
      the container length that the header states. */
  lemma SuffixIndependence<S>(rt: Runtime, b: seq<byte>, c: seq<byte>, base: int, api: Option<BlobApi<S>>, s: S)
    requires ParseHeader(b).Ok?
    requires var total := ParseHeader(b).value.totalBytes; total <= |c| && b[..total] == c[..total]
    ensures ParseHeader(c) == ParseHeader(b)
    ensures DecodeAuto(rt, c, base, api, s) == DecodeAuto(rt, b, base, api, s)
  {
    var info := ParseHeader(b).value;
    var total := info.totalBytes;
    AcceptedIsCoherent(b);
    HeaderIgnoresSuffix(b, c);
    TreeIgnoresSuffix(rt, b, c, base, info, api, s);
  }

  lemma TreeIgnoresSuffix<S>(rt: Runtime, b: seq<byte>, c: seq<byte>, base: int, info: BinaryInfo,
      api: Option<BlobApi<S>>, s: S)
    requires ParseHeader(b) == Ok(info) && ParseHeader(c) == Ok(info) && Coherent(info)
    requires info.totalBytes <= |b| && info.totalBytes <= |c| && b[..info.totalBytes] == c[..info.totalBytes]
    ensures DecodeTree(rt, c, base, info, api, s) == DecodeTree(rt, b, base, info, api, s)
  {
    var meta := HEADER_SIZE + info.metadataBytes;
    SliceOfEqualPrefixes(b, c, info.totalBytes, HEADER_SIZE, meta);
    PrefixOfPrefix(b, c, info.totalBytes, info.dataStart + info.dataBytes);
    var manifest := rt.fromJson(b[HEADER_SIZE..meta]);
    if manifest.Some? {
      RestoreReadsDataOnly(rt, manifest.value, SourceOf(b, base, info), SourceOf(c, base, info), api, s);
    }
  }

  lemma SliceOfEqualPrefixes(b: seq<byte>, c: seq<byte>, n: nat, lo: nat, hi: nat)
    requires lo <= hi <= n <= |b| && n <= |c| && b[..n] == c[..n]
    ensures b[lo..hi] == c[lo..hi]
  {
    assert b[lo..hi] == b[..n][lo..hi];
    assert c[lo..hi] == c[..n][lo..hi];
  }

  lemma PrefixOfPrefix(b: seq<byte>, c: seq<byte>, n: nat, m: nat)
    requires m <= n <= |b| && n <= |c| && b[..n] == c[..n]
    ensures b[..m] == c[..m]
  {
    assert b[..m] == b[..n][..m];
    assert c[..m] == c[..n][..m];
  }

  /** Every buffer that decodes, with or without a store: every array is a view in the data
      section, behind header and metadata and inside the container, or the store's answer to a
      get; and the check against the buffer's own size fires for no buffer (the fault can only
      be one that the store itself raised). */
  lemma Containment<S(!new)>(rt: Runtime, b: seq<byte>, base: int, api: Option<BlobApi<S>>, s: S, inv: S -> bool)
    requires inv(s) && KeptByGets(api, inv)
    ensures var r := DecodeAuto(rt, b, base, api, s).1;
      && (r == Err(BeyondEncoded) ==> Answers(api, inv, Err(BeyondEncoded)))
      && (r.Ok? ==>
            && r.value.Dict? && ParseHeader(b).Ok?
            && var info := ParseHeader(b).value;
            && ViewsInside(r.value, Source(b, base, info.dataStart, info.dataBytes), api, inv)
            && HEADER_SIZE + info.metadataBytes <= info.dataStart
            && info.dataStart + info.dataBytes <= info.totalBytes <= |b|)
  {
    if ParseHeader(b).Ok? {
      var info := ParseHeader(b).value;
      AcceptedIsCoherent(b);
      var manifest := rt.fromJson(b[HEADER_SIZE..HEADER_SIZE + info.metadataBytes]);
      if manifest.Some? {
        RestoredViewsInside(rt, manifest.value, SourceOf(b, base, info), api, s, inv);
      }
    }
  }

  /** A buffer without an accepted header, or whose metadata are no JSON, is refused for that
      reason, with the store untouched. */
  lemma BadBuffersAreRefused<S>(rt: Runtime, b: seq<byte>, base: int, api: Option<BlobApi<S>>, s: S)
    ensures ParseHeader(b).Err? ==> DecodeAuto(rt, b, base, api, s) == (s, Err(ParseHeader(b).error))
    ensures ParseHeader(b).Ok? ==>
      var end := 64 + ParseHeader(b).value.metadataBytes;
      && end <= |b|
      && (rt.fromJson(b[64..end]) == None ==> DecodeAuto(rt, b, base, api, s) == (s, Err(BadJson)))
  {
    if ParseHeader(b).Ok? {
      AcceptedIsCoherent(b);
    }
  }

  /** Without a store every array is a view, and the size check never fires. */
  lemma ContainmentWithoutStore<S(!new)>(rt: Runtime, b: seq<byte>, base: int, s: S, inv: S -> bool)
    requires inv(s)
    ensures forall answer :: !Answers<S>(None, inv, answer)
    ensures var r := DecodeAuto(rt, b, base, None, s).1;
      && r != Err(BeyondEncoded)
      && (r.Ok? ==> ParseHeader(b).Ok? && ViewsInside(r.value, SourceOf(b, base, ParseHeader(b).value), None, inv))
  {
    Containment<S>(rt, b, base, None, s, inv);
  }

  // ----- typed decode -----

  /** For every buffer with an accepted header: a class of another id or version is refused,
      before the store is asked anything, and nobody else is (unless a store brings up that
      very fault). */
  lemma SchemaMismatchExactly<S(!new)>(rt: Runtime, schemaId: seq<byte>, version: nat, b: seq<byte>, base: int,
      api: Option<BlobApi<S>>, s: S)
    requires ParseHeader(b).Ok?
    ensures var info, (s', r) := ParseHeader(b).value, Decode(rt, schemaId, version, b, base, api, s);
      && (info.schemaId != schemaId || info.schemaVersion != version ==> r == Err(SchemaMismatch) && s' == s)
      && (info.schemaId == schemaId && info.schemaVersion == version && r == Err(SchemaMismatch) ==>
            Answers(api, t => true, Err(SchemaMismatch)))
  {
    var info := ParseHeader(b).value;
    AcceptedIsCoherent(b);
    var manifest := rt.fromJson(b[HEADER_SIZE..HEADER_SIZE + info.metadataBytes]);
    if manifest.Some? {
      RestoredViewsInside(rt, manifest.value, SourceOf(b, base, info), api, s, t => true);
    }
  }

  lemma {:induction false} StoreResolvesAll<S>(rt: Runtime, j: Json, src: Source, api: Option<BlobApi<S>>, s: S)
    requires api.Some?
    ensures var r := RestoreTree(rt, j, src, api, s).1; r.Ok? ==> !ContainsBlobRef(r.value)
    decreases j, 1
  {
    match j
    case JDict(entries) =>
      if !Only(entries, "$blob") && !IsArrayRef(entries) {
        StoreResolvesEntries(rt, entries, src, api, s);
      }
    case JList(items) => StoreResolvesItems(rt, items, src, api, s);
    case Atom(_) =>
  }

  lemma {:induction false} StoreResolvesItems<S>(rt: Runtime, items: seq<Json>, src: Source, api: Option<BlobApi<S>>,
      s: S)
    requires api.Some?
    ensures var r := RestoreItems(rt, items, src, api, s).1; r.Ok? ==> !ItemsContainBlobRef(r.value)
    decreases items, 0
  {
    if items != [] {
      var init := items[..|items| - 1];
      StoreResolvesItems(rt, init, src, api, s);
      var (s1, before) := RestoreItems(rt, init, src, api, s);
      if before.Ok? {
        StoreResolvesAll(rt, items[|items| - 1], src, api, s1);
        var r := RestoreItems(rt, items, src, api, s).1;
        assert r.Ok? ==> r.value[..|r.value| - 1] == before.value;
      }
    }
  }

  lemma {:induction false} StoreResolvesEntries<S>(rt: Runtime, entries: seq<JEntry>, src: Source,
      api: Option<BlobApi<S>>, s: S)
    requires api.Some?
    ensures var r := RestoreEntries(rt, entries, src, api, s).1; r.Ok? ==> !EntriesContainBlobRef(r.value)
    decreases entries, 0
  {
    if entries != [] {
      var init := entries[..|entries| - 1];
      StoreResolvesEntries(rt, init, src, api, s);
      var (s1, before) := RestoreEntries(rt, init, src, api, s);
      if before.Ok? {
        StoreResolvesAll(rt, entries[|entries| - 1].value, src, api, s1);
        var r := RestoreEntries(rt, entries, src, api, s).1;
        assert r.Ok? ==> r.value[..|r.value| - 1] == before.value;
      }
    }
  }

  /** With a store, typed decode agrees with the generic one on every buffer of the right
      schema: the complaint about unresolved references is never made. */
  lemma StoreNeverMissing<S>(rt: Runtime, b: seq<byte>, base: int, api: Option<BlobApi<S>>, s: S)
    requires api.Some? && ParseHeader(b).Ok?
    ensures var info := ParseHeader(b).value;
      Decode(rt, info.schemaId, info.schemaVersion, b, base, api, s) == DecodeAuto(rt, b, base, api, s)
  {
    var info := ParseHeader(b).value;
    var manifest := rt.fromJson(b[HEADER_SIZE..HEADER_SIZE + info.metadataBytes]);
    if manifest.Some? {
      StoreResolvesAll(rt, manifest.value, SourceOf(b, base, info), api, s);
    }
  }
}

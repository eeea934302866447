/** The walk that turns a tree into its manifest (src/npb/_codec.py, _manifest_tree). */
module Manifest {
  import opened Core
  import opened Format
  import opened Model
  import opened Blob

  datatype Placed = Placed(offset: nat, a: NdArray)

  function End(p: Placed): nat {
    p.offset + |p.a.bytes|
  }

  /** What the walk mutates: the cursor, the array list and the store. */
  datatype Walk<S> = Walk(cursor: nat, arrays: seq<Placed>, store: S)

  /** The blob_store and externalize_min_bytes arguments. */
  datatype Policy<!S> = Policy(store: Option<BlobApi<S>>, minBytes: Option<int>)

  /** Everything inline: neither a store nor a threshold. */
  function InlinePolicy<S>(): Policy<S> {
    Policy(None, None)
  }

  predicate Externalizes<S>(p: Policy<S>, a: NdArray) {
    p.store.Some? && p.minBytes.Some? && |a.bytes| >= p.minBytes.value
  }

  function BlobJson(r: BlobRef): Json {
    JDict([JEntry("$blob", ManifestOf(r))])
  }

  function BinFields(offset: nat, a: NdArray): seq<JEntry> {
    [JEntry("kind", Atom(Str("ndarray"))),
     JEntry("offset", Atom(Int(offset))),
     JEntry("nbytes", Atom(Int(|a.bytes|))),
     JEntry("dtype", Atom(Str(a.dtype.name))),
     JEntry("shape", ShapeJson(a.shape))]
  }

  function BinJson(offset: nat, a: NdArray): Json {
    JDict([JEntry("$bin", JDict(BinFields(offset, a)))])
  }

  function ArrayStep<S>(a: NdArray, w: Walk<S>, p: Policy<S>): (Walk<S>, Result<Json, Fault>) {
    if !PlainDType(a.dtype) then (w, Err(UnsupportedDType))
    else if Externalizes(p, a) then
      var (store, ref) := p.store.value.put(w.store, a);
      (w.(store := store), Ok(BlobJson(ref)))
    else
      var offset := AlignUp(w.cursor, ARRAY_ALIGNMENT);
      (Walk(offset + |a.bytes|, w.arrays + [Placed(offset, a)], w.store), Ok(BinJson(offset, a)))
  }

  function ManifestTree<S>(node: Value, w: Walk<S>, p: Policy<S>): (Walk<S>, Result<Json, Fault>)
    decreases node, 1
  {
    match node
    case Array(a) => ArrayStep(a, w, p)
    case Blob(r) => (w, Ok(BlobJson(r)))
    case Dict(entries) =>
      var (w', r) := ManifestEntries(entries, w, p);
      (w', if r.Ok? then Ok(JDict(r.value)) else Err(r.error))
    case List(items) =>
      var (w', r) := ManifestItems(items, w, p);
      (w', if r.Ok? then Ok(JList(r.value)) else Err(r.error))
    case Tuple(items) =>
      var (w', r) := ManifestItems(items, w, p);
      (w', if r.Ok? then Ok(JList(r.value)) else Err(r.error))
    case Leaf(s) => (w, Ok(Atom(s)))
  }

  function ManifestItems<S>(items: seq<Value>, w: Walk<S>, p: Policy<S>): (Walk<S>, Result<seq<Json>, Fault>)
    decreases items, 0
  {
    if items == [] then (w, Ok([]))
    else
      var (w1, init) := ManifestItems(items[..|items| - 1], w, p);
      if init.Err? then (w1, init)
      else
        var (w2, last) := ManifestTree(items[|items| - 1], w1, p);
        (w2, if last.Ok? then Ok(init.value + [last.value]) else Err(last.error))
  }

  function ManifestEntries<S>(entries: seq<Entry>, w: Walk<S>, p: Policy<S>): (Walk<S>, Result<seq<JEntry>, Fault>)
    decreases entries, 0
  {
    if entries == [] then (w, Ok([]))
    else
      var e := entries[|entries| - 1];
      var (w1, init) := ManifestEntries(entries[..|entries| - 1], w, p);
      if init.Err? then (w1, init)
      else
        var (w2, last) := ManifestTree(e.value, w1, p);
        (w2, if last.Ok? then Ok(init.value + [JEntry(e.key, last.value)]) else Err(last.error))
  }

  /** The walk as the source runs it: one cursor, one array list and one store, updated in
      place while dictionaries and lists are traversed. */
  class Builder<S> {
    const policy: Policy<S>
    var cursor: nat
    var arrays: seq<Placed>
    var store: S

    function State(): Walk<S>
      reads this
    {
      Walk(cursor, arrays, store)
    }

    constructor (policy: Policy<S>, store: S)
      ensures this.policy == policy && State() == Walk(0, [], store)
    {
      this.policy := policy;
      this.cursor := 0;
      this.arrays := [];
      this.store := store;
    }

    method Run(node: Value) returns (r: Result<Json, Fault>)
      modifies this
      ensures (State(), r) == ManifestTree(node, old(State()), policy)
      decreases node, 1
    {
      match node
      case Array(a) =>
        if !PlainDType(a.dtype) {
          return Err(UnsupportedDType);
        }
        if Externalizes(policy, a) {
          var (store', ref) := policy.store.value.put(store, a);
          store := store';
          return Ok(BlobJson(ref));
        }
        var offset := AlignUp(cursor, ARRAY_ALIGNMENT);
        cursor := offset + |a.bytes|;
        arrays := arrays + [Placed(offset, a)];
        return Ok(BinJson(offset, a));
      case Blob(ref) =>
        return Ok(BlobJson(ref));
      case Dict(entries) =>
        var es := RunEntries(entries);
        return if es.Ok? then Ok(JDict(es.value)) else Err(es.error);
      case List(items) =>
        var js := RunItems(items);
        return if js.Ok? then Ok(JList(js.value)) else Err(js.error);
      case Tuple(items) =>
        var js := RunItems(items);
        return if js.Ok? then Ok(JList(js.value)) else Err(js.error);
      case Leaf(s) =>
        return Ok(Atom(s));
    }

    method RunItems(items: seq<Value>) returns (r: Result<seq<Json>, Fault>)
      modifies this
      ensures (State(), r) == ManifestItems(items, old(State()), policy)
      decreases items, 0
    {
      var js: seq<Json> := [];
      var i := 0;
      assert items[..0] == [];
      while i < |items|
        invariant 0 <= i <= |items|
        invariant (State(), Ok(js)) == ManifestItems(items[..i], old(State()), policy)
      {
        assert items[..i + 1][..i] == items[..i];
        var j := Run(items[i]);
        if j.Err? {
          ItemsStopAtError(items, i + 1, old(State()), policy);
          return Err(j.error);
        }
        js := js + [j.value];
        i := i + 1;
      }
      assert items[..|items|] == items;
      return Ok(js);
    }

    method RunEntries(entries: seq<Entry>) returns (r: Result<seq<JEntry>, Fault>)
      modifies this
      ensures (State(), r) == ManifestEntries(entries, old(State()), policy)
      decreases entries, 0
    {
      var js: seq<JEntry> := [];
      var i := 0;
      assert entries[..0] == [];
      while i < |entries|
        invariant 0 <= i <= |entries|
        invariant (State(), Ok(js)) == ManifestEntries(entries[..i], old(State()), policy)
      {
        assert entries[..i + 1][..i] == entries[..i];
        var j := Run(entries[i].value);
        if j.Err? {
          EntriesStopAtError(entries, i + 1, old(State()), policy);
          return Err(j.error);
        }
        js := js + [JEntry(entries[i].key, j.value)];
        i := i + 1;
      }
      assert entries[..|entries|] == entries;
      return Ok(js);
    }
  }

  /** An error ends the walk: nothing after it is visited. */
  lemma {:induction false} ItemsStopAtError<S>(items: seq<Value>, n: nat, w: Walk<S>, p: Policy<S>)
    requires n <= |items| && ManifestItems(items[..n], w, p).1.Err?
    ensures ManifestItems(items, w, p) == ManifestItems(items[..n], w, p)
    decreases |items|
  {
    if n < |items| {
      assert items[..|items| - 1][..n] == items[..n];
      ItemsStopAtError(items[..|items| - 1], n, w, p);
    } else {
      assert items[..n] == items;
    }
  }

  lemma {:induction false} EntriesStopAtError<S>(entries: seq<Entry>, n: nat, w: Walk<S>, p: Policy<S>)
    requires n <= |entries| && ManifestEntries(entries[..n], w, p).1.Err?
    ensures ManifestEntries(entries, w, p) == ManifestEntries(entries[..n], w, p)
    decreases |entries|
  {
    if n < |entries| {
      assert entries[..|entries| - 1][..n] == entries[..n];
      EntriesStopAtError(entries[..|entries| - 1], n, w, p);
    } else {
      assert entries[..n] == entries;
    }
  }

  /** The wire form of an array and of a reference, spelled out. */
  lemma ManifestByExample<S>(a: NdArray, aDims: seq<Json>, r: BlobRef, rDims: seq<Json>, p: Policy<S>, store: S)
    requires |aDims| == |a.shape| && forall i :: 0 <= i < |aDims| ==> aDims[i] == Atom(Int(a.shape[i]))
    requires |rDims| == |r.shape| && forall i :: 0 <= i < |rDims| ==> rDims[i] == Atom(Int(r.shape[i]))
    requires !a.dtype.hasObject && !a.dtype.structured && (p.store.None? || p.minBytes.None?)
    ensures ManifestTree(Dict([Entry("x", Array(a)), Entry("y", Blob(r))]), Walk(0, [], store), p) ==
      (Walk(|a.bytes|, [Placed(0, a)], store),
       Ok(JDict([
         JEntry("x", JDict([JEntry("$bin", JDict([
           JEntry("kind", Atom(Str("ndarray"))),
           JEntry("offset", Atom(Int(0))),
           JEntry("nbytes", Atom(Int(|a.bytes|))),
           JEntry("dtype", Atom(Str(a.dtype.name))),
           JEntry("shape", JList(aDims))]))])),
         JEntry("y", JDict([JEntry("$blob", JDict([
           JEntry("store", Atom(Str(r.store))),
           JEntry("id", Atom(Str(r.objectId))),
           JEntry("offset", Atom(Int(r.offset))),
           JEntry("nbytes", Atom(Int(r.nbytes))),
           JEntry("dtype", Atom(Str(r.dtype))),
           JEntry("shape", JList(rDims))]))]))])))
  {
    var x, y := Entry("x", Array(a)), Entry("y", Blob(r));
    var w0 := Walk(0, [], store);
    var w1 := Walk(|a.bytes|, [Placed(0, a)], store);
    assert [x][..0] == [] && [x, y][..1] == [x];
    assert ManifestEntries([], w0, p) == (w0, Ok([]));
    assert w0.arrays + [Placed(0, a)] == [Placed(0, a)];
    assert ManifestEntries([x], w0, p) == (w1, Ok([JEntry("x", BinJson(0, a))])) by {
      assert [] + [JEntry("x", BinJson(0, a))] == [JEntry("x", BinJson(0, a))];
    }
    assert ShapeJson(a.shape).items == aDims;
    assert ShapeJson(r.shape).items == rDims;
    assert ManifestTree(y.value, w1, p) == (w1, Ok(BlobJson(r)));
    assert [x, y][..|[x, y]| - 1] == [x] && [x, y][|[x, y]| - 1] == y;
    assert [JEntry("x", BinJson(0, a))] + [JEntry("y", BlobJson(r))]
      == [JEntry("x", BinJson(0, a)), JEntry("y", BlobJson(r))];
    assert ManifestEntries([x, y], w0, p) == (w1, Ok([JEntry("x", BinJson(0, a)), JEntry("y", BlobJson(r))]));
  }

  // ----- layout -----

  /** Where the next array may start after one that ended at end: the next multiple of 64. */
  predicate Follows(end: nat, p: Placed) {
    p.offset % ARRAY_ALIGNMENT == 0 && end <= p.offset < end + ARRAY_ALIGNMENT
  }

  /** The arrays lie in order, aligned, with gaps under 64 bytes, and end at cursor. */
  predicate Packed(arrays: seq<Placed>, cursor: nat)
    decreases |arrays|
  {
    if arrays == [] then cursor == 0
    else
      var last := arrays[|arrays| - 1];
      var init := arrays[..|arrays| - 1];
      var end := if init == [] then 0 else End(init[|init| - 1]);
      Packed(init, end) && Follows(end, last) && cursor == End(last)
  }

  /** An array placed at the next multiple of 64. */
  lemma PackedWithOneMore(arrays: seq<Placed>, cursor: nat, offset: nat, a: NdArray)
    requires Packed(arrays, cursor) && cursor <= offset < cursor + ARRAY_ALIGNMENT && offset % ARRAY_ALIGNMENT == 0
    ensures Packed(arrays + [Placed(offset, a)], offset + |a.bytes|)
  {
    var all := arrays + [Placed(offset, a)];
    assert all[..|all| - 1] == arrays;
  }

  lemma ArrayPacks<S>(a: NdArray, w: Walk<S>, p: Policy<S>)
    requires Packed(w.arrays, w.cursor)
    ensures var w' := ArrayStep(a, w, p).0;
      Packed(w'.arrays, w'.cursor) && w.arrays <= w'.arrays
  {
    PackedWithOneMore(w.arrays, w.cursor, AlignUp(w.cursor, ARRAY_ALIGNMENT), a);
  }

  /** The walk keeps the layout and only appends to the array list. */
  lemma {:induction false} WalkPacks<S>(v: Value, w: Walk<S>, p: Policy<S>)
    requires Packed(w.arrays, w.cursor)
    ensures var w' := ManifestTree(v, w, p).0;
      Packed(w'.arrays, w'.cursor) && w.arrays <= w'.arrays
    decreases v, 1
  {
    match v
    case Array(a) => ArrayPacks(a, w, p);
    case Dict(entries) => EntriesPack(entries, w, p);
    case List(items) => ItemsPack(items, w, p);
    case Tuple(items) => ItemsPack(items, w, p);
    case _ =>
  }

  lemma {:induction false} ItemsPack<S>(items: seq<Value>, w: Walk<S>, p: Policy<S>)
    requires Packed(w.arrays, w.cursor)
    ensures var w' := ManifestItems(items, w, p).0;
      Packed(w'.arrays, w'.cursor) && w.arrays <= w'.arrays
    decreases items, 0
  {
    if items != [] {
      var init := items[..|items| - 1];
      ItemsPack(init, w, p);
      WalkPacks(items[|items| - 1], ManifestItems(init, w, p).0, p);
    }
  }

  lemma {:induction false} EntriesPack<S>(entries: seq<Entry>, w: Walk<S>, p: Policy<S>)
    requires Packed(w.arrays, w.cursor)
    ensures var w' := ManifestEntries(entries, w, p).0;
      Packed(w'.arrays, w'.cursor) && w.arrays <= w'.arrays
    decreases entries, 0
  {
    if entries != [] {
      var init := entries[..|entries| - 1];
      EntriesPack(init, w, p);
      WalkPacks(entries[|entries| - 1].value, ManifestEntries(init, w, p).0, p);
    }
  }

  /** A packed list stays packed without its last array. */
  lemma PackedInit(arrays: seq<Placed>, cursor: nat)
    requires Packed(arrays, cursor) && arrays != []
    ensures var init, last := arrays[..|arrays| - 1], arrays[|arrays| - 1];
      var end := if init == [] then 0 else End(init[|init| - 1]);
      && Packed(init, end) && cursor == End(last) && end <= last.offset < end + 64 && last.offset % 64 == 0
      && (init == [] ==> last.offset == 0)
  {
  }

  lemma {:induction false} PackedAligned(arrays: seq<Placed>, cursor: nat)
    requires Packed(arrays, cursor)
    ensures forall i :: 0 <= i < |arrays| ==> arrays[i].offset % 64 == 0 && End(arrays[i]) <= cursor
    decreases |arrays|
  {
    if arrays != [] {
      var init := arrays[..|arrays| - 1];
      PackedInit(arrays, cursor);
      PackedAligned(init, if init == [] then 0 else End(init[|init| - 1]));
    }
  }

  lemma {:induction false} PackedClose(arrays: seq<Placed>, cursor: nat)
    requires Packed(arrays, cursor)
    ensures forall i :: 0 < i < |arrays| ==> arrays[i].offset < End(arrays[i - 1]) + 64
    ensures arrays != [] ==> arrays[0].offset == 0 && cursor == End(arrays[|arrays| - 1])
    decreases |arrays|
  {
    if arrays != [] {
      var init := arrays[..|arrays| - 1];
      PackedInit(arrays, cursor);
      PackedClose(init, if init == [] then 0 else End(init[|init| - 1]));
    }
  }

  lemma {:induction false} PackedApart(arrays: seq<Placed>, cursor: nat)
    requires Packed(arrays, cursor)
    ensures forall i, j :: 0 <= i < j < |arrays| ==> End(arrays[i]) <= arrays[j].offset
    decreases |arrays|
  {
    if arrays != [] {
      var init := arrays[..|arrays| - 1];
      var end := if init == [] then 0 else End(init[|init| - 1]);
      PackedInit(arrays, cursor);
      PackedApart(init, end);
      PackedAligned(init, end);
    }
  }

  /** What a packed list looks like from outside. */
  lemma PackedExtents(arrays: seq<Placed>, cursor: nat)
    requires Packed(arrays, cursor)
    ensures forall i :: 0 <= i < |arrays| ==> arrays[i].offset % 64 == 0 && End(arrays[i]) <= cursor
    ensures forall i, j :: 0 <= i < j < |arrays| ==> End(arrays[i]) <= arrays[j].offset
    ensures forall i :: 0 < i < |arrays| ==> arrays[i].offset < End(arrays[i - 1]) + 64
    ensures arrays != [] ==> arrays[0].offset == 0 && cursor == End(arrays[|arrays| - 1])
    ensures arrays == [] ==> cursor == 0
  {
    PackedAligned(arrays, cursor);
    PackedApart(arrays, cursor);
    PackedClose(arrays, cursor);
  }
}

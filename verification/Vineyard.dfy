/** The Vineyard blob store and its id-reuse index (src/npb/_vineyard.py). */
module Vineyard {
  import opened Core
  import opened Format
  import opened Model
  import opened Shapes
  import opened Blob
  import opened Restore

  const KIND := "vineyard"

  /** The identity of an ndarray view, as the index sees it. */
  datatype Key = Key(addr: int, nbytes: nat, dtype: string, shape: seq<nat>)

  function KeyOf(a: NdArray): Key {
    Key(a.addr, |a.bytes|, a.dtype.name, a.shape)
  }

  /** The daemon's choices: the id of a new object, and where its memory goes. */
  datatype Daemon = Daemon(newId: map<string, NdArray> -> string, place: (map<string, NdArray>, NdArray) -> int)

  ghost predicate FreshIds(d: Daemon) {
    forall objects :: d.newId(objects) !in objects && d.newId(objects) != ""
  }

  /** The daemon's objects (those that a client resolves to contiguous ndarrays), the number of
      puts it has served, and one client's index. */
  datatype State = State(objects: map<string, NdArray>, puts: nat, resolved: map<Key, BlobRef>)

  /** `np.ascontiguousarray`: C order already, but a 0-d array gains a dimension. */
  function Contiguous(a: NdArray): NdArray {
    if a.shape == [] then a.(shape := [1]) else a
  }

  /** _ref_for_object. */
  function RefFor(id: string, a: NdArray): BlobRef {
    BlobRef(KIND, id, 0, |a.bytes|, a.dtype.name, a.shape)
  }

  /** put_array for a supported dtype: reuse the id of a resolved view, or store a copy. */
  function Put(d: Daemon, s: State, a: NdArray): (State, BlobRef) {
    if KeyOf(a) in s.resolved then (s, s.resolved[KeyOf(a)])
    else
      var id := d.newId(s.objects);
      var arr := Contiguous(a);
      var stored := arr.(addr := d.place(s.objects, arr));
      (State(s.objects[id := stored], s.puts + 1, s.resolved), RefFor(id, stored))
  }

  /** The array a reference denotes: a view of the stored object. Both branches of get_array
      (reshape of the whole object, frombuffer of a part) yield this view. */
  function ArrayAt(rt: Runtime, objects: map<string, NdArray>, r: BlobRef): Result<NdArray, Fault> {
    if r.store != KIND then Err(WrongStore)
    else if r.objectId !in objects then Err(BlobMissing)
    else
      var value := objects[r.objectId];
      if r.offset < 0 || r.offset + r.nbytes > |value.bytes| then Err(BlobBounds)
      else if !ValidRef(rt, r) then Err(BlobShape)
      else
        var dtype := rt.dtypeOf(Atom(Str(r.dtype))).value;
        if dtype.itemsize == 0 then Err(BlobShape)
        else Ok(NdArray(dtype, r.shape, value.bytes[r.offset..r.offset + r.nbytes], value.addr + r.offset))
  }

  /** get_array: resolve, then register the view under its key. */
  function Get(rt: Runtime, s: State, r: BlobRef): (State, Result<NdArray, Fault>) {
    var a := ArrayAt(rt, s.objects, r);
    (if a.Ok? then s.(resolved := s.resolved[KeyOf(a.value) := r]) else s, a)
  }

  /** The store as the codec uses it. */
  function Api(rt: Runtime, d: Daemon): BlobApi<State> {
    BlobApi(KIND, (s: State, a: NdArray) => Put(d, s, a), (s: State, r: BlobRef) => Get(rt, s, r))
  }

  /** The index agrees with the store: each key leads to a reference to that very view. */
  predicate IndexAgrees(rt: Runtime, s: State) {
    forall k | k in s.resolved ::
      var a := ArrayAt(rt, s.objects, s.resolved[k]);
      a.Ok? && KeyOf(a.value) == k
  }

  /** The arrays that the store takes over faithfully: plain, at least 1-d, and if they alias
      a resolved view, then with that view's contents (same memory, C-contiguous). */
  predicate Faithful(rt: Runtime, s: State, a: NdArray) {
    && Genuine(rt, a) && PlainDType(a.dtype) && a.dtype.itemsize > 0
    && if KeyOf(a) in s.resolved
       then ContentResult(ArrayAt(rt, s.objects, s.resolved[KeyOf(a)])) == Ok(Content(a))
       else a.shape != []
  }

  // ----- the sequential classes -----

  class Client {
    const daemon: Daemon
    var objects: map<string, NdArray>
    var puts: nat

    constructor (daemon: Daemon, objects: map<string, NdArray>)
      ensures this.daemon == daemon && this.objects == objects && puts == 0
    {
      this.daemon := daemon;
      this.objects := objects;
      this.puts := 0;
    }

    method PutObject(a: NdArray) returns (id: string, stored: NdArray)
      modifies this
      ensures id == daemon.newId(old(objects))
      ensures stored == a.(addr := daemon.place(old(objects), a))
      ensures objects == old(objects)[id := stored] && puts == old(puts) + 1
    {
      id := daemon.newId(objects);
      stored := a.(addr := daemon.place(objects, a));
      objects := objects[id := stored];
      puts := puts + 1;
    }
  }

  class VineyardStore {
    const rt: Runtime
    const client: Client
    var resolvedRefs: map<Key, BlobRef>

    constructor (rt: Runtime, client: Client)
      ensures this.rt == rt && this.client == client && resolvedRefs == map[]
    {
      this.rt := rt;
      this.client := client;
      this.resolvedRefs := map[];
    }

    function Abstract(): State
      reads this, client
    {
      State(client.objects, client.puts, resolvedRefs)
    }

    /** Reuses the id of an array that this store resolved, else stores a contiguous copy. */
    method PutArray(a: NdArray) returns (r: Result<BlobRef, Fault>)
      modifies client
      ensures !PlainDType(a.dtype) ==> r == Err(UnsupportedDType) && unchanged(client)
      ensures PlainDType(a.dtype) ==> r.Ok? && (Abstract(), r.value) == Put(client.daemon, old(Abstract()), a)
    {
      if !PlainDType(a.dtype) {
        return Err(UnsupportedDType);
      }
      if KeyOf(a) in resolvedRefs {
        return Ok(resolvedRefs[KeyOf(a)]);
      }
      var arr := Contiguous(a);
      var id, stored := client.PutObject(arr);
      return Ok(RefFor(id, stored));
    }

    /** Resolves a reference to a view and remembers the reference under the view's key. */
    method GetArray(ref: BlobRef) returns (r: Result<NdArray, Fault>)
      modifies this`resolvedRefs
      ensures (Abstract(), r) == Get(rt, old(Abstract()), ref)
    {
      if ref.store != KIND {
        return Err(WrongStore);
      }
      if ref.objectId !in client.objects {
        return Err(BlobMissing);
      }
      var value := client.objects[ref.objectId];
      if ref.offset < 0 || ref.offset + ref.nbytes > |value.bytes| {
        return Err(BlobBounds);
      }
      if !ValidRef(rt, ref) {
        return Err(BlobShape);
      }
      var dtype := rt.dtypeOf(Atom(Str(ref.dtype))).value;
      if dtype.itemsize == 0 {
        return Err(BlobShape);
      }
      var a := NdArray(dtype, ref.shape, value.bytes[ref.offset..ref.offset + ref.nbytes], value.addr + ref.offset);
      resolvedRefs := resolvedRefs[KeyOf(a) := ref];
      return Ok(a);
    }
  }

  // ----- the store law -----

  /** Every put of a faithful array is answered by a reference that denotes the array. */
  lemma PutObeysLaw(rt: Runtime, d: Daemon, s: State, a: NdArray)
    requires Lawful(rt) && FreshIds(d) && IndexAgrees(rt, s) && Faithful(rt, s, a)
    ensures var (t, ref) := Put(d, s, a);
      && IndexAgrees(rt, t)
      && ValidRef(rt, ref) && ref.store == KIND
      && ContentResult(ArrayAt(rt, t.objects, ref)) == Ok(Content(a))
      && (forall r :: ArrayAt(rt, s.objects, r).Ok? ==> ArrayAt(rt, t.objects, r) == ArrayAt(rt, s.objects, r))
      && (forall b :: Faithful(rt, s, b) ==> Faithful(rt, t, b))
  {
    var (t, ref) := Put(d, s, a);
    if KeyOf(a) !in s.resolved {
      var stored := t.objects[ref.objectId];
      assert stored.bytes[0..|stored.bytes|] == stored.bytes;
      ProductNonNeg(stored.shape);
      forall r | ArrayAt(rt, s.objects, r).Ok?
        ensures ArrayAt(rt, t.objects, r) == ArrayAt(rt, s.objects, r)
      {
        assert r.objectId != ref.objectId;
      }
      forall k | k in t.resolved
        ensures ArrayAt(rt, t.objects, t.resolved[k]).Ok? && KeyOf(ArrayAt(rt, t.objects, t.resolved[k]).value) == k
      {
        assert ArrayAt(rt, s.objects, s.resolved[k]).Ok?;
      }
      forall b | Faithful(rt, s, b) ensures Faithful(rt, t, b) {
      }
    }
  }

  /** Gets change no object and keep the index in agreement. */
  lemma GetObeysLaw(rt: Runtime, s: State, r: BlobRef)
    requires IndexAgrees(rt, s)
    ensures IndexAgrees(rt, Get(rt, s, r).0) && Get(rt, s, r).0.objects == s.objects
  {
  }

  /** VineyardStore meets the codec's store law, and so every theorem about lawful stores. */
  lemma VineyardIsLawful(rt: Runtime, d: Daemon)
    requires Lawful(rt) && FreshIds(d)
    ensures LawfulStore(rt, Api(rt, d), s => IndexAgrees(rt, s), (s, a) => Faithful(rt, s, a))
  {
    var api, inv, storable := Api(rt, d), (s: State) => IndexAgrees(rt, s),
      (s: State, a: NdArray) => Faithful(rt, s, a);
    forall s, a | inv(s) && storable(s, a) ensures PutLaw(rt, api, inv, storable, s, a) {
      PutObeysLaw(rt, d, s, a);
      var (t, ref) := api.put(s, a);
      forall r ensures Denotes(api, s, r) == ContentResult(ArrayAt(rt, s.objects, r)) {
      }
      forall r ensures Denotes(api, t, r) == ContentResult(ArrayAt(rt, t.objects, r)) {
      }
    }
    forall s, r | inv(s) ensures GetLaw(rt, api, inv, storable, s, r) {
      GetObeysLaw(rt, s, r);
    }
  }

  /** When a put is answered by a reference to the array's contents, exactly: on a hit, if the
      registered view has those contents; on a miss, if the array is not 0-d. */
  lemma PutIsFaithfulExactly(rt: Runtime, d: Daemon, s: State, a: NdArray)
    requires Lawful(rt) && FreshIds(d) && IndexAgrees(rt, s)
    requires Genuine(rt, a) && PlainDType(a.dtype) && a.dtype.itemsize > 0
    ensures var (t, ref) := Put(d, s, a);
      ContentResult(ArrayAt(rt, t.objects, ref)) == Ok(Content(a)) <==> Faithful(rt, s, a)
  {
    if Faithful(rt, s, a) {
      PutObeysLaw(rt, d, s, a);
    }
  }

  /** What a put that stores makes of the array: a new whole object with its contents, except
      that a 0-d array gains a dimension. */
  lemma MissStoresContents(rt: Runtime, d: Daemon, s: State, a: NdArray)
    requires Lawful(rt) && FreshIds(d) && Genuine(rt, a) && PlainDType(a.dtype) && a.dtype.itemsize > 0
    requires KeyOf(a) !in s.resolved
    ensures var (t, ref) := Put(d, s, a);
      var shape := if a.shape == [] then [1] else a.shape;
      && ref == BlobRef("vineyard", ref.objectId, 0, |a.bytes|, a.dtype.name, shape)
      && ref.objectId !in s.objects && t.objects.Keys == s.objects.Keys + {ref.objectId} && t.puts == s.puts + 1
      && t.resolved == s.resolved
      && ContentResult(ArrayAt(rt, t.objects, ref)) == Ok(NdArray(a.dtype, shape, a.bytes, 0))
  {
    var (t, ref) := Put(d, s, a);
    var stored := t.objects[ref.objectId];
    ProductOfFew(1);
    ProductNonNeg(stored.shape);
    assert stored.bytes[0..|stored.bytes|] == stored.bytes;
  }

  // ----- what a reference denotes -----

  /** A reference denotes the bytes from its offset on, with its dtype and shape, in the memory
      of the object; and a fault is told by its first cause. */
  lemma ServesExactly(rt: Runtime, objects: map<string, NdArray>, r: BlobRef, a: NdArray)
    ensures var known := r.store == "vineyard" && r.objectId in objects;
      var inside := known && 0 <= r.offset && r.offset + r.nbytes <= |objects[r.objectId].bytes|;
      && (ArrayAt(rt, objects, r) == Ok(a) <==>
            (&& inside && ValidRef(rt, r)
             && rt.dtypeOf(Atom(Str(r.dtype))) == Some(a.dtype) && a.dtype.itemsize > 0
             && a.shape == r.shape && |a.bytes| == r.nbytes && a.addr == objects[r.objectId].addr + r.offset
             && forall i :: 0 <= i < |a.bytes| ==> a.bytes[i] == objects[r.objectId].bytes[r.offset + i]))
      && (ArrayAt(rt, objects, r) == Err(WrongStore) <==> r.store != "vineyard")
      && (ArrayAt(rt, objects, r) == Err(BlobMissing) <==> r.store == "vineyard" && r.objectId !in objects)
      && (ArrayAt(rt, objects, r) == Err(BlobBounds) <==> known && !inside)
  {
    var x := ArrayAt(rt, objects, r);
    if x.Ok? {
      var o := objects[r.objectId];
      assert forall i :: 0 <= i < |x.value.bytes| ==> x.value.bytes[i] == o.bytes[r.offset + i];
      if |a.bytes| == r.nbytes && forall i :: 0 <= i < |a.bytes| ==> a.bytes[i] == o.bytes[r.offset + i] {
        assert a.bytes == x.value.bytes;
      }
    }
  }

  // ----- when an id survives a relay -----

  /** After resolving r and then q, the view of r is put back under r itself, exactly if the
      two references are the same or their views differ in address, size, dtype or shape. */
  lemma IdSurvivesExactly(rt: Runtime, d: Daemon, s: State, r: BlobRef, q: BlobRef)
    requires ArrayAt(rt, s.objects, r).Ok? && ArrayAt(rt, s.objects, q).Ok?
    ensures var t := Get(rt, Get(rt, s, r).0, q).0;
      var a, b := ArrayAt(rt, s.objects, r).value, ArrayAt(rt, s.objects, q).value;
      var same := a.addr == b.addr && |a.bytes| == |b.bytes| && a.dtype.name == b.dtype.name && a.shape == b.shape;
      && Put(d, t, a) == (t, if same then q else r)
      && (Put(d, t, a).1 == r <==> r == q || !same)
  {
  }

  // ----- containment -----

  /** The states over the objects of s, whatever their index. */
  function OverObjects(s: State): State -> bool {
    (t: State) => t.objects == s.objects
  }

  /** Decoding any buffer with this store: the size check of the decoder never fires, and every
      array is a view in the data section or a view of the stored object that some reference
      names. */
  lemma ContainmentWithVineyard(rt: Runtime, d: Daemon, b: seq<byte>, base: int, s: State)
    ensures forall a :: Answers(Some(Api(rt, d)), OverObjects(s), Ok(a)) ==>
      exists r :: ArrayAt(rt, s.objects, r) == Ok(a)
    ensures var r := DecodeAuto(rt, b, base, Some(Api(rt, d)), s).1;
      && r != Err(BeyondEncoded)
      && (r.Ok? ==>
            && ParseHeader(b).Ok?
            && ViewsInside(r.value, SourceOf(b, base, ParseHeader(b).value), Some(Api(rt, d)), OverObjects(s)))
  {
    Containment(rt, b, base, Some(Api(rt, d)), s, OverObjects(s));
  }
}

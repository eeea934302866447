/** External blob references and the store protocol (src/npb/_blob.py). */
module Blob {
  import opened Core
  import opened Format
  import opened Model

  /** BlobRef.to_manifest. */
  function ManifestOf(r: BlobRef): Json {
    JDict([
      JEntry("store", Atom(Str(r.store))),
      JEntry("id", Atom(Str(r.objectId))),
      JEntry("offset", Atom(Int(r.offset))),
      JEntry("nbytes", Atom(Int(r.nbytes))),
      JEntry("dtype", Atom(Str(r.dtype))),
      JEntry("shape", ShapeJson(r.shape))])
  }

  /** `list(shape)` as JSON. */
  function ShapeJson(shape: seq<int>): (j: Json) {
    JList(seq(|shape|, i requires 0 <= i < |shape| => Atom(Int(shape[i]))))
  }

  /** What iterating over a JSON value yields: list items, dictionary keys or the characters
      of a string; None for a value that cannot be iterated. */
  function Iterated(j: Json): Option<seq<Json>> {
    match j
    case JList(items) => Some(items)
    case JDict(entries) => Some(seq(|entries|, i requires 0 <= i < |entries| => Atom(Str(entries[i].key))))
    case Atom(Str(s)) => Some(seq(|s|, i requires 0 <= i < |s| => Atom(Str([s[i]]))))
    case Atom(_) => None
  }

  /** `tuple(int(dim) for dim in j)`: the first exception ends it. */
  function IntsOf(rt: Runtime, js: seq<Json>): (r: Result<seq<int>, Fault>)
    ensures r.Ok? ==> |r.value| == |js|
  {
    if js == [] then Ok([])
    else
      var init := IntsOf(rt, js[..|js| - 1]);
      if init.Err? then init
      else
        var last := rt.intOf(js[|js| - 1]);
        if last.Err? then Err(last.error) else Ok(init.value + [last.value])
  }

  lemma {:induction false} IntsRead(rt: Runtime, js: seq<Json>)
    requires IntsOf(rt, js).Ok?
    ensures forall i :: 0 <= i < |js| ==> rt.intOf(js[i]) == Ok(IntsOf(rt, js).value[i])
  {
    if js != [] {
      IntsRead(rt, js[..|js| - 1]);
    }
  }

  lemma {:induction false} FirstNoInt(rt: Runtime, js: seq<Json>) returns (i: nat)
    requires IntsOf(rt, js).Err?
    ensures i < |js| && rt.intOf(js[i]) == Err(IntsOf(rt, js).error)
    ensures forall k :: 0 <= k < i ==> rt.intOf(js[k]).Ok?
  {
    var init := js[..|js| - 1];
    if IntsOf(rt, init).Err? {
      i := FirstNoInt(rt, init);
    } else {
      IntsRead(rt, init);
      i := |js| - 1;
    }
  }

  /** All of them are integers, or the first that is none decides. */
  lemma IntsOfExactly(rt: Runtime, js: seq<Json>, dims: seq<int>, f: Fault)
    ensures IntsOf(rt, js) == Ok(dims) <==>
      |dims| == |js| && forall i :: 0 <= i < |js| ==> rt.intOf(js[i]) == Ok(dims[i])
    ensures IntsOf(rt, js) == Err(f) <==>
      exists i :: 0 <= i < |js| && rt.intOf(js[i]) == Err(f) && forall k :: 0 <= k < i ==> rt.intOf(js[k]).Ok?
  {
    if IntsOf(rt, js).Ok? {
      IntsRead(rt, js);
      var read := IntsOf(rt, js).value;
      if |dims| == |js| && forall i :: 0 <= i < |js| ==> rt.intOf(js[i]) == Ok(dims[i]) {
        assert forall i :: 0 <= i < |js| ==> Ok(read[i]) == rt.intOf(js[i]) == Ok(dims[i]);
        assert read == dims;
      }
    } else {
      var i := FirstNoInt(rt, js);
    }
  }

  function ShapeOf(rt: Runtime, j: Json): Result<seq<int>, Fault> {
    var items := Iterated(j);
    if items.None? then Err(NotAnInteger) else IntsOf(rt, items.value)
  }

  /** What a shape may be: a list of integers, or a string or dictionary that iterates to them. */
  lemma ShapeExactly(rt: Runtime, j: Json, dims: seq<int>)
    ensures ShapeOf(rt, j) == Ok(dims) <==>
      match j
      case JList(items) => |dims| == |items| && forall i :: 0 <= i < |dims| ==> rt.intOf(items[i]) == Ok(dims[i])
      case JDict(entries) =>
        |dims| == |entries| && forall i :: 0 <= i < |dims| ==> rt.intOf(Atom(Str(entries[i].key))) == Ok(dims[i])
      case Atom(Str(s)) =>
        |dims| == |s| && forall i :: 0 <= i < |dims| ==> rt.intOf(Atom(Str([s[i]]))) == Ok(dims[i])
      case Atom(_) => false
  {
    var items := Iterated(j);
    if items.Some? {
      IntsOfExactly(rt, items.value, dims, NotAnInteger);
    }
  }

  /** `except (KeyError, TypeError, ValueError)`: an OverflowError passes through. */
  function Caught<T>(r: Result<T, Fault>, bad: Fault): Result<T, Fault> {
    match r
    case Ok(_) => r
    case Err(f) => Err(if f == IntegerOverflow then f else bad)
  }

  /** `int(fields[key])`. */
  function IntField(rt: Runtime, fields: seq<JEntry>, key: string, bad: Fault): Result<int, Fault> {
    match Lookup(fields, key)
    case None => Err(bad)
    case Some(j) => Caught(rt.intOf(j), bad)
  }

  /** `tuple(int(dim) for dim in fields["shape"])`. */
  function ShapeField(rt: Runtime, fields: seq<JEntry>, bad: Fault): Result<seq<int>, Fault> {
    match Lookup(fields, "shape")
    case None => Err(bad)
    case Some(j) => Caught(ShapeOf(rt, j), bad)
  }

  lemma {:induction false} IntsOfInts(rt: Runtime, shape: seq<int>, n: nat)
    requires Lawful(rt) && n <= |shape|
    ensures IntsOf(rt, ShapeJson(shape).items[..n]) == Ok(shape[..n])
  {
    var js := ShapeJson(shape).items;
    if n == 0 {
      assert js[..0] == [] && shape[..0] == [];
    } else {
      IntsOfInts(rt, shape, n - 1);
      assert js[..n][..n - 1] == js[..n - 1];
      assert js[..n][n - 1] == Atom(Int(shape[n - 1]));
      assert shape[..n] == shape[..n - 1] + [shape[n - 1]];
    }
  }

  lemma ShapeReadsBack(rt: Runtime, shape: seq<int>)
    requires Lawful(rt)
    ensures ShapeOf(rt, ShapeJson(shape)) == Ok(shape)
  {
    IntsOfInts(rt, shape, |shape|);
    assert ShapeJson(shape).items[..|shape|] == ShapeJson(shape).items;
    assert shape[..|shape|] == shape;
  }

  /** The conditions under which a reference may be used at all. */
  predicate ValidRef(rt: Runtime, r: BlobRef) {
    && r.store != "" && r.objectId != ""
    && r.offset >= 0 && r.nbytes >= 0
    && NonNegative(r.shape)
    && var d := rt.dtypeOf(Atom(Str(r.dtype)));
    && d.Some? && PlainDType(d.value)
    && Product(r.shape) * d.value.itemsize == r.nbytes
  }

  /** BlobRef.from_manifest, in its order of evaluation. The exceptions that the decoder turns
      into a FormatError are BadBlobRef. */
  function BlobRefOf(rt: Runtime, j: Json): Result<BlobRef, Fault> {
    if !j.JDict? then Err(BadBlobRef) else
    var store := Lookup(j.entries, "store");
    var id := Lookup(j.entries, "id");
    if store.None? || id.None? then Err(BadBlobRef) else
    var offset := IntField(rt, j.entries, "offset", BadBlobRef);
    if offset.Err? then Err(offset.error) else
    var nbytes := IntField(rt, j.entries, "nbytes", BadBlobRef);
    if nbytes.Err? then Err(nbytes.error) else
    var dtype := Lookup(j.entries, "dtype");
    if dtype.None? then Err(BadBlobRef) else
    var dims := ShapeField(rt, j.entries, BadBlobRef);
    if dims.Err? then Err(dims.error) else
    var r := BlobRef(rt.strOf(store.value), rt.strOf(id.value), offset.value, nbytes.value,
                     rt.strOf(dtype.value), dims.value);
    if ValidRef(rt, r) then Ok(r) else Err(BadBlobRef)
  }

  /** The same parse as the source runs it, with the size multiplied up in a loop. */
  method FromManifest(rt: Runtime, j: Json) returns (r: Result<BlobRef, Fault>)
    ensures r == BlobRefOf(rt, j)
  {
    r := Err(BadBlobRef);
    if !j.JDict? { return; }
    var store := Lookup(j.entries, "store");
    if store.None? { return; }
    var id := Lookup(j.entries, "id");
    if id.None? { return; }
    var offset := IntField(rt, j.entries, "offset", BadBlobRef);
    if offset.Err? { return Err(offset.error); }
    var nbytes := IntField(rt, j.entries, "nbytes", BadBlobRef);
    if nbytes.Err? { return Err(nbytes.error); }
    var dtype := Lookup(j.entries, "dtype");
    if dtype.None? { return; }
    var dims := ShapeField(rt, j.entries, BadBlobRef);
    if dims.Err? { return Err(dims.error); }
    var ref := BlobRef(rt.strOf(store.value), rt.strOf(id.value), offset.value, nbytes.value,
                       rt.strOf(dtype.value), dims.value);
    if ref.store == "" || ref.objectId == "" { return; }
    if ref.offset < 0 || ref.nbytes < 0 { return; }
    if exists i :: 0 <= i < |ref.shape| && ref.shape[i] < 0 { return; }
    var d := rt.dtypeOf(Atom(Str(ref.dtype)));
    if d.None? || !PlainDType(d.value) { return; }
    var expected: int := d.value.itemsize;
    for i := 0 to |ref.shape|
      invariant expected == Product(ref.shape[..i]) * d.value.itemsize
    {
      assert ref.shape[..i + 1][..i] == ref.shape[..i];
      Regroup(Product(ref.shape[..i]), ref.shape[i], d.value.itemsize);
      expected := expected * ref.shape[i];
    }
    assert ref.shape[..|ref.shape|] == ref.shape;
    if expected != ref.nbytes { return; }
    r := Ok(ref);
  }

  lemma Regroup(p: int, dim: int, size: int)
    ensures p * size * dim == p * dim * size
  {
  }

  /** The reference round trip, with its exact condition: a written reference reads back as
      itself if it is valid, and is refused if it is not. */
  lemma RefRoundTrip(rt: Runtime, r: BlobRef)
    requires Lawful(rt)
    ensures BlobRefOf(rt, ManifestOf(r)) == if ValidRef(rt, r) then Ok(r) else Err(BadBlobRef)
  {
    var es := ManifestOf(r).entries;
    LookupFinds(es, 0);
    LookupFinds(es, 1);
    LookupFinds(es, 2);
    LookupFinds(es, 3);
    LookupFinds(es, 4);
    LookupFinds(es, 5);
    ShapeReadsBack(rt, r.shape);
  }

  /** What from_manifest returns, exactly: the reference that the six fields spell out, if it
      has names, no negative number, a plain dtype, and as many bytes as its shape takes. */
  lemma ReadsExactly(rt: Runtime, j: Json, r: BlobRef)
    ensures BlobRefOf(rt, j) == Ok(r) <==>
      && j.JDict?
      && (exists x :: Lookup(j.entries, "store") == Some(x) && rt.strOf(x) == r.store)
      && (exists x :: Lookup(j.entries, "id") == Some(x) && rt.strOf(x) == r.objectId)
      && (exists x :: Lookup(j.entries, "offset") == Some(x) && rt.intOf(x) == Ok(r.offset))
      && (exists x :: Lookup(j.entries, "nbytes") == Some(x) && rt.intOf(x) == Ok(r.nbytes))
      && (exists x :: Lookup(j.entries, "dtype") == Some(x) && rt.strOf(x) == r.dtype)
      && (exists x :: Lookup(j.entries, "shape") == Some(x) && ShapeOf(rt, x) == Ok(r.shape))
      && r.store != "" && r.objectId != "" && r.offset >= 0 && r.nbytes >= 0
      && (forall i :: 0 <= i < |r.shape| ==> r.shape[i] >= 0)
      && (exists d :: rt.dtypeOf(Atom(Str(r.dtype))) == Some(d) && !d.hasObject && !d.structured &&
            Product(r.shape) * d.itemsize == r.nbytes)
    ensures BlobRefOf(rt, j).Err? ==> BlobRefOf(rt, j).error in {BadBlobRef, IntegerOverflow}
    ensures
      (&& j.JDict? && Lookup(j.entries, "store").Some? && Lookup(j.entries, "id").Some?
       && exists x :: Lookup(j.entries, "offset") == Some(x) && rt.intOf(x) == Err(IntegerOverflow)) ==>
        BlobRefOf(rt, j) == Err(IntegerOverflow)
  {
  }

  lemma ManifestWellFormed(r: BlobRef)
    ensures WellFormed(ManifestOf(r))
  {
    var es := ManifestOf(r).entries;
    forall e | e in es ensures WellFormed(e.value) {
    }
  }

  // ----- the store protocol -----

  /** A store as the codec sees it: a state S and the two calls the codec makes. */
  datatype BlobApi<!S> = BlobApi(
    kind: string,
    put: (S, NdArray) -> (S, BlobRef),
    get: (S, BlobRef) -> (S, Result<NdArray, Fault>))

  function ContentResult(r: Result<NdArray, Fault>): Result<NdArray, Fault> {
    match r
    case Ok(a) => Ok(Content(a))
    case Err(f) => Err(f)
  }

  /** What a reference denotes in a store state. */
  function Denotes<S>(api: BlobApi<S>, s: S, r: BlobRef): Result<NdArray, Fault> {
    ContentResult(api.get(s, r).1)
  }

  ghost predicate SameDenotation<S(!new)>(api: BlobApi<S>, s: S, t: S) {
    forall r :: Denotes(api, t, r) == Denotes(api, s, r)
  }

  /** t still serves every object that s serves. */
  ghost predicate Extends<S(!new)>(api: BlobApi<S>, s: S, t: S) {
    forall r :: Denotes(api, s, r).Ok? ==> Denotes(api, t, r) == Denotes(api, s, r)
  }

  /** The store law, relative to the states a store can be in and to the arrays it stores
      faithfully: get undoes put, puts leave earlier objects alone, gets change no object. */
  ghost predicate LawfulStore<S(!new)>(
    rt: Runtime, api: BlobApi<S>, inv: S -> bool, storable: (S, NdArray) -> bool)
  {
    && (forall s, a :: inv(s) && storable(s, a) ==> PutLaw(rt, api, inv, storable, s, a))
    && (forall s, r :: inv(s) ==> GetLaw(rt, api, inv, storable, s, r))
  }

  ghost predicate PutLaw<S(!new)>(
    rt: Runtime, api: BlobApi<S>, inv: S -> bool, storable: (S, NdArray) -> bool, s: S, a: NdArray)
  {
    var (t, ref) := api.put(s, a);
    && inv(t)
    && ValidRef(rt, ref) && ref.store == api.kind
    && Denotes(api, t, ref) == Ok(Content(a))
    && Extends(api, s, t)
    && (forall b :: storable(s, b) ==> storable(t, b))
  }

  ghost predicate GetLaw<S(!new)>(
    rt: Runtime, api: BlobApi<S>, inv: S -> bool, storable: (S, NdArray) -> bool, s: S, r: BlobRef)
  {
    var t := api.get(s, r).0;
    inv(t) && SameDenotation(api, s, t)
  }
}

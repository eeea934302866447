/** The values that cross the codec: python trees, JSON manifests, ndarrays and blob
    references, together with the library calls the codec relies on. */
module Model {
  import opened Core
  import opened Format

  /** JSON scalars. Floats stay opaque: the codec never computes with them. */
  datatype Scalar = Null | Bool(b: bool) | Int(n: int) | Float(text: string) | Str(s: string)

  /** JSON as `from_json` yields it: dictionaries keep their order and have distinct keys. */
  datatype Json = Atom(scalar: Scalar) | JList(items: seq<Json>) | JDict(entries: seq<JEntry>)
  datatype JEntry = JEntry(key: string, value: Json)

  datatype DType = DType(name: string, itemsize: nat, hasObject: bool, structured: bool)

  /** An ndarray: its type, its shape, its elements as C-order bytes, and where it lives. */
  datatype NdArray = NdArray(dtype: DType, shape: seq<nat>, bytes: seq<byte>, addr: int)

  datatype BlobRef = BlobRef(
    store: string, objectId: string, offset: int, nbytes: int, dtype: string, shape: seq<int>)

  /** A dumped model tree. */
  datatype Value =
    | Leaf(scalar: Scalar)
    | Array(a: NdArray)
    | Blob(ref: BlobRef)
    | List(items: seq<Value>)
    | Tuple(items: seq<Value>)
    | Dict(entries: seq<Entry>)
  datatype Entry = Entry(key: string, value: Value)

  /** Library behaviour the codec depends on: `to_json`, `from_json`, `int()`, `str()` and
      `np.dtype()`. None stands for a raised ValueError or TypeError; int() also raises
      OverflowError (of an infinite float), which nobody catches. */
  datatype Runtime = Runtime(
    toJson: Json -> seq<byte>,
    fromJson: seq<byte> -> Option<Json>,
    intOf: Json -> Result<int, Fault>,
    strOf: Json -> string,
    dtypeOf: Json -> Option<DType>)

  // ----- dictionaries -----

  function KeysOf(entries: seq<JEntry>): (keys: seq<string>)
    ensures |keys| == |entries|
    ensures forall i :: 0 <= i < |keys| ==> keys[i] == entries[i].key
  {
    seq(|entries|, i requires 0 <= i < |entries| => entries[i].key)
  }

  /** `node[key]`, None when the key is missing. */
  function Lookup(entries: seq<JEntry>, key: string): Option<Json> {
    if entries == [] then None
    else if entries[|entries| - 1].key == key then Some(entries[|entries| - 1].value)
    else Lookup(entries[..|entries| - 1], key)
  }

  lemma {:induction false} LookupFinds(entries: seq<JEntry>, i: nat)
    requires i < |entries| && Distinct(KeysOf(entries))
    ensures Lookup(entries, entries[i].key) == Some(entries[i].value)
    decreases |entries|
  {
    var last := |entries| - 1;
    if i < last {
      var keys := KeysOf(entries);
      assert keys[i] != keys[last];
      assert KeysOf(entries[..last]) == keys[..last];
      LookupFinds(entries[..last], i);
    }
  }

  /** A lookup finds exactly the entry of the key. */
  lemma {:induction false} LookupExactly(entries: seq<JEntry>, key: string, value: Json)
    requires Distinct(KeysOf(entries))
    ensures Lookup(entries, key) == Some(value) <==> JEntry(key, value) in entries
    ensures Lookup(entries, key) == None <==> key !in KeysOf(entries)
  {
    if i :| 0 <= i < |entries| && entries[i].key == key {
      LookupFinds(entries, i);
      assert KeysOf(entries)[i] == key;
      forall j | 0 <= j < |entries| && entries[j].key == key ensures j == i {
        assert KeysOf(entries)[j] == key;
      }
    } else {
      LookupMisses(entries, key);
    }
  }

  lemma {:induction false} LookupMisses(entries: seq<JEntry>, key: string)
    requires forall i :: 0 <= i < |entries| ==> entries[i].key != key
    ensures Lookup(entries, key) == None
  {
    if entries != [] {
      LookupMisses(entries[..|entries| - 1], key);
    }
  }

  /** `set(node) == {key}` for a dictionary. */
  predicate Only(entries: seq<JEntry>, key: string) {
    |entries| == 1 && entries[0].key == key
  }

  predicate WellFormed(j: Json)
    decreases j, 1
  {
    match j
    case Atom(_) => true
    case JList(items) => forall x | x in items :: WellFormed(x)
    case JDict(entries) => Distinct(KeysOf(entries)) && forall e | e in entries :: WellFormed(e.value)
  }

  /** What the library calls promise. */
  ghost predicate Lawful(rt: Runtime) {
    && (forall j :: WellFormed(j) ==> rt.fromJson(rt.toJson(j)) == Some(j))
    && (forall b :: rt.fromJson(b).Some? ==> WellFormed(rt.fromJson(b).value))
    && (forall n :: rt.intOf(Atom(Int(n))) == Ok(n))
    && (forall s :: rt.strOf(Atom(Str(s))) == s)
    && (forall j :: rt.dtypeOf(j).Some? ==> KnownDType(rt, rt.dtypeOf(j).value))
  }

  /** `np.dtype(d.str) == d`, which holds of every dtype that is not structured. */
  predicate KnownDType(rt: Runtime, d: DType) {
    !d.structured ==> rt.dtypeOf(Atom(Str(d.name))) == Some(d)
  }

  // ----- shapes -----

  /** The number of elements: the running product that the source's loops build up. */
  function Product(shape: seq<int>): int {
    if shape == [] then 1 else Product(shape[..|shape| - 1]) * shape[|shape| - 1]
  }

  predicate NonNegative(shape: seq<int>) {
    forall i :: 0 <= i < |shape| ==> shape[i] >= 0
  }

  lemma {:induction false} ProductNonNeg(shape: seq<int>)
    requires NonNegative(shape)
    ensures Product(shape) >= 0
  {
    if shape != [] {
      ProductNonNeg(shape[..|shape| - 1]);
      MulNonNeg(Product(shape[..|shape| - 1]), shape[|shape| - 1]);
    }
  }

  lemma MulNonNeg(x: int, y: int)
    requires x >= 0 && y >= 0
    ensures x * y >= 0
  {
  }

  /** NumPy's own invariant: the payload holds exactly the elements of the shape. */
  predicate Genuine(rt: Runtime, a: NdArray) {
    && KnownDType(rt, a.dtype)
    && |a.bytes| == Product(a.shape) * a.dtype.itemsize
  }

  predicate PlainDType(d: DType) {
    !d.hasObject && !d.structured
  }

  // ----- normal form -----

  /** An ndarray up to its address. */
  function Content(a: NdArray): NdArray {
    a.(addr := 0)
  }

  /** The normal form of a tree: tuples become lists and addresses are forgotten. */
  function Erase(v: Value): Value
    decreases v, 1
  {
    match v
    case Array(a) => Array(Content(a))
    case List(items) => List(EraseItems(items))
    case Tuple(items) => List(EraseItems(items))
    case Dict(entries) => Dict(EraseEntries(entries))
    case _ => v
  }

  function EraseItems(items: seq<Value>): seq<Value>
    decreases items, 0
  {
    if items == [] then [] else EraseItems(items[..|items| - 1]) + [Erase(items[|items| - 1])]
  }

  function EraseEntries(entries: seq<Entry>): seq<Entry>
    decreases entries, 0
  {
    if entries == [] then []
    else
      var e := entries[|entries| - 1];
      EraseEntries(entries[..|entries| - 1]) + [Entry(e.key, Erase(e.value))]
  }

  function EraseResult(r: Result<Value, Fault>): Result<Value, Fault> {
    match r
    case Ok(v) => Ok(Erase(v))
    case Err(f) => Err(f)
  }
}

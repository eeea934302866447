/** Long pipelines: every stage decodes a control message with its own VineyardStore and
    encodes it again. */
module Chain {
  import opened Core
  import opened Format
  import opened Model
  import opened Trees
  import opened Blob
  import opened Manifest
  import opened Container
  import opened Restore
  import opened RoundTrip
  import opened Vineyard
  import opened Relay

  // ----- pipelines -----

  /** User-supplied references that stages can read: they resolve. A tree of arrays alone is
      always relayable. */
  predicate Relayable(rt: Runtime, objects: map<string, NdArray>, v: Value) {
    All(v, RelayNode(rt, objects))
  }

  function RelayNode(rt: Runtime, objects: map<string, NdArray>): Value -> bool {
    (v: Value) => v.Blob? ==> ArrayAt(rt, objects, v.ref).Ok?
  }

  function Denotation(rt: Runtime, objects: map<string, NdArray>): BlobRef -> Result<NdArray, Fault> {
    r => ContentResult(ArrayAt(rt, objects, r))
  }

  lemma {:induction false} RelayableDecodes(rt: Runtime, objects: map<string, NdArray>, v: Value)
    requires Relayable(rt, objects, v)
    ensures Ideal(rt, v, Some(KIND), Denotation(rt, objects)).Ok?
    decreases v, 1
  {
    match v
    case Dict(entries) => RelayableEntriesDecode(rt, objects, entries);
    case List(items) => RelayableItemsDecode(rt, objects, items);
    case Tuple(items) => RelayableItemsDecode(rt, objects, items);
    case _ =>
  }

  lemma {:induction false} RelayableItemsDecode(rt: Runtime, objects: map<string, NdArray>, items: seq<Value>)
    requires AllItems(items, RelayNode(rt, objects))
    ensures IdealItems(rt, items, Some(KIND), Denotation(rt, objects)).Ok?
    decreases items, 0
  {
    if items != [] {
      RelayableItemsDecode(rt, objects, items[..|items| - 1]);
      RelayableDecodes(rt, objects, items[|items| - 1]);
    }
  }

  lemma {:induction false} RelayableEntriesDecode(rt: Runtime, objects: map<string, NdArray>, entries: seq<Entry>)
    requires AllEntries(entries, RelayNode(rt, objects))
    ensures IdealEntries(rt, entries, Some(KIND), Denotation(rt, objects)).Ok?
    decreases entries, 0
  {
    if entries != [] {
      RelayableEntriesDecode(rt, objects, entries[..|entries| - 1]);
      RelayableDecodes(rt, objects, entries[|entries| - 1].value);
    }
  }

  /** One stage: decode with the stage's own store, encode the result with the same store. */
  function RunStage(rt: Runtime, d: Daemon, schemaId: seq<byte>, version: nat, n: Option<nat>, b: seq<byte>,
      base: int, s: State):
    (State, Result<Value, Fault>, Result<seq<byte>, Fault>)
  {
    var (s1, v) := Decode(rt, schemaId, version, b, base, Some(Api(rt, d)), s);
    if v.Err? then (s1, v, Err(v.error)) else
    var doc := Document(schemaId, version, v.value);
    var (s2, plan) := AnalyzeModel(rt, doc, StagePolicy(rt, d, n), s1);
    if plan.Err? then (s2, v, Err(plan.error))
    else if !Packable(InfoOf(plan.value)) then (s2, v, Err(FieldOverflow))
    else
      PlansAreLaid(rt, doc, StagePolicy(rt, d, n), s1);
      (s2, v, Ok(ContainerBytes(plan.value)))
  }

  /** The message of a document, ready to travel. */
  ghost predicate Message(rt: Runtime, d: Daemon, doc: Document, k: nat, s: State, b: seq<byte>) {
    var plan := AnalyzeModel(rt, doc, Threshold(rt, d, k), s).1;
    plan.Ok? && Laid(plan.value) && Packable(InfoOf(plan.value)) && b == ContainerBytes(plan.value)
  }

  /** What a document and the first store must satisfy for stages to read the message. */
  ghost predicate CanArrive(rt: Runtime, d: Daemon, doc: Document, k: nat, s: State) {
    && Lawful(rt) && FreshIds(d) && IndexAgrees(rt, s)
    && Proper(rt, doc.tree) && Clean(doc.tree) && doc.tree.Dict?
    && Storable(doc.tree, Threshold(rt, d, k), s, (s, a) => Faithful(rt, s, a))
    && var (w, m) := ManifestTree(doc.tree, Walk(0, [], s), Threshold(rt, d, k));
    && m.Ok? && Relayable(rt, w.store.objects, doc.tree)
  }

  /** The references of the message, and whether their views can be told apart. */
  ghost predicate RefsApart(rt: Runtime, d: Daemon, doc: Document, k: nat, s: State) {
    var (w, m) := ManifestTree(doc.tree, Walk(0, [], s), Threshold(rt, d, k));
    m.Ok? && KeysApart(rt, w.store.objects, MessageRefs(rt, m.value))
  }

  /** A stage with this threshold externalises what the message refers to, and nothing else. */
  ghost predicate Suits(rt: Runtime, d: Daemon, doc: Document, k: nat, s: State, n: Option<nat>) {
    var (w, m) := ManifestTree(doc.tree, Walk(0, [], s), Threshold(rt, d, k));
    m.Ok? && Large(MessageRefs(rt, m.value), n) && Small(w.arrays, n)
  }

  lemma {:induction false} SamePayload(x: seq<Placed>, y: seq<Placed>)
    requires EraseArrays(x) == EraseArrays(y)
    ensures Payload(x) == Payload(y)
    decreases |x|
  {
    assert |x| == |EraseArrays(x)| == |EraseArrays(y)| == |y|;
    if x != [] {
      var n := |x| - 1;
      assert EraseArrays(x)[n] == EraseArrays(y)[n];
      assert EraseArrays(x[..n]) == EraseArrays(x)[..n] == EraseArrays(y)[..n] == EraseArrays(y[..n]);
      SamePayload(x[..n], y[..n]);
    }
  }

  /** A stage reads the original contents, against any store that serves the same objects. */
  lemma StageReads(rt: Runtime, d: Daemon, doc: Document, k: nat, first: State, b: seq<byte>, base: int, s: State)
    requires CanArrive(rt, d, doc, k, first) && Message(rt, d, doc, k, first, b)
    requires IndexAgrees(rt, s)
    requires s.objects == AnalyzeModel(rt, doc, Threshold(rt, d, k), first).0.objects
    ensures EraseResult(DecodeAuto(rt, b, base, Some(Api(rt, d)), s).1)
         == Ideal(rt, doc.tree, Some(KIND), Denotation(rt, s.objects))
    ensures EraseResult(DecodeAuto(rt, b, base, Some(Api(rt, d)), s).1).Ok?
  {
    var api, den := Api(rt, d), Denotation(rt, s.objects);
    var inv, storable := (s: State) => IndexAgrees(rt, s), (s: State, a: NdArray) => Faithful(rt, s, a);
    var (after, plan) := AnalyzeModel(rt, doc, Threshold(rt, d, k), first);
    assert b[..|b|] == b;
    ContainerInFiveParts(plan.value);
    CarriedIsReadable(b, base, plan.value);
    VineyardIsLawful(rt, d);
    forall r ensures Denotes(api, s, r) == den(r) && Denotes(api, after, r) == den(r) {
    }
    DecodeMeetsIdeal(rt, doc, Threshold(rt, d, k), first, b, base, Some(api), s, inv, storable, den);
    RelayableDecodes(rt, s.objects, doc.tree);
  }

  /** The re-encode has the layout of the message, and its manifest up to renaming. */
  lemma ReplansRelabelled(rt: Runtime, d: Daemon, doc: Document, k: nat, first: State, n: Option<nat>, src: Source,
      s: State)
    requires CanArrive(rt, d, doc, k, first) && Suits(rt, d, doc, k, first, n)
    requires var p := Threshold(rt, d, k); var (w, m) := ManifestTree(doc.tree, Walk(0, [], first), p);
      && s.objects == w.store.objects && Holds(src, w.arrays)
      && RestoreTree(rt, m.value, src, p.store, s).1.Ok?
    ensures var p := Threshold(rt, d, k); var (w, m) := ManifestTree(doc.tree, Walk(0, [], first), p);
      var (t, v) := RestoreTree(rt, m.value, src, p.store, s);
      var (w', m') := ManifestTree(v.value, Walk(0, [], t), StagePolicy(rt, d, n));
      && m' == Ok(Relabel(rt, t, m.value)) && InStep(w', w) && w'.store == t
      && t.objects == s.objects && t.puts == s.puts
      && (m' == m <==> KeysApart(rt, s.objects, MessageRefs(rt, m.value)))
  {
    var p, w0 := Threshold(rt, d, k), Walk(0, [], first);
    var (w, m) := ManifestTree(doc.tree, w0, p);
    var refs := MessageRefs(rt, m.value);
    DecodeRegisters(rt, d, m.value, src, s, refs);
    var t := RestoreTree(rt, m.value, src, p.store, s).0;
    Reencodes(rt, d, doc.tree, w0, k, n, src, s, t, refs, Walk(0, [], t));
    RelabelsNothing(rt, t, m.value);
    RenamesNoneIfApart(rt, t, m.value);
  }

  /** Plans that differ in addresses only describe the same container. */
  lemma SameContainer(x: Plan, y: Plan)
    requires Laid(x) && Packable(InfoOf(x)) && Laid(y)
    requires y == x.(arrays := y.arrays) && EraseArrays(y.arrays) == EraseArrays(x.arrays)
    ensures Packable(InfoOf(y)) && ContainerBytes(y) == ContainerBytes(x)
  {
    SamePayload(x.arrays, y.arrays);
    assert InfoOf(y) == InfoOf(x);
  }

  /** Typed decode of the message is the restore of its manifest. */
  lemma StageRestores(rt: Runtime, d: Daemon, doc: Document, k: nat, first: State, b: seq<byte>, base: int, s: State)
    requires CanArrive(rt, d, doc, k, first) && Message(rt, d, doc, k, first, b)
    requires IndexAgrees(rt, s)
    requires s.objects == AnalyzeModel(rt, doc, Threshold(rt, d, k), first).0.objects
    ensures var plan := AnalyzeModel(rt, doc, Threshold(rt, d, k), first).1.value;
      var src := SourceOf(b, base, InfoOf(plan));
      var m := ManifestTree(doc.tree, Walk(0, [], first), Threshold(rt, d, k)).1.value;
      var (t, v) := RestoreTree(rt, m, src, Some(Api(rt, d)), s);
      && Holds(src, plan.arrays)
      && Decode(rt, doc.schemaId, doc.schemaVersion, b, base, Some(Api(rt, d)), s) == (t, v)
      && v.Ok? && EraseResult(v) == Ideal(rt, doc.tree, Some(KIND), Denotation(rt, s.objects))
  {
    var p := Threshold(rt, d, k);
    var plan := AnalyzeModel(rt, doc, p, first).1.value;
    assert b[..|b|] == b;
    ContainerInFiveParts(plan);
    CarriedIsReadable(b, base, plan);
    StageReads(rt, d, doc, k, first, b, base, s);
    DecodeIsRestore(rt, doc, p, first, b, base, p.store, s);
    StoreNeverMissing(rt, b, base, p.store, s);
  }

  /** Containers with different metadata are different. */
  lemma MetadataShows(x: Plan, y: Plan)
    requires Laid(x) && Packable(InfoOf(x)) && Laid(y) && Packable(InfoOf(y))
    requires ContainerBytes(x) == ContainerBytes(y)
    ensures x.metadata == y.metadata
  {
    var b := ContainerBytes(x);
    ReadsItself(x, b);
    ReadsItself(y, b);
  }

  lemma ReadsItself(x: Plan, b: seq<byte>)
    requires Laid(x) && Packable(InfoOf(x)) && b == ContainerBytes(x)
    ensures ParseHeader(b) == Ok(InfoOf(x)) && HEADER_SIZE + |x.metadata| <= |b|
    ensures b[HEADER_SIZE..HEADER_SIZE + |x.metadata|] == x.metadata
  {
    ContainerInFiveParts(x);
    assert b[..|b|] == b;
    CarriedHeader(b, x);
    CarriedMetadata(b, x);
  }

  /** Different manifests have different texts. */
  lemma TextsDiffer(rt: Runtime, i: Json, j: Json)
    requires Lawful(rt) && WellFormed(i) && WellFormed(j) && rt.toJson(i) == rt.toJson(j)
    ensures i == j
  {
    assert rt.fromJson(rt.toJson(i)) == Some(i);
    assert rt.fromJson(rt.toJson(j)) == Some(j);
  }

  /** A stage reads the contents that went in. With a threshold that suits the message it puts
      nothing, and forwards the message byte for byte if and only if no two references of the
      message resolve to views with the same address, size, dtype and shape. */
  lemma SuitingStage(rt: Runtime, d: Daemon, doc: Document, k: nat, first: State, n: Option<nat>, b: seq<byte>,
      base: int, s: State)
    requires CanArrive(rt, d, doc, k, first) && Message(rt, d, doc, k, first, b) && Suits(rt, d, doc, k, first, n)
    requires IndexAgrees(rt, s)
    requires s.objects == AnalyzeModel(rt, doc, Threshold(rt, d, k), first).0.objects
    ensures var (t, v, out) := RunStage(rt, d, doc.schemaId, doc.schemaVersion, n, b, base, s);
      && t.objects == s.objects && t.puts == s.puts
      && (out == Ok(b) <==> RefsApart(rt, d, doc, k, first))
  {
    var p, q := Threshold(rt, d, k), StagePolicy(rt, d, n);
    var plan := AnalyzeModel(rt, doc, p, first).1.value;
    StageRestores(rt, d, doc, k, first, b, base, s);
    ReplansRelabelled(rt, d, doc, k, first, n, SourceOf(b, base, InfoOf(plan)), s);
    var (t, v) := Decode(rt, doc.schemaId, doc.schemaVersion, b, base, p.store, s);
    var again := Document(doc.schemaId, doc.schemaVersion, v.value);
    PlansAreLaid(rt, again, q, t);
    var m := ManifestTree(doc.tree, Walk(0, [], first), p).1.value;
    ManifestIsWellFormed(rt, doc.tree, Walk(0, [], first), p);
    RelabelIsWellFormed(rt, t, m);
    SameBytes(rt, plan, AnalyzeModel(rt, again, q, t).1.value, m, Relabel(rt, t, m));
  }

  /** A stage that forwards the message has a threshold that suits it. */
  lemma OnlySuitingForward(rt: Runtime, d: Daemon, doc: Document, k: nat, first: State, n: Option<nat>, b: seq<byte>,
      base: int, s: State)
    requires CanArrive(rt, d, doc, k, first) && Message(rt, d, doc, k, first, b)
    requires IndexAgrees(rt, s)
    requires s.objects == AnalyzeModel(rt, doc, Threshold(rt, d, k), first).0.objects
    requires RunStage(rt, d, doc.schemaId, doc.schemaVersion, n, b, base, s).2 == Ok(b)
    ensures Suits(rt, d, doc, k, first, n)
  {
    var p, q, w0 := Threshold(rt, d, k), StagePolicy(rt, d, n), Walk(0, [], first);
    var plan := AnalyzeModel(rt, doc, p, first).1.value;
    var m := ManifestTree(doc.tree, w0, p).1.value;
    var src := SourceOf(b, base, InfoOf(plan));
    StageRestores(rt, d, doc, k, first, b, base, s);
    var (t, v) := Decode(rt, doc.schemaId, doc.schemaVersion, b, base, p.store, s);
    var again := Document(doc.schemaId, doc.schemaVersion, v.value);
    PlansAreLaid(rt, again, q, t);
    MetadataShows(plan, AnalyzeModel(rt, again, q, t).1.value);
    ManifestIsWellFormed(rt, doc.tree, w0, p);
    RestoredIsProper(rt, d, m, src, s);
    ManifestIsWellFormed(rt, v.value, Walk(0, [], t), q);
    TextsDiffer(rt, m, ManifestTree(v.value, Walk(0, [], t), q).1.value);
    OnlySuitingReproduces(rt, d, doc.tree, w0, k, n, src, s, Walk(0, [], t));
  }

  /** What one stage does, exactly: it reads the contents that went in, and forwards the
      message byte for byte if and only if its threshold suits the message and no two
      references of the message share a key; and with a threshold that suits it puts nothing. */
  lemma StageForwardsExactly(rt: Runtime, d: Daemon, doc: Document, k: nat, first: State, n: Option<nat>, b: seq<byte>,
      base: int, s: State)
    requires CanArrive(rt, d, doc, k, first) && Message(rt, d, doc, k, first, b)
    requires IndexAgrees(rt, s)
    requires s.objects == AnalyzeModel(rt, doc, Threshold(rt, d, k), first).0.objects
    ensures var (t, v, out) := RunStage(rt, d, doc.schemaId, doc.schemaVersion, n, b, base, s);
      && v.Ok? && EraseResult(v) == Ideal(rt, doc.tree, Some(KIND), Denotation(rt, s.objects))
      && (out == Ok(b) <==> Suits(rt, d, doc, k, first, n) && RefsApart(rt, d, doc, k, first))
      && (Suits(rt, d, doc, k, first, n) ==> t.objects == s.objects && t.puts == s.puts)
  {
    StageSees(rt, d, doc, k, first, n, b, base, s);
    if Suits(rt, d, doc, k, first, n) {
      SuitingStage(rt, d, doc, k, first, n, b, base, s);
    } else {
      UnsuitingStage(rt, d, doc, k, first, n, b, base, s);
    }
  }

  lemma UnsuitingStage(rt: Runtime, d: Daemon, doc: Document, k: nat, first: State, n: Option<nat>, b: seq<byte>,
      base: int, s: State)
    requires CanArrive(rt, d, doc, k, first) && Message(rt, d, doc, k, first, b) && !Suits(rt, d, doc, k, first, n)
    requires IndexAgrees(rt, s)
    requires s.objects == AnalyzeModel(rt, doc, Threshold(rt, d, k), first).0.objects
    ensures RunStage(rt, d, doc.schemaId, doc.schemaVersion, n, b, base, s).2 != Ok(b)
  {
    if RunStage(rt, d, doc.schemaId, doc.schemaVersion, n, b, base, s).2 == Ok(b) {
      OnlySuitingForward(rt, d, doc, k, first, n, b, base, s);
    }
  }

  lemma StageSees(rt: Runtime, d: Daemon, doc: Document, k: nat, first: State, n: Option<nat>, b: seq<byte>,
      base: int, s: State)
    requires CanArrive(rt, d, doc, k, first) && Message(rt, d, doc, k, first, b)
    requires IndexAgrees(rt, s)
    requires s.objects == AnalyzeModel(rt, doc, Threshold(rt, d, k), first).0.objects
    ensures var v := RunStage(rt, d, doc.schemaId, doc.schemaVersion, n, b, base, s).1;
      v.Ok? && EraseResult(v) == Ideal(rt, doc.tree, Some(KIND), Denotation(rt, s.objects))
  {
    var v := Decode(rt, doc.schemaId, doc.schemaVersion, b, base, Some(Api(rt, d)), s).1;
    assert v.Ok? && EraseResult(v) == Ideal(rt, doc.tree, Some(KIND), Denotation(rt, s.objects)) by {
      StageRestores(rt, d, doc, k, first, b, base, s);
    }
    StageDecodes(rt, d, doc.schemaId, doc.schemaVersion, n, b, base, s);
  }

  lemma StageDecodes(rt: Runtime, d: Daemon, schemaId: seq<byte>, version: nat, n: Option<nat>, b: seq<byte>,
      base: int, s: State)
    ensures RunStage(rt, d, schemaId, version, n, b, base, s).1
         == Decode(rt, schemaId, version, b, base, Some(Api(rt, d)), s).1
  {
  }

  /** Plans of one layout give one container exactly if their manifests are equal. */
  lemma SameBytes(rt: Runtime, x: Plan, y: Plan, m: Json, n: Json)
    requires Lawful(rt) && WellFormed(m) && WellFormed(n) && x.metadata == rt.toJson(m) && y.metadata == rt.toJson(n)
    requires Laid(x) && Packable(InfoOf(x)) && Laid(y)
    requires x.schemaId == y.schemaId && x.schemaVersion == y.schemaVersion && x.dataBytes == y.dataBytes
    requires EraseArrays(y.arrays) == EraseArrays(x.arrays)
    ensures m == n ==> Packable(InfoOf(y))
    ensures Packable(InfoOf(y)) && ContainerBytes(y) == ContainerBytes(x) <==> m == n
  {
    if m == n {
      SameContainer(x, y);
    } else if Packable(InfoOf(y)) && ContainerBytes(y) == ContainerBytes(x) {
      MetadataShows(x, y);
      TextsDiffer(rt, m, n);
    }
  }

  /** A stage: its index, where its receive buffer lies, and the threshold it encodes with. */
  datatype Stage = Stage(resolved: map<Key, BlobRef>, base: int, minBytes: Option<nat>)

  /** The outcome of a stage: the store, what it read, what it sends on. */
  type Outcome = (State, Result<Value, Fault>, Result<seq<byte>, Fault>)

  /** A pipeline over one daemon, for stages that run so: each has its own index and receive
      buffer, and starts on the objects and the message that the one before it left. */
  function Through(run: (Stage, seq<byte>, State) -> Outcome, b: seq<byte>, objects: map<string, NdArray>, puts: nat,
                   stages: seq<Stage>): (State, seq<Value>, Result<seq<byte>, Fault>)
    decreases |stages|
  {
    if stages == [] then (State(objects, puts, map[]), [], Ok(b))
    else
      var (t, v, out) := run(stages[0], b, State(objects, puts, stages[0].resolved));
      if v.Err? || out.Err? then (t, [], out)
      else
        var (u, seen, final) := Through(run, out.value, t.objects, t.puts, stages[1..]);
        (u, [v.value] + seen, final)
  }

  function StageRun(rt: Runtime, d: Daemon, schemaId: seq<byte>, version: nat): (Stage, seq<byte>, State) -> Outcome {
    (x: Stage, b: seq<byte>, s: State) => RunStage(rt, d, schemaId, version, x.minBytes, b, x.base, s)
  }

  function RunChain(rt: Runtime, d: Daemon, schemaId: seq<byte>, version: nat, b: seq<byte>,
                    objects: map<string, NdArray>, puts: nat, stages: seq<Stage>):
    (State, seq<Value>, Result<seq<byte>, Fault>)
  {
    Through(StageRun(rt, d, schemaId, version), b, objects, puts, stages)
  }

  /** A pipeline of two parts that runs through: the second part starts on the message, the
      objects and the puts that the first one left. */
  lemma {:induction false} ThroughBoth(run: (Stage, seq<byte>, State) -> Outcome, b: seq<byte>,
      objects: map<string, NdArray>, puts: nat, xs: seq<Stage>, ys: seq<Stage>)
    requires var (_, seen, out) := Through(run, b, objects, puts, xs); out.Ok? && |seen| == |xs|
    ensures var (t, seen, out) := Through(run, b, objects, puts, xs);
      var (u, later, final) := Through(run, out.value, t.objects, t.puts, ys);
      final.Ok? && |later| == |ys| ==>
        Through(run, b, objects, puts, xs + ys) == (u, seen + later, final)
    decreases |xs|
  {
    if xs == [] {
      assert xs + ys == ys;
      var later := Through(run, b, objects, puts, ys).1;
      assert [] + later == later;
    } else {
      var (t, v, out) := run(xs[0], b, State(objects, puts, xs[0].resolved));
      assert (xs + ys)[1..] == xs[1..] + ys;
      if v.Ok? && out.Ok? {
        ThroughBoth(run, out.value, t.objects, t.puts, xs[1..], ys);
        var (u, more, end) := Through(run, out.value, t.objects, t.puts, xs[1..]);
        var later := Through(run, end.value, u.objects, u.puts, ys).1;
        assert [v.value] + (more + later) == ([v.value] + more) + later;
      }
    }
  }

  /** The stage reads ideal, forwards b and puts nothing. */
  predicate Forwards(run: (Stage, seq<byte>, State) -> Outcome, b: seq<byte>, objects: map<string, NdArray>, puts: nat,
                     ideal: Result<Value, Fault>, x: Stage) {
    var (t, v, out) := run(x, b, State(objects, puts, x.resolved));
    v.Ok? && EraseResult(v) == ideal && out == Ok(b) && t.objects == objects && t.puts == puts
  }

  lemma {:induction false} ForwardingChain(
    run: (Stage, seq<byte>, State) -> Outcome, b: seq<byte>, objects: map<string, NdArray>, puts: nat,
    ideal: Result<Value, Fault>, stages: seq<Stage>)
    requires forall i :: 0 <= i < |stages| ==> Forwards(run, b, objects, puts, ideal, stages[i])
    ensures var (t, seen, out) := Through(run, b, objects, puts, stages);
      && out == Ok(b)
      && t.objects == objects && t.puts == puts
      && |seen| == |stages|
      && forall i :: 0 <= i < |seen| ==> Ok(Erase(seen[i])) == ideal
    decreases |stages|
  {
    if stages != [] {
      assert Forwards(run, b, objects, puts, ideal, stages[0]);
      ForwardingChain(run, b, objects, puts, ideal, stages[1..]);
    }
  }

  // ----- how often anything is put -----

  /** An array that the store has to copy: at or above the threshold, and not a view that it
      resolved before. */
  function NewArray(k: nat, resolved: map<Key, BlobRef>): Value -> bool {
    (v: Value) => v.Array? && |v.a.bytes| >= k && KeyOf(v.a) !in resolved
  }

  /** The number of these in a tree. */
  function NewArrays(v: Value, k: nat, resolved: map<Key, BlobRef>): nat {
    Count(v, NewArray(k, resolved))
  }

  /** An encode puts each new array once, and nothing else. */
  lemma {:induction false} PutsOncePerArray(rt: Runtime, d: Daemon, v: Value, w: Walk<State>, k: nat)
    requires ManifestTree(v, w, Threshold(rt, d, k)).1.Ok?
    ensures var t := ManifestTree(v, w, Threshold(rt, d, k)).0.store;
      t.resolved == w.store.resolved && t.puts == w.store.puts + NewArrays(v, k, w.store.resolved)
    decreases v, 1
  {
    match v
    case Dict(entries) => PutsOncePerEntryArray(rt, d, entries, w, k);
    case List(items) => PutsOncePerItemArray(rt, d, items, w, k);
    case Tuple(items) => PutsOncePerItemArray(rt, d, items, w, k);
    case _ =>
  }

  lemma {:induction false} PutsOncePerItemArray(rt: Runtime, d: Daemon, items: seq<Value>, w: Walk<State>, k: nat)
    requires ManifestItems(items, w, Threshold(rt, d, k)).1.Ok?
    ensures var t := ManifestItems(items, w, Threshold(rt, d, k)).0.store;
      t.resolved == w.store.resolved && t.puts == w.store.puts + CountItems(items, NewArray(k, w.store.resolved))
    decreases items, 0
  {
    if items != [] {
      var init := items[..|items| - 1];
      PutsOncePerItemArray(rt, d, init, w, k);
      PutsOncePerArray(rt, d, items[|items| - 1], ManifestItems(init, w, Threshold(rt, d, k)).0, k);
    }
  }

  lemma {:induction false} PutsOncePerEntryArray(rt: Runtime, d: Daemon, entries: seq<Entry>, w: Walk<State>, k: nat)
    requires ManifestEntries(entries, w, Threshold(rt, d, k)).1.Ok?
    ensures var t := ManifestEntries(entries, w, Threshold(rt, d, k)).0.store;
      t.resolved == w.store.resolved && t.puts == w.store.puts + CountEntries(entries, NewArray(k, w.store.resolved))
    decreases entries, 0
  {
    if entries != [] {
      var init := entries[..|entries| - 1];
      PutsOncePerEntryArray(rt, d, init, w, k);
      PutsOncePerArray(rt, d, entries[|entries| - 1].value, ManifestEntries(init, w, Threshold(rt, d, k)).0, k);
    }
  }

  /** Chain stability. However many stages relay the message, each with its own index, buffer
      and threshold, it stays the same byte for byte (so every object id does), every stage
      reads the original contents, and the daemon has served exactly one put per new array of
      the document in total. */
  lemma ChainIsStable(rt: Runtime, d: Daemon, doc: Document, k: nat, first: State, b: seq<byte>, stages: seq<Stage>)
    requires CanArrive(rt, d, doc, k, first) && RefsApart(rt, d, doc, k, first) && Message(rt, d, doc, k, first, b)
    requires var sent := AnalyzeModel(rt, doc, Threshold(rt, d, k), first).0;
      forall i :: 0 <= i < |stages| ==> IndexAgrees(rt, State(sent.objects, sent.puts, stages[i].resolved))
    requires forall i :: 0 <= i < |stages| ==> Suits(rt, d, doc, k, first, stages[i].minBytes)
    ensures var sent := AnalyzeModel(rt, doc, Threshold(rt, d, k), first).0;
      var (t, seen, out) := RunChain(rt, d, doc.schemaId, doc.schemaVersion, b, sent.objects, sent.puts, stages);
      && out == Ok(b)
      && t.objects == sent.objects && t.puts == first.puts + NewArrays(doc.tree, k, first.resolved)
      && |seen| == |stages|
      && forall i :: 0 <= i < |seen| ==>
        Ok(Erase(seen[i])) == Ideal(rt, doc.tree, Some(KIND), Denotation(rt, sent.objects))
  {
    var sent := AnalyzeModel(rt, doc, Threshold(rt, d, k), first).0;
    var ideal := Ideal(rt, doc.tree, Some(KIND), Denotation(rt, sent.objects));
    var run := StageRun(rt, d, doc.schemaId, doc.schemaVersion);
    forall i | 0 <= i < |stages| ensures Forwards(run, b, sent.objects, sent.puts, ideal, stages[i]) {
      StageForwards(rt, d, doc, k, first, b, stages[i]);
    }
    PutsOncePerArray(rt, d, doc.tree, Walk(0, [], first), k);
    ForwardingChain(run, b, sent.objects, sent.puts, ideal, stages);
  }

  lemma StageForwards(rt: Runtime, d: Daemon, doc: Document, k: nat, first: State, b: seq<byte>, x: Stage)
    requires CanArrive(rt, d, doc, k, first) && RefsApart(rt, d, doc, k, first) && Message(rt, d, doc, k, first, b)
    requires Suits(rt, d, doc, k, first, x.minBytes)
    requires var sent := AnalyzeModel(rt, doc, Threshold(rt, d, k), first).0;
      IndexAgrees(rt, State(sent.objects, sent.puts, x.resolved))
    ensures var sent := AnalyzeModel(rt, doc, Threshold(rt, d, k), first).0;
      Forwards(StageRun(rt, d, doc.schemaId, doc.schemaVersion), b, sent.objects, sent.puts,
               Ideal(rt, doc.tree, Some(KIND), Denotation(rt, sent.objects)), x)
  {
    var sent := AnalyzeModel(rt, doc, Threshold(rt, d, k), first).0;
    StageForwardsExactly(rt, d, doc, k, first, x.minBytes, b, x.base, State(sent.objects, sent.puts, x.resolved));
  }
}

/** Container layout and the in-place encoder (src/npb/_codec.py). */
module Container {
  import opened Core
  import opened Format
  import opened Model
  import opened Manifest

  /** A dumped model with its schema identity. */
  datatype Document = Document(schemaId: seq<byte>, schemaVersion: nat, tree: Value)

  /** The result of _analyze_model. */
  datatype Plan = Plan(
    schemaId: seq<byte>, schemaVersion: nat, dataBytes: nat, dataStart: nat,
    arrays: seq<Placed>, metadata: seq<byte>)

  function Max(x: int, y: int): int {
    if x < y then y else x
  }

  /** The threshold argument, checked before the walk starts. */
  function PolicyFault<S>(p: Policy<S>): Option<Fault> {
    if p.minBytes.None? then None
    else if p.minBytes.value < 0 then Some(NegativeThreshold)
    else if p.store.None? then Some(StoreNeeded)
    else None
  }

  function AnalyzeModel<S>(rt: Runtime, doc: Document, p: Policy<S>, store: S): (S, Result<Plan, Fault>) {
    if PolicyFault(p).Some? then (store, Err(PolicyFault(p).value))
    else
      var (w, r) := ManifestTree(doc.tree, Walk(0, [], store), p);
      (w.store, if r.Ok? then Ok(PlanOf(rt, doc, w, r.value)) else Err(r.error))
  }

  function PlanOf<S>(rt: Runtime, doc: Document, w: Walk<S>, manifest: Json): Plan {
    var metadata := rt.toJson(manifest);
    Plan(doc.schemaId, doc.schemaVersion, w.cursor,
         AlignUp(HEADER_SIZE + |metadata|, FRAME_SIZE), w.arrays, metadata)
  }

  function TotalSize(plan: Plan): nat {
    AlignUp(Max(plan.dataStart + plan.dataBytes, FRAME_SIZE), FRAME_SIZE)
  }

  function EncodedSize<S>(rt: Runtime, doc: Document, p: Policy<S>, store: S): (S, Result<nat, Fault>) {
    var (store', plan) := AnalyzeModel(rt, doc, p, store);
    (store', if plan.Ok? then Ok(TotalSize(plan.value)) else Err(plan.error))
  }

  function InfoOf(plan: Plan): BinaryInfo {
    BinaryInfo(FORMAT_VERSION, FRAME_SIZE, plan.schemaId, plan.schemaVersion,
               |plan.metadata|, plan.dataStart, plan.dataBytes, TotalSize(plan))
  }

  /** The plans that _analyze_model produces. */
  predicate Laid(plan: Plan) {
    && plan.dataStart == AlignUp(HEADER_SIZE + |plan.metadata|, FRAME_SIZE)
    && Packed(plan.arrays, plan.dataBytes)
  }

  lemma PlansAreLaid<S>(rt: Runtime, doc: Document, p: Policy<S>, store: S)
    requires AnalyzeModel(rt, doc, p, store).1.Ok?
    ensures Laid(AnalyzeModel(rt, doc, p, store).1.value)
  {
    WalkPacks(doc.tree, Walk(0, [], store), p);
  }

  // ----- the bytes of a container -----

  /** The data section: each array at its offset, zeros in the gaps. */
  function Payload(arrays: seq<Placed>): seq<byte> {
    if arrays == [] then []
    else
      var before := Payload(arrays[..|arrays| - 1]);
      var last := arrays[|arrays| - 1];
      before + Zeros(if last.offset > |before| then last.offset - |before| else 0) + last.a.bytes
  }

  lemma {:induction false} PayloadLength(arrays: seq<Placed>, cursor: nat)
    requires Packed(arrays, cursor)
    ensures |Payload(arrays)| == cursor
    decreases |arrays|
  {
    if arrays != [] {
      var init := arrays[..|arrays| - 1];
      PayloadLength(init, if init == [] then 0 else End(init[|init| - 1]));
    }
  }

  /** The end of the first i arrays. */
  function EndOf(arrays: seq<Placed>, i: nat): nat
    requires i <= |arrays|
  {
    if i == 0 then 0 else End(arrays[i - 1])
  }

  /** Each array's bytes stand at its offset, behind a gap of zeros. */
  lemma {:induction false} PayloadHolds(arrays: seq<Placed>, cursor: nat, i: nat)
    requires Packed(arrays, cursor) && i < |arrays|
    ensures |Payload(arrays)| == cursor
    ensures EndOf(arrays, i) <= arrays[i].offset && End(arrays[i]) <= cursor
    ensures forall k :: EndOf(arrays, i) <= k < arrays[i].offset ==> Payload(arrays)[k] == 0
    ensures Payload(arrays)[arrays[i].offset..End(arrays[i])] == arrays[i].a.bytes
    decreases |arrays|
  {
    PayloadLength(arrays, cursor);
    var init := arrays[..|arrays| - 1];
    var end := EndOf(init, |init|);
    PayloadLength(init, end);
    if i < |init| {
      PayloadHolds(init, end, i);
      assert arrays[i] == init[i];
      assert Payload(arrays)[..end] == Payload(init);
      assert Payload(arrays)[arrays[i].offset..End(arrays[i])]
          == Payload(arrays)[..end][arrays[i].offset..End(arrays[i])];
    }
  }

  /** The container, determined by the plan alone. */
  function ContainerBytes(plan: Plan): seq<byte>
    requires Laid(plan) && Packable(InfoOf(plan))
  {
    Assemble(PackHeader(InfoOf(plan)), plan.metadata, plan.dataStart - HEADER_SIZE - |plan.metadata|,
             Payload(plan.arrays), TotalSize(plan) - plan.dataStart - plan.dataBytes)
  }

  function Assemble(header: seq<byte>, metadata: seq<byte>, gap: nat, payload: seq<byte>, padding: nat): (c: seq<byte>)
    ensures |c| == |header| + |metadata| + gap + |payload| + padding
  {
    header + metadata + Zeros(gap) + payload + Zeros(padding)
  }

  // ----- the encoder -----

  /** `out[at : at + len(data)] = data`. */
  method WriteSlice(out: array<byte>, at: nat, data: seq<byte>)
    requires at + |data| <= out.Length
    modifies out
    ensures forall i :: at <= i < at + |data| ==> out[i] == data[i - at]
    ensures forall i :: 0 <= i < at || at + |data| <= i < out.Length ==> out[i] == old(out[i])
  {
    forall i | 0 <= i < |data| {
      out[at + i] := data[i];
    }
  }

  /** `out[lo:hi] = 0`. */
  method ClearSlice(out: array<byte>, lo: nat, hi: nat)
    requires lo <= hi <= out.Length
    modifies out
    ensures forall i :: lo <= i < hi ==> out[i] == 0
    ensures forall i :: 0 <= i < lo || hi <= i < out.Length ==> out[i] == old(out[i])
  {
    forall i | lo <= i < hi {
      out[i] := 0;
    }
  }

  /** Checks the caller's buffer or allocates one, and clears the first data_start bytes. */
  method PrepareOutput(out: array?<byte>, totalSize: nat, dataStart: nat)
    returns (r: Result<array<byte>, Fault>)
    requires dataStart <= totalSize
    modifies if out == null then {} else {out}
    ensures r.Err? <==> out != null && out.Length < totalSize
    ensures r.Err? ==> r.error == OutputTooSmall && unchanged(out)
    ensures r.Ok? && out != null ==> r.value == out && forall k :: dataStart <= k < out.Length ==> out[k] == old(out[k])
    ensures r.Ok? && out == null ==> fresh(r.value) && r.value.Length == totalSize
    ensures r.Ok? ==> r.value.Length >= totalSize && forall k :: 0 <= k < dataStart ==> r.value[k] == 0
  {
    var binary: array<byte>;
    if out == null {
      binary := new byte[totalSize];
    } else {
      if out.Length < totalSize {
        return Err(OutputTooSmall);
      }
      binary := out;
    }
    ClearSlice(binary, 0, dataStart);
    return Ok(binary);
  }

  /** payload holds the i-th array at its offset, behind a gap of zeros. */
  ghost predicate HoldsArray(payload: seq<byte>, arrays: seq<Placed>, i: nat)
    requires i < |arrays|
  {
    var p := arrays[i];
    && EndOf(arrays, i) <= p.offset && End(p) <= |payload|
    && (forall k :: EndOf(arrays, i) <= k < p.offset ==> payload[k] == 0)
    && (forall k :: p.offset <= k < End(p) ==> payload[k] == p.a.bytes[k - p.offset])
  }

  lemma PayloadHoldsAll(plan: Plan)
    requires Laid(plan)
    ensures |Payload(plan.arrays)| == plan.dataBytes == EndOf(plan.arrays, |plan.arrays|)
    ensures forall i :: 0 <= i < |plan.arrays| ==> HoldsArray(Payload(plan.arrays), plan.arrays, i)
  {
    var payload, arrays := Payload(plan.arrays), plan.arrays;
    PayloadLength(arrays, plan.dataBytes);
    PackedExtents(arrays, plan.dataBytes);
    forall i | 0 <= i < |arrays| ensures HoldsArray(payload, arrays, i) {
      PayloadHoldsOne(arrays, plan.dataBytes, i);
    }
  }

  lemma PayloadHoldsOne(arrays: seq<Placed>, cursor: nat, i: nat)
    requires Packed(arrays, cursor) && i < |arrays|
    ensures HoldsArray(Payload(arrays), arrays, i)
  {
    PayloadHolds(arrays, cursor, i);
    BytesOfSlice(Payload(arrays), arrays[i].offset, End(arrays[i]), arrays[i].a.bytes);
  }

  lemma BytesOfSlice(b: seq<byte>, lo: nat, hi: nat, slice: seq<byte>)
    requires lo <= hi <= |b| && b[lo..hi] == slice
    ensures forall k :: lo <= k < hi ==> b[k] == slice[k - lo]
  {
    forall k | lo <= k < hi ensures b[k] == slice[k - lo] {
      assert b[lo..hi][k - lo] == b[k];
    }
  }

  /** Copies the arrays to their places behind start one by one, clearing each gap: whatever
      the buffer held before, it then holds the payload. */
  method WriteArrays(binary: array<byte>, start: nat, arrays: seq<Placed>, ghost payload: seq<byte>)
    requires start + |payload| <= binary.Length && EndOf(arrays, |arrays|) == |payload|
    requires forall i :: 0 <= i < |arrays| ==> HoldsArray(payload, arrays, i)
    modifies binary
    ensures forall k :: start <= k < start + |payload| ==> binary[k] == payload[k - start]
    ensures forall k :: 0 <= k < start || start + |payload| <= k < binary.Length ==> binary[k] == old(binary[k])
  {
    var previousEnd: nat := 0;
    for i := 0 to |arrays|
      invariant previousEnd == EndOf(arrays, i) <= |payload|
      invariant forall k :: start <= k < start + previousEnd ==> binary[k] == payload[k - start]
      invariant forall k :: 0 <= k < start || start + |payload| <= k < binary.Length ==>
                  binary[k] == old(binary[k])
    {
      var p := arrays[i];
      assert HoldsArray(payload, arrays, i);
      if p.offset > previousEnd {
        ClearSlice(binary, start + previousEnd, start + p.offset);
      }
      WriteSlice(binary, start + p.offset, p.a.bytes);
      previousEnd := p.offset + |p.a.bytes|;
    }
  }

  /** c is laid out as header, metadata, zeros, payload, zeros. */
  ghost predicate InFiveParts(c: seq<byte>, header: seq<byte>, metadata: seq<byte>, start: nat, payload: seq<byte>) {
    var m, end := |header| + |metadata|, start + |payload|;
    && m <= start && end <= |c|
    && (forall k :: 0 <= k < |header| ==> c[k] == header[k])
    && (forall k :: |header| <= k < m ==> c[k] == metadata[k - |header|])
    && (forall k :: m <= k < start ==> c[k] == 0)
    && (forall k :: start <= k < end ==> c[k] == payload[k - start])
    && (forall k :: end <= k < |c| ==> c[k] == 0)
  }

  lemma ContainerInFiveParts(plan: Plan)
    requires Laid(plan) && Packable(InfoOf(plan))
    ensures |Payload(plan.arrays)| == plan.dataBytes && |ContainerBytes(plan)| == TotalSize(plan)
    ensures InFiveParts(ContainerBytes(plan), PackHeader(InfoOf(plan)), plan.metadata, plan.dataStart,
      Payload(plan.arrays))
  {
    PayloadLength(plan.arrays, plan.dataBytes);
    AssembledInFiveParts(ContainerBytes(plan), PackHeader(InfoOf(plan)), plan.metadata, plan.dataStart,
                         Payload(plan.arrays), TotalSize(plan));
  }

  /** The parts by their positions. */
  lemma ContainerPartByPart(plan: Plan)
    requires Laid(plan) && Packable(InfoOf(plan))
    ensures var c, m, start, end := ContainerBytes(plan), 64 + |plan.metadata|, plan.dataStart,
        plan.dataStart + plan.dataBytes;
      && m <= start <= end <= |c|
      && c[..64] == PackHeader(InfoOf(plan)) && c[64..m] == plan.metadata
      && (forall k :: m <= k < start ==> c[k] == 0)
      && c[start..end] == Payload(plan.arrays)
      && (forall k :: end <= k < |c| ==> c[k] == 0)
  {
    ContainerInFiveParts(plan);
    PartByPart(ContainerBytes(plan), PackHeader(InfoOf(plan)), plan.metadata, plan.dataStart, Payload(plan.arrays));
  }

  lemma PartByPart(c: seq<byte>, header: seq<byte>, metadata: seq<byte>, start: nat, payload: seq<byte>)
    requires InFiveParts(c, header, metadata, start, payload)
    ensures var m, end := |header| + |metadata|, start + |payload|;
      && m <= start && end <= |c|
      && c[..|header|] == header && c[|header|..m] == metadata && c[start..end] == payload
      && (forall k :: m <= k < start ==> c[k] == 0) && (forall k :: end <= k < |c| ==> c[k] == 0)
  {
  }

  lemma AssembledInFiveParts(c: seq<byte>, header: seq<byte>, metadata: seq<byte>, start: nat, payload: seq<byte>,
      total: nat)
    requires |header| + |metadata| <= start && start + |payload| <= total
    requires c == Assemble(header, metadata, start - |header| - |metadata|, payload, total - start - |payload|)
    ensures |c| == total && InFiveParts(c, header, metadata, start, payload)
  {
    ConcatInFiveParts(header, metadata, start - |header| - |metadata|, payload, total - start - |payload|);
  }

  lemma ConcatInFiveParts(header: seq<byte>, metadata: seq<byte>, gap: nat, payload: seq<byte>, padding: nat)
    ensures InFiveParts(Assemble(header, metadata, gap, payload, padding),
                        header, metadata, |header| + |metadata| + gap, payload)
  {
  }

  /** Writes header, metadata, arrays and padding over a buffer whose first start bytes are
      clear. The bytes behind the container are not touched. */
  method WriteContainer(binary: array<byte>, header: seq<byte>, metadata: seq<byte>, start: nat,
                        dataBytes: nat, arrays: seq<Placed>, total: nat, ghost payload: seq<byte>, ghost c: seq<byte>)
    requires InFiveParts(c, header, metadata, start, payload)
    requires |c| == total <= binary.Length && dataBytes == |payload| == EndOf(arrays, |arrays|)
    requires forall i :: 0 <= i < |arrays| ==> HoldsArray(payload, arrays, i)
    requires forall k :: 0 <= k < start ==> binary[k] == 0
    modifies binary
    ensures binary[..total] == c
    ensures forall k :: total <= k < binary.Length ==> binary[k] == old(binary[k])
  {
    WriteSlice(binary, 0, header);
    WriteSlice(binary, |header|, metadata);
    WriteArrays(binary, start, arrays, payload);
    if start + dataBytes < total {
      ClearSlice(binary, start + dataBytes, total);
    }
  }

  /** The encoder. The result is either the caller's buffer or a fresh one, and starts with
      exactly the container of the plan; a buffer that is too small is left as it was. */
  method Encode<S>(rt: Runtime, doc: Document, out: array?<byte>, p: Policy<S>, store: S)
    returns (store': S, r: Result<array<byte>, Fault>, size: nat)
    requires |doc.schemaId| == 16
    modifies if out == null then {} else {out}
    ensures store' == AnalyzeModel(rt, doc, p, store).0
    ensures var plan := AnalyzeModel(rt, doc, p, store).1;
      match plan
      case Err(f) => r == Err(f) && (out != null ==> unchanged(out))
      case Ok(plan) =>
        var total := TotalSize(plan);
        if out != null && out.Length < total then
          r == Err(OutputTooSmall) && unchanged(out)
        else if !Packable(InfoOf(plan)) then
          r == Err(FieldOverflow) && (out != null ==> out[plan.dataStart..] == old(out[plan.dataStart..]))
        else
          && r.Ok? && size == total <= r.value.Length && Laid(plan)
          && (out != null ==> r.value == out && out[total..] == old(out[total..]))
          && (out == null ==> fresh(r.value) && r.value.Length == total)
          && r.value[..total] == ContainerBytes(plan)
  {
    size := 0;
    store' := store;
    if PolicyFault(p).Some? {
      return store', Err(PolicyFault(p).value), 0;
    }
    var builder := new Builder(p, store);
    var manifest := builder.Run(doc.tree);
    store' := builder.store;
    if manifest.Err? {
      return store', Err(manifest.error), 0;
    }
    var plan := PlanOf(rt, doc, builder.State(), manifest.value);
    assert AnalyzeModel(rt, doc, p, store) == (store', Ok(plan));
    PlansAreLaid(rt, doc, p, store);
    r, size := Emit(plan, out);
  }

  /** The half of encode behind the analysis. */
  method Emit(plan: Plan, out: array?<byte>) returns (r: Result<array<byte>, Fault>, size: nat)
    requires Laid(plan)
    modifies if out == null then {} else {out}
    ensures var total := TotalSize(plan);
      if out != null && out.Length < total then
        r == Err(OutputTooSmall) && unchanged(out)
      else if !Packable(InfoOf(plan)) then
        r == Err(FieldOverflow) && (out != null ==> out[plan.dataStart..] == old(out[plan.dataStart..]))
      else
        && r.Ok? && size == total <= r.value.Length
        && (out != null ==> r.value == out && out[total..] == old(out[total..]))
        && (out == null ==> fresh(r.value) && r.value.Length == total)
        && r.value[..total] == ContainerBytes(plan)
  {
    r := PrepareOutput(out, TotalSize(plan), plan.dataStart);
    if r.Err? {
      return r, 0;
    }
    if !Packable(InfoOf(plan)) {
      return Err(FieldOverflow), 0;
    }
    size := TotalSize(plan);
    Fill(r.value, plan);
  }

  /** The writes over a prepared buffer. */
  method Fill(binary: array<byte>, plan: Plan)
    requires Laid(plan) && Packable(InfoOf(plan)) && plan.dataStart <= TotalSize(plan) <= binary.Length
    requires forall k :: 0 <= k < plan.dataStart ==> binary[k] == 0
    modifies binary
    ensures binary[..TotalSize(plan)] == ContainerBytes(plan)
    ensures forall k :: TotalSize(plan) <= k < binary.Length ==> binary[k] == old(binary[k])
  {
    ContainerInFiveParts(plan);
    PayloadHoldsAll(plan);
    WriteContainer(binary, PackHeader(InfoOf(plan)), plan.metadata, plan.dataStart, plan.dataBytes,
                   plan.arrays, TotalSize(plan), Payload(plan.arrays), ContainerBytes(plan));
  }

  // ----- sizes -----

  function SumBytes(arrays: seq<Placed>): nat {
    if arrays == [] then 0
    else SumBytes(arrays[..|arrays| - 1]) + |arrays[|arrays| - 1].a.bytes|
  }

  lemma {:induction false} PackedIsTight(arrays: seq<Placed>, cursor: nat)
    requires Packed(arrays, cursor)
    ensures SumBytes(arrays) <= cursor
    ensures cursor <= SumBytes(arrays) + 63 * (if arrays == [] then 0 else |arrays| - 1)
    decreases |arrays|
  {
    if arrays != [] {
      var init := arrays[..|arrays| - 1];
      PackedIsTight(init, if init == [] then 0 else End(init[|init| - 1]));
    }
  }

  lemma {:induction false} SumSplits(xs: seq<Placed>, ys: seq<Placed>)
    ensures SumBytes(xs + ys) == SumBytes(xs) + SumBytes(ys)
    ensures |xs| == 1 ==> SumBytes(xs) == |xs[0].a.bytes|
    decreases |ys|
  {
    if ys == [] {
      assert xs + ys == xs;
    } else {
      assert (xs + ys)[..|xs + ys| - 1] == xs + ys[..|ys| - 1];
      SumSplits(xs, ys[..|ys| - 1]);
    }
  }

  /** The container is the least whole number of frames that holds header, metadata and data:
      rounding costs less than two frames and 63 bytes between neighbouring arrays. */
  lemma SizeIsTight(plan: Plan)
    requires Laid(plan)
    ensures TotalSize(plan) % 65536 == 0
    ensures plan.dataStart + plan.dataBytes <= TotalSize(plan)
    ensures forall m: nat :: m % 65536 == 0 && plan.dataStart + plan.dataBytes <= m ==> TotalSize(plan) <= m
    ensures TotalSize(plan) == AlignUp(plan.dataStart + plan.dataBytes, 65536)
    ensures TotalSize(plan) <= 64 + |plan.metadata| + SumBytes(plan.arrays)
              + 63 * (if |plan.arrays| > 1 then |plan.arrays| - 1 else 0) + 2 * 65535
  {
    AlignUpIsLeast(FRAME_SIZE, FRAME_SIZE, FRAME_SIZE);
    assert plan.dataStart >= FRAME_SIZE;
    PackedIsTight(plan.arrays, plan.dataBytes);
    forall m: nat | m % 65536 == 0 && plan.dataStart + plan.dataBytes <= m
      ensures TotalSize(plan) <= m
    {
      AlignUpIsLeast(plan.dataStart + plan.dataBytes, FRAME_SIZE, m);
    }
  }

  /** A packable plan describes a header that parse_header accepts. */
  lemma PlansAreCoherent(plan: Plan)
    requires Laid(plan)
    ensures Coherent(InfoOf(plan))
  {
    SizeIsTight(plan);
  }
}

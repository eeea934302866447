/** The physical container format (src/npb/_format.py). */
module Format {
  import opened Core
  import opened ByteOrder

  const MAGIC: seq<byte> := [78, 80, 66, 49]  // "NPB1"
  const FORMAT_VERSION := 1
  const FRAME_SIZE := 65536
  const ARRAY_ALIGNMENT := 64
  const HEADER_SIZE := 64

  /** Everything that can stop an encode or a decode, one constructor a cause. */
  datatype Fault =
    // encode
    | UnsupportedDType | NegativeThreshold | StoreNeeded | OutputTooSmall | FieldOverflow
    // parse_header
    | ShorterThanHeader | BadMagic | BadVersion | BadFlags | BadFrameSize
    | UnderOneFrame | BeyondBuffer | UnalignedSize
    | MetadataOverlap | UnalignedData | DataBeyondContainer
    // metadata and references
    | BadJson | TopLevelNotObject | NotAnInteger | IntegerOverflow
    | BadBlobRef | WrongStore | BlobMissing | BlobBounds | BlobShape
    | BadArrayRef | ArrayDType | NegativeExtent | NegativeDim | BadByteSize
    | ShapeMismatch | BeyondData | BeyondEncoded
    // typed decode
    | SchemaMismatch | StoreRequired

  datatype BinaryInfo = BinaryInfo(
    formatVersion: nat, frameSize: nat, schemaId: seq<byte>, schemaVersion: nat,
    metadataBytes: nat, dataStart: nat, dataBytes: nat, totalBytes: nat)

  lemma MultipleHasNoRemainder(q: nat, d: nat)
    requires d > 0
    ensures q * d >= 0
    ensures (q * d) % d == 0
  {
    var x := q * d;
    var k := q - x / d;
    assert k * d == x % d;
    MultipleIsFar(k, d);
  }

  /** Rounds up to a multiple of the alignment, adding less than one alignment. */
  function AlignUp(value: nat, alignment: nat): (r: nat)
    requires alignment > 0
    ensures value <= r < value + alignment
    ensures r % alignment == 0
  {
    MultipleHasNoRemainder((value + alignment - 1) / alignment, alignment);
    (value + alignment - 1) / alignment * alignment
  }

  /** AlignUp yields the least multiple that is not below the value. */
  lemma AlignUpIsLeast(value: nat, alignment: nat, m: nat)
    requires alignment > 0 && m % alignment == 0 && value <= m
    ensures AlignUp(value, alignment) <= m
  {
    var r := AlignUp(value, alignment);
    var k := r / alignment - m / alignment;
    assert k * alignment == r - m;
    MultipleIsFar(k, alignment);
    assert k >= 1 ==> r - m >= alignment;
  }

  /** The field ranges that the header packer accepts. */
  predicate Packable(info: BinaryInfo) {
    && |info.schemaId| == 16
    && info.schemaVersion < 0x1_0000_0000
    && info.metadataBytes < 0x1_0000_0000
    && info.dataStart < 0x1_0000_0000_0000_0000
    && info.dataBytes < 0x1_0000_0000_0000_0000
    && info.totalBytes < 0x1_0000_0000_0000_0000
  }

  /** The 64 header bytes: ten fields and four reserved zero bytes. */
  function PackHeader(info: BinaryInfo): (h: seq<byte>)
    requires Packable(info)
    ensures |h| == HEADER_SIZE
  {
    MAGIC
    + ToLE(info.formatVersion, 2)
    + ToLE(0, 2)
    + ToLE(info.frameSize, 4)
    + info.schemaId
    + ToLE(info.schemaVersion, 4)
    + ToLE(info.metadataBytes, 4)
    + ToLE(info.dataStart, 8)
    + ToLE(info.dataBytes, 8)
    + ToLE(info.totalBytes, 8)
    + Zeros(4)
  }

  /** The geometry that a header must describe. */
  predicate Coherent(info: BinaryInfo) {
    && info.formatVersion == FORMAT_VERSION
    && info.frameSize == FRAME_SIZE
    && FRAME_SIZE <= info.totalBytes
    && info.totalBytes % FRAME_SIZE == 0
    && HEADER_SIZE + info.metadataBytes <= info.dataStart
    && info.dataStart % FRAME_SIZE == 0
    && info.dataStart + info.dataBytes <= info.totalBytes
  }

  function ParseHeader(b: seq<byte>): (r: Result<BinaryInfo, Fault>) {
    if |b| < HEADER_SIZE then Err(ShorterThanHeader) else
    var info := BinaryInfo(
      FromLE(b[4..6]), FromLE(b[8..12]), b[12..28], FromLE(b[28..32]),
      FromLE(b[32..36]), FromLE(b[36..44]), FromLE(b[44..52]), FromLE(b[52..60]));
    if b[..4] != MAGIC then Err(BadMagic)
    else if info.formatVersion != FORMAT_VERSION then Err(BadVersion)
    else if FromLE(b[6..8]) != 0 then Err(BadFlags)
    else if info.frameSize != FRAME_SIZE then Err(BadFrameSize)
    else if info.totalBytes < info.frameSize then Err(UnderOneFrame)
    else if info.totalBytes > |b| then Err(BeyondBuffer)
    else if info.totalBytes % info.frameSize != 0 then Err(UnalignedSize)
    else if HEADER_SIZE + info.metadataBytes > info.dataStart then Err(MetadataOverlap)
    else if info.dataStart % info.frameSize != 0 then Err(UnalignedData)
    else if info.dataStart + info.dataBytes > info.totalBytes then Err(DataBeyondContainer)
    else Ok(info)
  }

  /** Where each packed field lands. */
  lemma HeaderFields(info: BinaryInfo)
    requires Packable(info)
    ensures var h := PackHeader(info);
      && h[..4] == MAGIC
      && h[4..6] == ToLE(info.formatVersion, 2)
      && h[6..8] == ToLE(0, 2)
      && h[8..12] == ToLE(info.frameSize, 4)
      && h[12..28] == info.schemaId
      && h[28..32] == ToLE(info.schemaVersion, 4)
      && h[32..36] == ToLE(info.metadataBytes, 4)
      && h[36..44] == ToLE(info.dataStart, 8)
      && h[44..52] == ToLE(info.dataBytes, 8)
      && h[52..60] == ToLE(info.totalBytes, 8)
  {
    var h := PackHeader(info);
    var p1 := MAGIC + ToLE(info.formatVersion, 2);
    var p2 := p1 + ToLE(0, 2);
    var p3 := p2 + ToLE(info.frameSize, 4);
    var p4 := p3 + info.schemaId;
    var p5 := p4 + ToLE(info.schemaVersion, 4);
    var p6 := p5 + ToLE(info.metadataBytes, 4);
    var p7 := p6 + ToLE(info.dataStart, 8);
    var p8 := p7 + ToLE(info.dataBytes, 8);
    var p9 := p8 + ToLE(info.totalBytes, 8);
    Segment(h, p9, Zeros(4));
    Segment(h, p8, ToLE(info.totalBytes, 8));
    Segment(h, p7, ToLE(info.dataBytes, 8));
    Segment(h, p6, ToLE(info.dataStart, 8));
    Segment(h, p5, ToLE(info.metadataBytes, 4));
    Segment(h, p4, ToLE(info.schemaVersion, 4));
    Segment(h, p3, info.schemaId);
    Segment(h, p2, ToLE(info.frameSize, 4));
    Segment(h, p1, ToLE(0, 2));
    Segment(h, MAGIC, ToLE(info.formatVersion, 2));
  }

  lemma Segment(h: seq<byte>, before: seq<byte>, field: seq<byte>)
    requires |before| + |field| <= |h| && h[..|before| + |field|] == before + field
    ensures h[..|before|] == before
    ensures h[|before|..|before| + |field|] == field
  {
    var p := before + field;
    SliceOfPrefix(h, p, 0, |before|);
    SliceOfPrefix(h, p, |before|, |p|);
    assert h[..|before|] == h[0..|before|];
  }

  /** The bytes of a header, one by one: the constants, and each number with its least
      significant byte first. */
  lemma HeaderByteByByte(info: BinaryInfo)
    requires Packable(info) && info.formatVersion == 1 && info.frameSize == 65536
    ensures var h := PackHeader(info);
      && h[..12] == [78, 80, 66, 49, 1, 0, 0, 0, 0, 0, 1, 0]
      && h[12..28] == info.schemaId
      && (forall i :: 0 <= i < 4 ==> h[28 + i] == info.schemaVersion / Pow256(i) % 256)
      && (forall i :: 0 <= i < 4 ==> h[32 + i] == info.metadataBytes / Pow256(i) % 256)
      && (forall i :: 0 <= i < 8 ==> h[36 + i] == info.dataStart / Pow256(i) % 256)
      && (forall i :: 0 <= i < 8 ==> h[44 + i] == info.dataBytes / Pow256(i) % 256)
      && (forall i :: 0 <= i < 8 ==> h[52 + i] == info.totalBytes / Pow256(i) % 256)
      && h[60..] == [0, 0, 0, 0]
  {
    var h := PackHeader(info);
    HeaderFields(info);
    FirstTwelve(h);
    NumberAt(h, 28, 4, info.schemaVersion);
    NumberAt(h, 32, 4, info.metadataBytes);
    NumberAt(h, 36, 8, info.dataStart);
    NumberAt(h, 44, 8, info.dataBytes);
    NumberAt(h, 52, 8, info.totalBytes);
  }

  lemma NumberAt(h: seq<byte>, at: nat, w: nat, n: nat)
    requires at + w <= |h| && h[at..at + w] == ToLE(n, w)
    ensures forall i :: 0 <= i < w ==> h[at + i] == n / Pow256(i) % 256
  {
    forall i | 0 <= i < w ensures h[at + i] == n / Pow256(i) % 256 {
      DigitsLE(n, w, i);
      assert h[at..at + w][i] == h[at + i];
    }
  }

  lemma FirstTwelve(h: seq<byte>)
    requires |h| == HEADER_SIZE && h[..4] == MAGIC
    requires h[4..6] == ToLE(1, 2) && h[6..8] == ToLE(0, 2) && h[8..12] == ToLE(65536, 4)
    ensures h[..12] == [78, 80, 66, 49, 1, 0, 0, 0, 0, 0, 1, 0]
  {
    FieldLimits();
    NumberAt(h, 4, 2, 1);
    NumberAt(h, 6, 2, 0);
    NumberAt(h, 8, 4, 65536);
    assert h[4 + 0] == 1 && h[4 + 1] == 0 && h[6 + 0] == 0 && h[6 + 1] == 0;
    assert h[8 + 0] == 0 && h[8 + 1] == 0 && h[8 + 2] == 1 && h[8 + 3] == 0;
    assert h[..4][0] == 78 && h[..4][1] == 80 && h[..4][2] == 66 && h[..4][3] == 49;
  }

  lemma PackedFieldsRead(info: BinaryInfo, b: seq<byte>)
    requires Packable(info) && info.formatVersion < 0x1_0000 && info.frameSize < 0x1_0000_0000
    requires HEADER_SIZE <= |b| && b[..HEADER_SIZE] == PackHeader(info)
    ensures b[..4] == MAGIC && FromLE(b[4..6]) == info.formatVersion && FromLE(b[6..8]) == 0
    ensures FromLE(b[8..12]) == info.frameSize && b[12..28] == info.schemaId
    ensures FromLE(b[28..32]) == info.schemaVersion && FromLE(b[32..36]) == info.metadataBytes
    ensures FromLE(b[36..44]) == info.dataStart && FromLE(b[44..52]) == info.dataBytes
    ensures FromLE(b[52..60]) == info.totalBytes
  {
    HeaderFields(info);
    FieldLimits();
    var h := PackHeader(info);
    SliceOfPrefix(b, h, 4, 6);
    SliceOfPrefix(b, h, 6, 8);
    SliceOfPrefix(b, h, 8, 12);
    SliceOfPrefix(b, h, 12, 28);
    SliceOfPrefix(b, h, 28, 32);
    SliceOfPrefix(b, h, 32, 36);
    SliceOfPrefix(b, h, 36, 44);
    SliceOfPrefix(b, h, 44, 52);
    SliceOfPrefix(b, h, 52, 60);
    SliceOfPrefix(b, h, 0, 4);
    ReadsWrittenLE(info.formatVersion, 2);
    ReadsWrittenLE(0, 2);
    ReadsWrittenLE(info.frameSize, 4);
    ReadsWrittenLE(info.schemaVersion, 4);
    ReadsWrittenLE(info.metadataBytes, 4);
    ReadsWrittenLE(info.dataStart, 8);
    ReadsWrittenLE(info.dataBytes, 8);
    ReadsWrittenLE(info.totalBytes, 8);
  }

  /** Parsing undoes packing, on the exact buffer and on any longer one. */
  lemma ParseUndoesPack(info: BinaryInfo, b: seq<byte>)
    requires Packable(info) && Coherent(info)
    requires info.totalBytes <= |b| && HEADER_SIZE <= |b| && b[..HEADER_SIZE] == PackHeader(info)
    ensures ParseHeader(b) == Ok(info)
  {
    PackedFieldsRead(info, b);
  }

  /** Which fault a packed header meets, in a buffer that starts with it: the first of these
      that applies, whatever the fields. */
  lemma PackedIsJudged(info: BinaryInfo, b: seq<byte>)
    requires Packable(info) && info.formatVersion < 0x1_0000 && info.frameSize < 0x1_0000_0000
    requires HEADER_SIZE <= |b| && b[..HEADER_SIZE] == PackHeader(info)
    ensures ParseHeader(b) ==
      if info.formatVersion != 1 then Err(BadVersion)
      else if info.frameSize != 65536 then Err(BadFrameSize)
      else if info.totalBytes < 65536 then Err(UnderOneFrame)
      else if info.totalBytes > |b| then Err(BeyondBuffer)
      else if info.totalBytes % 65536 != 0 then Err(UnalignedSize)
      else if info.dataStart < 64 + info.metadataBytes then Err(MetadataOverlap)
      else if info.dataStart % 65536 != 0 then Err(UnalignedData)
      else if info.totalBytes < info.dataStart + info.dataBytes then Err(DataBeyondContainer)
      else Ok(info)
  {
    PackedFieldsRead(info, b);
  }

  /** The faults that no packed header has, told from the bytes. */
  lemma ForeignHeaders(b: seq<byte>)
    ensures ParseHeader(b) == Err(ShorterThanHeader) <==> |b| < 64
    ensures ParseHeader(b) == Err(BadMagic) <==> |b| >= 64 && b[..4] != [78, 80, 66, 49]
    ensures ParseHeader(b) == Err(BadFlags) <==>
      |b| >= 64 && b[..6] == [78, 80, 66, 49, 1, 0] && b[6..8] != [0, 0]
  {
    if |b| >= 64 {
      WritesReadLE(b[4..6]);
      WritesReadLE(b[6..8]);
      FieldLimits();
      ReadsWrittenLE(1, 2);
      ReadsWrittenLE(0, 2);
      TwoBytes(1);
      TwoBytes(0);
      assert b[..6] == b[..4] + b[4..6];
      assert b[..6][..4] == b[..4] && b[..6][4..6] == b[4..6];
    }
  }

  lemma TwoBytes(n: nat)
    requires n < 256
    ensures ToLE(n, 2) == [n, 0]
  {
    FieldLimits();
    DigitsLE(n, 2, 0);
    DigitsLE(n, 2, 1);
  }

  lemma SliceOfPrefix(b: seq<byte>, h: seq<byte>, lo: nat, hi: nat)
    requires lo <= hi <= |h| <= |b| && b[..|h|] == h
    ensures b[lo..hi] == h[lo..hi]
  {
    forall i | lo <= i < hi ensures b[i] == h[i] {
      assert b[i] == b[..|h|][i];
    }
  }

  /** Every accepted header is a packed one: its first 60 bytes are reproduced. */
  lemma PackUndoesParse(b: seq<byte>)
    requires ParseHeader(b).Ok?
    ensures var info := ParseHeader(b).value;
      Packable(info) && Coherent(info) && info.totalBytes <= |b| && PackHeader(info)[..60] == b[..60]
  {
    var info := ParseHeader(b).value;
    FieldLimits();
    HeaderFields(info);
    WritesReadLE(b[4..6]);
    WritesReadLE(b[6..8]);
    WritesReadLE(b[8..12]);
    WritesReadLE(b[28..32]);
    WritesReadLE(b[32..36]);
    WritesReadLE(b[36..44]);
    WritesReadLE(b[44..52]);
    WritesReadLE(b[52..60]);
    var h := PackHeader(info);
    CutInTen(h);
    CutInTen(b);
  }

  lemma CutInTen(b: seq<byte>)
    requires 60 <= |b|
    ensures b[..60] == b[..4] + b[4..6] + b[6..8] + b[8..12] + b[12..28] + b[28..32]
                       + b[32..36] + b[36..44] + b[44..52] + b[52..60]
  {
  }

  /** What parse_header accepts, exactly: a buffer that starts with the packed form of a
      coherent header that fits into it. */
  lemma AcceptsExactlyPackedHeaders(b: seq<byte>, info: BinaryInfo)
    ensures ParseHeader(b) == Ok(info) <==>
      (&& Packable(info) && Coherent(info)
       && info.totalBytes <= |b|
       && PackHeader(info)[..60] == b[..60])
  {
    if ParseHeader(b) == Ok(info) {
      PackUndoesParse(b);
    }
    if Packable(info) && Coherent(info) && info.totalBytes <= |b| && PackHeader(info)[..60] == b[..60] {
      ReservedBytesIgnored(info, b, PackHeader(info));
    }
  }

  lemma ReservedBytesIgnored(info: BinaryInfo, b: seq<byte>, h: seq<byte>)
    requires Packable(info) && Coherent(info) && info.totalBytes <= |b|
    requires h == PackHeader(info) && h[..60] == b[..60]
    ensures ParseHeader(b) == Ok(info)
  {
    var exact := h + b[HEADER_SIZE..];
    assert exact[..HEADER_SIZE] == h;
    ParseUndoesPack(info, exact);
    assert exact[..60] == h[..60] by {
      SliceOfPrefix(exact, h, 0, 60);
    }
    OnlySixtyBytesCount(exact, b);
  }

  /** The four reserved bytes are ignored, and so is everything after the header. */
  lemma OnlySixtyBytesCount(b: seq<byte>, c: seq<byte>)
    requires 64 <= |b| == |c| && b[..60] == c[..60]
    ensures ParseHeader(b) == ParseHeader(c)
  {
    SameSlice(b, c, 0, 4);
    SameSlice(b, c, 4, 6);
    SameSlice(b, c, 6, 8);
    SameSlice(b, c, 8, 12);
    SameSlice(b, c, 12, 28);
    SameSlice(b, c, 28, 32);
    SameSlice(b, c, 32, 36);
    SameSlice(b, c, 36, 44);
    SameSlice(b, c, 44, 52);
    SameSlice(b, c, 52, 60);
  }

  lemma SameSlice(b: seq<byte>, c: seq<byte>, lo: nat, hi: nat)
    requires lo <= hi <= 60 <= |b| && 60 <= |c| && b[..60] == c[..60]
    ensures b[lo..hi] == c[lo..hi]
  {
    SliceOfPrefix(b, b[..60], lo, hi);
    SliceOfPrefix(c, c[..60], lo, hi);
  }

  lemma AcceptedIsCoherent(b: seq<byte>)
    requires ParseHeader(b).Ok?
    ensures Coherent(ParseHeader(b).value) && ParseHeader(b).value.totalBytes <= |b|
  {
  }

  /** Bytes behind the container do not matter to the header check. */
  lemma HeaderIgnoresSuffix(b: seq<byte>, c: seq<byte>)
    requires ParseHeader(b).Ok?
    requires var total := ParseHeader(b).value.totalBytes; total <= |c| && b[..total] == c[..total]
    ensures ParseHeader(c) == ParseHeader(b)
  {
    var info := ParseHeader(b).value;
    PackUndoesParse(b);
    assert b[..60] == c[..60] by {
      assert b[..info.totalBytes][..60] == b[..60];
      assert c[..info.totalBytes][..60] == c[..60];
    }
    AcceptsExactlyPackedHeaders(c, info);
  }
}

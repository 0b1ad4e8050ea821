/** `WharfPatch` (Sources/Quay/Files/WharfPatch.swift): the sync-operation records and their
    conversions, the patch file's decoder and its body encoding. The diff that builds a patch
    is in module `Diff`. */
module Patches {
  import opened Shared
  import opened Errors
  import opened Protobuf
  import opened Compression
  import opened Containers
  import opened Common

  // ---------------------------------------------------------------------------
  // The legacy records

  /** `SyncOpHeader.SyncHeaderType`. */
  datatype SyncHeaderType = Rsync | Bsdiff

  function SyncHeaderTypeRaw(t: SyncHeaderType): int
  {
    match t
    case Rsync => 0
    case Bsdiff => 1
  }

  /** `SyncHeaderType.fromProtobuf`: an unknown raw value is an `invalidHeader` error. */
  function SyncHeaderTypeFromPB(raw: int): (r: Result<SyncHeaderType>)
    ensures r.Ok? <==> raw in {0, 1}
    ensures r.Ok? ==> SyncHeaderTypeRaw(r.value) == raw
    ensures r.Err? ==> r.failure == Thrown(InvalidHeader)
  {
    if raw == 0 then Ok(Rsync)
    else if raw == 1 then Ok(Bsdiff)
    else Err(Thrown(InvalidHeader))
  }

  /** `SyncOpHeader`: which algorithm the next file's operations use, and the file. */
  datatype SyncOpHeader = SyncOpHeader(kind: SyncHeaderType, fileIndex: i64)

  /** `SyncOpHeader.init(protobuf:)`. */
  function SyncOpHeaderFromPB(pb: PBSyncHeader): (r: Result<SyncOpHeader>)
    ensures r.Ok? <==> pb.kind in {0, 1}
    ensures r.Ok? ==> SyncHeaderTypeRaw(r.value.kind) == pb.kind && r.value.fileIndex == pb.fileIndex
    ensures r.Err? ==> r.failure == Thrown(InvalidHeader)
  {
    var kind :- SyncHeaderTypeFromPB(pb.kind);
    Ok(SyncOpHeader(kind, pb.fileIndex))
  }

  /** `SyncOpHeader.protobuf()`. */
  function SyncOpHeaderToPB(h: SyncOpHeader): (pb: PBSyncHeader)
    ensures pb.kind == SyncHeaderTypeRaw(h.kind) && pb.fileIndex == h.fileIndex
  {
    PBSyncHeader(SyncHeaderTypeRaw(h.kind), h.fileIndex)
  }

  /** `SyncOp.SyncOpType`. */
  datatype SyncOpType = BlockRangeType | DataType | HeyYouDidItType

  function SyncOpTypeRaw(t: SyncOpType): int
  {
    match t
    case BlockRangeType => 0
    case DataType => 1
    case HeyYouDidItType => 2049
  }

  /** `SyncOpType.fromProtobuf`: an unknown raw value is an `invalidHeader` error. */
  function SyncOpTypeFromPB(raw: int): (r: Result<SyncOpType>)
    ensures r.Ok? <==> raw in {0, 1, 2049}
    ensures r.Ok? ==> SyncOpTypeRaw(r.value) == raw
    ensures r.Err? ==> r.failure == Thrown(InvalidHeader)
  {
    if raw == 0 then Ok(BlockRangeType)
    else if raw == 1 then Ok(DataType)
    else if raw == 2049 then Ok(HeyYouDidItType)
    else Err(Thrown(InvalidHeader))
  }

  /** `SyncOp`: an operation with optional fields. */
  datatype SyncOp = SyncOp(
    kind: SyncOpType,
    fileIndex: Option<i64>,
    blockIndex: Option<i64>,
    blockSpan: Option<i64>,
    data: Option<seq<byte>>)

  /** `SyncOp.init(protobuf:)`: every field present, as the record carries it. */
  function SyncOpFromPB(pb: PBSyncOp): (r: Result<SyncOp>)
    ensures r.Ok? <==> pb.kind in {0, 1, 2049}
    ensures r.Ok? ==> SyncOpTypeRaw(r.value.kind) == pb.kind
                      && r.value.fileIndex == Some(pb.fileIndex) && r.value.blockIndex == Some(pb.blockIndex)
                      && r.value.blockSpan == Some(pb.blockSpan) && r.value.data == Some(pb.data)
    ensures r.Err? ==> r.failure == Thrown(InvalidHeader)
  {
    var kind :- SyncOpTypeFromPB(pb.kind);
    Ok(SyncOp(kind, Some(pb.fileIndex), Some(pb.blockIndex), Some(pb.blockSpan), Some(pb.data)))
  }

  /** `SyncOp.protobuf()`: an absent number is written as 0 and absent data as no bytes. */
  function SyncOpToPB(op: SyncOp): (pb: PBSyncOp)
    ensures pb.kind == SyncOpTypeRaw(op.kind)
    ensures pb.fileIndex == (if op.fileIndex.Some? then op.fileIndex.value else 0)
    ensures pb.blockIndex == (if op.blockIndex.Some? then op.blockIndex.value else 0)
    ensures pb.blockSpan == (if op.blockSpan.Some? then op.blockSpan.value else 0)
    ensures pb.data == (if op.data.Some? then op.data.value else [])
  {
    PBSyncOp(SyncOpTypeRaw(op.kind),
             match op.fileIndex case Some(v) => v case None => 0,
             match op.blockIndex case Some(v) => v case None => 0,
             match op.blockSpan case Some(v) => v case None => 0,
             match op.data case Some(d) => d case None => [])
  }

  // ---------------------------------------------------------------------------
  // Sync operations

  /** `SyncOperation.Algorithm`. */
  datatype Algorithm = RsyncAlgorithm | BsdiffAlgorithm

  /** `Algorithm.legacy`. */
  function Legacy(a: Algorithm): SyncHeaderType
  {
    match a
    case RsyncAlgorithm => Rsync
    case BsdiffAlgorithm => Bsdiff
  }

  /** `SyncOperation`. */
  datatype SyncOperation =
    | StartFile(algorithm: Algorithm, fileIndex: i64)
    | BlockRange(sourceFileIndex: i64, blockIndex: i64, blockSpan: i64)
    | DataOp(data: seq<byte>)
    | HeyYouDidIt

  /** `SyncOperation.fromProtobuf`: an unrecognized type is a `decodeFailed` error; a record
      never decodes to `startFile`. */
  function FromProtobuf(pb: PBSyncOp): (r: Result<SyncOperation>)
    ensures r.Ok? <==> pb.kind in {0, 1, 2049}
    ensures r.Ok? ==> !r.value.StartFile?
    ensures pb.kind == 0 ==> r == Ok(BlockRange(pb.fileIndex, pb.blockIndex, pb.blockSpan))
    ensures pb.kind == 1 ==> r == Ok(DataOp(pb.data))
    ensures pb.kind == 2049 ==> r == Ok(HeyYouDidIt)
    ensures r.Err? ==> r.failure == Thrown(DecodeFailed)
  {
    if pb.kind == 0 then Ok(BlockRange(pb.fileIndex, pb.blockIndex, pb.blockSpan))
    else if pb.kind == 1 then Ok(DataOp(pb.data))
    else if pb.kind == 2049 then Ok(HeyYouDidIt)
    else Err(Thrown(DecodeFailed))
  }

  /** What `SyncOperation.protobuf()` returns: one of the two legacy records. */
  datatype Alias = HeaderAlias(header: SyncOpHeader) | OpAlias(op: SyncOp)

  /** `SyncOperation.protobuf()`: `startFile` becomes a header, every other case an operation
      carrying only its own fields. */
  function ToAlias(op: SyncOperation): Alias
  {
    match op
    case StartFile(algorithm, fileIndex) => HeaderAlias(SyncOpHeader(Legacy(algorithm), fileIndex))
    case BlockRange(f, b, s) => OpAlias(SyncOp(BlockRangeType, Some(f), Some(b), Some(s), None))
    case DataOp(data) => OpAlias(SyncOp(DataType, None, None, None, Some(data)))
    case HeyYouDidIt => OpAlias(SyncOp(HeyYouDidItType, None, None, None, None))
  }

  /** Every operation but `startFile` survives its record; absent fields are written as zero
      or no bytes. */
  lemma OperationRoundTrip(op: SyncOperation)
    requires !op.StartFile?
    ensures ToAlias(op).OpAlias? && FromProtobuf(SyncOpToPB(ToAlias(op).op)) == Ok(op)
    ensures var pb := SyncOpToPB(ToAlias(op).op);
            (op.DataOp? ==> pb.fileIndex == 0 && pb.blockIndex == 0 && pb.blockSpan == 0)
            && (!op.DataOp? ==> pb.data == [])
            && (op.HeyYouDidIt? ==> pb.fileIndex == 0 && pb.blockIndex == 0 && pb.blockSpan == 0)
  {
  }

  /** `startFile` becomes a header with the same algorithm and file index, and the header
      survives its record. */
  lemma StartFileRoundTrip(algorithm: Algorithm, fileIndex: i64)
    ensures ToAlias(StartFile(algorithm, fileIndex)) == HeaderAlias(SyncOpHeader(Legacy(algorithm), fileIndex))
    ensures SyncOpHeaderFromPB(SyncOpHeaderToPB(SyncOpHeader(Legacy(algorithm), fileIndex)))
            == Ok(SyncOpHeader(Legacy(algorithm), fileIndex))
  {
  }

  /** The legacy operation record too survives its round trip, once its optional fields are
      all present. */
  lemma SyncOpRoundTrip(op: SyncOp)
    requires op.fileIndex.Some? && op.blockIndex.Some? && op.blockSpan.Some? && op.data.Some?
    ensures SyncOpFromPB(SyncOpToPB(op)) == Ok(op)
  {
  }

  // ---------------------------------------------------------------------------
  // The patch file

  datatype WharfPatch = WharfPatch(
    header: FileHeader,
    targetContainer: Container,
    sourceContainer: Container,
    syncOps: seq<SyncOperation>)

  /** The loop of `init(from:)` over the messages after the two containers, as a function:
      a header message is skipped unread, every other message must decode as a `SyncOp`, and
      a `heyYouDidIt` makes the next message a header again. Nothing is kept. */
  function ScanOps(wire: Wire, messages: seq<seq<byte>>, nextHeader: bool): Outcome
  {
    if |messages| == 0 then Pass
    else if nextHeader then ScanOps(wire, messages[1..], false)
    else
      match Parse(wire.syncOp, messages[0])
      case Err(f) => Fail(f)
      case Ok(pb) =>
        match SyncOpFromPB(pb)
        case Err(f) => Fail(f)
        case Ok(op) => ScanOps(wire, messages[1..], op.kind == HeyYouDidItType)
  }

  /** The loop itself, toggling `nextHeader`. */
  method ScanSyncOps(wire: Wire, messages: seq<seq<byte>>) returns (r: Outcome)
    ensures r == ScanOps(wire, messages, true)
  {
    var nextHeader := true;
    for i := 0 to |messages|
      invariant ScanOps(wire, messages[i..], nextHeader) == ScanOps(wire, messages, true)
    {
      assert messages[i..][1..] == messages[i + 1..];
      var message := messages[i];
      if nextHeader {
        nextHeader := false;
      } else {
        var record := Parse(wire.syncOp, message);
        if record.Err? {
          return Fail(record.failure);
        }
        var parsed := SyncOpFromPB(record.value);
        if parsed.Err? {
          return Fail(parsed.failure);
        }
        if parsed.value.kind == HeyYouDidItType {
          nextHeader := true;
        }
      }
    }
    return Pass;
  }

  /** `init(from:)` once the body's messages are read: no messages is an `unknown` error; the
      target and source containers are messages 0 and 1 (reading message 1 of a one-message
      body is a trap); the operations are checked and dropped, so `syncOps` is empty. */
  function DecodeBody(wire: Wire, header: FileHeader, messages: seq<seq<byte>>): (r: Result<WharfPatch>)
    ensures |messages| == 0 ==> r == Err(Thrown(Unknown))
    ensures r.Ok? ==> |messages| >= 2 && r.value.header == header && r.value.syncOps == []
  {
    if |messages| == 0 then Err(Thrown(Unknown))
    else
      var target :- Parse(wire.container, messages[0]);
      if |messages| < 2 then Err(Trap)
      else
        var source :- Parse(wire.container, messages[1]);
        var scan := ScanOps(wire, messages[2..], true);
        if scan.Fail? then Err(scan.failure)
        else Ok(WharfPatch(header, ContainerFromPB(target), ContainerFromPB(source), []))
  }

  /** `init(from:)` as written: the header step demands the signature's magic number, and
      `parseBody` reads its length bytes from the body slice's own start index (5 + the header
      length) instead of from its first byte. */
  function Decode(wire: Wire, data: seq<byte>): Result<WharfPatch>
  {
    var parsed :- ParseHeader(wire, data, Patch);
    var start := BodyStart(data);
    var messages :- SliceMessages(start, parsed.1, start, []);
    DecodeBody(wire, parsed.0, messages)
  }

  /** `init(from:)` with the header step checking the patch's own magic number and reading a
      patch header, as `expectedMagic: .patch` and `headerType: Header.self` ask, and the body
      read from its first byte, as `encode()` frames it. */
  function DecodeCorrected(wire: Wire, data: seq<byte>): Result<WharfPatch>
  {
    var parsed :- ParseHeaderFor(wire, data, Patch);
    DecodeBody(wire, parsed.0, Messages(parsed.1))
  }

  /** The serialized record of one operation. */
  function OpMessage(wire: Wire, op: SyncOperation): seq<byte>
  {
    match ToAlias(op)
    case HeaderAlias(h) => wire.syncHeader.serialize(SyncOpHeaderToPB(h))
    case OpAlias(o) => wire.syncOp.serialize(SyncOpToPB(o))
  }

  function OpMessages(wire: Wire, ops: seq<SyncOperation>): (ms: seq<seq<byte>>)
    ensures |ms| == |ops|
    ensures forall i :: 0 <= i < |ops| ==> ms[i] == OpMessage(wire, ops[i])
  {
    if |ops| == 0 then [] else [OpMessage(wire, ops[0])] + OpMessages(wire, ops[1..])
  }

  /** `encodeBody()` serialized: target container, source container, then one record per
      operation. Building either container's record traps when its size sum overflows. */
  function BodyMessages(wire: Wire, p: WharfPatch): (r: Result<seq<seq<byte>>>)
    ensures r.Ok? <==> ContainerToPB(p.targetContainer).Ok? && ContainerToPB(p.sourceContainer).Ok?
    ensures r.Ok? ==> |r.value| == 2 + |p.syncOps|
  {
    var target :- ContainerToPB(p.targetContainer);
    var source :- ContainerToPB(p.sourceContainer);
    Ok([wire.container.serialize(target), wire.container.serialize(source)] + OpMessages(wire, p.syncOps))
  }

  /** `encode()`: the shared file encoding with the patch's magic number. */
  function Encode(wire: Wire, p: WharfPatch): Result<seq<byte>>
  {
    var body :- BodyMessages(wire, p);
    EncodeSpec(Patch, p.header.compression.algorithm, HeaderBytes(wire, Patch, p.header), body)
  }

  /** Operations laid out as the decoder reads them: a header slot (anything), then
      operations other than `startFile` up to and including a `heyYouDidIt`, and again. */
  predicate Bracketed(ops: seq<SyncOperation>, nextHeader: bool)
  {
    if |ops| == 0 then true
    else if nextHeader then Bracketed(ops[1..], false)
    else !ops[0].StartFile? && Bracketed(ops[1..], ops[0].HeyYouDidIt?)
  }

  /** The decoder's scan accepts the records of bracketed operations. */
  lemma {:induction false} ScanOpMessages(wire: Wire, ops: seq<SyncOperation>, nextHeader: bool)
    requires Lossless(wire.syncOp) && Bracketed(ops, nextHeader)
    ensures ScanOps(wire, OpMessages(wire, ops), nextHeader) == Pass
  {
    if |ops| > 0 {
      var ms := OpMessages(wire, ops);
      assert ms[1..] == OpMessages(wire, ops[1..]);
      if !nextHeader {
        var o := ToAlias(ops[0]).op;
        ParseSerialized(wire.syncOp, SyncOpToPB(o));
        assert SyncOpFromPB(SyncOpToPB(o)).Ok?;
        ScanOpMessages(wire, ops[1..], ops[0].HeyYouDidIt?);
      } else {
        ScanOpMessages(wire, ops[1..], false);
      }
    }
  }

  /** Decoding an encoded patch (with the header step checking the patch's magic number and the
      body read from its first byte) gives
      back its header and both containers as their records carry them, and no operations. */
  lemma DecodeEncode(wire: Wire, p: WharfPatch)
    requires WireLossless(wire)
    requires Encode(wire, p).Ok? && Bracketed(p.syncOps, true)
    ensures DecodeCorrected(wire, Encode(wire, p).value)
            == Ok(WharfPatch(p.header, ContainerFromPB(ContainerToPB(p.targetContainer).value),
                             ContainerFromPB(ContainerToPB(p.sourceContainer).value), []))
  {
    var body := BodyMessages(wire, p).value;
    HeaderRoundTrip(wire, Patch, p.header, body);
    MessagesOfFrame(body);
    ParseSerialized(wire.container, ContainerToPB(p.targetContainer).value);
    ParseSerialized(wire.container, ContainerToPB(p.sourceContainer).value);
    assert body[2..] == OpMessages(wire, p.syncOps);
    ScanOpMessages(wire, p.syncOps, true);
  }

  /** The decoder as written rejects every encoded patch: the header step demands the
      signature's magic number. */
  lemma AsWrittenRejectsEncoded(wire: Wire, p: WharfPatch)
    requires Encode(wire, p).Ok?
    ensures Decode(wire, Encode(wire, p).value) == Err(Thrown(InvalidMagicNumber))
  {
    var body := BodyMessages(wire, p).value;
    EncodedPatchRejected(wire, HeaderBytes(wire, Patch, p.header), body, Patch);
  }

  /** Past the magic number the decoder as written still misreads the body: a patch body
      behind the signature's magic number is read from offset 5 + the header length, and traps
      unless that chain of length bytes runs at least that far past the body's end. */
  lemma SignatureTaggedAsWritten(wire: Wire, p: WharfPatch)
    requires WireLossless(wire) && BodyMessages(wire, p).Ok?
    requires EncodeSpec(Signature, NoCompression, HeaderBytes(wire, Signature, p.header), BodyMessages(wire, p).value).Ok?
    requires p.header.compression.algorithm == NoCompression
    ensures var body := Frame(BodyMessages(wire, p).value);
            var start := 5 + |HeaderBytes(wire, Signature, p.header)|;
            Decode(wire, EncodeSpec(Signature, NoCompression, HeaderBytes(wire, Signature, p.header), BodyMessages(wire, p).value).value)
            == if EndOf(body, start) >= start + |body| then DecodeBody(wire, p.header, MessagesFrom(body, start, []))
               else Err(Trap)
  {
    var body := BodyMessages(wire, p).value;
    var h := HeaderBytes(wire, Signature, p.header);
    HeaderRoundTrip(wire, Signature, p.header, body);
    EncodedBodyStart(Signature, h, body);
    SliceMessagesIsOffsetRead(5 + |h|, Frame(body), 5 + |h|, []);
  }

  /** A body holding only the target container: its record is read, then message 1 is out of
      range. */
  lemma OneMessageTraps(wire: Wire, header: FileHeader, target: PBContainer)
    requires Lossless(wire.container) && |wire.container.serialize(target)| <= 255
    ensures DecodeBody(wire, header, Messages(Frame([wire.container.serialize(target)]))) == Err(Trap)
  {
    MessagesOfFrame([wire.container.serialize(target)]);
  }

  /** An empty body is an `unknown` error, in both readings of it. */
  lemma EmptyBodyRejected(wire: Wire, header: FileHeader, start: nat)
    ensures DecodeBody(wire, header, Messages([])) == Err(Thrown(Unknown))
    ensures SliceMessages(start, [], start, []) == Ok([])
  {
    MessagesOfFrame([]);
  }
}

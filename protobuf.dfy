/** The protocol-buffer messages the engine reads and writes, as plain records, and their wire
    codec. The field layout follows Sources/Quay/Protobuf/PBContainer.pb.swift and the fields the
    Swift code sets; the generated serializer is not part of this model, so each message's
    `serializedData()` / `init(serializedBytes:)` pair is a parameter (a `Codec`), and a round
    trip through it is the hypothesis `Lossless`. Enumerations are kept as their raw `Int`
    values, since a generated protobuf enumeration carries unrecognized values through. */
module Protobuf {
  import opened Shared
  import opened Errors

  datatype PBBlockHash = PBBlockHash(weakHash: u32, strongHash: seq<byte>)

  datatype PBDir = PBDir(path: string, mode: u32)
  datatype PBFile = PBFile(path: string, mode: u32, size: i64, offset: i64)
  datatype PBSymlink = PBSymlink(path: string, mode: u32, dest: string)
  datatype PBContainer = PBContainer(files: seq<PBFile>, dirs: seq<PBDir>, symlinks: seq<PBSymlink>, size: i64)

  datatype PBCompressionSettings = PBCompressionSettings(algorithm: int, quality: i32)
  datatype PBSignatureHeader = PBSignatureHeader(compression: PBCompressionSettings)
  datatype PBPatchHeader = PBPatchHeader(compression: PBCompressionSettings)

  /** A sync-file header (`PBSyncHeader`): the raw `PBType` value and the file index. */
  datatype PBSyncHeader = PBSyncHeader(kind: int, fileIndex: i64)
  /** A sync operation (`PBSyncOp`): the raw `PBType` value and the operation's fields. */
  datatype PBSyncOp = PBSyncOp(kind: int, fileIndex: i64, blockIndex: i64, blockSpan: i64, data: seq<byte>)

  /** A message type's `serializedData()` and `init(serializedBytes:)`; `None` is a parse error. */
  datatype Codec<!T> = Codec(serialize: T -> seq<byte>, parse: seq<byte> -> Option<T>)

  /** Parsing what was serialized gives the message back. */
  ghost predicate Lossless<T(!new)>(c: Codec<T>)
  {
    forall x: T :: c.parse(c.serialize(x)) == Some(x)
  }

  /** The codecs of every message type the wharf files carry. */
  datatype Wire = Wire(
    blockHash: Codec<PBBlockHash>,
    container: Codec<PBContainer>,
    signatureHeader: Codec<PBSignatureHeader>,
    patchHeader: Codec<PBPatchHeader>,
    syncHeader: Codec<PBSyncHeader>,
    syncOp: Codec<PBSyncOp>)

  ghost predicate WireLossless(w: Wire)
  {
    Lossless(w.blockHash) && Lossless(w.container) && Lossless(w.signatureHeader)
    && Lossless(w.patchHeader) && Lossless(w.syncHeader) && Lossless(w.syncOp)
  }

  /** `init(serializedBytes:)` as a throwing initializer. */
  function Parse<T>(c: Codec<T>, bytes: seq<byte>): (r: Result<T>)
    ensures r.Ok? <==> c.parse(bytes).Some?
    ensures r.Ok? ==> c.parse(bytes) == Some(r.value)
    ensures r.Err? ==> r.failure == ProtobufError
  {
    match c.parse(bytes)
    case None => Err(ProtobufError)
    case Some(x) => Ok(x)
  }

  lemma ParseSerialized<T(!new)>(c: Codec<T>, x: T)
    requires Lossless(c)
    ensures Parse(c, c.serialize(x)) == Ok(x)
  {
  }
}

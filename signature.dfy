/** `WharfSignature` (Sources/Quay/Files/WharfSignature.swift): a header, the container it
    describes and the block hashes of the container's files, framed as `Common` describes. */
module Signatures {
  import opened Shared
  import opened Errors
  import opened Protobuf
  import opened Compression
  import opened Containers
  import opened Blocks
  import opened Common

  datatype WharfSignature = WharfSignature(header: FileHeader, container: Container, blockHashes: seq<BlockHash>)

  /** `try BlockHash(protobuf:)` over a sequence of messages, in order: the first message that
      does not parse ends it with that error. */
  function ParseHashes(wire: Wire, messages: seq<seq<byte>>): (r: Result<seq<BlockHash>>)
    ensures r.Ok? ==> |r.value| == |messages| && forall i :: 0 <= i < |r.value| ==> Unanchored(r.value[i])
  {
    if |messages| == 0 then Ok([])
    else
      var pb :- Parse(wire.blockHash, messages[0]);
      var rest :- ParseHashes(wire, messages[1..]);
      Ok([FromPB(pb)] + rest)
  }

  /** The end of `init(from:)` once the body's messages are read: the first is the container
      and every later one a block hash. A body without messages is an `unknown` error. */
  function FromMessages(wire: Wire, header: FileHeader, messages: seq<seq<byte>>): (r: Result<WharfSignature>)
    ensures |messages| == 0 ==> r == Err(Thrown(Unknown))
    ensures r.Ok? ==> r.value.header == header && |r.value.blockHashes| == |messages| - 1
    ensures r.Ok? ==> forall i :: 0 <= i < |r.value.blockHashes| ==> Unanchored(r.value.blockHashes[i])
  {
    if |messages| == 0 then Err(Thrown(Unknown))
    else
      var pb :- Parse(wire.container, messages[0]);
      var hashes :- ParseHashes(wire, messages[1..]);
      Ok(WharfSignature(header, ContainerFromPB(pb), hashes))
  }

  /** `init(from:)` as written: the header, then `parseBody` over the body slice, which reads
      its length bytes from the slice's own start index (5 + the header length) instead of
      from its first byte. */
  function Decode(wire: Wire, data: seq<byte>): (r: Result<WharfSignature>)
    ensures r.Ok? ==> forall i :: 0 <= i < |r.value.blockHashes| ==> Unanchored(r.value.blockHashes[i])
  {
    var parsed :- ParseHeader(wire, data, Signature);
    var start := BodyStart(data);
    var messages :- SliceMessages(start, parsed.1, start, []);
    FromMessages(wire, parsed.0, messages)
  }

  /** `init(from:)` reading the body from its first byte, as the framing `encode()` writes. */
  function DecodeCorrected(wire: Wire, data: seq<byte>): (r: Result<WharfSignature>)
    ensures r.Ok? ==> forall i :: 0 <= i < |r.value.blockHashes| ==> Unanchored(r.value.blockHashes[i])
  {
    var parsed :- ParseHeader(wire, data, Signature);
    FromMessages(wire, parsed.0, Messages(parsed.1))
  }

  /** The serialized block hashes, one message each. */
  function HashMessages(wire: Wire, hashes: seq<BlockHash>): (ms: seq<seq<byte>>)
    ensures |ms| == |hashes|
    ensures forall i :: 0 <= i < |hashes| ==> ms[i] == wire.blockHash.serialize(ToPB(hashes[i]))
  {
    if |hashes| == 0 then [] else [wire.blockHash.serialize(ToPB(hashes[0]))] + HashMessages(wire, hashes[1..])
  }

  /** `encodeBody()` serialized: the container's record, then every block hash. Building the
      container's record traps when its size sum overflows. */
  function BodyMessages(wire: Wire, s: WharfSignature): (r: Result<seq<seq<byte>>>)
    ensures r.Ok? <==> ContainerToPB(s.container).Ok?
    ensures r.Ok? ==> |r.value| == 1 + |s.blockHashes|
  {
    var pb :- ContainerToPB(s.container);
    Ok([wire.container.serialize(pb)] + HashMessages(wire, s.blockHashes))
  }

  /** `encode()`: the shared file encoding with the signature's magic number. */
  function Encode(wire: Wire, s: WharfSignature): Result<seq<byte>>
  {
    var body :- BodyMessages(wire, s);
    EncodeSpec(Signature, s.header.compression.algorithm, HeaderBytes(wire, Signature, s.header), body)
  }

  /** Encoding succeeds exactly when the container's sizes sum without overflow, the header and
      every message fit a length byte, and the body is not to be compressed. */
  lemma EncodeOutcome(wire: Wire, s: WharfSignature)
    ensures Encode(wire, s).Ok? <==>
            ContainerToPB(s.container).Ok?
            && |HeaderBytes(wire, Signature, s.header)| <= 255 && AllFit(BodyMessages(wire, s).value)
            && s.header.compression.algorithm == NoCompression
    ensures ContainerToPB(s.container).Ok? && |HeaderBytes(wire, Signature, s.header)| <= 255 && AllFit(BodyMessages(wire, s).value)
            && s.header.compression.algorithm != NoCompression
            ==> Encode(wire, s) == Err(Thrown(Unimplemented))
  {
  }

  /** The block hashes as their records carry them: hashes kept, anchors dropped. */
  function StripAnchors(hashes: seq<BlockHash>): (r: seq<BlockHash>)
    ensures |r| == |hashes|
    ensures forall i :: 0 <= i < |hashes| ==> r[i] == FromPB(ToPB(hashes[i]))
  {
    if |hashes| == 0 then [] else [FromPB(ToPB(hashes[0]))] + StripAnchors(hashes[1..])
  }

  /** Parsing serialized block hashes gives them back without their anchors. */
  lemma {:induction false} ParseHashMessages(wire: Wire, hashes: seq<BlockHash>)
    requires Lossless(wire.blockHash)
    ensures ParseHashes(wire, HashMessages(wire, hashes))
            == Ok(StripAnchors(hashes))
  {
    if |hashes| > 0 {
      var ms := HashMessages(wire, hashes);
      assert ms[1..] == HashMessages(wire, hashes[1..]);
      ParseSerialized(wire.blockHash, ToPB(hashes[0]));
      ParseHashMessages(wire, hashes[1..]);
    }
  }

  /** Decoding an encoded signature gives back its header, its container as its record carries
      it, and its block hashes without their anchors. */
  lemma DecodeEncode(wire: Wire, s: WharfSignature)
    requires WireLossless(wire)
    requires Encode(wire, s).Ok?
    ensures DecodeCorrected(wire, Encode(wire, s).value)
            == Ok(WharfSignature(s.header, ContainerFromPB(ContainerToPB(s.container).value),
                                 StripAnchors(s.blockHashes)))
  {
    var body := BodyMessages(wire, s).value;
    HeaderRoundTrip(wire, Signature, s.header, body);
    MessagesOfFrame(body);
    ParseSerialized(wire.container, ContainerToPB(s.container).value);
    assert body[1..] == HashMessages(wire, s.blockHashes);
    ParseHashMessages(wire, s.blockHashes);
  }

  /** The round trip is exact precisely for a signature whose directory and symlink permissions
      fit sixteen bits and whose block hashes carry no anchor. */
  lemma RoundTripExact(wire: Wire, s: WharfSignature)
    requires WireLossless(wire)
    requires Encode(wire, s).Ok?
    ensures DecodeCorrected(wire, Encode(wire, s).value) == Ok(s)
            <==> PermissionsFit(s.container) && forall i :: 0 <= i < |s.blockHashes| ==> Unanchored(s.blockHashes[i])
  {
    DecodeEncode(wire, s);
    ContainerRoundTrip(s.container);
    var hs := StripAnchors(s.blockHashes);
    if forall i :: 0 <= i < |s.blockHashes| ==> Unanchored(s.blockHashes[i]) {
      forall i | 0 <= i < |s.blockHashes| ensures hs[i] == s.blockHashes[i] {
        RecordRoundTrip(s.blockHashes[i]);
      }
    }
    if hs == s.blockHashes {
      forall i | 0 <= i < |s.blockHashes| ensures Unanchored(s.blockHashes[i]) {
        assert hs[i] == s.blockHashes[i];
      }
    }
  }

  /** What the decoder as written does with an encoded signature: it reads the framed body
      from offset 5 + the header length, and traps unless that chain of length bytes runs at
      least that far past the body's end. */
  lemma DecodeEncodedAsWritten(wire: Wire, s: WharfSignature)
    requires WireLossless(wire)
    requires Encode(wire, s).Ok?
    ensures var body := Frame(BodyMessages(wire, s).value);
            var start := 5 + |HeaderBytes(wire, Signature, s.header)|;
            Decode(wire, Encode(wire, s).value)
            == if EndOf(body, start) >= start + |body| then FromMessages(wire, s.header, MessagesFrom(body, start, []))
               else Err(Trap)
  {
    var body := BodyMessages(wire, s).value;
    var h := HeaderBytes(wire, Signature, s.header);
    HeaderRoundTrip(wire, Signature, s.header, body);
    EncodedBodyStart(Signature, h, body);
    SliceMessagesIsOffsetRead(5 + |h|, Frame(body), 5 + |h|, []);
  }

  /** In particular an encoded signature whose framed body is no longer than 5 + its header
      length (a short container record and few block hashes) is never decoded: it traps. */
  lemma EncodedShortBodyTraps(wire: Wire, s: WharfSignature)
    requires WireLossless(wire)
    requires Encode(wire, s).Ok?
    requires |Frame(BodyMessages(wire, s).value)| <= 5 + |HeaderBytes(wire, Signature, s.header)|
    ensures Decode(wire, Encode(wire, s).value) == Err(Trap)
  {
    DecodeEncodedAsWritten(wire, s);
    var body := BodyMessages(wire, s).value;
    assert |Frame(body)| >= 1;
  }

  /** A well-formed header followed by an empty body is an `unknown` error, in both readings. */
  lemma EmptyBodyRejected(wire: Wire, header: FileHeader)
    requires HeadersLossless(wire) && header.compression.algorithm == NoCompression
    requires |HeaderBytes(wire, Signature, header)| <= 255
    ensures Decode(wire, EncodeSpec(Signature, NoCompression, HeaderBytes(wire, Signature, header), []).value)
            == Err(Thrown(Unknown))
    ensures DecodeCorrected(wire, EncodeSpec(Signature, NoCompression, HeaderBytes(wire, Signature, header), []).value)
            == Err(Thrown(Unknown))
  {
    HeaderRoundTrip(wire, Signature, header, []);
    MessagesOfFrame([]);
  }
}

/** The wharf file framing shared by signatures and patches (Sources/Quay/Files/Common.swift):
    a 4-byte little-endian magic number, a 1-byte header length, the serialized header, then
    the body as `[1-byte length][message]` entries. Only the "none" compression exists; every
    other algorithm is reported as unimplemented. */
module Common {
  import opened Shared
  import opened Errors
  import opened Protobuf
  import opened Compression
  import opened DataHelper

  /** A file header (`FileHeader`): signature and patch headers both carry only the compression
      settings. */
  datatype FileHeader = FileHeader(compression: CompressionSettings)

  function SignatureHeaderToPB(h: FileHeader): (pb: PBSignatureHeader)
    ensures pb.compression == SettingsToPB(h.compression)
  {
    PBSignatureHeader(SettingsToPB(h.compression))
  }

  function PatchHeaderToPB(h: FileHeader): (pb: PBPatchHeader)
    ensures pb.compression == SettingsToPB(h.compression)
  {
    PBPatchHeader(SettingsToPB(h.compression))
  }

  /** `Header.init(protobuf:)`: fails with `invalidHeader` on an unknown algorithm. */
  function HeaderFromPB(compression: PBCompressionSettings): (r: Result<FileHeader>)
    ensures r == (match SettingsFromPB(compression)
                  case Ok(s) => Ok(FileHeader(s))
                  case Err(f) => Err(f))
  {
    var s :- SettingsFromPB(compression);
    Ok(FileHeader(s))
  }

  /** The header's `protobuf().serializedData()`, in the message type of the file the magic
      number names: a patch header for a patch, a signature header otherwise. */
  function HeaderBytes(wire: Wire, magic: Magic, h: FileHeader): seq<byte>
  {
    if magic == Patch then wire.patchHeader.serialize(PatchHeaderToPB(h))
    else wire.signatureHeader.serialize(SignatureHeaderToPB(h))
  }

  /** The compression record of a serialized header, read as the message type of the file the
      magic number names. */
  function HeaderRecord(wire: Wire, magic: Magic, bytes: seq<byte>): (r: Result<PBCompressionSettings>)
    ensures r.Err? ==> r.failure == ProtobufError
  {
    if magic == Patch then
      var pb :- Parse(wire.patchHeader, bytes);
      Ok(pb.compression)
    else
      var pb :- Parse(wire.signatureHeader, bytes);
      Ok(pb.compression)
  }

  ghost predicate HeadersLossless(wire: Wire)
  {
    Lossless(wire.signatureHeader) && Lossless(wire.patchHeader)
  }

  /** The four bytes of a magic number as `withUnsafeBytes(of: magic.rawValue)` lays them out. */
  function MagicBytes(m: Magic): (s: seq<byte>)
    ensures |s| == 4 && ReadInt32(s, 0) == MagicValue(m)
  {
    ReadInt32OfBytes(MagicValue(m), []);
    assert Int32Bytes(MagicValue(m)) + [] == Int32Bytes(MagicValue(m));
    Int32Bytes(MagicValue(m))
  }

  /** Each message fits a 1-byte length. */
  predicate AllFit(messages: seq<seq<byte>>)
  {
    forall i :: 0 <= i < |messages| ==> |messages[i]| <= 255
  }

  /** The body bytes: each message preceded by its 1-byte length. */
  function Frame(messages: seq<seq<byte>>): seq<byte>
    requires AllFit(messages)
  {
    if |messages| == 0 then [] else [|messages[0]|] + messages[0] + Frame(messages[1..])
  }

  /** What `encode()` produces from the serialized header and body messages: a trap when the
      header or a message is too long for its 1-byte length (the `UInt8(_)` conversion), then
      `unimplemented` for any compression other than none. */
  function EncodeSpec(magic: Magic, algorithm: CompressionAlgorithm, header: seq<byte>, body: seq<seq<byte>>)
    : (r: Result<seq<byte>>)
    ensures r.Ok? <==> |header| <= 255 && AllFit(body) && algorithm == NoCompression
  {
    if |header| > 255 || !AllFit(body) then Err(Trap)
    else if algorithm != NoCompression then Err(Thrown(Unimplemented))
    else Ok(MagicBytes(magic) + [|header|] + header + Frame(body))
  }

  lemma {:induction false} FrameSnoc(messages: seq<seq<byte>>, m: seq<byte>)
    requires AllFit(messages) && |m| <= 255
    ensures AllFit(messages + [m])
    ensures Frame(messages + [m]) == Frame(messages) + [|m|] + m
  {
    if messages == [] {
      assert [m][1..] == [];
    } else {
      assert (messages + [m])[1..] == messages[1..] + [m];
      FrameSnoc(messages[1..], m);
    }
  }

  /** `WharfFile.encode()`, step by step: magic, header length, header, the framed body, and the
      compression switch. Serializing the header and the body messages is the caller's part. */
  method Encode(magic: Magic, algorithm: CompressionAlgorithm, header: seq<byte>, body: seq<seq<byte>>)
    returns (r: Result<seq<byte>>)
    ensures r == EncodeSpec(magic, algorithm, header, body)
  {
    var bodyData: seq<byte> := [];
    var finalData := Int32Bytes(MagicValue(magic));
    if |header| > 255 {
      return Err(Trap);
    }
    finalData := finalData + [|header|];
    finalData := finalData + header;
    for i := 0 to |body|
      invariant AllFit(body[..i])
      invariant bodyData == Frame(body[..i])
    {
      if |body[i]| > 255 {
        return Err(Trap);
      }
      FrameSnoc(body[..i], body[i]);
      assert body[..i + 1] == body[..i] + [body[i]];
      bodyData := bodyData + [|body[i]|];
      bodyData := bodyData + body[i];
    }
    assert body[..|body|] == body;
    match algorithm {
      case NoCompression =>
        finalData := finalData + bodyData;
      case Brotli =>
        return Err(Thrown(Unimplemented));
      case Gzip =>
        return Err(Thrown(Unimplemented));
      case Zstd =>
        return Err(Thrown(Unimplemented));
    }
    return Ok(finalData);
  }

  /** `checkMagicNumber(actual:expected:)`. */
  function CheckMagicNumber(actual: int, expected: Magic): (r: Outcome)
    ensures r.Pass? <==> actual == MagicValue(expected)
    ensures r.Fail? ==> r.failure == Thrown(InvalidMagicNumber)
  {
    if actual == MagicValue(expected) then Pass else Fail(Thrown(InvalidMagicNumber))
  }

  /** The header step of decoding a file of kind `magic`: the magic number must be `magic`'s,
      and the header is read as that file's header type. Loading the Int32 or the length byte
      from data too short to hold them is a trap. */
  function ParseHeaderFor(wire: Wire, data: seq<byte>, magic: Magic): (r: Result<(FileHeader, seq<byte>)>)
    ensures r.Ok? ==> |data| >= 5 && r.value.1 == data[BodyStart(data)..]
  {
    if |data| < 4 then Err(Trap)
    else
      var magicCheck := CheckMagicNumber(ReadInt32(data, 0), magic);
      if magicCheck.Fail? then Err(magicCheck.failure)
      else if |data| < 5 then Err(Trap)
      else
        var headerLength := ReadUInt8(data, 4);
        var pb :- HeaderRecord(wire, magic, Prefix(DropFirst(data, 5), headerLength));
        var header :- HeaderFromPB(pb);
        match header.compression.algorithm
        case NoCompression => Ok((header, DropFirst(data, 5 + headerLength)))
        case Brotli => Err(Thrown(Unimplemented))
        case Gzip => Err(Thrown(Unimplemented))
        case Zstd => Err(Thrown(Unimplemented))
  }

  /** The index the body `parseHeader` returns starts at: `dropFirst(5 + headerLength)` keeps
      the file's indices, so the slice starts 5 + the header length bytes in, or at the end of
      a shorter file. */
  function BodyStart(data: seq<byte>): nat
    requires |data| >= 5
  {
    Min(5 + data[4] as int, |data|)
  }

  /** `parseHeader(data:expectedMagic:)` as written: it checks the signature's magic number and
      reads a signature header, whatever `expectedMagic` says. */
  function ParseHeader(wire: Wire, data: seq<byte>, expectedMagic: Magic): Result<(FileHeader, seq<byte>)>
  {
    ParseHeaderFor(wire, data, Signature)
  }

  /** The body's messages from offset `pos` on, after those already in `found`: read a length
      byte, take that many bytes (fewer when the data ends first), and go on after them. */
  function MessagesFrom(data: seq<byte>, pos: nat, found: seq<seq<byte>>): seq<seq<byte>>
    decreases |data| - pos
  {
    if pos >= |data| then found
    else
      var length := data[pos] as int;
      MessagesFrom(data, pos + 1 + length, found + [data[pos + 1..Min(pos + 1 + length, |data|)]])
  }

  /** The messages of a body whose indices start at 0. */
  function Messages(data: seq<byte>): seq<seq<byte>>
  {
    MessagesFrom(data, 0, [])
  }

  /** `data.dropFirst(at).prefix(n)` is the slice of at most n bytes from `at`. */
  lemma PrefixOfDropFirst(data: seq<byte>, at: nat, n: nat)
    requires at <= |data|
    ensures Prefix(DropFirst(data, at), n) == data[at..Min(at + n, |data|)]
  {
  }

  /** `parseBody(data:)` for a body whose indices start at 0. */
  method ParseBody(data: seq<byte>) returns (messages: seq<seq<byte>>)
    ensures messages == Messages(data)
  {
    var pos := 0;
    messages := [];
    while pos < |data|
      invariant MessagesFrom(data, pos, messages) == Messages(data)
      decreases |data| - pos
    {
      var messageLength := ReadUInt8(data, pos);
      pos := pos + 1;
      PrefixOfDropFirst(data, pos, messageLength);
      messages := messages + [Prefix(DropFirst(data, pos), messageLength)];
      pos := pos + messageLength;
    }
  }

  /** `parseBody(data:)` as written, on a `Data` slice whose indices run from `start` (the body
      `parseHeader` returns starts at 5 + the header length): the loop counts `pos` from the
      slice's start index up to its end index, but `readUInt8(at: pos)` and `dropFirst(pos)`
      treat `pos` as an offset from the slice's first byte, and reading a byte past the slice's
      end is a trap. */
  function SliceMessages(start: nat, bytes: seq<byte>, pos: nat, found: seq<seq<byte>>): Result<seq<seq<byte>>>
    decreases start + |bytes| - pos
  {
    if pos >= start + |bytes| then Ok(found)
    else if pos >= |bytes| then Err(Trap)
    else
      var length := bytes[pos] as int;
      SliceMessages(start, bytes, pos + 1 + length, found + [bytes[pos + 1..Min(pos + 1 + length, |bytes|)]])
  }

  /** Where the chain of length bytes from offset `pos` ends: the first position at or past
      the end of the bytes. */
  function EndOf(bytes: seq<byte>, pos: nat): (e: nat)
    ensures e >= pos && e >= |bytes|
    decreases |bytes| - pos
  {
    if pos >= |bytes| then pos else EndOf(bytes, pos + 1 + bytes[pos] as int)
  }

  // ---------------------------------------------------------------------------
  // Properties

  /** On a zero-based body the code as written and `Messages` agree. */
  lemma {:induction false} SliceMessagesFromZero(bytes: seq<byte>, pos: nat, found: seq<seq<byte>>)
    ensures SliceMessages(0, bytes, pos, found) == Ok(MessagesFrom(bytes, pos, found))
    decreases |bytes| - pos
  {
    if pos < |bytes| {
      var length := bytes[pos] as int;
      SliceMessagesFromZero(bytes, pos + 1 + length, found + [bytes[pos + 1..Min(pos + 1 + length, |bytes|)]]);
    }
  }

  /** The code as written reads the messages from offset `pos` of the slice's bytes, as
      `MessagesFrom` does, but finishes only when the chain of length bytes ends at least
      `start` bytes past the end of the slice; otherwise it reads a byte past the end and
      traps. */
  lemma {:induction false} SliceMessagesIsOffsetRead(start: nat, bytes: seq<byte>, pos: nat, found: seq<seq<byte>>)
    ensures SliceMessages(start, bytes, pos, found)
            == if EndOf(bytes, pos) >= start + |bytes| then Ok(MessagesFrom(bytes, pos, found)) else Err(Trap)
    decreases |bytes| - pos
  {
    if pos < |bytes| && pos < start + |bytes| {
      var length := bytes[pos] as int;
      SliceMessagesIsOffsetRead(start, bytes, pos + 1 + length, found + [bytes[pos + 1..Min(pos + 1 + length, |bytes|)]]);
    }
  }

  /** With a slice starting at index 5 (an empty header), the body holding the one message
      [7, 7] traps: the first length byte is looked for five bytes into a three-byte body. */
  lemma SliceMessagesMisreads()
    ensures SliceMessages(5, [2, 7, 7], 5, []) == Err(Trap)
    ensures Messages([2, 7, 7]) == [[7, 7]]
  {
    assert [2, 7, 7][1..3] == [7, 7];
  }

  /** The first entry of a framed run at offset `pos`. */
  lemma FrameEntry(data: seq<byte>, pos: nat, messages: seq<seq<byte>>)
    requires AllFit(messages) && |messages| > 0 && pos <= |data| && data[pos..] == Frame(messages)
    ensures pos + 1 + |messages[0]| <= |data| && data[pos] == |messages[0]|
    ensures data[pos + 1..pos + 1 + |messages[0]|] == messages[0]
    ensures data[pos + 1 + |messages[0]|..] == Frame(messages[1..])
  {
    var m := messages[0];
    assert Frame(messages) == [|m|] + m + Frame(messages[1..]);
    assert data[pos..][0] == data[pos];
    assert data[pos + 1..pos + 1 + |m|] == data[pos..][1..1 + |m|];
    assert data[pos + 1 + |m|..] == data[pos..][1 + |m|..];
  }

  /** One message of a framed run: it is read from offset `pos` and the rest of the run
      follows it. */
  lemma FrameStep(data: seq<byte>, pos: nat, messages: seq<seq<byte>>, found: seq<seq<byte>>)
    requires AllFit(messages) && |messages| > 0 && pos <= |data| && data[pos..] == Frame(messages)
    ensures AllFit(messages[1..]) && pos + 1 + |messages[0]| <= |data|
    ensures data[pos + 1 + |messages[0]|..] == Frame(messages[1..])
    ensures MessagesFrom(data, pos, found) == MessagesFrom(data, pos + 1 + |messages[0]|, found + [messages[0]])
    ensures found + [messages[0]] + messages[1..] == found + messages
  {
    var m := messages[0];
    FrameEntry(data, pos, messages);
    AllFitTail(messages);
    MessagesFromUnfold(data, pos, found);
    assert Min(pos + 1 + |m|, |data|) == pos + 1 + |m|;
    assert messages == [m] + messages[1..];
  }

  lemma AllFitTail(messages: seq<seq<byte>>)
    requires AllFit(messages) && |messages| > 0
    ensures AllFit(messages[1..])
  {
    forall i | 0 <= i < |messages[1..]| ensures |messages[1..][i]| <= 255 {
      assert messages[1..][i] == messages[i + 1];
    }
  }

  /** One step of `MessagesFrom`. */
  lemma MessagesFromUnfold(data: seq<byte>, pos: nat, found: seq<seq<byte>>)
    requires pos < |data|
    ensures MessagesFrom(data, pos, found)
            == MessagesFrom(data, pos + 1 + data[pos] as int,
                            found + [data[pos + 1..Min(pos + 1 + data[pos] as int, |data|)]])
  {
  }

  /** Parsing, from offset `pos`, data holding a framed run of messages there appends them to
      those found. */
  lemma {:induction false} MessagesFromFrame(data: seq<byte>, pos: nat, messages: seq<seq<byte>>, found: seq<seq<byte>>)
    requires AllFit(messages) && pos <= |data| && data[pos..] == Frame(messages)
    ensures MessagesFrom(data, pos, found) == found + messages
    decreases |messages|
  {
    if |messages| == 0 {
      assert found + messages == found;
    } else {
      FrameStep(data, pos, messages, found);
      MessagesFromFrame(data, pos + 1 + |messages[0]|, messages[1..], found + [messages[0]]);
    }
  }

  /** Framing and parsing are inverse for messages that fit a 1-byte length. */
  lemma MessagesOfFrame(messages: seq<seq<byte>>)
    requires AllFit(messages)
    ensures Messages(Frame(messages)) == messages
  {
    assert Frame(messages)[0..] == Frame(messages);
    MessagesFromFrame(Frame(messages), 0, messages, []);
    assert [] + messages == messages;
  }

  /** A length byte that overruns the data yields one short final message holding what remains. */
  lemma OverrunIsShortMessage(data: seq<byte>)
    requires |data| > 0 && data[0] >= |data| - 1
    ensures Messages(data) == [data[1..]]
  {
    var m := data[1..Min(1 + data[0] as int, |data|)];
    assert m == data[1..];
    var empty: seq<seq<byte>> := [];
    assert empty + [m] == [m];
    assert MessagesFrom(data, 1 + data[0] as int, [m]) == [m];
  }

  /** Each message is at most 255 bytes, and there are no more messages than bytes. */
  lemma {:induction false} MessagesFromBounds(data: seq<byte>, pos: nat, found: seq<seq<byte>>)
    requires AllFit(found)
    ensures var r := MessagesFrom(data, pos, found);
            AllFit(r) && |r| <= |found| + (if pos < |data| then |data| - pos else 0)
    decreases |data| - pos
  {
    if pos < |data| {
      var length := data[pos] as int;
      var found' := found + [data[pos + 1..Min(pos + 1 + length, |data|)]];
      assert AllFit(found');
      MessagesFromBounds(data, pos + 1 + length, found');
    }
  }

  lemma MessagesBounds(data: seq<byte>)
    ensures |Messages(data)| <= |data| && AllFit(Messages(data))
  {
    MessagesFromBounds(data, 0, []);
  }

  /** The layout of an encoded file: the magic number's four little-endian bytes, the header
      length, the header, then `[length][message]` per message. */
  lemma EncodeLayout(magic: Magic, header: seq<byte>, body: seq<seq<byte>>)
    requires |header| <= 255 && AllFit(body)
    ensures var r := EncodeSpec(magic, NoCompression, header, body);
            r.Ok? && |r.value| >= 5 + |header|
            && ReadInt32(r.value, 0) == MagicValue(magic) && r.value[..4] == Int32Bytes(MagicValue(magic))
            && r.value[4] == |header| && r.value[5..5 + |header|] == header
            && r.value[5 + |header|..] == Frame(body)
  {
    var r := EncodeSpec(magic, NoCompression, header, body).value;
    assert r[..4] == MagicBytes(magic);
    ReadInt32Determines(r, MagicValue(magic));
  }

  /** Any compression other than none: `encode` reports it unimplemented (once the lengths fit)
      and so does `parseHeader` once the header decodes. */
  lemma CompressionUnimplemented(magic: Magic, algorithm: CompressionAlgorithm, header: seq<byte>, body: seq<seq<byte>>)
    requires algorithm != NoCompression && |header| <= 255 && AllFit(body)
    ensures EncodeSpec(magic, algorithm, header, body) == Err(Thrown(Unimplemented))
  {
  }

  /** Data whose first four bytes are not the signature's magic number is rejected with
      `invalidMagicNumber`, whatever magic number the caller expects. */
  lemma ParseHeaderChecksSignatureMagic(wire: Wire, data: seq<byte>, expectedMagic: Magic)
    requires |data| >= 4 && data[..4] != Int32Bytes(MagicValue(Signature))
    ensures ParseHeader(wire, data, expectedMagic) == Err(Thrown(InvalidMagicNumber))
  {
    ReadInt32Determines(data, MagicValue(Signature));
  }

  /** What the header step returns for a frame with the right magic number is decided by the
      header's settings and nothing else; under none compression the body is everything after
      the first 5 + header-length bytes. */
  lemma ParseHeaderOutcome(wire: Wire, data: seq<byte>, magic: Magic)
    requires |data| >= 5 && data[..4] == Int32Bytes(MagicValue(magic))
    requires HeaderRecord(wire, magic, data[5..][..Min(data[4], |data| - 5)]).Ok?
    ensures var pb := HeaderRecord(wire, magic, data[5..][..Min(data[4], |data| - 5)]).value;
            var r := ParseHeaderFor(wire, data, magic);
            (r.Ok? <==> pb.algorithm == 0)
            && (r.Ok? ==> r.value.1 == DropFirst(data, 5 + data[4] as int) && SettingsToPB(r.value.0.compression) == pb)
            && (pb.algorithm in {1, 2, 3} ==> r == Err(Thrown(Unimplemented)))
            && (!(0 <= pb.algorithm <= 3) ==> r == Err(Thrown(InvalidHeader)))
  {
    ReadInt32Determines(data, MagicValue(magic));
    assert Prefix(DropFirst(data, 5), data[4]) == data[5..][..Min(data[4], |data| - 5)];
  }

  /** Encoding a file and taking its header step with the same magic number gives back the
      header and the framed body, when the header codecs lose nothing. */
  lemma HeaderRoundTrip(wire: Wire, magic: Magic, header: FileHeader, body: seq<seq<byte>>)
    requires HeadersLossless(wire)
    requires header.compression.algorithm == NoCompression
    requires |HeaderBytes(wire, magic, header)| <= 255 && AllFit(body)
    ensures ParseHeaderFor(wire, EncodeSpec(magic, NoCompression, HeaderBytes(wire, magic, header), body).value, magic)
            == Ok((header, Frame(body)))
  {
    var h := HeaderBytes(wire, magic, header);
    EncodeLayout(magic, h, body);
    var d := EncodeSpec(magic, NoCompression, h, body).value;
    assert Prefix(DropFirst(d, 5), |h|) == h;
    SettingsRoundTrip(header.compression);
  }

  /** The body of an encoded file starts 5 + the header length bytes in. */
  lemma EncodedBodyStart(magic: Magic, header: seq<byte>, body: seq<seq<byte>>)
    requires |header| <= 255 && AllFit(body)
    ensures var d := EncodeSpec(magic, NoCompression, header, body).value;
            |d| >= 5 && BodyStart(d) == 5 + |header|
  {
    EncodeLayout(magic, header, body);
  }

  /** Every encoded patch is rejected by `parseHeader`: it carries the patch's magic number,
      and the signature's is required. */
  lemma EncodedPatchRejected(wire: Wire, header: seq<byte>, body: seq<seq<byte>>, expectedMagic: Magic)
    requires EncodeSpec(Patch, NoCompression, header, body).Ok?
    ensures ParseHeader(wire, EncodeSpec(Patch, NoCompression, header, body).value, expectedMagic)
            == Err(Thrown(InvalidMagicNumber))
  {
    EncodeLayout(Patch, header, body);
  }
}

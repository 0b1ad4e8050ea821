# Quay, modelled in Dafny

Quay is a Swift implementation of the wharf patch format. **Sign** walks a directory and records,
for every file, the weak rolling checksum and the MD5 digest of each 64 KiB block. **Diff** scans
a new version of the directory against such a signature and writes a patch: per file, a
`startFile` header, then block ranges copied from the old version and literal data, then
`heyYouDidIt`. **Apply** replays a patch into a staging directory and copies the result into
place. **Verify** checks a directory's structure against a signature. Signatures and patches share
one file framing: a 4-byte little-endian magic number, a one-byte header length, the header
record, then each body record behind a one-byte length.

This project models that engine and proves properties of the model:

- the varint and fixed-width readers (`DataHelper`);
- the rolling checksum as a class over a 65536-byte buffer (`Hashes`);
- block hashing and the block library (`Blocks`, `BlockLibrary`);
- the container records and their protobuf records, including the mode-bit folding (`Containers`);
- compression settings (`Compression`);
- the shared framing (`Common`);
- the signature and patch codecs (`Signatures`, `Patches`);
- the diff scan (`Diff`), signing (`Sign`), verification (`Verify`) and patch application (`Apply`).

Apply works on a file system held by a `FileSystems.FileSystem` object. Its methods change that
tree in place, and a function of the old tree specifies each method.

Conventions of the model:

- The protobuf wire codec is a `Protobuf.Wire` record of serialize/parse function pairs, passed
  in as a parameter. MD5 is likewise a `Digest` parameter. Round trips through the wire assume
  the codec is lossless (`WireLossless`), stated as a precondition.
- A Swift runtime trap is the failure `Trap`: a force-unwrap of nil, an out-of-range index, a
  `UInt32` underflow, `UInt8(n)` for n > 255, a closed range whose bounds are reversed, or an
  `Int` sum that overflows. A thrown `Quay` error is `Thrown(code)`, with the codes of
  `Sources/Quay/Errors.swift`.
- `Data` is a zero-based sequence of bytes.
- The diff loop does not always terminate, so it runs on a `fuel` bound and fails with
  `OutOfFuel` when the bound is exhausted.

Six places where the code does not do what its callers and its documentation evidently
intend are modelled as written, and each also has a corrected counterpart (see "## Findings"):

- **Block-range reads** (`Apply.swift:82`). The code reads the bytes from `computeBlockSize(b)`
  through `computeBlockSize(b + s)` inclusive, using block sizes as if they were offsets
  (`Apply.ReadRangeAsWritten`). The intended read takes offsets b·64 KiB up to
  min((b + s)·64 KiB, size) (`Apply.ReadRange`). The operation loop takes a `Reading`:
  `Apply.ApplyOp`, `Apply.RunOps` and `Apply.ApplyPatch` run `AsWritten`;
  `Apply.ReplayWholeFile` is proved of `Corrected`, and `Apply.ReplayWholeFileAsWritten` says
  what the code does instead.
- **Header magic** (`Common.swift:89`). `parseHeader` always demands the signature's magic
  number, whatever magic the caller expects (`Common.ParseHeader`); `Common.ParseHeaderFor`
  checks the expected one.
- **Body framing** (`Common.swift:118-125`). `parseBody` starts `pos` at the body slice's start
  index, 5 + the header length, while `readUInt8(at:)` and `dropFirst` count from the slice's
  first byte (`Common.SliceMessages`); `Common.Messages` reads from the first byte.
  `Signatures.Decode` and `Patches.Decode` are the decoders as written, with both the header step
  and the framing of the code; `Signatures.DecodeCorrected` reads the body from its first byte,
  and `Patches.DecodeCorrected` in addition checks the patch's magic. The round trips
  `Signatures.DecodeEncode`, `Signatures.RoundTripExact`, `Sign.SignedRoundTrip` and
  `Patches.DecodeEncode` are about the corrected decoders; `Signatures.DecodeEncodedAsWritten`
  and `Patches.AsWrittenRejectsEncoded` say what the decoders as written do with an encoded file.

- **Unanchored library** (`WharfPatch.swift:256, 274, 316, 327`). No block hash is ever
  anchored: `init(block:)` (`BlockHash.swift:18`) and `init(protobuf:)` (`BlockHash.swift:13`)
  leave the file index, block index and short size nil, and `anchor(…)` is never called, so
  every hash of a signed or decoded signature has none (`Sign.SignHashes`,
  `Signatures.FromMessages`). The diff force-unwraps them: the sort's comparator unwraps
  `fileIndex` of two candidates neither of which comes from the preferred file, and writing a
  match unwraps `match.fileIndex`. `Diff.Select` and `Diff.EmitMatch` trap there
  (`Diff.SortTraps`), and the diff carries those traps: against such a signature a diff that
  succeeds holds no block range, and a source file matching a library entry whole makes it fail
  (`Diff.UnanchoredDiff`, `Diff.SignedSmallFileFails`, `Diff.DecodedTargetNoRanges`). The
  anchored library the code evidently expects is the corrected half
  (`Diff.AnchoredSelect`, `Diff.AnchoredAdvance`, `Diff.AnchoredFinish`).
- **Preferred file** (`WharfPatch.swift:221`). The target's file names, relative to the target
  folder, are compared with `file.path`, the source file's full path, so under an absolute
  source folder no file is preferred (`Diff.FileContext`, `Diff.PreferredFullPathMisses`);
  `Diff.FileContextCorrected` compares names.
- **Continuing a block range** (`WharfPatch.swift:271-275`). `blockSpan += 1` changes a copy,
  so a match continuing the last range writes nothing (`Diff.EmitMatch`); `Diff.EmitMatchCorrected`
  widens the range. This is reachable only once hashes are anchored.

Some of the source's calls name functions whose definitions differ from the call. They are bound
as follows:

- `parseHeader(…, headerType:, …)` is the `parseHeader` of `Common.swift`.
- `constructBlockLibrary(signature:)` is `constructBlockLibrary(hashes: signature.blockHashes)`.
- `WeakRollingHash.immediateHash(of:)` is `WeakRollingHash(block:).hash`.
- `encodeWharfFile` is `WharfFile.encode`.

No hash is ever anchored, so the diff runs, as written, against a library whose entries have no
file index (see "Unanchored library" above); the diff itself asks nothing of the signature.

## Model

| member | source | states |
|---|---|---|
| DataHelper.ReadUInt8 | Sources/Quay/DataHelper.swift:4-8 | the byte `at` positions from the start |
| DataHelper.ReadInt32 | Sources/Quay/DataHelper.swift:44-48 | a signed 32-bit value whose two's-complement word is the four bytes at `at`, little-endian |
| DataHelper.ReadInt32OfBytes | Sources/Quay/DataHelper.swift:44-48 | reading back the little-endian bytes of any Int32 gives that value, whatever follows |
| DataHelper.ReadInt32Determines | Sources/Quay/DataHelper.swift:44-48 | the reader gives v exactly when the first four bytes are v's encoding, so no two encodings collide |
| DataHelper.WordBytes | Sources/Quay/DataHelper.swift:44-48 | each byte of the assembled word is recovered by division and remainder |
| DataHelper.ReadUVarInt | Sources/Quay/DataHelper.swift:10-42 | the loop over at most nine bytes computes the varint reference `UVarIntAt`, including both error exits |
| DataHelper.UVarIntAtOutcome | Sources/Quay/DataHelper.swift:15-41 | decoding fails exactly when nine continuation bytes are missing or overrun the data; on success 1 ≤ bytesRead ≤ 9, its last byte has the high bit clear and all before it have it set |
| DataHelper.EncodeUVarInt | Sources/Quay/DataHelper.swift:51-63 | the repeat loop emits exactly the reference encoding `UVarInt(value)` |
| DataHelper.UVarIntLayout | Sources/Quay/DataHelper.swift:54-61 | the encoding is non-empty, every byte but the last has 0x80 set and the last has it clear, and its 7-bit groups, least significant first, give back the value |
| DataHelper.ZeroEncodesAsOneByte | Sources/Quay/DataHelper.swift:54-61 | zero encodes as the single byte 0x00 |
| DataHelper.UVarIntLength | Sources/Quay/DataHelper.swift:51-63 | the encoding fits in n bytes exactly when the value is below 2^(7n) |
| DataHelper.UVarIntRoundTrip | Sources/Quay/DataHelper.swift:15-29 | every value below 2^63 decodes back from its encoding, followed by anything, with bytesRead equal to the encoding's length |
| DataHelper.UVarIntTooLong | Sources/Quay/DataHelper.swift:31-41 | values of 2^63 or more, whose encodings need ten bytes, are rejected with decodeFailed |
| DataHelper.GroupValueFits | Sources/Quay/DataHelper.swift:24 | nine 7-bit groups fit in a UInt64, so the accumulated result never overflows |
| DataHelper.Pow2Of64 | Sources/Quay/DataHelper.swift:35 | the shift reaches 63 at most, below the 64 that would overflow |
| Hashes.Initial | Sources/Quay/Other/Hashes.swift:49-51 | the fresh state satisfies the checksum's invariant |
| Hashes.ResetState | Sources/Quay/Other/Hashes.swift:82-87 | reset zeroes both sums and both counters, keeps the buffer and keeps the invariant |
| Hashes.HashOf | Sources/Quay/Other/Hashes.swift:89-91 | the hash fits in 32 bits, its low half is beta1 and its high half beta2 |
| Hashes.Step | Sources/Quay/Other/Hashes.swift:64-80 | a successful update keeps the invariant, advances head by one and stores the byte at head mod 65536; the only failure is the UInt32 underflow trap |
| Hashes.Feed | Sources/Quay/Other/Hashes.swift:58-62 | feeding bytes one at a time keeps the invariant and advances head by their count, or traps |
| Hashes.ImmediateHash | Sources/Quay/Other/Hashes.swift:53-56 | the hash of a block, when it does not trap, fits in 32 bits |
| Hashes.WeakRollingHash.constructor | Sources/Quay/Other/Hashes.swift:49-51 | the object starts in the initial state with a fresh buffer |
| Hashes.WeakRollingHash.Update | Sources/Quay/Other/Hashes.swift:64-80 | the in-place update of the buffer array and the counters reaches `Step` of the old state and returns the new hash |
| Hashes.WeakRollingHash.UpdateBytes | Sources/Quay/Other/Hashes.swift:58-62 | the loop of updates reaches `Feed` of the old state |
| Hashes.WeakRollingHash.Reset | Sources/Quay/Other/Hashes.swift:82-87 | the object is in `ResetState` of its old state |
| Hashes.WeakRollingHash.Hash | Sources/Quay/Other/Hashes.swift:89-91 | the hash of the object's current state |
| Hashes.WeakRollingHash.HashBlock | Sources/Quay/Other/Hashes.swift:53-56 | `init(block:).hash` computed by a fresh object equals `ImmediateHash` |
| Hashes.StepFilling | Sources/Quay/Other/Hashes.swift:69-72 | while the window is not full nothing is popped: beta1 gains the byte and beta2 gains the new beta1, mod 2^16, with no underflow |
| Hashes.StepFull | Sources/Quay/Other/Hashes.swift:66-77 | with a full window the popped byte is the one just stored, so the update traps exactly when beta1 is below it, and otherwise beta1 stays, beta2 gains beta1 and the window slides |
| Hashes.FeedSnoc | Sources/Quay/Other/Hashes.swift:58-62 | feeding a + [b] is feeding a and then one update with b |
| Hashes.FeedClosedForm | Sources/Quay/Other/Hashes.swift:53-80 | from a zeroed state, a block of at most 65536 bytes gives beta1 = Σ bytes mod 2^16, beta2 = Σ prefix sums mod 2^16, and the block in the buffer's front |
| Hashes.ImmediateHashClosedForm | Sources/Quay/Other/Hashes.swift:53-56 | the block hash of at most 64 KiB never traps and its halves are the byte sum and the prefix-sum sum mod 2^16 |
| Hashes.ResetThenFeed | Sources/Quay/Other/Hashes.swift:82-87 | a reset object fed a block hashes to the block's immediate hash, whatever its buffer held |
| Hashes.OnesTrap | Sources/Quay/Other/Hashes.swift:71 | 65537 bytes of 0x01 make the block hash trap on the beta1 underflow |
| Blocks.FromHashes | Sources/Quay/Other/BlockHash.swift:23-26 | the given hashes, unanchored |
| Blocks.FromPB | Sources/Quay/Other/BlockHash.swift:13-16 | the record's weak and strong hashes, unanchored |
| Blocks.ToPB | Sources/Quay/Other/BlockHash.swift:61-66 | the record carries the weak and strong hashes |
| Blocks.FromBlock | Sources/Quay/Other/BlockHash.swift:18-21 | the block's rolling hash and digest, unanchored |
| Blocks.Anchor | Sources/Quay/Other/BlockHash.swift:51-55 | the result is anchored with the given file index, block index and short size, and equal (`==`) to the original |
| Blocks.AnchorKeepsHashes | Sources/Quay/Other/BlockHash.swift:51-55 | anchoring keeps both hashes, and anchoring twice is anchoring once with the later values |
| Blocks.SameIsEquivalence | Sources/Quay/Other/BlockHash.swift:81-83 | `==` is an equivalence that compares everything but the three anchor fields |
| Blocks.RecordRoundTrip | Sources/Quay/Other/BlockHash.swift:13-16 | through the record a hash comes back `==` to itself, and identical exactly when it was unanchored |
| Blocks.NumBlocksBounds | Sources/Quay/Other/BlockHash.swift:69-71 | ⌈n/65536⌉: zero exactly for empty data, enough blocks to cover n bytes and no more than needed |
| Blocks.BlockSizeAtFacts | Sources/Quay/Other/BlockHash.swift:74-79 | a block wholly inside the file is 65536 bytes, the last block of an exact multiple too, and past the end it is size mod 65536 |
| Blocks.Chunk | Sources/Quay/Other/BlockHash.swift:39-40 | block i is at most 64 KiB, so hashing it never traps |
| Blocks.ChunkSizes | Sources/Quay/Other/BlockHash.swift:39-40 | block i has computeBlockSize bytes, is non-empty and is full-size unless it is the last |
| Blocks.BlocksCover | Sources/Quay/Other/BlockHash.swift:38-44 | the first k blocks concatenated are the data's first min(k·64 KiB, n) bytes: consecutive and non-overlapping |
| Blocks.AllBlocksCover | Sources/Quay/Other/BlockHash.swift:38-44 | all blocks concatenated are the data |
| Blocks.BlockHashes | Sources/Quay/Other/BlockHash.swift:28-49 | one hash per block |
| Blocks.GenerateHashes | Sources/Quay/Other/BlockHash.swift:28-49 | the while loop over positions computes `BlockHashes` |
| Blocks.BlockHashesAre | Sources/Quay/Other/BlockHash.swift:38-44 | ⌈n/65536⌉ hashes, none for empty data, hash i unanchored with the rolling hash and digest of block i |
| BlockLibrary.ConstructBlockLibrary | Sources/Quay/Other/BlockLibrary.swift:1-12 | the dictionary loop computes `LibraryOf` |
| BlockLibrary.LibraryIsGrouping | Sources/Quay/Other/BlockLibrary.swift:3-10 | the keys are the input's weak hashes and each list is that key's hashes in input order |
| BlockLibrary.WithWeakMembers | Sources/Quay/Other/BlockLibrary.swift:4-9 | a key's list holds exactly the input hashes with that weak hash |
| BlockLibrary.NoneWithWeak | Sources/Quay/Other/BlockLibrary.swift:5-6 | a weak hash that no input has selects nothing |
| BlockLibrary.LibraryMembership | Sources/Quay/Other/BlockLibrary.swift:2-11 | every input is in its key's list, no list is empty, every member carries its key, and no input gives an empty map |
| BlockLibrary.StoredCount | Sources/Quay/Other/BlockLibrary.swift:2-11 | the list lengths sum to the number of input hashes |
| Compression.RawValue | Sources/Quay/Compression/Compression.swift:3-7 | raw values 0 to 3 |
| Compression.FromRawValue | Sources/Quay/Compression/Compression.swift:9-14 | raw values 0, 1, 2 and 3 map to the algorithm with that raw value; every other value throws invalidHeader |
| Compression.SettingsFromPB | Sources/Quay/Compression/Compression.swift:30-33 | the algorithm is checked as above and the quality copied |
| Compression.SettingsToPB | Sources/Quay/Compression/Compression.swift:35-40 | the raw algorithm and the quality copied |
| Compression.RawValueRoundTrip | Sources/Quay/Compression/Compression.swift:3-14 | every algorithm round-trips through its raw value |
| Compression.SettingsRoundTrip | Sources/Quay/Compression/Compression.swift:30-40 | every setting round-trips through its record |
| Compression.SettingsRecordRoundTrip | Sources/Quay/Compression/Compression.swift:30-40 | every record that decodes re-encodes to itself |
| Compression.NamedSettings | Sources/Quay/Compression/Compression.swift:21-23 | transportDefault = (brotli, 1), longTermDefault = (brotli, 9), none = (none, 0) |
| Containers.Low16 | Sources/Quay/Files/WharfContainer.swift:18 | `& 0xFFFF` is below 2^16 |
| Containers.WithBit | Sources/Quay/Files/WharfContainer.swift:24 | OR-ing the type bit keeps the low 16 bits and sets that bit |
| Containers.DirectoryFromPB | Sources/Quay/Files/WharfContainer.swift:16-19 | the path and the low 16 mode bits |
| Containers.DirectoryToPB | Sources/Quay/Files/WharfContainer.swift:21-26 | the name, the permissions' low bits and bit 0x10000 set |
| Containers.FileFromPB | Sources/Quay/Files/WharfContainer.swift:42-46 | path, mode and size copied |
| Containers.FileToPB | Sources/Quay/Files/WharfContainer.swift:48-54 | name, permissions and size copied, offset zero |
| Containers.SymlinkFromPB | Sources/Quay/Files/WharfContainer.swift:70-74 | path, destination and the low 16 mode bits |
| Containers.SymlinkToPB | Sources/Quay/Files/WharfContainer.swift:76-82 | name, target, the permissions' low bits and bit 0x8000000 set |
| Containers.DirectoryRoundTrip | Sources/Quay/Files/WharfContainer.swift:16-26 | a directory round-trips exactly when its permissions are below 0x10000 |
| Containers.SymlinkRoundTrip | Sources/Quay/Files/WharfContainer.swift:70-82 | name and target always round-trip, the whole symlink exactly when its permissions are below 0x10000 |
| Containers.FileRoundTrip | Sources/Quay/Files/WharfContainer.swift:42-54 | a file always round-trips |
| Containers.SizeSum | Sources/Quay/Files/WharfContainer.swift:152 | the only failure of the size reduce is the overflow trap |
| Containers.SizeSumIsTotal | Sources/Quay/Files/WharfContainer.swift:152 | the reduce succeeds exactly when the total size fits in Int, and then it is the total |
| Containers.ContainerFromPB | Sources/Quay/Files/WharfContainer.swift:132-136 | every list is converted element by element, in order |
| Containers.ContainerToPB | Sources/Quay/Files/WharfContainer.swift:147-154 | every list is converted element by element, in order, and the size field is the file sizes' sum; it fails exactly when that sum overflows |
| Containers.ContainerRoundTrip | Sources/Quay/Files/WharfContainer.swift:132-154 | a container round-trips exactly when every directory and symlink permission is below 0x10000 |
| Containers.EmptyRecord | Sources/Quay/Files/WharfContainer.swift:89 | the empty container's record has no entries and size 0 |
| Containers.Join | Sources/Quay/Files/WharfContainer.swift:141 | `appendingPathComponent`: the root, one slash, the name |
| Containers.IterFiles | Sources/Quay/Files/WharfContainer.swift:138-145 | one path per file, root/name, in file order |
| Common.SignatureHeaderToPB | Sources/Quay/Files/WharfSignature.swift:5-23 | the header record carries the compression settings' record |
| Common.PatchHeaderToPB | Sources/Quay/Files/WharfPatch.swift:160-164 | the header record carries the compression settings' record |
| Common.HeaderFromPB | Sources/Quay/Files/WharfPatch.swift:156-158 | a header decodes exactly when its compression settings do, with the same error otherwise |
| Common.MagicBytes | Sources/Quay/Files/Common.swift:52 | four bytes that read back as the magic number |
| Common.EncodeSpec | Sources/Quay/Files/Common.swift:47-77 | encoding succeeds exactly when the header and every message fit a length byte and the body is not to be compressed |
| Common.Encode | Sources/Quay/Files/Common.swift:47-77 | the appends to `finalData` and `bodyData` compute `EncodeSpec` |
| Common.EncodeLayout | Sources/Quay/Files/Common.swift:52-62 | the output is the four little-endian magic bytes, the header length, the header, then a length byte before each message |
| Common.CompressionUnimplemented | Sources/Quay/Files/Common.swift:65-74 | brotli, gzip and zstd make encoding throw unimplemented |
| Common.CheckMagicNumber | Sources/Quay/Files/Common.swift:80-84 | passes exactly on the expected value, otherwise throws invalidMagicNumber |
| Common.ParseHeaderChecksSignatureMagic | Sources/Quay/Files/Common.swift:86-89 | data not starting with the signature's magic is rejected with invalidMagicNumber, whatever magic was expected |
| Common.EncodedPatchRejected | Sources/Quay/Files/Common.swift:89 | every encoded patch is rejected by `parseHeader` as written |
| Common.ParseHeaderOutcome | Sources/Quay/Files/Common.swift:92-108 | with a valid magic, the header succeeds exactly for no compression, the body is everything after 5 + headerLength bytes, algorithms 1-3 throw unimplemented and others invalidHeader |
| Common.HeaderRoundTrip | Sources/Quay/Files/Common.swift:47-111 | parsing an encoding under its own magic gives back the header and the framed body |
| Common.ParseBody | Sources/Quay/Files/Common.swift:113-128 | the while loop computes the zero-based reference `Messages` |
| Common.MessagesOfFrame | Sources/Quay/Files/Common.swift:113-128 | messages of at most 255 bytes each come back from their framing |
| Common.MessagesFromFrame | Sources/Quay/Files/Common.swift:118-125 | the loop from any position over a framing appends exactly its messages |
| Common.FrameEntry | Sources/Quay/Files/Common.swift:121-124 | the framing starts with the first message's length, then the message, then the rest of the framing |
| Common.OverrunIsShortMessage | Sources/Quay/Files/Common.swift:120-125 | a length byte that overruns the data yields the short remainder as a message, with no error |
| Common.MessagesBounds | Sources/Quay/Files/Common.swift:113-128 | no more messages than bytes, each at most 255 bytes |
| Common.SliceMessagesFromZero | Sources/Quay/Files/Common.swift:118-125 | the loop as written agrees with the reference when the slice starts at index 0 |
| Common.ParseHeaderFor | Sources/Quay/Files/Common.swift:86-111 | the body returned is the rest of the data from index 5 + the header length, or nothing when the data is shorter |
| Common.SliceMessagesIsOffsetRead | Sources/Quay/Files/Common.swift:113-128 | the loop as written reads the slice's bytes from offset `pos` as the reference does, and finishes only when the chain of length bytes ends at least the start index past the slice's end; otherwise it traps |
| Common.EncodedBodyStart | Sources/Quay/Files/Common.swift:52-62 | in an encoded file the body starts 5 + the header length bytes in |
| Common.SliceMessagesMisreads | Sources/Quay/Files/Common.swift:118-123 | a body slice starting at index 5 traps as written, where the reference reads its message |
| Signatures.ParseHashes | Sources/Quay/Files/WharfSignature.swift:41 | one unanchored hash per message, in order |
| Signatures.HashMessages | Sources/Quay/Files/WharfSignature.swift:55-57 | one serialized record per block hash, in order |
| Signatures.BodyMessages | Sources/Quay/Files/WharfSignature.swift:55-57 | the body is the container followed by the block hashes, so it has 1 + blockHashes.count messages; it fails exactly when the container's size sum overflows |
| Signatures.StripAnchors | Sources/Quay/Files/WharfSignature.swift:41 | each hash as it comes back from its record |
| Signatures.EncodeOutcome | Sources/Quay/Files/WharfSignature.swift:65-67 | encoding succeeds exactly when the sizes fit and nothing is compressed; a compressed signature throws unimplemented |
| Signatures.ParseHashMessages | Sources/Quay/Files/WharfSignature.swift:41 | the serialized hashes parse back to the hashes without anchors |
| Signatures.FromMessages | Sources/Quay/Files/WharfSignature.swift:37-41 | no messages is an unknown error; a decoded signature keeps the header and has one hash per message after the container, none of them anchored |
| Signatures.DecodeEncode | Sources/Quay/Files/WharfSignature.swift:31-57 | decoding an encoding with the body read from its first byte (`DecodeCorrected`) gives the same header, the container through its record and the hashes without anchors |
| Signatures.RoundTripExact | Sources/Quay/Files/WharfSignature.swift:31-57 | under `DecodeCorrected`, a signature comes back identical exactly when its permissions fit 16 bits and its hashes are unanchored |
| Signatures.DecodeEncodedAsWritten | Sources/Quay/Files/WharfSignature.swift:31-41 | the decoder as written reads an encoded signature's framed body from offset 5 + the header length, and traps unless that chain of length bytes runs at least that far past the body's end |
| Signatures.EncodedShortBodyTraps | Sources/Quay/Files/WharfSignature.swift:32-36 | as written, an encoded signature whose framed body is no longer than 5 + its header length traps |
| Signatures.EmptyBodyRejected | Sources/Quay/Files/WharfSignature.swift:37-39 | a body with no messages is an unknown error, as written and corrected |
| Patches.SyncHeaderTypeFromPB | Sources/Quay/Files/WharfPatch.swift:14-19 | raw 0 and 1 map to rsync and bsdiff; anything else throws invalidHeader |
| Patches.SyncOpHeaderFromPB | Sources/Quay/Files/WharfPatch.swift:26-29 | the kind is checked and the file index copied |
| Patches.SyncOpHeaderToPB | Sources/Quay/Files/WharfPatch.swift:37-42 | the kind's raw value and the file index |
| Patches.SyncOpTypeFromPB | Sources/Quay/Files/WharfPatch.swift:53-58 | raw 0, 1 and 2049 map to blockRange, data and heyYouDidIt; anything else throws invalidHeader |
| Patches.SyncOpFromPB | Sources/Quay/Files/WharfPatch.swift:68-74 | the kind is checked and every field copied |
| Patches.SyncOpToPB | Sources/Quay/Files/WharfPatch.swift:85-93 | every present field is copied, and absent ones are 0 or empty data |
| Patches.FromProtobuf | Sources/Quay/Files/WharfPatch.swift:116-127 | blockRange, data and heyYouDidIt map to the matching case; an unrecognized type throws decodeFailed |
| Patches.OperationRoundTrip | Sources/Quay/Files/WharfPatch.swift:129-140 | every operation but startFile round-trips through its record, and its absent fields encode as 0 or empty data |
| Patches.StartFileRoundTrip | Sources/Quay/Files/WharfPatch.swift:103-108 | startFile becomes a header with the same algorithm and file index, and the header's record keeps both |
| Patches.SyncOpRoundTrip | Sources/Quay/Files/WharfPatch.swift:68-93 | a SyncOp with all fields present round-trips |
| Patches.ScanSyncOps | Sources/Quay/Files/WharfPatch.swift:185-197 | the loop toggling `nextHeader` computes `ScanOps` |
| Patches.ScanOpMessages | Sources/Quay/Files/WharfPatch.swift:185-197 | operations laid out header, body…, heyYouDidIt all pass the loop |
| Patches.OpMessages | Sources/Quay/Files/WharfPatch.swift:349 | one record per operation, in order |
| Patches.BodyMessages | Sources/Quay/Files/WharfPatch.swift:348-350 | two containers followed by the operations: 2 + syncOps.count messages |
| Patches.DecodeBody | Sources/Quay/Files/WharfPatch.swift:177-198 | no messages is an unknown error; a decoded patch keeps the header, needs both containers and has no operations |
| Patches.DecodeEncode | Sources/Quay/Files/WharfPatch.swift:172-198 | decoding an encoded patch with the patch's magic checked and the body read from its first byte (`DecodeCorrected`) gives the same header and both containers through their records, with `syncOps` empty because its appends are commented out |
| Patches.AsWrittenRejectsEncoded | Sources/Quay/Files/WharfPatch.swift:173 | the decoder as written rejects every encoded patch with invalidMagicNumber |
| Patches.SignatureTaggedAsWritten | Sources/Quay/Files/WharfPatch.swift:172-177 | past the magic, the decoder as written reads a patch body from offset 5 + the header length and traps unless that chain of length bytes runs at least that far past the body's end |
| Patches.OneMessageTraps | Sources/Quay/Files/WharfPatch.swift:182 | a body with only a target container traps reading messages[1] |
| Patches.EmptyBodyRejected | Sources/Quay/Files/WharfPatch.swift:178-180 | a body with no messages is an unknown error, and an empty slice has no messages as written too |
| Diff.FirstPreferred | Sources/Quay/Files/WharfPatch.swift:250-260 | a strong match from the preferred file, or none exactly when there is no such candidate |
| Diff.LowestMatch | Sources/Quay/Files/WharfPatch.swift:250-260 | a candidate with the strong hash, or none exactly when nothing matches; among candidates that all have a file index, one with the lowest |
| Diff.Others | Sources/Quay/Files/WharfPatch.swift:250-258 | exactly the candidates that the comparator compares by file index: those not from the preferred file |
| Diff.Select | Sources/Quay/Files/WharfPatch.swift:250-260 | traps exactly when two or more candidates are not from the preferred file and one of them has no file index (the unwrap of line 256); otherwise none exactly when no strong hash matches, a preferred-file match wins, and else the match with the lowest file index among those that have one |
| Diff.Preferred | Sources/Quay/Files/WharfPatch.swift:221 | the first target file with the source file's name, or -1 exactly when there is none |
| Diff.FileContextCorrected | Sources/Quay/Files/WharfPatch.swift:220-221 | corrected half: the preferred file is the first target file with the source file's own name, or -1 exactly when there is none |
| Diff.PreferredFullPathMisses | Sources/Quay/Files/WharfPatch.swift:220-221 | as written, under an absolute source folder and with relative target names, no target file is ever preferred |
| Diff.SameNameNotPreferred | Sources/Quay/Files/WharfPatch.swift:220-221 | a source file `a` under `/src` against a target listing `a`: as written the preferred index is -1, corrected it is 0 |
| Diff.EmitMatch | Sources/Quay/Files/WharfPatch.swift:271-275 | a match continuing the last range (same file, ending at the matched block) leaves the operations as they were; any other match appends a one-block range when it has both indices and traps on the unwrap when it has not, always when it has no file index; a `blockIndex + blockSpan` outside `Int` traps |
| Diff.EmitMatchSpanned | Sources/Quay/Files/WharfPatch.swift:271-275 | as written, a match that continues the last range adds no block to what the ranges copy; any other match adds one |
| Diff.EmitMatchDropsSecondBlock | Sources/Quay/Files/WharfPatch.swift:271-275 | blocks 0 and 1 of one file, matched in turn, give the single range (f, 0, 1) |
| Diff.EmitMatchCorrected | Sources/Quay/Files/WharfPatch.swift:271-275 | a continuing match widens the last range to end just past the matched block, trapping only when the span would leave `Int`; any other match appends a one-block range, and traps on a match without indices |
| Diff.EmitMatchCorrectedSpanned | Sources/Quay/Files/WharfPatch.swift:271-275 | with the correction every match adds exactly one block to what the ranges copy |
| Diff.Flush | Sources/Quay/Files/WharfPatch.swift:288-294 | the loop's counters stay within the data |
| Diff.Advance | Sources/Quay/Files/WharfPatch.swift:238-285 | the loop's counters stay within the data; its only failure is the trap of the sort or of writing the match |
| Diff.DiffStep | Sources/Quay/Files/WharfPatch.swift:237-295 | one turn keeps the counters within the data, or fails with a trap of the rolling hash, the sort or the match |
| Diff.ScanFrom | Sources/Quay/Files/WharfPatch.swift:237-295 | a finished scan has head at the end of the data |
| Diff.StartScan | Sources/Quay/Files/WharfPatch.swift:213-235 | the counters at the top of a file are consistent |
| Diff.ScanLoop | Sources/Quay/Files/WharfPatch.swift:237-295 | the while loop, updating the rolling hash object in place, computes `ScanFrom`, including its traps, and leaves the object in its state |
| Diff.Remainder | Sources/Quay/Files/WharfPatch.swift:297-339 | the end-of-file code computes `Finish`, including the traps of its sort and of writing its match |
| Diff.DiffFile | Sources/Quay/Files/WharfPatch.swift:213-339 | one file's body computes `FileOps`, including its failure, and leaves the rolling hash in the state it gives |
| Diff.MakePatch | Sources/Quay/Files/WharfPatch.swift:200-342 | `init(target:source:)` computes `DiffSpec` |
| Diff.DiffSpecUnfold | Sources/Quay/Files/WharfPatch.swift:200-212 | the patch has transport-default compression, the target's container, the source container and the files' operations in order |
| Diff.FilesOpsStep | Sources/Quay/Files/WharfPatch.swift:212-341 | each file's operations come before the later files', with the rolling hash carried on |
| Diff.LibraryAnchoredOf | Sources/Quay/Files/WharfPatch.swift:203 | a library of anchored hashes holds only anchored entries |
| Diff.LibraryUnanchoredOf | Sources/Quay/Files/WharfPatch.swift:203 | a library of hashes without anchors holds only entries without a file index |
| Diff.StepSettled | Sources/Quay/Files/WharfPatch.swift:263-294 | from a state where owedTail = tail = owedHead, a turn keeps that and appends only block ranges: the two data flushes never fire |
| Diff.ScanSettled | Sources/Quay/Files/WharfPatch.swift:237-295 | over the whole scan owedTail = tail = owedHead holds and only block ranges are appended |
| Diff.FileOpsShape | Sources/Quay/Files/WharfPatch.swift:235-339 | a file's operations are startFile with its index, block ranges, at most one data operation holding the file's last bytes, and heyYouDidIt |
| Diff.BracketedBody | Sources/Quay/Files/WharfPatch.swift:185-197 | a file's body and its heyYouDidIt, before a well-laid-out rest, are laid out as the decoder reads them |
| Diff.ShapedBracketed | Sources/Quay/Files/WharfPatch.swift:185-197 | a shaped file's operations before a well-laid-out rest are laid out so too |
| Diff.FilesBracketed | Sources/Quay/Files/WharfPatch.swift:212-341 | all files' operations are laid out as the decoder reads them |
| Diff.DiffBracketed | Sources/Quay/Files/WharfPatch.swift:200-342 | a diff's operations are laid out as the decoder reads them |
| Diff.StartIndices | Sources/Quay/Files/WharfPatch.swift:235 | no more start indices than operations |
| Diff.StartIndicesAppend | Sources/Quay/Files/WharfPatch.swift:235 | the start indices of a concatenation are those of its parts |
| Diff.NoStarts | Sources/Quay/Files/WharfPatch.swift:235 | operations without startFile carry no start index |
| Diff.ShapedStartIndices | Sources/Quay/Files/WharfPatch.swift:235 | a file's operations carry exactly its own index once |
| Diff.FilesStartIndices | Sources/Quay/Files/WharfPatch.swift:212-235 | the files from i on start in order with indices i, i+1, … |
| Diff.DiffStartIndices | Sources/Quay/Files/WharfPatch.swift:212-235 | file k's operations begin with startFile(k) for every source file, in container order, and for no other index |
| Diff.DiffNeverEncodes | Sources/Quay/Files/WharfPatch.swift:204 | a diff carries brotli compression, so it never encodes, throwing unimplemented when its sizes fit |
| Diff.EmptySourceDiff | Sources/Quay/Files/WharfPatch.swift:204-212 | an empty source gives a patch with no operations |
| Diff.EmptyFileOps | Sources/Quay/Files/WharfPatch.swift:235-339 | an empty file gives exactly startFile, heyYouDidIt |
| Diff.AnchoredSelect | Sources/Quay/Files/WharfPatch.swift:250-258 | corrected half: with anchored candidates the sort never traps |
| Diff.AnchoredAdvance | Sources/Quay/Files/WharfPatch.swift:260-282 | corrected half: with an anchored library a turn never traps, and a strong match of the window is written as a block range, the window restarting at `head` |
| Diff.AnchoredFinish | Sources/Quay/Files/WharfPatch.swift:305-328 | corrected half: with an anchored library a remainder matching a library entry is written as a block range just before heyYouDidIt |
| Diff.UnanchoredSelect | Sources/Quay/Files/WharfPatch.swift:250-260 | as written, without file indices the sort traps exactly when there are two or more candidates; a single candidate is taken if its strong hash matches |
| Diff.UnanchoredAdvance | Sources/Quay/Files/WharfPatch.swift:242-282 | as written, against a library without file indices a turn that succeeds writes nothing and moves no owed counter, and a strong match of the window traps |
| Diff.UnanchoredScan | Sources/Quay/Files/WharfPatch.swift:237-295 | as written, against such a library a scan that succeeds writes nothing and owes from the file's start |
| Diff.UnanchoredFinish | Sources/Quay/Files/WharfPatch.swift:297-335 | as written, with nothing written yet the end of a file appends the whole file as one data operation and heyYouDidIt, and traps when the file matches a library entry |
| Diff.WholeFile | Sources/Quay/Files/WharfPatch.swift:235-335 | a file sent whole is startFile, one data operation holding the file when it is not empty, and heyYouDidIt |
| Diff.UnanchoredFileOps | Sources/Quay/Files/WharfPatch.swift:213-339 | as written, against such a library a file's operations that succeed send the file whole, and a file matching a library entry whole fails |
| Diff.UnanchoredFiles | Sources/Quay/Files/WharfPatch.swift:212-341 | as written, against such a library the files' operations hold no block range |
| Diff.MatchedFileFails | Sources/Quay/Files/WharfPatch.swift:212-341 | as written, any file matching a library entry whole makes the files' operations fail |
| Diff.UnanchoredDiff | Sources/Quay/Files/WharfPatch.swift:200-342 | as written, against a target whose hashes have no anchors a diff that succeeds holds no block range, and a source file matching a library entry whole makes it fail |
| Diff.SignedSmallFileFails | Sources/Quay/Files/WharfPatch.swift:200-342 | as written, diffing against a signed target fails whenever a source file equals a non-empty target file of at most 64 KiB |
| Diff.DecodedTargetNoRanges | Sources/Quay/Files/WharfPatch.swift:200-342 | as written, a diff against a decoded signature that succeeds holds no block range |
| Sign.SignHashes | Sources/Quay/Operations/Sign.swift:13-16 | every hash is unanchored; a file that cannot be read is an I/O error |
| Sign.SignHashesOutcome | Sources/Quay/Operations/Sign.swift:13-16 | signing succeeds exactly when every file can be read, and then gives Σ ⌈size/65536⌉ hashes |
| Sign.SignShape | Sources/Quay/Operations/Sign.swift:8-19 | the signature has transport-default compression, the container unchanged, and that many unanchored hashes |
| Sign.SignedBlocksHeld | Sources/Quay/Operations/Sign.swift:13-16 | the hashes of every block of every signed file are among the signature's hashes |
| Sign.SignTwoFiles | Tests/QuayTests/OperationTests.swift:17-25 | a 13-byte and a 64 KiB file give two hashes |
| Sign.SignedNeverEncodes | Sources/Quay/Operations/Sign.swift:18 | a signature as signed cannot be encoded, since its compression is brotli |
| Sign.SignedRoundTrip | Tests/QuayTests/OperationTests.swift:27-29 | with compression set to none, a signature whose permissions fit decodes back to itself under `Signatures.DecodeCorrected` |
| Verify.VerifyTree | Sources/Quay/Operations/Verify.swift:26-63 | the two loops appending wounds compute `VerifySpec` |
| Verify.DirectoryWoundAt | Sources/Quay/Operations/Verify.swift:30-40 | a directory wound is recorded exactly for each directory that is missing or not a directory |
| Verify.UrlRelativeTo | Sources/Quay/Operations/Verify.swift:48 | `URL(fileURLWithPath:relativeTo:)` keeps the destination as its relative part, with `dir` as its base exactly when the destination is not absolute |
| Verify.Appending | Sources/Quay/Operations/Verify.swift:43-48 | `appendingPathComponent` gives the joined path with no base |
| Verify.SymlinkIntactAt | Sources/Quay/Operations/Verify.swift:44-49 | a symlink passes exactly when it is a link whose destination is absolute and equal to dir/target, since URL equality compares the base too |
| Verify.RelativeLinkWounded | Sources/Quay/Operations/Verify.swift:48 | a link whose relative destination is exactly the expected target is still a wound |
| Verify.SymlinkWoundAt | Sources/Quay/Operations/Verify.swift:42-55 | a symlink wound is recorded exactly for each symlink that is missing, not a link, or whose destination is not an absolute dir/target; a relative destination is always a wound |
| Verify.VerifyWoundAt | Sources/Quay/Operations/Verify.swift:30-60 | per index: directory and symlink wounds exactly for the broken entries, and never a file wound |
| Verify.VerifyWounds | Sources/Quay/Operations/Verify.swift:30-60 | the same for every index at once |
| Verify.DirectoryWoundsSorted | Sources/Quay/Operations/Verify.swift:30-40 | directory wounds only, their indices in range and strictly ascending |
| Verify.SymlinkWoundsSorted | Sources/Quay/Operations/Verify.swift:42-55 | symlink wounds only, their indices in range and strictly ascending |
| Verify.VerifyOrder | Sources/Quay/Operations/Verify.swift:30-55 | every directory wound precedes every symlink wound, and each group ascends |
| Verify.VerifyOkay | Sources/Quay/Operations/Verify.swift:12-14 | okay exactly when every directory and every symlink of the signature is intact |
| Verify.VerifyIgnoresOthers | Sources/Quay/Operations/Verify.swift:18-21 | entries the signature does not name never change the result |
| Verify.DirectoriesAgree | Sources/Quay/Operations/Verify.swift:30-40 | the directory wounds depend only on the named paths |
| Verify.SymlinksAgree | Sources/Quay/Operations/Verify.swift:42-55 | the symlink wounds depend only on the named paths |
| FileSystems.Removed | Sources/Quay/Operations/Apply.swift:106 | the tree without the path and everything below it, the rest unchanged |
| FileSystems.Moved | Sources/Quay/Operations/Apply.swift:108 | every entry below one path, at the same place below another, and nothing else |
| FileSystems.Ancestors | Sources/Quay/Operations/Apply.swift:29 | exactly the directories on the way to a path: its proper prefixes that the path continues with `/` |
| FileSystems.Follow | Sources/Quay/Operations/Apply.swift:28 | following links ends at an entry that is not a link; a missing entry, a dangling link and a chain longer than the fuel lead nowhere; a non-link leads to itself |
| FileSystems.Made | Sources/Quay/Operations/Apply.swift:29 | the path and the missing directories on the way to it become directories with the given bits, nothing else changes, and the path is then reachable |
| FileSystems.CreateDirectory | Sources/Quay/Operations/Apply.swift:8 | with intermediate directories: succeeds exactly when an entry at the path leads to a directory (nothing changes) or, with nothing at the path, no file or link lies on the way (the path and missing directories are made) |
| FileSystems.SetPermissions | Sources/Quay/Operations/Apply.swift:32 | follows links: succeeds exactly when the path leads somewhere; the directory it leads to takes the new bits |
| FileSystems.WriteEmpty | Sources/Quay/Operations/Apply.swift:69 | the path becomes an empty file unless it is a directory or the directories on the way to it are missing |
| FileSystems.ReadFile | Sources/Quay/Operations/Apply.swift:82 | the bytes of a regular file, or an I/O error |
| FileSystems.RemoveItem | Sources/Quay/Operations/Apply.swift:106 | succeeds exactly when the path exists, removing it and everything below |
| FileSystems.CopyItem | Sources/Quay/Operations/Apply.swift:108 | succeeds exactly when the source exists, the destination does not and the directories on the way to it do, adding the moved copy |
| FileSystems.CreateSymbolicLink | Sources/Quay/Operations/Apply.swift:114 | succeeds exactly when the path is free and the directories on the way to it exist, placing the link |
| FileSystems.AppendBytes | Sources/Quay/Operations/Apply.swift:75 | an open file gains the bytes at its end |
| FileSystems.FileSystem.Commit | Sources/Quay/Operations/Apply.swift:58-91 | the tree takes a primitive's result on success and is unchanged on failure |
| FileSystems.CopyItemPlaces | Sources/Quay/Operations/Apply.swift:108 | the copy puts every entry below the source at the same place below the destination |
| FileSystems.CopyItemKeeps | Sources/Quay/Operations/Apply.swift:108 | the copy leaves every entry not below the destination as it was |
| FileSystems.AncestorTransitive | Sources/Quay/Operations/Apply.swift:29 | a directory on the way to one on the way to p is on the way to p |
| FileSystems.GrownFollow | Sources/Quay/Operations/Apply.swift:28-32 | adding directories does not change where a path that led somewhere leads |
| FileSystems.FollowMore | Sources/Quay/Operations/Apply.swift:28 | more fuel does not change where a path that led somewhere leads |
| FileSystems.GrownTarget | Sources/Quay/Operations/Apply.swift:28-32 | after directories are added a path that led somewhere leads to the same entry, still exists, and is a directory exactly when it was |
| FileSystems.GrownClear | Sources/Quay/Operations/Apply.swift:29 | adding directories does not change whether a file or link is in the way of a path |
| FileSystems.ClearAncestor | Sources/Quay/Operations/Apply.swift:29 | what is clear on the way to a path is clear on the way to the directories above it |
| FileSystems.CreateDirectoryGrows | Sources/Quay/Operations/Apply.swift:29 | creating a directory only adds directories and keeps every entry's kind and contents |
| FileSystems.SetPermissionsGrows | Sources/Quay/Operations/Apply.swift:32 | setting permissions only changes the bits of a directory |
| FileSystems.WriteThenAppend | Sources/Quay/Operations/Apply.swift:69-76 | an emptied file appended a then b holds a + b |
| Apply.PrepareDirectory | Sources/Quay/Operations/Apply.swift:24-34 | fails, always with an I/O error, exactly when the staged path is an entry that leads nowhere (a dangling link or a cycle), or is missing with a file or link on the way to it |
| Apply.PrepareDirectoryGrows | Sources/Quay/Operations/Apply.swift:24-34 | a prepared directory only adds directories, the staged path and the ones on the way to it, and only when the path was missing |
| Apply.PrepareDirectoryPlaces | Sources/Quay/Operations/Apply.swift:24-34 | a missing path is made a directory with the recorded bits, reachable, with its new ancestors given the same bits and nothing else changed; an existing path has the directory it leads to take the bits and nothing else changes |
| Apply.PreProcess | Sources/Quay/Operations/Apply.swift:3-22 | the in-place pre-processing computes `PreProcessSpec` |
| Apply.PrepareFromFails | Sources/Quay/Operations/Apply.swift:11-13 | the directory loop fails only with an I/O error, and passes only when nothing is in the way of the staged paths it must create |
| Apply.PrepareFromPasses | Sources/Quay/Operations/Apply.swift:11-13 | when every staged path in the tree leads somewhere and nothing is in the way of the others, the loop passes |
| Apply.PrepareFromKeeps | Sources/Quay/Operations/Apply.swift:11-13 | entries that are not staged paths are untouched, and what is added is a directory on the way to a staged path |
| Apply.PrepareFromPlaces | Sources/Quay/Operations/Apply.swift:11-13 | when the loop passes, each directory not named again later is left a directory with its recorded permissions exactly when nothing but a directory held its path |
| Apply.RootFacts | Sources/Quay/Operations/Apply.swift:6-9 | the staging root is had exactly when it leads somewhere or nothing is at it or in the way; failure is an I/O error; a new root is a directory made with the ones on the way to it |
| Apply.RootKeepsStaged | Sources/Quay/Operations/Apply.swift:6-13 | making the staging root changes nothing about the staged paths below it |
| Apply.PreProcessPasses | Sources/Quay/Operations/Apply.swift:3-22 | pre-processing fails only with an I/O error; it passes only when the root can be had and nothing blocks a staged path, and it passes whenever in addition every staged path in the tree leads somewhere |
| Apply.StagingFileBlocks | Sources/Quay/Operations/Apply.swift:7-12 | a staging root that is a regular file makes the first directory fail with an I/O error, changing nothing |
| Apply.DanglingLinkFails | Sources/Quay/Operations/Apply.swift:28-29 | a dangling link at the first directory's place makes `createDirectory` fail with an I/O error, changing nothing |
| Apply.PreProcessPlaces | Sources/Quay/Operations/Apply.swift:3-34 | after pre-processing passes, the staging root leads somewhere and every directory (the last of any with the same name) is a directory with its recorded permissions exactly when no file was at its place |
| Apply.PreProcessKeeps | Sources/Quay/Operations/Apply.swift:3-34 | pre-processing leaves every entry that is not a staged path as it was, and adds only directories: the root, those on the way to it, or those on the way to a staged path |
| Apply.ReadRangeAsWritten | Sources/Quay/Operations/Apply.swift:82 | the closed range from one block size to another holds one byte more than their difference |
| Apply.AsWrittenShortFileTraps | Sources/Quay/Operations/Apply.swift:82 | as written, reading block 0 of a file shorter than 64 KiB traps, where the corrected read gives the whole file |
| Apply.AsWrittenFirstBlockIsOneByte | Sources/Quay/Operations/Apply.swift:82 | as written, block 0 of a file of at least 128 KiB reads the single byte at offset 65536, where the corrected read gives 65536 bytes |
| Apply.ReadRange | Sources/Quay/Operations/Apply.swift:77-85 | the read succeeds exactly when the block offsets lie within the data, and gives the bytes from b·64 KiB to min((b+s)·64 KiB, size) |
| Apply.ReadRangeWhole | Sources/Quay/Operations/Apply.swift:77-85 | all blocks of a file read back the file |
| Apply.ReadRangeChunk | Sources/Quay/Operations/Apply.swift:77-85 | one block reads back the block that was hashed for it |
| Apply.ReadRangeJoin | Sources/Quay/Operations/Apply.swift:77-85 | two adjacent ranges read the concatenation of their reads |
| Apply.ApplyOp | Sources/Quay/Operations/Apply.swift:59-90 | one operation applied in place, with the block-range read as written, reaches `Step(AsWritten, …)`, and a failing one changes nothing |
| Apply.RunOps | Sources/Quay/Operations/Apply.swift:57-91 | the loop over the operations, with `currentFile`, computes `RunFrom(AsWritten, …)` from no open file |
| Apply.BsdiffStops | Sources/Quay/Operations/Apply.swift:61-66 | a bsdiff startFile anywhere makes the loop fail |
| Apply.BsdiffFirst | Sources/Quay/Operations/Apply.swift:64-65 | a bsdiff startFile throws unimplemented before any file is opened or changed |
| Apply.StepBrackets | Sources/Quay/Operations/Apply.swift:60-72 | rsync startFile(i) leaves the staged file empty and current, or fails on a directory; an index out of range traps; heyYouDidIt closes the current file, traps with none, and repeats harmlessly |
| Apply.StepWrites | Sources/Quay/Operations/Apply.swift:73-85 | in either reading, data and block ranges append their bytes (for a range, the read of line 82 as written, or the corrected read) to the open file; data with no file traps; a block range with no file reads and discards |
| Apply.StepKeeps | Sources/Quay/Operations/Apply.swift:58-91 | an operation changes no path outside the staged files |
| Apply.RunKeeps | Sources/Quay/Operations/Apply.swift:58-91 | the op loop changes no path outside the staged files |
| Apply.ReplayWholeFile | Sources/Quay/Operations/Apply.swift:58-91 | with the corrected read, startFile, a block range over all of an old file and heyYouDidIt stage a copy of that file and close it |
| Apply.ReplayWholeFileAsWritten | Sources/Quay/Operations/Apply.swift:58-91 | as written, the same three operations for an old file shorter than 64 KiB stop the loop with a trap, leaving the staged file empty and open |
| Apply.PostProcess | Sources/Quay/Operations/Apply.swift:96-116 | the in-place post-processing computes `PostProcessSpec` |
| Apply.InPlaceKeeps | Sources/Quay/Operations/Apply.swift:96-101 | when old and new are the same, nothing happens after the op loop |
| Apply.LinkFromFacts | Sources/Quay/Operations/Apply.swift:111-115 | creating the links keeps every existing entry and places every link at new/name → new/target |
| Apply.PostProcessFacts | Sources/Quay/Operations/Apply.swift:102-116 | new holds every staged entry and one symlink per source symlink pointing below new |
| Apply.LinkFromOnly | Sources/Quay/Operations/Apply.swift:111-115 | creating the links adds no entry but the links at new/name |
| Apply.PostProcessExact | Sources/Quay/Operations/Apply.swift:102-116 | conversely, new holds nothing but the rebased staging entries and the source symlinks, and every path outside new is present exactly when it was, with the same entry |
| Apply.ApplyPatch | Sources/Quay/Operations/Apply.swift:49-118 | `apply(patch:old:new:stagingDir:)` computes `ApplySpec(AsWritten, …)` |
| Apply.ApplyBsdiffFails | Sources/Quay/Operations/Apply.swift:54-91 | a patch with a bsdiff startFile fails after pre-processing and the operations before it, doing no post-processing |

## Left out

- MD5 and the protobuf wire codec are parameters (`Digest`, `Wire`); the hashes and the base64 fixtures that depend on their concrete bytes are not part of this model.
- `QuayContainer.init(folder:)` walks a directory on disk; the container is an input to signing and diffing instead.
- `Data(contentsOf:)`, `write(to:)` and `FileHandle` are replaced by the in-memory tree of `FileSystems`; `WharfFile.init(file:)` and `encode(to:)` only add file I/O and are not modelled.
- `Progress` reporting has no effect on results and is left out.
- The UUID-named default staging directory: the staging path is a parameter.
- `Sources/Quay/Operations/Diff.swift`, `Sources/Hedge/Hedge.swift`, Package.swift and the test utilities are not part of this model.
- brotli, gzip and zstd: nothing is implemented in the source beyond the unimplemented error, which the model has.
- Diff.ScanFrom: the scan loop can run forever (a weak hit with a strong miss does not advance `head`), so it runs on a fuel bound. `OutOfFuel` marks where the source would keep looping.
- Diff.Select: the source sorts with a comparator that is not a strict weak order when several candidates come from the preferred file. The model takes the first preferred match in list order, and otherwise the lowest file index, first in list order.
- Diff.SortTraps: Swift's sorting algorithm is not modelled. The model takes the sort to trap exactly when two or more candidates are not from the preferred file and one of them has no file index: any sort compares each such candidate with another one, and the comparator then unwraps both indices.
- Swift `Int` overflow in the block offsets of the apply is not modelled; `blockIndex + blockSpan` in the diff (`Diff.SpanOverflows`), the file-size sum and the `Int64`/`Int` fields of records are.
- URL handling: paths are strings joined with `/`; no normalisation of `.`, `..` or repeated slashes. `old == new` is string equality.
- Verify.Appending: `dir` is taken to be a file URL without a base, and Foundation's trailing slash for a path that is a directory on disk is not added; URL equality is modelled as equality of base and relative path (`Verify.UrlRelativeTo`).
- The permission bits of files and symlinks, ownership and timestamps are not kept in the tree.
- FileSystems.Reachable: paths are taken to be canonical, so a symbolic link in the middle of a path is not followed; it counts as being in the way, as a file does.
- FileSystems.CreateDirectory: a failed call changes nothing, whereas Foundation may already have made some of the intermediate directories.
- FileSystems.Target: a chain of links longer than the tree has entries leads nowhere; the kernel's own bound (`MAXSYMLINKS`) is not modelled.
- FileSystems.ReadFile: `Data(contentsOf:)` follows symbolic links; the model reads regular files only.
- Apply.PrepareFromPasses: the direction "passes" needs every staged path in the tree to lead somewhere; a staged path created by an earlier directory of the same loop is covered by that.
- Apply.PrepareFromKeeps, Apply.PrepareFromPlaces, Apply.PreProcessPlaces and Apply.PreProcessKeeps are stated for trees in which no staged path is a symbolic link.
- Apply.ReplayWholeFile: proved of the corrected read only; Apply.ReplayWholeFileAsWritten states the trap of the read as written for files under 64 KiB.
- Sign.SignedRoundTrip: holds of the corrected decoder only, because the decoder as written misreads the body framing.
- Verify.VerifyTree: file verification is a warning-only placeholder in the source; files never produce wounds, as the model says.
- Apply.PostProcess: the in-place branch (old == new) is a TODO in the source and does nothing, as modelled.
- Apply.PostProcessExact: stated for trees in which nothing lies below a missing `new`; on a file system every entry's directory exists, but the map of paths does not enforce it.
- Apply.ApplyOp: a write through a closed `FileHandle` raises an Objective-C exception; the model calls it `Trap`.
- Apply.ApplyPatch: the round trip "apply(diff(old, new)) reproduces new" is not proved, and does not hold as written: a diff against a signed or decoded target fails as soon as a source file matches a target block whole (Diff.MatchedFileFails, Diff.SignedSmallFileFails), and one that succeeds holds no block range (Diff.UnanchoredDiff), so what its replay writes is given by Apply.StepBrackets, Apply.StepWrites and FileSystems.WriteThenAppend. The corrected pieces are Apply.ReplayWholeFile, Apply.ReadRangeChunk and Blocks.BlockHashesAre.
- Hashes.StepFull: the popped byte is read from the slot just overwritten. This is modelled as written, including the underflow trap it causes.

## Findings

| source | as written | input that shows it | evidently intended | confidence | as-written member | corrected member |
|---|---|---|---|---|---|---|
| Sources/Quay/Files/Common.swift:118-123 | `pos` starts at the slice's `startIndex` but `dropFirst(pos)` counts from the slice's start, so a body slice not starting at index 0 is misread | the body `[2, 7, 7]` as a slice starting at index 5: `readUInt8(at: 5)` loads past the end and traps | read the body from its first byte: `[[7, 7]]` | not executed | Common.SliceMessagesMisreads, Signatures.DecodeEncodedAsWritten | Common.MessagesOfFrame, Signatures.DecodeCorrected, Signatures.DecodeEncode |
| Sources/Quay/Files/Common.swift:89 | the magic is checked against `Magic.signature`, not `expectedMagic` | any encoded patch: its first four bytes are the patch magic 0x0FEF5F00, and it is rejected with invalidMagicNumber | check `expectedMagic`, so a patch decodes back | not executed | Patches.AsWrittenRejectsEncoded | Patches.DecodeCorrected, Patches.DecodeEncode |
| Sources/Quay/Operations/Apply.swift:82 | the read range is `computeBlockSize(b) ... computeBlockSize(b + s)`, block sizes used as offsets, and closed | a 13-byte old file with `blockRange(0, 0, 1)`: the range 13...13 is out of bounds and traps; a 128 KiB file reads 1 byte for block 0 | the bytes from b·65536 up to min((b + s)·65536, size) | not executed | Apply.AsWrittenShortFileTraps, Apply.ReplayWholeFileAsWritten | Apply.ReplayWholeFile |
| Sources/Quay/Files/WharfPatch.swift:271-275 | `blockSpan += 1` increments a copy bound by the pattern, so a match that continues the last block range changes nothing, while the window is still reset as if the block were written; reachable only once hashes are anchored (row below) | blocks 0 and 1 of one source file matched in turn: one `blockRange(f, 0, 1)`, the second block never copied | widen the last range: `blockRange(f, 0, 2)` | not executed | Diff.EmitMatchDropsSecondBlock | Diff.EmitMatchCorrected |
| Sources/Quay/Files/WharfPatch.swift:250-328 | no hash is ever anchored, yet the comparator unwraps `lhs.fileIndex!` and `rhs.fileIndex!` (lines 256, 316) and writing a match unwraps `match.fileIndex!` (lines 274, 327) | diffing a non-empty file of at most 64 KiB against the signature of the same file: the remainder matches the file's one block, and `match.fileIndex!` traps; any weak hit with two candidates from other files traps in the sort | anchor each hash with its file index, block index and size before building the library, so a match becomes a block range | not executed | Diff.UnanchoredDiff, Diff.SignedSmallFileFails, Diff.UnanchoredSelect | Diff.AnchoredSelect, Diff.AnchoredAdvance, Diff.AnchoredFinish |
| Sources/Quay/Files/WharfPatch.swift:220-221 | `perferredFileIndex` compares each target file's `name`, a path relative to the target folder, with `file.path`, the source file's full path | a source folder `/src` holding `a`, diffed against a target whose container lists `a`: `/src/a` is not `a`, so the index is -1 | compare with the source file's own name, so the target file of the same name is preferred | not executed | Diff.PreferredFullPathMisses, Diff.SameNameNotPreferred | Diff.FileContextCorrected |

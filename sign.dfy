/** `Quay.sign(dir:)` (Sources/Quay/Operations/Sign.swift): the block hashes of every file of
    a container, file after file, under a transport-default header. The container is an input
    (the directory walk that builds it is not part of this model) and the files are read from a
    file-system tree. */
module Sign {
  import opened Shared
  import opened Errors
  import opened Protobuf
  import opened Compression
  import opened Containers
  import opened Blocks
  import opened Common
  import opened Signatures
  import opened FileSystems

  /** `generateHashes(for:)` of each file under `dir`, in order, flattened; the first file that
      cannot be read ends it. */
  function SignHashes(dir: string, files: seq<File>, tree: Tree, md5: Digest): (r: Result<seq<BlockHash>>)
    ensures r.Ok? ==> forall i :: 0 <= i < |r.value| ==> Unanchored(r.value[i])
    ensures r.Err? ==> r.failure == IoError
  {
    if |files| == 0 then Ok([])
    else
      var data :- ReadFile(tree, Join(dir, files[0].name));
      var rest :- SignHashes(dir, files[1..], tree, md5);
      BlockHashesAre(data, md5);
      Ok(BlockHashes(data, md5) + rest)
  }

  /** `sign(dir:)`. */
  function SignSpec(dir: string, container: Container, tree: Tree, md5: Digest): Result<WharfSignature>
  {
    var hashes :- SignHashes(dir, container.files, tree, md5);
    Ok(WharfSignature(FileHeader(TransportDefault), container, hashes))
  }

  /** Every file of the container can be read. */
  predicate Readable(dir: string, files: seq<File>, tree: Tree)
  {
    forall i :: 0 <= i < |files| ==> ReadFile(tree, Join(dir, files[i].name)).Ok?
  }

  /** The number of 64 KiB blocks of all the files under `dir`. */
  function TotalBlocks(dir: string, files: seq<File>, tree: Tree): int
    requires Readable(dir, files, tree)
  {
    if |files| == 0 then 0
    else NumBlocks(|ReadFile(tree, Join(dir, files[0].name)).value|) + TotalBlocks(dir, files[1..], tree)
  }

  // ---------------------------------------------------------------------------
  // Properties

  /** Signing succeeds exactly when every file can be read, and then yields one hash per block
      of every file. */
  lemma {:induction false} SignHashesOutcome(dir: string, files: seq<File>, tree: Tree, md5: Digest)
    ensures SignHashes(dir, files, tree, md5).Ok? <==> Readable(dir, files, tree)
    ensures Readable(dir, files, tree) ==> |SignHashes(dir, files, tree, md5).value| == TotalBlocks(dir, files, tree)
  {
    if |files| > 0 {
      SignHashesOutcome(dir, files[1..], tree, md5);
      if Readable(dir, files[1..], tree) && ReadFile(tree, Join(dir, files[0].name)).Ok? {
        forall i | 0 <= i < |files| ensures ReadFile(tree, Join(dir, files[i].name)).Ok? {
          if i > 0 {
            assert files[i] == files[1..][i - 1];
          }
        }
      }
      if Readable(dir, files, tree) {
        forall i | 0 <= i < |files[1..]| ensures ReadFile(tree, Join(dir, files[1..][i].name)).Ok? {
          assert files[1..][i] == files[i + 1];
        }
        BlockHashesAre(ReadFile(tree, Join(dir, files[0].name)).value, md5);
      }
    }
  }

  /** Every block hash of a file under `dir` is among the signed hashes. */
  lemma {:induction false} SignedBlocksHeld(dir: string, files: seq<File>, tree: Tree, md5: Digest, k: nat)
    requires SignHashes(dir, files, tree, md5).Ok? && k < |files|
    requires ReadFile(tree, Join(dir, files[k].name)).Ok?
    ensures forall h :: h in BlockHashes(ReadFile(tree, Join(dir, files[k].name)).value, md5)
                        ==> h in SignHashes(dir, files, tree, md5).value
  {
    if k > 0 {
      assert files[1..][k - 1] == files[k];
      SignedBlocksHeld(dir, files[1..], tree, md5, k - 1);
    }
  }

  /** The signature carries transport-default compression and the container unchanged, and its
      hashes carry no anchors. */
  lemma SignShape(dir: string, container: Container, tree: Tree, md5: Digest)
    ensures var r := SignSpec(dir, container, tree, md5);
            (r.Ok? <==> Readable(dir, container.files, tree))
            && (r.Ok? ==> r.value.header == FileHeader(TransportDefault) && r.value.container == container
                          && |r.value.blockHashes| == TotalBlocks(dir, container.files, tree)
                          && forall i :: 0 <= i < |r.value.blockHashes| ==> Unanchored(r.value.blockHashes[i]))
  {
    SignHashesOutcome(dir, container.files, tree, md5);
  }

  /** The signing example: a 13-byte file and a 64 KiB file give two block hashes. */
  lemma SignTwoFiles(dir: string, container: Container, tree: Tree, md5: Digest, a: seq<byte>, b: seq<byte>)
    requires |container.files| == 2 && |a| == 13 && |b| == 64 * 1024
    requires ReadFile(tree, Join(dir, container.files[0].name)) == Ok(a)
    requires ReadFile(tree, Join(dir, container.files[1].name)) == Ok(b)
    ensures SignSpec(dir, container, tree, md5).Ok? && |SignSpec(dir, container, tree, md5).value.blockHashes| == 2
  {
    var files := container.files;
    assert files[1..][0] == files[1];
    assert files[1..][1..] == [];
    SignShape(dir, container, tree, md5);
    assert TotalBlocks(dir, files[1..][1..], tree) == 0;
  }

  /** A signature as signed cannot be encoded: its compression is brotli. */
  lemma SignedNeverEncodes(wire: Wire, dir: string, container: Container, tree: Tree, md5: Digest)
    requires SignSpec(dir, container, tree, md5).Ok?
    ensures Signatures.Encode(wire, SignSpec(dir, container, tree, md5).value).Err?
  {
  }

  /** With its compression set to none, as the signing example does before encoding, a signature
      whose permissions fit sixteen bits decodes back to itself under the decoder that reads the
      body from its first byte. */
  lemma SignedRoundTrip(wire: Wire, dir: string, container: Container, tree: Tree, md5: Digest)
    requires WireLossless(wire) && PermissionsFit(container)
    requires SignSpec(dir, container, tree, md5).Ok?
    requires var s := SignSpec(dir, container, tree, md5).value.(header := FileHeader(NoneSettings));
             Signatures.Encode(wire, s).Ok?
    ensures var s := SignSpec(dir, container, tree, md5).value.(header := FileHeader(NoneSettings));
            Signatures.DecodeCorrected(wire, Signatures.Encode(wire, s).value) == Ok(s)
  {
    var s := SignSpec(dir, container, tree, md5).value.(header := FileHeader(NoneSettings));
    RoundTripExact(wire, s);
  }
}

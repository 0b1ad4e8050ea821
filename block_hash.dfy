/** `BlockHash` (Sources/Quay/Other/BlockHash.swift): the weak and strong hash of one 64 KiB
    block of a file, its optional anchor (which file and block it came from), the segmentation
    of a file into blocks, and the block-count and block-size arithmetic. MD5, the strong hash,
    is a parameter of type `Digest`. */
module Blocks {
  import opened Shared
  import opened Errors
  import opened Protobuf
  import Hashes

  /** A strong hash function such as MD5's `immediateHash(of:)`. */
  type Digest = seq<byte> -> seq<byte>

  datatype BlockHash = BlockHash(
    weakHash: u32,
    strongHash: seq<byte>,
    fileIndex: Option<i64>,
    blockIndex: Option<i64>,
    shortSize: Option<i64>)

  /** `isAnchored`: all three anchor fields are present. */
  predicate IsAnchored(h: BlockHash)
  {
    h.fileIndex.Some? && h.blockIndex.Some? && h.shortSize.Some?
  }

  predicate Unanchored(h: BlockHash)
  {
    h.fileIndex.None? && h.blockIndex.None? && h.shortSize.None?
  }

  /** `==`: equal weak and strong hashes; the anchor is not compared. */
  predicate Same(a: BlockHash, b: BlockHash)
  {
    a.weakHash == b.weakHash && a.strongHash == b.strongHash
  }

  /** `init(weakHash:strongHash:)`. */
  function FromHashes(weakHash: u32, strongHash: seq<byte>): (h: BlockHash)
    ensures Unanchored(h) && h.weakHash == weakHash && h.strongHash == strongHash
  {
    BlockHash(weakHash, strongHash, None, None, None)
  }

  /** `init(protobuf:)`. */
  function FromPB(pb: PBBlockHash): (h: BlockHash)
    ensures Unanchored(h) && h.weakHash == pb.weakHash && h.strongHash == pb.strongHash
  {
    FromHashes(pb.weakHash, pb.strongHash)
  }

  /** `protobuf()`: the two hashes; the anchor is not carried. */
  function ToPB(h: BlockHash): (pb: PBBlockHash)
    ensures pb.weakHash == h.weakHash && pb.strongHash == h.strongHash
  {
    PBBlockHash(h.weakHash, h.strongHash)
  }

  /** `init(block:)`: the rolling hash and the strong hash of the block. The rolling hash must
      not trap, which holds for every block of at most 64 KiB (see `BlockFitsWindow`). */
  function FromBlock(block: seq<byte>, md5: Digest): (h: BlockHash)
    requires Hashes.ImmediateHash(block).Ok?
    ensures Unanchored(h) && h.weakHash == Hashes.ImmediateHash(block).value && h.strongHash == md5(block)
  {
    FromHashes(Hashes.ImmediateHash(block).value, md5(block))
  }

  /** `anchor(fileIndex:blockIndex:shortSize:)`, a mutating setter on a value type. */
  function Anchor(h: BlockHash, fileIndex: i64, blockIndex: i64, shortSize: i64): (r: BlockHash)
    ensures IsAnchored(r) && Same(r, h)
    ensures r.fileIndex == Some(fileIndex) && r.blockIndex == Some(blockIndex) && r.shortSize == Some(shortSize)
  {
    h.(fileIndex := Some(fileIndex), blockIndex := Some(blockIndex), shortSize := Some(shortSize))
  }

  /** `computeNumBlocks`: `(fileSize + BlockSize - 1) / BlockSize` with Swift's division. */
  function NumBlocks(fileSize: int): int
  {
    SwiftDiv(fileSize + BlockSize - 1, BlockSize)
  }

  /** `computeBlockSize`: a full block, unless block `blockIdx` reaches past the end of the
      file, in which case `fileSize % BlockSize`. */
  function BlockSizeAt(fileSize: int, blockIdx: int): int
  {
    if BlockSize * (blockIdx + 1) > fileSize then SwiftRem(fileSize, BlockSize) else BlockSize
  }

  /** Block i of the data: the bytes [i * BlockSize, min((i + 1) * BlockSize, n)). */
  function Chunk(data: seq<byte>, i: nat): (r: seq<byte>)
    requires i < NumBlocks(|data|)
    ensures |r| <= BlockSize && Hashes.ImmediateHash(r).Ok?
  {
    NumBlocksBounds(|data|);
    var r := data[i * BlockSize..Min((i + 1) * BlockSize, |data|)];
    BlockFitsWindow(r);
    r
  }

  /** What `generateHashes` returns for file contents `data`: one hash per block, in order. */
  function BlockHashes(data: seq<byte>, md5: Digest): (r: seq<BlockHash>)
    ensures |r| == NumBlocks(|data|)
  {
    NumBlocksBounds(|data|);
    seq(NumBlocks(|data|), i requires 0 <= i < NumBlocks(|data|) => FromBlock(Chunk(data, i), md5))
  }

  /** `generateHashes(for:)`, over the file's bytes: a loop over 64 KiB windows. */
  method GenerateHashes(fileData: seq<byte>, md5: Digest) returns (hashes: seq<BlockHash>)
    ensures hashes == BlockHashes(fileData, md5)
  {
    var blockSize := 64 * 1024;
    hashes := [];
    var position := 0;
    NumBlocksBounds(|fileData|);
    while position < |fileData|
      invariant position == |hashes| * BlockSize
      invariant |hashes| <= NumBlocks(|fileData|)
      invariant hashes == BlockHashes(fileData, md5)[..|hashes|]
      decreases |fileData| - position
    {
      var end := Min(position + blockSize, |fileData|);
      var block := fileData[position..end];
      assert block == Chunk(fileData, |hashes|);
      hashes := hashes + [FromBlock(block, md5)];
      position := position + blockSize;
    }
  }

  // ---------------------------------------------------------------------------
  // Properties

  /** Every block of at most 64 KiB has a weak hash; the rolling hash cannot trap on it. */
  lemma BlockFitsWindow(block: seq<byte>)
    requires |block| <= BlockSize
    ensures Hashes.ImmediateHash(block).Ok?
  {
    Hashes.ImmediateHashClosedForm(block);
  }

  /** `computeNumBlocks` is the ceiling of n / 64 Ki for every size n >= 0. */
  lemma NumBlocksBounds(n: int)
    requires n >= 0
    ensures NumBlocks(n) >= 0
    ensures NumBlocks(n) == 0 <==> n == 0
    ensures n <= NumBlocks(n) * BlockSize
    ensures n > 0 ==> (NumBlocks(n) - 1) * BlockSize < n
  {
  }

  /** Block i is full-size except possibly the last, which holds what remains; and
      `computeBlockSize` gives exactly each block's length. */
  lemma ChunkSizes(data: seq<byte>, i: nat)
    requires i < NumBlocks(|data|)
    ensures |Chunk(data, i)| == BlockSizeAt(|data|, i)
    ensures i < NumBlocks(|data|) - 1 ==> |Chunk(data, i)| == BlockSize
    ensures |Chunk(data, i)| > 0
  {
    NumBlocksBounds(|data|);
  }

  /** `computeBlockSize` in words: 64 KiB while block idx ends within the file, the remainder
      `fileSize mod 64 Ki` otherwise, so the last block of an exact multiple is full and every
      index past the last block gets the remainder. */
  lemma BlockSizeAtFacts(fileSize: nat, idx: nat)
    ensures (idx + 1) * BlockSize <= fileSize ==> BlockSizeAt(fileSize, idx) == BlockSize
    ensures fileSize > 0 && fileSize % BlockSize == 0 && idx == NumBlocks(fileSize) - 1
            ==> BlockSizeAt(fileSize, idx) == BlockSize
    ensures idx >= NumBlocks(fileSize) ==> BlockSizeAt(fileSize, idx) == fileSize % BlockSize
  {
    NumBlocksBounds(fileSize);
  }

  /** The concatenation of the first k blocks. */
  function Blocks(data: seq<byte>, k: nat): seq<byte>
    requires k <= NumBlocks(|data|)
  {
    if k == 0 then [] else Blocks(data, k - 1) + Chunk(data, k - 1)
  }

  /** The blocks are consecutive and do not overlap: together they are the data. */
  lemma {:induction false} BlocksCover(data: seq<byte>, k: nat)
    requires k <= NumBlocks(|data|)
    ensures Blocks(data, k) == data[..Min(k * BlockSize, |data|)]
  {
    NumBlocksBounds(|data|);
    if k > 0 {
      BlocksCover(data, k - 1);
    }
  }

  lemma AllBlocksCover(data: seq<byte>)
    ensures Blocks(data, NumBlocks(|data|)) == data
  {
    NumBlocksBounds(|data|);
    BlocksCover(data, NumBlocks(|data|));
  }

  /** Hash i is the hash of block i; empty data has no blocks. */
  lemma BlockHashesAre(data: seq<byte>, md5: Digest)
    ensures |BlockHashes(data, md5)| == NumBlocks(|data|)
    ensures |data| == 0 ==> BlockHashes(data, md5) == []
    ensures forall i :: 0 <= i < |BlockHashes(data, md5)| ==>
              Unanchored(BlockHashes(data, md5)[i])
              && BlockHashes(data, md5)[i].weakHash == Hashes.ImmediateHash(Chunk(data, i)).value
              && BlockHashes(data, md5)[i].strongHash == md5(Chunk(data, i))
  {
    NumBlocksBounds(|data|);
  }

  /** `==` is an equivalence that ignores the anchor. */
  lemma SameIsEquivalence(a: BlockHash, b: BlockHash, c: BlockHash)
    ensures Same(a, a)
    ensures Same(a, b) ==> Same(b, a)
    ensures Same(a, b) && Same(b, c) ==> Same(a, c)
    ensures Same(a, b) <==> a.(fileIndex := None, blockIndex := None, shortSize := None)
                            == b.(fileIndex := None, blockIndex := None, shortSize := None)
  {
  }

  /** A hash read back from its own record is `==` to it, and identical to it exactly when it
      carried no anchor. */
  lemma RecordRoundTrip(h: BlockHash)
    ensures Same(FromPB(ToPB(h)), h)
    ensures FromPB(ToPB(h)) == h <==> Unanchored(h)
  {
  }

  /** Anchoring changes neither hash; anchoring again replaces the anchor. */
  lemma AnchorKeepsHashes(h: BlockHash, f: i64, b: i64, s: i64, f': i64, b': i64, s': i64)
    ensures Anchor(h, f, b, s).weakHash == h.weakHash && Anchor(h, f, b, s).strongHash == h.strongHash
    ensures Anchor(Anchor(h, f, b, s), f', b', s') == Anchor(h, f', b', s')
  {
  }
}

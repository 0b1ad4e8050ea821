/** The diff of `WharfPatch.init(target:source:)` (Sources/Quay/Files/WharfPatch.swift:200-342):
    every source file is scanned byte by byte with the rolling hash; a weak hash found in the
    target's block library whose strong hash also matches becomes a block-range operation, and
    whatever follows the last match becomes one data operation at the end of the file. The
    strong hash is the parameter `md5`, the source files are read from a file-system tree, and
    the scan loop, which need not end, runs on a step bound `fuel`. */
module Diff {
  import opened Shared
  import opened Errors
  import opened Protobuf
  import opened Compression
  import opened Containers
  import opened Blocks
  import opened BlockLibrary
  import opened Hashes
  import opened Common
  import opened Signatures
  import opened Patches
  import opened FileSystems
  import Sign

  /** `owedMax`, 4 MiB. */
  const OwedMax: int := 4 * 1024 * 1024

  /** A hash the diff can name in a block range: the file index and the block index that
      lines 274 and 327 force-unwrap are both present. */
  predicate Placed(h: BlockHash)
  {
    h.fileIndex.Some? && h.blockIndex.Some?
  }

  predicate AllAnchored(hashes: seq<BlockHash>)
  {
    forall i :: 0 <= i < |hashes| ==> IsAnchored(hashes[i])
  }

  /** Every entry of the library is anchored, as it would be had the signature's hashes been
      anchored before the library was built; nothing in the source anchors them. */
  predicate LibraryAnchored(library: Library)
  {
    forall k :: k in library ==> AllAnchored(library[k])
  }

  /** No entry of the library has a file index: the library of every signature that is decoded
      or signed. */
  predicate LibraryUnanchored(library: Library)
  {
    forall k :: k in library ==> forall i :: 0 <= i < |library[k]| ==> library[k][i].fileIndex.None?
  }

  /** What a file's scan needs besides its bytes: the library, the strong hash and the index
      of the preferred target file. */
  datatype Context = Context(library: Library, md5: Digest, preferred: int)

  // ---------------------------------------------------------------------------
  // Choosing a candidate (lines 250-260 and 310-320)

  /** `fileIndex == perferredFileIndex`: false for a candidate without a file index. */
  predicate FromFile(c: BlockHash, preferred: int)
  {
    c.fileIndex.Some? && c.fileIndex.value == preferred
  }

  /** The first candidate from the preferred file whose strong hash is `strong`. */
  function FirstPreferred(candidates: seq<BlockHash>, strong: seq<byte>, preferred: int): (r: Option<BlockHash>)
    ensures r.Some? ==> r.value in candidates && r.value.strongHash == strong && FromFile(r.value, preferred)
    ensures r.None? <==> forall c :: c in candidates ==> !(c.strongHash == strong && FromFile(c, preferred))
  {
    if |candidates| == 0 then None
    else if candidates[0].strongHash == strong && FromFile(candidates[0], preferred) then Some(candidates[0])
    else FirstPreferred(candidates[1..], strong, preferred)
  }

  /** The candidates not from the preferred file, in order: those the comparator orders by
      their force-unwrapped file indices. */
  function Others(candidates: seq<BlockHash>, preferred: int): (r: seq<BlockHash>)
    ensures |r| <= |candidates|
    ensures forall c :: c in r <==> c in candidates && !FromFile(c, preferred)
  {
    if |candidates| == 0 then []
    else (if FromFile(candidates[0], preferred) then [] else [candidates[0]]) + Others(candidates[1..], preferred)
  }

  /** Whether sorting the candidates traps. The comparator unwraps both file indices once
      neither candidate is from the preferred file. A sort that puts every candidate in its
      place compares each candidate not from the preferred file with another such candidate
      whenever there are two or more of them, and compares no such pair otherwise. */
  predicate SortTraps(candidates: seq<BlockHash>, preferred: int)
  {
    var others := Others(candidates, preferred);
    |others| >= 2 && exists c :: c in others && c.fileIndex.None?
  }

  /** `a` sorts strictly before `b` by file index. */
  predicate Below(a: BlockHash, b: BlockHash)
  {
    a.fileIndex.Some? && b.fileIndex.Some? && a.fileIndex.value < b.fileIndex.value
  }

  /** Among the candidates whose strong hash is `strong`, the first with the lowest file index. */
  function LowestMatch(candidates: seq<BlockHash>, strong: seq<byte>): (r: Option<BlockHash>)
    ensures r.Some? ==> r.value in candidates && r.value.strongHash == strong
    ensures r.None? <==> forall c :: c in candidates ==> c.strongHash != strong
    ensures r.Some? && (forall c :: c in candidates ==> c.fileIndex.Some?) ==>
              forall c :: c in candidates && c.strongHash == strong ==> r.value.fileIndex.value <= c.fileIndex.value
  {
    if |candidates| == 0 then None
    else
      var rest := LowestMatch(candidates[1..], strong);
      if candidates[0].strongHash != strong then rest
      else if rest.Some? && Below(rest.value, candidates[0]) then rest
      else Some(candidates[0])
  }

  /** The candidates sorted with the preferred file first and then by file index, and the
      first of them whose strong hash is `strong`; a trap when the sort unwraps a missing file
      index. */
  function Select(candidates: seq<BlockHash>, strong: seq<byte>, preferred: int): (r: Result<Option<BlockHash>>)
    ensures r.Err? <==> SortTraps(candidates, preferred)
    ensures r.Err? ==> r.failure == Trap
    ensures r.Ok? && r.value.Some? ==> r.value.value in candidates && r.value.value.strongHash == strong
    ensures r.Ok? ==> (r.value.None? <==> forall c :: c in candidates ==> c.strongHash != strong)
    ensures r.Ok? && (exists c :: c in candidates && c.strongHash == strong && FromFile(c, preferred))
            ==> r.value.Some? && FromFile(r.value.value, preferred)
    ensures r.Ok? && r.value.Some? && !FromFile(r.value.value, preferred)
            ==> forall c :: c in candidates && c.strongHash == strong && c.fileIndex.Some? ==>
                  r.value.value.fileIndex.Some? && r.value.value.fileIndex.value <= c.fileIndex.value
  {
    if SortTraps(candidates, preferred) then Err(Trap)
    else
      var p := FirstPreferred(candidates, strong, preferred);
      if p.Some? then Ok(p)
      else
        var others := Others(candidates, preferred);
        OtherMatches(candidates, strong, preferred);
        if |others| < 2 then SingleOther(others, strong) else Ok(LowestMatch(others, strong))
  }

  /** A strong match that is not from the preferred file is among the others. */
  lemma OtherMatches(candidates: seq<BlockHash>, strong: seq<byte>, preferred: int)
    ensures forall c :: c in candidates && c.strongHash == strong && !FromFile(c, preferred) ==> c in Others(candidates, preferred)
    ensures (forall c :: c in Others(candidates, preferred) ==> c.strongHash != strong)
            && (forall c :: c in candidates ==> !(c.strongHash == strong && FromFile(c, preferred)))
            ==> forall c :: c in candidates ==> c.strongHash != strong
  {
  }

  /** `first(where:)` over at most one candidate: every strong match is that candidate. */
  function SingleOther(others: seq<BlockHash>, strong: seq<byte>): (r: Result<Option<BlockHash>>)
    requires |others| < 2
    ensures r.Ok?
    ensures r.value.Some? ==> r.value.value in others && r.value.value.strongHash == strong
    ensures r.value.None? <==> forall c :: c in others ==> c.strongHash != strong
    ensures r.value.Some? ==> forall c :: c in others && c.strongHash == strong ==> c == r.value.value
  {
    Ok(LowestMatch(others, strong))
  }

  /** `perferredFileIndex`: the first target file named exactly like the source file's path,
      or -1. */
  function Preferred(targetFiles: seq<File>, path: string): (r: int)
    ensures r == -1 || (0 <= r < |targetFiles| && targetFiles[r].name == path)
    ensures r == -1 <==> forall j :: 0 <= j < |targetFiles| ==> targetFiles[j].name != path
    ensures r >= 0 ==> forall j :: 0 <= j < r ==> targetFiles[j].name != path
  {
    if |targetFiles| == 0 then -1
    else if targetFiles[0].name == path then 0
    else
      var r := Preferred(targetFiles[1..], path);
      if r == -1 then -1 else r + 1
  }

  // ---------------------------------------------------------------------------
  // Writing a match (lines 271-275 and 323-328)

  /** `sourceFileIndex == match.fileIndex` for the last operation: false when the match has no
      file index. */
  predicate SameFile(ops: seq<SyncOperation>, m: BlockHash)
  {
    |ops| > 0 && ops[|ops| - 1].BlockRange? && m.fileIndex == Some(ops[|ops| - 1].sourceFileIndex)
  }

  /** `blockIndex + blockSpan`, evaluated once the file matches, leaves `Int`. */
  predicate SpanOverflows(ops: seq<SyncOperation>, m: BlockHash)
  {
    SameFile(ops, m)
    && !(-0x8000_0000_0000_0000 <= ops[|ops| - 1].blockIndex + ops[|ops| - 1].blockSpan < 0x8000_0000_0000_0000)
  }

  /** A match continues the last operation: a block range of the same file ending just before
      the matched block. */
  predicate Continues(ops: seq<SyncOperation>, m: BlockHash)
  {
    SameFile(ops, m) && m.blockIndex.Some?
    && ops[|ops| - 1].blockIndex + ops[|ops| - 1].blockSpan == m.blockIndex.value
  }

  /** A match that continues the last operation increments a copy of its span, so the
      operations stay as they were; any other match appends a one-block range, force-unwrapping
      the match's file and block indices. */
  function EmitMatch(ops: seq<SyncOperation>, m: BlockHash): (r: Result<seq<SyncOperation>>)
    ensures r.Err? <==> SpanOverflows(ops, m) || (!Continues(ops, m) && !Placed(m))
    ensures r.Err? ==> r.failure == Trap
    ensures m.fileIndex.None? ==> r == Err(Trap)
    ensures r.Ok? && Continues(ops, m) ==> r.value == ops
    ensures r.Ok? && !Continues(ops, m) ==>
              Placed(m) && r.value == ops + [BlockRange(m.fileIndex.value, m.blockIndex.value, 1)]
  {
    if SpanOverflows(ops, m) then Err(Trap)
    else if Continues(ops, m) then Ok(ops)
    else if !Placed(m) then Err(Trap)
    else Ok(ops + [BlockRange(m.fileIndex.value, m.blockIndex.value, 1)])
  }

  /** The number of source blocks the block ranges of `ops` copy. */
  function Spanned(ops: seq<SyncOperation>): int
  {
    if |ops| == 0 then 0
    else Spanned(ops[..|ops| - 1]) + (if ops[|ops| - 1].BlockRange? then ops[|ops| - 1].blockSpan as int else 0)
  }

  /** As written, a match that continues the last range is dropped: the ranges copy no more
      blocks than before. Any other match adds one block. */
  lemma EmitMatchSpanned(ops: seq<SyncOperation>, m: BlockHash)
    requires EmitMatch(ops, m).Ok?
    ensures Spanned(EmitMatch(ops, m).value) == Spanned(ops) + (if Continues(ops, m) then 0 else 1)
  {
    var r := EmitMatch(ops, m).value;
    if !Continues(ops, m) {
      assert r[..|r| - 1] == ops;
    }
  }

  /** Two consecutive blocks of a source file, matched one after the other, give one range of
      span 1: the second block is never copied. */
  lemma EmitMatchDropsSecondBlock(weakHash: u32, strongHash: seq<byte>)
    ensures var m0 := BlockHash(weakHash, strongHash, Some(0), Some(0), Some(0));
            var m1 := BlockHash(weakHash, strongHash, Some(0), Some(1), Some(0));
            EmitMatch([], m0) == Ok([BlockRange(0, 0, 1)])
            && EmitMatch([BlockRange(0, 0, 1)], m1) == Ok([BlockRange(0, 0, 1)])
  {
    var m0 := BlockHash(weakHash, strongHash, Some(0), Some(0), Some(0));
    var m1 := BlockHash(weakHash, strongHash, Some(0), Some(1), Some(0));
    var none: seq<SyncOperation> := [];
    assert !SameFile(none, m0) && !Continues(none, m0) && Placed(m0);
    assert none + [BlockRange(0, 0, 1)] == [BlockRange(0, 0, 1)];
    var ops := [BlockRange(0, 0, 1)];
    assert ops[|ops| - 1] == BlockRange(0, 0, 1);
    assert SameFile(ops, m1) && !SpanOverflows(ops, m1) && Continues(ops, m1);
  }

  /** The evidently intended match: one continuing the last range widens that range by one
      block (a trap when the span would leave `Int`); any other match appends a one-block
      range. */
  function EmitMatchCorrected(ops: seq<SyncOperation>, m: BlockHash): (r: Result<seq<SyncOperation>>)
    ensures r.Err? <==> SpanOverflows(ops, m) || (!Continues(ops, m) && !Placed(m))
                        || (Continues(ops, m) && ops[|ops| - 1].blockSpan == 0x7FFF_FFFF_FFFF_FFFF)
    ensures r.Err? ==> r.failure == Trap
    ensures r.Ok? && Continues(ops, m) ==>
              |r.value| == |ops| && r.value[..|ops| - 1] == ops[..|ops| - 1]
    ensures r.Ok? && !Continues(ops, m) ==>
              r.value == ops + [BlockRange(m.fileIndex.value, m.blockIndex.value, 1)]
    ensures r.Ok? ==> Placed(m) && var last := r.value[|r.value| - 1];
              last.BlockRange? && last.sourceFileIndex == m.fileIndex.value
              && last.blockIndex + last.blockSpan == m.blockIndex.value + 1
  {
    if SpanOverflows(ops, m) then Err(Trap)
    else if Continues(ops, m) then
      var last := ops[|ops| - 1];
      if last.blockSpan == 0x7FFF_FFFF_FFFF_FFFF then Err(Trap)
      else Ok(ops[..|ops| - 1] + [BlockRange(last.sourceFileIndex, last.blockIndex, last.blockSpan + 1)])
    else if !Placed(m) then Err(Trap)
    else Ok(ops + [BlockRange(m.fileIndex.value, m.blockIndex.value, 1)])
  }

  /** Every match adds exactly one block to what the corrected ranges copy. */
  lemma EmitMatchCorrectedSpanned(ops: seq<SyncOperation>, m: BlockHash)
    requires EmitMatchCorrected(ops, m).Ok?
    ensures Spanned(EmitMatchCorrected(ops, m).value) == Spanned(ops) + 1
  {
    var r := EmitMatchCorrected(ops, m).value;
    if Continues(ops, m) {
      assert r[..|r| - 1] == ops[..|ops| - 1];
    } else {
      assert r[..|r| - 1] == ops;
    }
  }

  // ---------------------------------------------------------------------------
  // The scan of one file (lines 213-295)

  /** The loop's variables: the file's operations so far, the rolling hash, and the four
      counters. */
  datatype Scan = Scan(ops: seq<SyncOperation>, roll: RollState, owedTail: int, owedHead: int, tail: int, head: int)

  predicate ScanFits(st: Scan, n: nat)
  {
    Inv(st.roll) && 0 <= st.owedTail && 0 <= st.tail <= st.head <= n && st.owedHead <= n
  }

  /** Lines 288-294: once more than `owedMax` bytes are owed they are written out. */
  function Flush(data: seq<byte>, st: Scan): (r: Scan)
    requires ScanFits(st, |data|)
    ensures ScanFits(r, |data|)
  {
    if st.owedHead - st.owedTail > OwedMax
    then st.(ops := st.ops + [DataOp(data[st.owedTail..st.owedHead])], owedTail := st.owedHead)
    else st
  }

  /** The counters after the byte at `head` has been hashed into `roll`: on a weak miss `head`
      moves on; on a weak hit whose strong hash (of the bytes from `tail` up to, not including,
      `head`) matches a candidate, the owed bytes and the match are written and the window
      restarts at `head`; on a strong miss only the hash has changed. The sort and the match
      may trap. */
  function Advance(ctx: Context, data: seq<byte>, st: Scan, roll: RollState): (r: Result<Scan>)
    requires ScanFits(st, |data|) && st.head < |data| && Inv(roll)
    ensures r.Ok? ==> ScanFits(r.value, |data|)
    ensures r.Err? ==> r.failure == Trap
  {
    var weak := HashOf(roll) as u32;
    if weak in ctx.library then
      var strong := ctx.md5(data[st.tail..st.head]);
      var found :- Select(ctx.library[weak], strong, ctx.preferred);
      if found.Some? then
        var ops := if st.owedTail < st.tail then st.ops + [DataOp(data[st.owedTail..st.tail])] else st.ops;
        var emitted :- EmitMatch(ops, found.value);
        Ok(Scan(emitted, ResetState(roll), st.head, st.head, st.head, st.head))
      else Ok(st.(roll := roll))
    else Ok(st.(roll := roll, head := st.head + 1))
  }

  /** One turn of the loop: hash the byte at `head`, move the counters, flush. */
  function DiffStep(ctx: Context, data: seq<byte>, st: Scan): (r: Result<Scan>)
    requires ScanFits(st, |data|) && st.head < |data|
    ensures r.Ok? ==> ScanFits(r.value, |data|)
  {
    var roll :- Step(st.roll, data[st.head]);
    var moved :- Advance(ctx, data, st, roll);
    Ok(Flush(data, moved))
  }

  /** `while head < fileData.count`, at most `fuel` more turns. */
  function ScanFrom(ctx: Context, data: seq<byte>, st: Scan, fuel: nat): (r: Result<Scan>)
    requires ScanFits(st, |data|)
    ensures r.Ok? ==> ScanFits(r.value, |data|) && r.value.head == |data|
    decreases fuel
  {
    if st.head >= |data| then Ok(st)
    else if fuel == 0 then Err(OutOfFuel)
    else
      var next :- DiffStep(ctx, data, st);
      ScanFrom(ctx, data, next, fuel - 1)
  }

  /** Lines 297-339: the bytes from `owedTail` to the end, when there are any, become one
      match or one data operation; then `heyYouDidIt`. The remainder's weak hash is that of a
      fresh rolling hash, which traps beyond 64 KiB. */
  function Finish(ctx: Context, data: seq<byte>, st: Scan): (r: Result<seq<SyncOperation>>)
    requires 0 <= st.owedTail
  {
    var ops :-
      if |data| - st.owedTail > 0 then
        var remaining := data[st.owedTail..];
        var weak :- ImmediateHash(remaining);
        if weak as u32 in ctx.library then
          var found :- Select(ctx.library[weak as u32], ctx.md5(remaining), ctx.preferred);
          if found.Some? then EmitMatch(st.ops, found.value) else Ok(st.ops + [DataOp(remaining)])
        else Ok(st.ops + [DataOp(remaining)])
      else Ok(st.ops);
    Ok(ops + [HeyYouDidIt])
  }

  /** The state at the top of file `fileIndex`: `startFile` written, the hash reset, the
      counters zero. */
  function StartScan(fileIndex: i64, roll: RollState): (st: Scan)
    requires Inv(roll)
    ensures ScanFits(st, 0)
  {
    Scan([StartFile(RsyncAlgorithm, fileIndex)], ResetState(roll), 0, 0, 0, 0)
  }

  /** The context of source file `i`. */
  function FileContext(library: Library, md5: Digest, targetFiles: seq<File>, source: string, file: File): Context
  {
    Context(library, md5, Preferred(targetFiles, FilePath(Some(source), file.name)))
  }

  /** The preference line 221 evidently intends: the first target file with the source file's
      own name, both names being relative to their folders. */
  function FileContextCorrected(library: Library, md5: Digest, targetFiles: seq<File>, file: File): (c: Context)
    ensures c.library == library && c.md5 == md5
    ensures c.preferred == -1 <==> forall j :: 0 <= j < |targetFiles| ==> targetFiles[j].name != file.name
    ensures c.preferred >= 0 ==> c.preferred < |targetFiles| && targetFiles[c.preferred].name == file.name
                                 && forall j :: 0 <= j < c.preferred ==> targetFiles[j].name != file.name
  {
    Context(library, md5, Preferred(targetFiles, file.name))
  }

  /** As written, line 221 compares the target's relative names with the source file's full
      path, so under an absolute source folder no target file is ever preferred. */
  lemma PreferredFullPathMisses(library: Library, md5: Digest, targetFiles: seq<File>, source: string, file: File)
    requires |source| > 0 && source[0] == '/'
    requires forall j :: 0 <= j < |targetFiles| ==> !(|targetFiles[j].name| > 0 && targetFiles[j].name[0] == '/')
    ensures FileContext(library, md5, targetFiles, source, file).preferred == -1
  {
    var path := FilePath(Some(source), file.name);
    assert path[0] == source[0];
  }

  /** A source file `a` under `/src` and a target listing `a`: as written nothing is preferred,
      while the corrected preference picks target file 0. */
  lemma SameNameNotPreferred(library: Library, md5: Digest)
    ensures var targetFiles, file := [File("a", 0x1A4, 13)], File("a", 0x1A4, 13);
            FileContext(library, md5, targetFiles, "/src", file).preferred == -1
            && FileContextCorrected(library, md5, targetFiles, file).preferred == 0
  {
    var targetFiles, file := [File("a", 0x1A4, 13)], File("a", 0x1A4, 13);
    PreferredFullPathMisses(library, md5, targetFiles, "/src", file);
  }

  /** The operations of source file `file`, number `fileIndex`: its bytes read, its scan from
      the top, its remainder and `heyYouDidIt`; and the rolling hash as the scan leaves it for
      the next file. */
  function FileOps(library: Library, md5: Digest, targetFiles: seq<File>, source: string, tree: Tree,
                   file: File, fileIndex: i64, roll: RollState, fuel: nat): Result<(seq<SyncOperation>, RollState)>
    requires Inv(roll)
  {
    var data :- ReadFile(tree, FilePath(Some(source), file.name));
    var ctx := FileContext(library, md5, targetFiles, source, file);
    var end :- ScanFrom(ctx, data, StartScan(fileIndex, roll), fuel);
    var ops :- Finish(ctx, data, end);
    Ok((ops, end.roll))
  }

  /** The operations of source files `i` onwards, the rolling hash coming in as `roll`. */
  function FilesOps(library: Library, md5: Digest, targetFiles: seq<File>, source: string, tree: Tree,
                    files: seq<File>, i: nat, roll: RollState, fuel: nat): Result<seq<SyncOperation>>
    requires Inv(roll) && i <= |files| < 0x8000_0000_0000_0000
    decreases |files| - i
  {
    if i == |files| then Ok([])
    else
      var file :- FileOps(library, md5, targetFiles, source, tree, files[i], i as i64, roll, fuel);
      var rest :- FilesOps(library, md5, targetFiles, source, tree, files, i + 1, file.1, fuel);
      Ok(file.0 + rest)
  }

  /** `init(target:source:)`: transport-default compression, the target's container, the
      source container and the operations of every source file in container order. */
  function DiffSpec(target: WharfSignature, source: string, sourceContainer: Container, tree: Tree,
                    md5: Digest, fuel: nat): Result<WharfPatch>
    requires |sourceContainer.files| < 0x8000_0000_0000_0000
  {
    var ops :- FilesOps(LibraryOf(target.blockHashes), md5, target.container.files, source, tree,
                        sourceContainer.files, 0, Initial(), fuel);
    Ok(WharfPatch(FileHeader(TransportDefault), target.container, sourceContainer, ops))
  }

  /** The operations so far in front of those still to come, or the failure they end in. */
  function Prepend(done: seq<SyncOperation>, rest: Result<seq<SyncOperation>>): Result<seq<SyncOperation>>
  {
    if rest.Ok? then Ok(done + rest.value) else rest
  }

  /** Lines 237-295 as the source runs them: the rolling hash updated in place, the counters
      and the file's operations reassigned turn by turn, at most `fuel` turns. */
  method ScanLoop(ctx: Context, data: seq<byte>, digest: WeakRollingHash, ops: seq<SyncOperation>, fuel: nat)
    returns (r: Result<Scan>)
    requires digest.Valid()
    modifies digest, digest.buffer
    ensures r == ScanFrom(ctx, data, Scan(ops, old(digest.State()), 0, 0, 0, 0), fuel)
    ensures r.Ok? ==> digest.Valid() && digest.State() == r.value.roll
  {
    ghost var total := ScanFrom(ctx, data, Scan(ops, digest.State(), 0, 0, 0, 0), fuel);
    var fileOps := ops;
    var owedTail, owedHead, tail, head := 0, 0, 0, 0;
    var fuelLeft := fuel;
    while head < |data|
      invariant digest.Valid()
      invariant 0 <= owedTail && 0 <= tail <= head <= |data| && owedHead <= |data|
      invariant ScanFrom(ctx, data, Scan(fileOps, digest.State(), owedTail, owedHead, tail, head), fuelLeft) == total
      decreases fuelLeft
    {
      if fuelLeft == 0 {
        return Err(OutOfFuel);
      }
      ghost var st := Scan(fileOps, digest.State(), owedTail, owedHead, tail, head);
      fuelLeft := fuelLeft - 1;
      var updated := digest.Update(data[head]);
      if updated.Err? {
        return Err(Trap);
      }
      ghost var stepped := digest.State();
      var weakHash := updated.value as u32;
      if weakHash in ctx.library {
        var strongHash := ctx.md5(data[tail..head]);
        var found := Select(ctx.library[weakHash], strongHash, ctx.preferred);
        if found.Err? {
          return Err(found.failure);
        }
        if found.value.Some? {
          if owedTail < tail {
            fileOps := fileOps + [DataOp(data[owedTail..tail])];
            owedTail := tail;
          }
          var emitted := EmitMatch(fileOps, found.value.value);
          if emitted.Err? {
            return Err(emitted.failure);
          }
          fileOps := emitted.value;
          tail := head;
          owedHead := head;
          owedTail := head;
          digest.Reset();
        }
      } else {
        head := head + 1;
      }
      ghost var moved := Scan(fileOps, digest.State(), owedTail, owedHead, tail, head);
      assert Advance(ctx, data, st, stepped) == Ok(moved);
      if owedHead - owedTail > OwedMax {
        fileOps := fileOps + [DataOp(data[owedTail..owedHead])];
        owedTail := owedHead;
      }
      assert Scan(fileOps, digest.State(), owedTail, owedHead, tail, head) == Flush(data, moved);
    }
    r := Ok(Scan(fileOps, digest.State(), owedTail, owedHead, tail, head));
  }

  /** Lines 297-339 as the source runs them: the remainder hashed by a fresh rolling hash, then
      one match or one data operation, then `heyYouDidIt`. */
  method Remainder(ctx: Context, data: seq<byte>, st: Scan) returns (r: Result<seq<SyncOperation>>)
    requires 0 <= st.owedTail
    ensures r == Finish(ctx, data, st)
  {
    var fileOps := st.ops;
    var owedTail, owedHead := st.owedTail, |data|;
    if owedHead - owedTail > 0 {
      var remainingData := data[owedTail..owedHead];
      assert remainingData == data[st.owedTail..];
      var remainingWeakHash := HashBlock(remainingData);
      if remainingWeakHash.Err? {
        return Err(remainingWeakHash.failure);
      }
      var weakHash := remainingWeakHash.value as u32;
      if weakHash in ctx.library {
        var remainingStrongHash := ctx.md5(remainingData);
        var found := Select(ctx.library[weakHash], remainingStrongHash, ctx.preferred);
        if found.Err? {
          return Err(found.failure);
        }
        if found.value.Some? {
          var emitted := EmitMatch(fileOps, found.value.value);
          if emitted.Err? {
            return Err(emitted.failure);
          }
          fileOps := emitted.value;
        } else {
          fileOps := fileOps + [DataOp(remainingData)];
        }
      } else {
        fileOps := fileOps + [DataOp(remainingData)];
      }
    }
    r := Ok(fileOps + [HeyYouDidIt]);
  }

  /** The body of the source's loop over files, for file `fileIndex` at `url`: reset the
      rolling hash, read the file, write `startFile`, scan, write the remainder and
      `heyYouDidIt`. */
  method DiffFile(library: Library, md5: Digest, targetFiles: seq<File>, source: string, tree: Tree,
                  file: File, url: string, fileIndex: i64, digest: WeakRollingHash, fuel: nat)
    returns (r: Result<seq<SyncOperation>>)
    requires digest.Valid() && url == FilePath(Some(source), file.name)
    modifies digest, digest.buffer
    ensures var spec := FileOps(library, md5, targetFiles, source, tree, file, fileIndex, old(digest.State()), fuel);
            (r.Ok? <==> spec.Ok?) && (r.Err? ==> r.failure == spec.failure)
            && (r.Ok? ==> r.value == spec.value.0 && digest.Valid() && digest.State() == spec.value.1)
  {
    ghost var before := digest.State();
    digest.Reset();
    var fileData :- ReadFile(tree, url);
    var ctx := Context(library, md5, Preferred(targetFiles, url));
    var start := [StartFile(RsyncAlgorithm, fileIndex)];
    assert Scan(start, digest.State(), 0, 0, 0, 0) == StartScan(fileIndex, before);
    var scanned := ScanLoop(ctx, fileData, digest, start, fuel);
    if scanned.Err? {
      return Err(scanned.failure);
    }
    r := Remainder(ctx, fileData, scanned.value);
  }

  lemma DiffSpecUnfold(target: WharfSignature, source: string, sourceContainer: Container, tree: Tree,
                       md5: Digest, fuel: nat)
    requires |sourceContainer.files| < 0x8000_0000_0000_0000
    ensures var ops := FilesOps(LibraryOf(target.blockHashes), md5, target.container.files, source, tree,
                                sourceContainer.files, 0, Initial(), fuel);
            DiffSpec(target, source, sourceContainer, tree, md5, fuel)
            == if ops.Ok? then Ok(WharfPatch(FileHeader(TransportDefault), target.container, sourceContainer, ops.value))
               else Err(ops.failure)
  {
  }

  /** One file's step of `FilesOps`. */
  lemma FilesOpsStep(library: Library, md5: Digest, targetFiles: seq<File>, source: string, tree: Tree,
                     files: seq<File>, i: nat, roll: RollState, fuel: nat)
    requires Inv(roll) && i < |files| < 0x8000_0000_0000_0000
    ensures var file := FileOps(library, md5, targetFiles, source, tree, files[i], i as i64, roll, fuel);
            var here := FilesOps(library, md5, targetFiles, source, tree, files, i, roll, fuel);
            (file.Err? ==> here == Err(file.failure))
            && (file.Ok? ==> Inv(file.value.1)
                             && here == Prepend(file.value.0, FilesOps(library, md5, targetFiles, source, tree, files, i + 1, file.value.1, fuel)))
  {
  }

  lemma PrependAssoc(a: seq<SyncOperation>, b: seq<SyncOperation>, r: Result<seq<SyncOperation>>)
    ensures Prepend(a, Prepend(b, r)) == Prepend(a + b, r)
  {
    if r.Ok? {
      assert a + (b + r.value) == (a + b) + r.value;
    }
  }

  /** `init(target:source:)` as the source runs it: one rolling hash reused for every file and
      the operations of each file appended in container order. */
  method MakePatch(target: WharfSignature, source: string, sourceContainer: Container, tree: Tree,
                   md5: Digest, fuel: nat) returns (r: Result<WharfPatch>)
    requires |sourceContainer.files| < 0x8000_0000_0000_0000
    ensures r == DiffSpec(target, source, sourceContainer, tree, md5, fuel)
  {
    var library := ConstructBlockLibrary(target.blockHashes);
    DiffSpecUnfold(target, source, sourceContainer, tree, md5, fuel);
    var files := sourceContainer.files;
    var targetFiles := target.container.files;
    var syncOps: seq<SyncOperation> := [];
    var digest := new WeakRollingHash();
    var urls := IterFiles(sourceContainer, Some(source));
    ghost var total := FilesOps(library, md5, targetFiles, source, tree, files, 0, Initial(), fuel);
    assert total.Ok? ==> syncOps + total.value == total.value;
    for fileIndex := 0 to |urls|
      invariant digest.Valid()
      invariant Prepend(syncOps, FilesOps(library, md5, targetFiles, source, tree, files, fileIndex, digest.State(), fuel)) == total
    {
      FilesOpsStep(library, md5, targetFiles, source, tree, files, fileIndex, digest.State(), fuel);
      var fileOps := DiffFile(library, md5, targetFiles, source, tree, files[fileIndex], urls[fileIndex],
                              fileIndex as i64, digest, fuel);
      if fileOps.Err? {
        return Err(fileOps.failure);
      }
      PrependAssoc(syncOps, fileOps.value,
                   FilesOps(library, md5, targetFiles, source, tree, files, fileIndex + 1, digest.State(), fuel));
      syncOps := syncOps + fileOps.value;
    }
    assert FilesOps(library, md5, targetFiles, source, tree, files, |urls|, digest.State(), fuel) == Ok([]);
    assert syncOps + [] == syncOps;
    return Ok(WharfPatch(FileHeader(TransportDefault), target.container, sourceContainer, syncOps));
  }

  /** Every entry of a library built from anchored hashes is anchored. */
  lemma LibraryAnchoredOf(hashes: seq<BlockHash>)
    requires AllAnchored(hashes)
    ensures LibraryAnchored(LibraryOf(hashes))
  {
    LibraryMembership(hashes);
    LibraryIsGrouping(hashes);
    forall k | k in LibraryOf(hashes) ensures AllAnchored(LibraryOf(hashes)[k]) {
      WithWeakMembers(hashes, k);
      forall i | 0 <= i < |LibraryOf(hashes)[k]| ensures IsAnchored(LibraryOf(hashes)[k][i]) {
        var h := LibraryOf(hashes)[k][i];
        assert h in WithWeak(hashes, k);
        var j :| 0 <= j < |hashes| && hashes[j] == h;
      }
    }
  }

  /** Every entry of a library built from unanchored hashes lacks a file index. */
  lemma LibraryUnanchoredOf(hashes: seq<BlockHash>)
    requires forall i :: 0 <= i < |hashes| ==> Unanchored(hashes[i])
    ensures LibraryUnanchored(LibraryOf(hashes))
  {
    LibraryMembership(hashes);
    forall k, i | k in LibraryOf(hashes) && 0 <= i < |LibraryOf(hashes)[k]|
      ensures LibraryOf(hashes)[k][i].fileIndex.None?
    {
      LibraryIsGrouping(hashes);
      WithWeakMembers(hashes, k);
      var h := LibraryOf(hashes)[k][i];
      assert h in WithWeak(hashes, k);
      var j :| 0 <= j < |hashes| && hashes[j] == h;
    }
  }

  // ---------------------------------------------------------------------------
  // Properties

  /** The three counters the source keeps apart always agree: the owed bytes start where the
      window starts. */
  predicate Settled(st: Scan)
  {
    st.owedTail == st.tail && st.owedHead == st.tail
  }

  predicate AllRanges(ops: seq<SyncOperation>)
  {
    forall k :: 0 <= k < |ops| ==> ops[k].BlockRange?
  }

  /** A turn from a settled state leaves it settled and writes nothing but block ranges: the
      owed data written on a match and the 4 MiB flush are never reached. */
  lemma StepSettled(ctx: Context, data: seq<byte>, st: Scan)
    requires ScanFits(st, |data|) && st.head < |data| && Settled(st)
    ensures var r := DiffStep(ctx, data, st);
            r.Ok? ==> Settled(r.value) && st.ops <= r.value.ops && AllRanges(r.value.ops[|st.ops|..])
  {
  }

  /** The whole scan of a file, from a settled state, stays settled and writes only block
      ranges. */
  lemma {:induction false} ScanSettled(ctx: Context, data: seq<byte>, st: Scan, fuel: nat)
    requires ScanFits(st, |data|) && Settled(st)
    ensures var r := ScanFrom(ctx, data, st, fuel);
            r.Ok? ==> Settled(r.value) && st.ops <= r.value.ops && AllRanges(r.value.ops[|st.ops|..])
    decreases fuel
  {
    if st.head < |data| && fuel > 0 {
      var next := DiffStep(ctx, data, st);
      if next.Ok? {
        StepSettled(ctx, data, st);
        ScanSettled(ctx, data, next.value, fuel - 1);
        var r := ScanFrom(ctx, data, st, fuel);
        if r.Ok? {
          RangesTrans(st.ops, next.value.ops, r.value.ops);
        }
      }
    }
  }

  lemma RangesTrans(a: seq<SyncOperation>, b: seq<SyncOperation>, c: seq<SyncOperation>)
    requires a <= b <= c && AllRanges(b[|a|..]) && AllRanges(c[|b|..])
    ensures a <= c && AllRanges(c[|a|..])
  {
    forall k | |a| <= k < |c| ensures c[k].BlockRange? {
      if k < |b| {
        assert c[k] == b[k] && b[k] == b[|a|..][k - |a|];
      } else {
        assert c[k] == c[|b|..][k - |b|];
      }
    }
  }

  /** The operations of one file: `startFile` with the file's index, block ranges, at most one
      data operation, just before the end, holding the last bytes of the file, and
      `heyYouDidIt`. */
  predicate FileShaped(ops: seq<SyncOperation>, fileIndex: i64, data: seq<byte>)
  {
    |ops| >= 2 && ops[0] == StartFile(RsyncAlgorithm, fileIndex) && ops[|ops| - 1] == HeyYouDidIt
    && forall k :: 1 <= k < |ops| - 1 ==>
         ops[k].BlockRange?
         || (k == |ops| - 2 && ops[k].DataOp? && 0 < |ops[k].data| <= |data|
             && ops[k].data == data[|data| - |ops[k].data|..])
  }

  /** Every file's operations are shaped so. */
  lemma FileOpsShape(library: Library, md5: Digest, targetFiles: seq<File>, source: string, tree: Tree,
                     file: File, fileIndex: i64, roll: RollState, fuel: nat)
    requires Inv(roll)
    ensures var r := FileOps(library, md5, targetFiles, source, tree, file, fileIndex, roll, fuel);
            var read := ReadFile(tree, FilePath(Some(source), file.name));
            r.Ok? ==> read.Ok? && FileShaped(r.value.0, fileIndex, read.value)
  {
    var r := FileOps(library, md5, targetFiles, source, tree, file, fileIndex, roll, fuel);
    if r.Ok? {
      var data := ReadFile(tree, FilePath(Some(source), file.name)).value;
      var ctx := FileContext(library, md5, targetFiles, source, file);
      var start := StartScan(fileIndex, roll);
      ScanSettled(ctx, data, start, fuel);
      var end := ScanFrom(ctx, data, start, fuel).value;
      var ops := r.value.0;
      var body := Finish(ctx, data, end).value;
      assert ops == body;
      assert end.ops[0] == StartFile(RsyncAlgorithm, fileIndex);
      forall k | 1 <= k < |end.ops| ensures end.ops[k].BlockRange? {
        assert end.ops[k] == end.ops[1..][k - 1];
      }
      var n := |body| - 1;
      assert body[..n] == end.ops || body[..n] == end.ops + [DataOp(data[end.owedTail..])]
             || (|body[..n]| == |end.ops| + 1 && body[..n][|end.ops|].BlockRange?);
      forall k | 1 <= k < |ops| - 1
        ensures ops[k].BlockRange?
                || (k == |ops| - 2 && ops[k].DataOp? && 0 < |ops[k].data| <= |data|
                    && ops[k].data == data[|data| - |ops[k].data|..])
      {
        assert ops[k] == body[..n][k];
        if k < |end.ops| {
          assert body[..n][k] == end.ops[k];
        }
      }
    }
  }

  /** A file's operations after its header slot: block ranges and data operations, then
      `heyYouDidIt`; followed by the later files, the decoder reads them all. */
  lemma {:induction false} BracketedBody(mid: seq<SyncOperation>, rest: seq<SyncOperation>)
    requires forall k :: 0 <= k < |mid| ==> mid[k].BlockRange? || mid[k].DataOp?
    requires Bracketed(rest, true)
    ensures Bracketed(mid + [HeyYouDidIt] + rest, false)
  {
    var ops := mid + [HeyYouDidIt] + rest;
    if |mid| == 0 {
      assert ops[1..] == rest;
    } else {
      assert ops[1..] == mid[1..] + [HeyYouDidIt] + rest;
      BracketedBody(mid[1..], rest);
    }
  }

  lemma {:induction false} FilesBracketed(library: Library, md5: Digest, targetFiles: seq<File>, source: string,
                                          tree: Tree, files: seq<File>, i: nat, roll: RollState, fuel: nat)
    requires Inv(roll) && i <= |files| < 0x8000_0000_0000_0000
    ensures var r := FilesOps(library, md5, targetFiles, source, tree, files, i, roll, fuel);
            r.Ok? ==> Bracketed(r.value, true)
    decreases |files| - i
  {
    if i < |files| {
      var file := FileOps(library, md5, targetFiles, source, tree, files[i], i as i64, roll, fuel);
      FilesOpsStep(library, md5, targetFiles, source, tree, files, i, roll, fuel);
      if file.Ok? {
        var rest := FilesOps(library, md5, targetFiles, source, tree, files, i + 1, file.value.1, fuel);
        FileOpsShape(library, md5, targetFiles, source, tree, files[i], i as i64, roll, fuel);
        FilesBracketed(library, md5, targetFiles, source, tree, files, i + 1, file.value.1, fuel);
        if rest.Ok? {
          ShapedBracketed(file.value.0, i as i64, ReadFile(tree, FilePath(Some(source), files[i].name)).value, rest.value);
        }
      }
    }
  }

  lemma ShapedBracketed(ops: seq<SyncOperation>, fileIndex: i64, data: seq<byte>, rest: seq<SyncOperation>)
    requires FileShaped(ops, fileIndex, data) && Bracketed(rest, true)
    ensures Bracketed(ops + rest, true)
  {
    var mid := ops[1..|ops| - 1];
    forall k | 0 <= k < |mid| ensures mid[k].BlockRange? || mid[k].DataOp? {
      assert mid[k] == ops[k + 1];
    }
    BracketedBody(mid, rest);
    assert (ops + rest)[1..] == mid + [HeyYouDidIt] + rest;
  }

  /** The diff's operations are laid out as the patch decoder reads them. */
  lemma DiffBracketed(target: WharfSignature, source: string, sourceContainer: Container, tree: Tree,
                      md5: Digest, fuel: nat)
    requires |sourceContainer.files| < 0x8000_0000_0000_0000
    ensures var r := DiffSpec(target, source, sourceContainer, tree, md5, fuel);
            r.Ok? ==> Bracketed(r.value.syncOps, true)
  {
    FilesBracketed(LibraryOf(target.blockHashes), md5, target.container.files, source, tree,
                   sourceContainer.files, 0, Initial(), fuel);
  }

  /** The file indices the `startFile` operations carry, in order. */
  function StartIndices(ops: seq<SyncOperation>): (r: seq<int>)
    ensures |r| <= |ops|
  {
    if |ops| == 0 then []
    else (if ops[0].StartFile? then [ops[0].fileIndex as int] else []) + StartIndices(ops[1..])
  }

  lemma {:induction false} StartIndicesAppend(a: seq<SyncOperation>, b: seq<SyncOperation>)
    ensures StartIndices(a + b) == StartIndices(a) + StartIndices(b)
  {
    if |a| > 0 {
      assert (a + b)[1..] == a[1..] + b;
      StartIndicesAppend(a[1..], b);
    } else {
      assert a + b == b;
    }
  }

  lemma {:induction false} NoStarts(ops: seq<SyncOperation>)
    requires forall k :: 0 <= k < |ops| ==> !ops[k].StartFile?
    ensures StartIndices(ops) == []
  {
    if |ops| > 0 {
      NoStarts(ops[1..]);
    }
  }

  /** Every source file from `i` on contributes exactly one `startFile`, carrying its index,
      in container order. */
  lemma {:induction false} FilesStartIndices(library: Library, md5: Digest, targetFiles: seq<File>, source: string,
                                             tree: Tree, files: seq<File>, i: nat, roll: RollState, fuel: nat)
    requires Inv(roll) && i <= |files| < 0x8000_0000_0000_0000
    ensures var r := FilesOps(library, md5, targetFiles, source, tree, files, i, roll, fuel);
            r.Ok? ==> StartIndices(r.value) == seq(|files| - i, k => i + k)
    decreases |files| - i
  {
    if i < |files| {
      var file := FileOps(library, md5, targetFiles, source, tree, files[i], i as i64, roll, fuel);
      FilesOpsStep(library, md5, targetFiles, source, tree, files, i, roll, fuel);
      if file.Ok? {
        var rest := FilesOps(library, md5, targetFiles, source, tree, files, i + 1, file.value.1, fuel);
        FileStartIndex(library, md5, targetFiles, source, tree, files[i], i as i64, roll, fuel);
        FilesStartIndices(library, md5, targetFiles, source, tree, files, i + 1, file.value.1, fuel);
        if rest.Ok? {
          StartsJoin(file.value.0, rest.value, i, |files| - (i + 1));
        }
      }
    }
  }

  /** One file's operations hold exactly one `startFile`, carrying its index. */
  lemma FileStartIndex(library: Library, md5: Digest, targetFiles: seq<File>, source: string, tree: Tree,
                       file: File, fileIndex: i64, roll: RollState, fuel: nat)
    requires Inv(roll)
    ensures var r := FileOps(library, md5, targetFiles, source, tree, file, fileIndex, roll, fuel);
            r.Ok? ==> StartIndices(r.value.0) == [fileIndex as int]
  {
    var r := FileOps(library, md5, targetFiles, source, tree, file, fileIndex, roll, fuel);
    FileOpsShape(library, md5, targetFiles, source, tree, file, fileIndex, roll, fuel);
    if r.Ok? {
      ShapedStartIndices(r.value.0, fileIndex, ReadFile(tree, FilePath(Some(source), file.name)).value);
    }
  }

  lemma StartsJoin(ops: seq<SyncOperation>, rest: seq<SyncOperation>, i: int, n: nat)
    requires StartIndices(ops) == [i] && StartIndices(rest) == seq(n, k => i + 1 + k)
    ensures StartIndices(ops + rest) == seq(n + 1, k => i + k)
  {
    StartIndicesAppend(ops, rest);
    CountFrom(n, i);
  }

  lemma ShapedStartIndices(ops: seq<SyncOperation>, fileIndex: i64, data: seq<byte>)
    requires FileShaped(ops, fileIndex, data)
    ensures StartIndices(ops) == [fileIndex as int]
  {
    forall k | 0 <= k < |ops[1..]| ensures !ops[1..][k].StartFile? {
      assert ops[1..][k] == ops[k + 1];
    }
    NoStarts(ops[1..]);
  }

  lemma CountFrom(n: nat, i: int)
    ensures seq(n + 1, k => i + k) == [i] + seq(n, k => i + 1 + k)
  {
  }

  /** Every file of the source container, and only these, starts its operations, in container
      order. */
  lemma DiffStartIndices(target: WharfSignature, source: string, sourceContainer: Container, tree: Tree,
                         md5: Digest, fuel: nat)
    requires |sourceContainer.files| < 0x8000_0000_0000_0000
    ensures var r := DiffSpec(target, source, sourceContainer, tree, md5, fuel);
            r.Ok? ==> StartIndices(r.value.syncOps) == seq(|sourceContainer.files|, k => k)
  {
    FilesStartIndices(LibraryOf(target.blockHashes), md5, target.container.files, source, tree,
                      sourceContainer.files, 0, Initial(), fuel);
  }

  /** A diff carries transport-default (brotli) compression, and the encoder compresses
      nothing: every diff fails to encode, with `unimplemented` when its sizes fit. */
  lemma DiffNeverEncodes(wire: Wire, target: WharfSignature, source: string, sourceContainer: Container,
                         tree: Tree, md5: Digest, fuel: nat)
    requires |sourceContainer.files| < 0x8000_0000_0000_0000
    ensures var r := DiffSpec(target, source, sourceContainer, tree, md5, fuel);
            r.Ok? ==> Patches.Encode(wire, r.value).Err?
                      && (Patches.BodyMessages(wire, r.value).Ok?
                          && |HeaderBytes(wire, Patch, r.value.header)| <= 255
                          && AllFit(Patches.BodyMessages(wire, r.value).value)
                          ==> Patches.Encode(wire, r.value) == Err(Thrown(Unimplemented)))
  {
  }

  /** A source container without files gives a patch without operations. */
  lemma EmptySourceDiff(target: WharfSignature, source: string, sourceContainer: Container, tree: Tree,
                        md5: Digest, fuel: nat)
    requires |sourceContainer.files| == 0
    ensures DiffSpec(target, source, sourceContainer, tree, md5, fuel)
            == Ok(WharfPatch(FileHeader(TransportDefault), target.container, sourceContainer, []))
  {
  }

  /** An empty source file gives just its `startFile` and `heyYouDidIt`. */
  lemma EmptyFileOps(library: Library, md5: Digest, targetFiles: seq<File>, source: string, tree: Tree,
                     file: File, fileIndex: i64, roll: RollState, fuel: nat)
    requires Inv(roll)
    requires ReadFile(tree, FilePath(Some(source), file.name)) == Ok([])
    ensures FileOps(library, md5, targetFiles, source, tree, file, fileIndex, roll, fuel)
            == Ok(([StartFile(RsyncAlgorithm, fileIndex), HeyYouDidIt], ResetState(roll)))
  {
    var ctx := FileContext(library, md5, targetFiles, source, file);
    var start := StartScan(fileIndex, roll);
    assert ScanFrom(ctx, [], start, fuel) == Ok(start);
    assert [StartFile(RsyncAlgorithm, fileIndex)] + [HeyYouDidIt] == [StartFile(RsyncAlgorithm, fileIndex), HeyYouDidIt];
  }

  // ---------------------------------------------------------------------------
  // Against an anchored library, the corrected half of the finding on lines 256, 274, 316
  // and 327

  /** The last operation, when it is a block range, ends within `Int`. */
  predicate LastFits(ops: seq<SyncOperation>)
  {
    |ops| > 0 && ops[|ops| - 1].BlockRange? ==>
      -0x8000_0000_0000_0000 <= ops[|ops| - 1].blockIndex + ops[|ops| - 1].blockSpan < 0x8000_0000_0000_0000
  }

  /** With anchored candidates the sort never traps. */
  lemma AnchoredSelect(candidates: seq<BlockHash>, strong: seq<byte>, preferred: int)
    requires AllAnchored(candidates)
    ensures Select(candidates, strong, preferred).Ok?
  {
    forall c | c in Others(candidates, preferred) ensures c.fileIndex.Some? {
      var i :| 0 <= i < |candidates| && candidates[i] == c;
    }
  }

  /** With an anchored library a turn never traps, and a strong match of the window is written
      as a block range, the window restarting at `head`. */
  lemma AnchoredAdvance(ctx: Context, data: seq<byte>, st: Scan, roll: RollState)
    requires LibraryAnchored(ctx.library) && ScanFits(st, |data|) && st.head < |data| && Inv(roll)
    requires LastFits(st.ops)
    ensures Advance(ctx, data, st, roll).Ok?
    ensures var weak := HashOf(roll) as u32;
            weak in ctx.library
            && (exists c :: c in ctx.library[weak] && c.strongHash == ctx.md5(data[st.tail..st.head]))
            ==> var r := Advance(ctx, data, st, roll).value;
                r.tail == st.head && |r.ops| > 0 && r.ops[|r.ops| - 1].BlockRange?
  {
    var weak := HashOf(roll) as u32;
    if weak in ctx.library {
      var strong := ctx.md5(data[st.tail..st.head]);
      AnchoredSelect(ctx.library[weak], strong, ctx.preferred);
      var found := Select(ctx.library[weak], strong, ctx.preferred);
      if found.value.Some? {
        AnchoredMember(ctx.library[weak], found.value.value);
      }
    }
  }

  /** With an anchored library a remainder matching a library entry is written as a block
      range before `heyYouDidIt`. */
  lemma AnchoredFinish(ctx: Context, data: seq<byte>, st: Scan)
    requires LibraryAnchored(ctx.library) && 0 <= st.owedTail < |data| && LastFits(st.ops)
    requires Matched(ctx.library, ctx.md5, data[st.owedTail..])
    ensures var r := Finish(ctx, data, st);
            r.Ok? && |r.value| >= 2 && r.value[|r.value| - 2].BlockRange? && r.value[|r.value| - 1] == HeyYouDidIt
  {
    var remaining := data[st.owedTail..];
    var candidates := ctx.library[ImmediateHash(remaining).value as u32];
    AnchoredSelect(candidates, ctx.md5(remaining), ctx.preferred);
    var m := Select(candidates, ctx.md5(remaining), ctx.preferred).value.value;
    AnchoredMember(candidates, m);
    FinishMatch(ctx, data, st, m);
  }

  lemma AnchoredMember(candidates: seq<BlockHash>, m: BlockHash)
    requires AllAnchored(candidates) && m in candidates
    ensures Placed(m)
  {
    var i :| 0 <= i < |candidates| && candidates[i] == m;
  }

  /** `Finish` when the remainder's candidates select `m`. */
  lemma FinishMatch(ctx: Context, data: seq<byte>, st: Scan, m: BlockHash)
    requires 0 <= st.owedTail < |data| && ImmediateHash(data[st.owedTail..]).Ok?
    requires var weak := ImmediateHash(data[st.owedTail..]).value as u32;
             weak in ctx.library
             && Select(ctx.library[weak], ctx.md5(data[st.owedTail..]), ctx.preferred) == Ok(Some(m))
    ensures var e := EmitMatch(st.ops, m);
            Finish(ctx, data, st) == if e.Ok? then Ok(e.value + [HeyYouDidIt]) else Err(e.failure)
  {
  }

  // ---------------------------------------------------------------------------
  // Against a signature without anchors (lines 250-258, 271-275, 310-318 and 323-328)

  /** Without file indices the comparator's unwrap traps as soon as there are two candidates;
      a single candidate is never compared. */
  lemma UnanchoredSelect(candidates: seq<BlockHash>, strong: seq<byte>, preferred: int)
    requires forall i :: 0 <= i < |candidates| ==> candidates[i].fileIndex.None?
    ensures Select(candidates, strong, preferred)
            == if |candidates| >= 2 then Err(Trap) else Ok(LowestMatch(candidates, strong))
  {
    OthersAll(candidates, preferred);
    if |candidates| >= 2 {
      assert candidates[0] in Others(candidates, preferred);
    }
  }

  lemma {:induction false} OthersAll(candidates: seq<BlockHash>, preferred: int)
    requires forall i :: 0 <= i < |candidates| ==> !FromFile(candidates[i], preferred)
    ensures Others(candidates, preferred) == candidates
  {
    if |candidates| > 0 {
      OthersAll(candidates[1..], preferred);
    }
  }

  /** Whether a library entry under the weak hash of `bytes` has the strong hash of `bytes`. */
  predicate Matched(library: Library, md5: Digest, bytes: seq<byte>)
  {
    ImmediateHash(bytes).Ok? && ImmediateHash(bytes).value as u32 in library
    && exists c :: c in library[ImmediateHash(bytes).value as u32] && c.strongHash == md5(bytes)
  }

  /** With such a library a turn writes nothing and moves no owed counter: a strong match of
      the window traps. */
  lemma UnanchoredAdvance(ctx: Context, data: seq<byte>, st: Scan, roll: RollState)
    requires LibraryUnanchored(ctx.library) && ScanFits(st, |data|) && st.head < |data| && Inv(roll)
    ensures var r := Advance(ctx, data, st, roll);
            r.Ok? ==> r.value.ops == st.ops && r.value.owedTail == st.owedTail
                      && r.value.owedHead == st.owedHead && r.value.tail == st.tail
    ensures var weak := HashOf(roll) as u32;
            weak in ctx.library
            && (exists c :: c in ctx.library[weak] && c.strongHash == ctx.md5(data[st.tail..st.head]))
            ==> Advance(ctx, data, st, roll) == Err(Trap)
  {
    var weak := HashOf(roll) as u32;
    if weak in ctx.library {
      var found := Select(ctx.library[weak], ctx.md5(data[st.tail..st.head]), ctx.preferred);
      if found.Ok? && found.value.Some? {
        var m := found.value.value;
        var i :| 0 <= i < |ctx.library[weak]| && ctx.library[weak][i] == m;
      }
    }
  }

  /** The scan of a file writes nothing and owes nothing new. */
  lemma {:induction false} UnanchoredScan(ctx: Context, data: seq<byte>, st: Scan, fuel: nat)
    requires LibraryUnanchored(ctx.library) && ScanFits(st, |data|) && st.owedHead - st.owedTail <= OwedMax
    ensures var r := ScanFrom(ctx, data, st, fuel);
            r.Ok? ==> r.value.ops == st.ops && r.value.owedTail == st.owedTail
    decreases fuel
  {
    if st.head < |data| && fuel > 0 {
      var stepped := Step(st.roll, data[st.head]);
      if stepped.Ok? {
        UnanchoredAdvance(ctx, data, st, stepped.value);
        var next := DiffStep(ctx, data, st);
        if next.Ok? {
          UnanchoredScan(ctx, data, next.value, fuel - 1);
        }
      }
    }
  }

  /** A file nothing of which has been written is sent whole as one data operation; it fails
      instead when its bytes match a library entry. */
  lemma UnanchoredFinish(ctx: Context, data: seq<byte>, st: Scan)
    requires LibraryUnanchored(ctx.library) && st.owedTail == 0
    ensures var r := Finish(ctx, data, st);
            r.Ok? ==> r.value == st.ops + (if |data| > 0 then [DataOp(data)] else []) + [HeyYouDidIt]
    ensures 0 < |data| && Matched(ctx.library, ctx.md5, data) ==> Finish(ctx, data, st) == Err(Trap)
  {
    assert data[0..] == data;
    if |data| > 0 && ImmediateHash(data).Ok? && ImmediateHash(data).value as u32 in ctx.library {
      var weak := ImmediateHash(data).value as u32;
      var found := Select(ctx.library[weak], ctx.md5(data), ctx.preferred);
      if found.Ok? && found.value.Some? {
        var m := found.value.value;
        var i :| 0 <= i < |ctx.library[weak]| && ctx.library[weak][i] == m;
      }
    }
  }

  /** A file sent whole: `startFile`, its bytes as one data operation when there are any,
      `heyYouDidIt`. */
  function WholeFile(fileIndex: i64, data: seq<byte>): (r: seq<SyncOperation>)
    ensures |r| == if |data| > 0 then 3 else 2
    ensures r[0] == StartFile(RsyncAlgorithm, fileIndex) && r[|r| - 1] == HeyYouDidIt
    ensures forall k :: 0 < k < |r| - 1 ==> r[k] == DataOp(data)
  {
    [StartFile(RsyncAlgorithm, fileIndex)] + (if |data| > 0 then [DataOp(data)] else []) + [HeyYouDidIt]
  }

  /** Whether source file `file` can be read, is not empty and matches a library entry whole. */
  predicate FileMatched(library: Library, md5: Digest, source: string, tree: Tree, file: File)
  {
    var read := ReadFile(tree, FilePath(Some(source), file.name));
    read.Ok? && 0 < |read.value| && Matched(library, md5, read.value)
  }

  /** Every file's operations, when it succeeds, send the file whole; a file matching a library
      entry whole never succeeds. */
  lemma UnanchoredFileOps(library: Library, md5: Digest, targetFiles: seq<File>, source: string, tree: Tree,
                          file: File, fileIndex: i64, roll: RollState, fuel: nat)
    requires LibraryUnanchored(library) && Inv(roll)
    ensures var r := FileOps(library, md5, targetFiles, source, tree, file, fileIndex, roll, fuel);
            var read := ReadFile(tree, FilePath(Some(source), file.name));
            r.Ok? ==> read.Ok? && r.value.0 == WholeFile(fileIndex, read.value)
    ensures FileMatched(library, md5, source, tree, file)
            ==> FileOps(library, md5, targetFiles, source, tree, file, fileIndex, roll, fuel).Err?
  {
    var read := ReadFile(tree, FilePath(Some(source), file.name));
    if read.Ok? {
      var ctx := FileContext(library, md5, targetFiles, source, file);
      var start := StartScan(fileIndex, roll);
      UnanchoredScan(ctx, read.value, start, fuel);
      var end := ScanFrom(ctx, read.value, start, fuel);
      if end.Ok? {
        UnanchoredFinish(ctx, read.value, end.value);
      }
    }
  }

  /** No operation is a block range. */
  predicate NoRanges(ops: seq<SyncOperation>)
  {
    forall k :: 0 <= k < |ops| ==> !ops[k].BlockRange?
  }

  lemma {:induction false} UnanchoredFiles(library: Library, md5: Digest, targetFiles: seq<File>, source: string,
                                           tree: Tree, files: seq<File>, i: nat, roll: RollState, fuel: nat)
    requires LibraryUnanchored(library) && Inv(roll) && i <= |files| < 0x8000_0000_0000_0000
    ensures var r := FilesOps(library, md5, targetFiles, source, tree, files, i, roll, fuel);
            r.Ok? ==> NoRanges(r.value)
    decreases |files| - i
  {
    if i < |files| {
      var file := FileOps(library, md5, targetFiles, source, tree, files[i], i as i64, roll, fuel);
      FilesOpsStep(library, md5, targetFiles, source, tree, files, i, roll, fuel);
      if file.Ok? {
        UnanchoredFileOps(library, md5, targetFiles, source, tree, files[i], i as i64, roll, fuel);
        var rest := FilesOps(library, md5, targetFiles, source, tree, files, i + 1, file.value.1, fuel);
        UnanchoredFiles(library, md5, targetFiles, source, tree, files, i + 1, file.value.1, fuel);
        if rest.Ok? {
          NoRangesJoin(file.value.0, rest.value);
        }
      }
    }
  }

  /** A file from `i` on that matches a library entry whole makes the files' operations fail. */
  lemma {:induction false} MatchedFileFails(library: Library, md5: Digest, targetFiles: seq<File>, source: string,
                                            tree: Tree, files: seq<File>, i: nat, roll: RollState, fuel: nat, j: nat)
    requires LibraryUnanchored(library) && Inv(roll) && i <= j < |files| < 0x8000_0000_0000_0000
    requires FileMatched(library, md5, source, tree, files[j])
    ensures FilesOps(library, md5, targetFiles, source, tree, files, i, roll, fuel).Err?
    decreases |files| - i
  {
    var file := FileOps(library, md5, targetFiles, source, tree, files[i], i as i64, roll, fuel);
    FilesOpsStep(library, md5, targetFiles, source, tree, files, i, roll, fuel);
    if j == i {
      UnanchoredFileOps(library, md5, targetFiles, source, tree, files[i], i as i64, roll, fuel);
    } else if file.Ok? {
      MatchedFileFails(library, md5, targetFiles, source, tree, files, i + 1, file.value.1, fuel, j);
    }
  }

  lemma NoRangesJoin(a: seq<SyncOperation>, b: seq<SyncOperation>)
    requires NoRanges(a) && NoRanges(b)
    ensures NoRanges(a + b)
  {
    forall k | 0 <= k < |a + b| ensures !(a + b)[k].BlockRange? {
      if k >= |a| {
        assert (a + b)[k] == b[k - |a|];
      }
    }
  }

  /** Against a target whose hashes carry no anchors, as every decoded or signed signature's,
      a diff that succeeds holds no block range: every source file is sent whole. A source file
      matching a library entry whole makes the diff fail. */
  lemma UnanchoredDiff(target: WharfSignature, source: string, sourceContainer: Container, tree: Tree,
                       md5: Digest, fuel: nat)
    requires |sourceContainer.files| < 0x8000_0000_0000_0000
    requires forall i :: 0 <= i < |target.blockHashes| ==> Unanchored(target.blockHashes[i])
    ensures var r := DiffSpec(target, source, sourceContainer, tree, md5, fuel);
            r.Ok? ==> NoRanges(r.value.syncOps)
    ensures (exists j :: 0 <= j < |sourceContainer.files|
                         && FileMatched(LibraryOf(target.blockHashes), md5, source, tree, sourceContainer.files[j]))
            ==> DiffSpec(target, source, sourceContainer, tree, md5, fuel).Err?
  {
    LibraryUnanchoredOf(target.blockHashes);
    UnanchoredFiles(LibraryOf(target.blockHashes), md5, target.container.files, source, tree,
                    sourceContainer.files, 0, Initial(), fuel);
    if j :| 0 <= j < |sourceContainer.files|
            && FileMatched(LibraryOf(target.blockHashes), md5, source, tree, sourceContainer.files[j]) {
      MatchedFileFails(LibraryOf(target.blockHashes), md5, target.container.files, source, tree,
                       sourceContainer.files, 0, Initial(), fuel, j);
    }
  }

  /** A source file identical to a non-empty target file of at most 64 KiB makes the diff
      against the signed target fail: the remainder of the source file is that target file's
      only block, and the block's hash has no file index to write. */
  lemma SignedSmallFileFails(dir: string, targetContainer: Container, targetTree: Tree, target: WharfSignature,
                             source: string, sourceContainer: Container, tree: Tree, md5: Digest, fuel: nat,
                             j: nat, k: nat)
    requires Sign.SignSpec(dir, targetContainer, targetTree, md5) == Ok(target)
    requires |sourceContainer.files| < 0x8000_0000_0000_0000 && j < |sourceContainer.files| && k < |targetContainer.files|
    requires var read := ReadFile(targetTree, Join(dir, targetContainer.files[k].name));
             read.Ok? && 0 < |read.value| <= BlockSize
             && ReadFile(tree, FilePath(Some(source), sourceContainer.files[j].name)) == read
    ensures DiffSpec(target, source, sourceContainer, tree, md5, fuel).Err?
  {
    var data := ReadFile(targetTree, Join(dir, targetContainer.files[k].name)).value;
    Sign.SignShape(dir, targetContainer, targetTree, md5);
    Sign.SignedBlocksHeld(dir, targetContainer.files, targetTree, md5, k);
    BlockHashesAre(data, md5);
    NumBlocksBounds(|data|);
    assert Chunk(data, 0) == data;
    var h := BlockHashes(data, md5)[0];
    assert h in target.blockHashes;
    LibraryMembership(target.blockHashes);
    assert Matched(LibraryOf(target.blockHashes), md5, data);
    assert FileMatched(LibraryOf(target.blockHashes), md5, source, tree, sourceContainer.files[j]);
    UnanchoredDiff(target, source, sourceContainer, tree, md5, fuel);
  }

  /** A diff against a decoded signature, when it succeeds, holds no block range. */
  lemma DecodedTargetNoRanges(wire: Wire, bytes: seq<byte>, target: WharfSignature, source: string,
                              sourceContainer: Container, tree: Tree, md5: Digest, fuel: nat)
    requires Signatures.Decode(wire, bytes) == Ok(target) && |sourceContainer.files| < 0x8000_0000_0000_0000
    ensures var r := DiffSpec(target, source, sourceContainer, tree, md5, fuel);
            r.Ok? ==> NoRanges(r.value.syncOps)
  {
    UnanchoredDiff(target, source, sourceContainer, tree, md5, fuel);
  }
}

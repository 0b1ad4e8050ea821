/** `Quay.apply(patch:old:new:stagingDir:)` (Sources/Quay/Operations/Apply.swift): the staging
    directory is prepared from the patch's source container, the sync operations are replayed
    into it one after the other, and the staged tree is then copied to `new` with the source
    container's symlinks added. Every step works on the one shared file system in place; a
    failure stops the whole apply and leaves what was already done. */
module Apply {
  import opened Shared
  import opened Errors
  import opened Containers
  import opened Blocks
  import opened Patches
  import opened FileSystems

  /** The permission bits of a staging directory that has to be created: 0o755. */
  const StagingPermissions: u32 := 493

  // ---------------------------------------------------------------------------
  // Pre-processing

  /** `prepareDirectory(dir:target:)`: a path that leads nowhere is created, with the missing
      directories on the way to it; a path that leads somewhere has the permissions of what it
      leads to set. A dangling link at the path, and a file or link on the way to it, make
      `createDirectory` fail. */
  function PrepareDirectory(tree: Tree, staging: string, d: Directory): (r: Result<Tree>)
    ensures var path := Join(staging, d.name);
            r.Ok? <==> if path in tree then Exists(tree, path) else Clear(tree, path)
    ensures r.Err? ==> r.failure == IoError
  {
    var path := Join(staging, d.name);
    if !Exists(tree, path) then CreateDirectory(tree, path, d.permissions)
    else SetPermissions(tree, path, d.permissions)
  }

  /** A prepared directory only adds directories, the created ones on the way to its path. */
  lemma PrepareDirectoryGrows(tree: Tree, staging: string, d: Directory)
    requires PrepareDirectory(tree, staging, d).Ok?
    ensures var path, t := Join(staging, d.name), PrepareDirectory(tree, staging, d).value;
            Grown(tree, t) && path in t
            && forall p :: p in t && p !in tree ==> path !in tree && (p == path || Ancestor(p, path))
  {
    var path := Join(staging, d.name);
    if Exists(tree, path) {
      SetPermissionsGrows(tree, path, d.permissions);
    } else {
      CreateDirectoryGrows(tree, path, d.permissions);
    }
  }

  /** A missing path is created with the directory's permissions, as is every missing directory
      on the way to it, and nothing that was there changes; a path that leads somewhere has the
      permissions of the directory it leads to set, and nothing else changes. */
  lemma PrepareDirectoryPlaces(tree: Tree, staging: string, d: Directory)
    requires PrepareDirectory(tree, staging, d).Ok?
    ensures var path, t := Join(staging, d.name), PrepareDirectory(tree, staging, d).value;
            (path !in tree ==>
               path in t && t[path] == DirNode(d.permissions) && Reachable(t, path)
               && (forall p :: p in tree ==> t[p] == tree[p])
               && forall p :: p in t && p !in tree ==> t[p] == DirNode(d.permissions))
            && (path in tree ==>
                  var q := Target(tree, path).value;
                  t.Keys == tree.Keys
                  && t[q] == (if tree[q].DirNode? then DirNode(d.permissions) else tree[q])
                  && forall p :: p in tree && p != q ==> t[p] == tree[p])
  {
  }

  /** The loop over the directories from the `i`-th on; the first failure stops it. */
  function PrepareFrom(tree: Tree, staging: string, dirs: seq<Directory>, i: nat): (Tree, Outcome)
    requires i <= |dirs|
    decreases |dirs| - i
  {
    if i == |dirs| then (tree, Pass)
    else match PrepareDirectory(tree, staging, dirs[i])
      case Err(e) => (tree, Fail(e))
      case Ok(t) => PrepareFrom(t, staging, dirs, i + 1)
  }

  /** `applyPreProcess(container:target:)`: the staging root, then every directory of the
      container; files and symlinks are not prepared. */
  function PreProcessSpec(tree: Tree, staging: string, c: Container): (Tree, Outcome)
  {
    var root := Root(tree, staging);
    if root.Err? then (tree, Fail(root.failure)) else PrepareFrom(root.value, staging, c.directories, 0)
  }

  /** Lines 6-9: the staging root is created, with 0o755, when it leads nowhere. */
  function Root(tree: Tree, staging: string): Result<Tree>
  {
    if Exists(tree, staging) then Ok(tree) else CreateDirectory(tree, staging, StagingPermissions)
  }

  method PreProcess(fs: FileSystem, staging: string, c: Container) returns (o: Outcome)
    modifies fs
    ensures (fs.tree, o) == PreProcessSpec(old(fs.tree), staging, c)
  {
    if !Exists(fs.tree, staging) {
      o := fs.Commit(CreateDirectory(fs.tree, staging, StagingPermissions));
      if o.Fail? {
        return;
      }
    }
    for i := 0 to |c.directories|
      invariant PrepareFrom(fs.tree, staging, c.directories, i) == PreProcessSpec(old(fs.tree), staging, c)
    {
      o := fs.Commit(PrepareDirectory(fs.tree, staging, c.directories[i]));
      if o.Fail? {
        return;
      }
    }
    o := Pass;
  }

  // ---------------------------------------------------------------------------
  // Reading a block range

  /** The bytes a `blockRange` reads as line 82 is written: from `computeBlockSize` of the
      first block through `computeBlockSize` of the block after the range, both ends included.
      A backwards closed range and a range past the end of the data trap. */
  function ReadRangeAsWritten(data: seq<byte>, size: int, blockIndex: int, blockSpan: int): (r: Result<seq<byte>>)
    ensures r.Ok? ==> |r.value| == BlockSizeAt(size, blockIndex + blockSpan) - BlockSizeAt(size, blockIndex) + 1
  {
    var lo := BlockSizeAt(size, blockIndex);
    var hi := BlockSizeAt(size, blockIndex + blockSpan);
    if lo > hi || lo < 0 || hi + 1 > |data| then Err(Trap) else Ok(data[lo..hi + 1])
  }

  /** The bytes a `blockRange` is meant to read: blocks `blockIndex` up to `blockIndex +
      blockSpan`, that is the offsets [blockIndex * 64 Ki, (blockIndex + blockSpan) * 64 Ki),
      the end clipped to the file's recorded size. A range that does not lie within the data
      traps, as `subdata(in:)` does. */
  function ReadRange(data: seq<byte>, size: int, blockIndex: int, blockSpan: int): (r: Result<seq<byte>>)
    ensures r.Ok? <==> 0 <= blockIndex * BlockSize <= Min((blockIndex + blockSpan) * BlockSize, size) <= |data|
    ensures r.Ok? ==> r.value == data[blockIndex * BlockSize..Min((blockIndex + blockSpan) * BlockSize, size)]
  {
    var lo := blockIndex * BlockSize;
    var hi := Min((blockIndex + blockSpan) * BlockSize, size);
    if lo < 0 || lo > hi || hi > |data| then Err(Trap) else Ok(data[lo..hi])
  }

  /** Which read a replay does for a block range: line 82 as written, or the intended one. */
  datatype Reading = AsWritten | Corrected

  function ReadBlocks(reading: Reading, data: seq<byte>, size: int, blockIndex: int, blockSpan: int): Result<seq<byte>>
  {
    match reading
    case AsWritten => ReadRangeAsWritten(data, size, blockIndex, blockSpan)
    case Corrected => ReadRange(data, size, blockIndex, blockSpan)
  }

  // ---------------------------------------------------------------------------
  // The operation loop

  /** `currentFile`: no handle yet, a handle open for writing at a staged path, or a handle
      that `closeFile()` has closed (the variable is never cleared). */
  datatype Handle = NoFile | OpenFile(path: string) | ClosedFile(path: string)

  /** The state the loop carries: the file system and the current handle. */
  datatype Replay = Replay(tree: Tree, handle: Handle)

  /** One pass of the loop body (lines 59-90). */
  function Step(reading: Reading, patch: WharfPatch, oldDir: string, staging: string, st: Replay, op: SyncOperation): Result<Replay>
  {
    match op
    case StartFile(algorithm, fileIndex) =>
      if algorithm == BsdiffAlgorithm then Err(Thrown(Unimplemented))
      else if !(0 <= fileIndex < |patch.sourceContainer.files|) then Err(Trap)
      else
        var path := Join(staging, patch.sourceContainer.files[fileIndex].name);
        var t :- WriteEmpty(st.tree, path);
        Ok(Replay(t, OpenFile(path)))
    case DataOp(data) =>
      if !st.handle.OpenFile? then Err(Trap)
      else
        var t :- AppendBytes(st.tree, st.handle.path, data);
        Ok(st.(tree := t))
    case BlockRange(fileIndex, blockIndex, blockSpan) =>
      if !(0 <= fileIndex < |patch.targetContainer.files|) then Err(Trap)
      else
        var file := patch.targetContainer.files[fileIndex];
        var data :- ReadFile(st.tree, Join(oldDir, file.name));
        var bytes :- ReadBlocks(reading, data, file.size, blockIndex, blockSpan);
        (match st.handle
         case NoFile => Ok(st)
         case ClosedFile(_) => Err(Trap)
         case OpenFile(path) =>
           var t :- AppendBytes(st.tree, path, bytes);
           Ok(st.(tree := t)))
    case HeyYouDidIt =>
      match st.handle
      case NoFile => Err(Trap)
      case OpenFile(path) => Ok(st.(handle := ClosedFile(path)))
      case ClosedFile(_) => Ok(st)
  }

  /** The loop from the `i`-th operation on; the first failure stops it with the state reached. */
  function RunFrom(reading: Reading, patch: WharfPatch, oldDir: string, staging: string, st: Replay, i: nat): (Replay, Outcome)
    decreases |patch.syncOps| - i
  {
    if i >= |patch.syncOps| then (st, Pass)
    else match Step(reading, patch, oldDir, staging, st, patch.syncOps[i])
      case Err(e) => (st, Fail(e))
      case Ok(next) => RunFrom(reading, patch, oldDir, staging, next, i + 1)
  }

  /** One operation, carried out on the file system, reading block ranges as line 82 does. */
  method ApplyOp(fs: FileSystem, patch: WharfPatch, oldDir: string, staging: string, handle: Handle, op: SyncOperation)
    returns (h: Handle, o: Outcome)
    modifies fs
    ensures var r := Step(AsWritten, patch, oldDir, staging, Replay(old(fs.tree), handle), op);
            if r.Ok? then o == Pass && Replay(fs.tree, h) == r.value
            else o == Fail(r.failure) && fs.tree == old(fs.tree) && h == handle
  {
    h := handle;
    match op {
      case StartFile(algorithm, fileIndex) =>
        if algorithm == BsdiffAlgorithm {
          return handle, Fail(Thrown(Unimplemented));
        }
        if !(0 <= fileIndex < |patch.sourceContainer.files|) {
          return handle, Fail(Trap);
        }
        var path := Join(staging, patch.sourceContainer.files[fileIndex].name);
        o := fs.Commit(WriteEmpty(fs.tree, path));
        if o.Pass? {
          h := OpenFile(path);
        }
      case DataOp(data) =>
        if !handle.OpenFile? {
          return handle, Fail(Trap);
        }
        o := fs.Commit(AppendBytes(fs.tree, handle.path, data));
      case BlockRange(fileIndex, blockIndex, blockSpan) =>
        if !(0 <= fileIndex < |patch.targetContainer.files|) {
          return handle, Fail(Trap);
        }
        var file := patch.targetContainer.files[fileIndex];
        var read := ReadFile(fs.tree, Join(oldDir, file.name));
        if read.Err? {
          return handle, Fail(read.failure);
        }
        var bytes := ReadRangeAsWritten(read.value, file.size, blockIndex, blockSpan);
        if bytes.Err? {
          return handle, Fail(bytes.failure);
        }
        match handle {
          case NoFile =>
            o := Pass;
          case ClosedFile(_) =>
            o := Fail(Trap);
          case OpenFile(path) =>
            o := fs.Commit(AppendBytes(fs.tree, path, bytes.value));
        }
      case HeyYouDidIt =>
        match handle {
          case NoFile =>
            o := Fail(Trap);
          case OpenFile(path) =>
            h := ClosedFile(path);
            o := Pass;
          case ClosedFile(_) =>
            o := Pass;
        }
    }
  }

  /** The loop over `patch.syncOps`, starting with no file open. */
  method RunOps(fs: FileSystem, patch: WharfPatch, oldDir: string, staging: string) returns (h: Handle, o: Outcome)
    modifies fs
    ensures (Replay(fs.tree, h), o) == RunFrom(AsWritten, patch, oldDir, staging, Replay(old(fs.tree), NoFile), 0)
  {
    h := NoFile;
    for i := 0 to |patch.syncOps|
      invariant RunFrom(AsWritten, patch, oldDir, staging, Replay(fs.tree, h), i)
                == RunFrom(AsWritten, patch, oldDir, staging, Replay(old(fs.tree), NoFile), 0)
    {
      h, o := ApplyOp(fs, patch, oldDir, staging, h, patch.syncOps[i]);
      if o.Fail? {
        return;
      }
    }
    o := Pass;
  }

  // ---------------------------------------------------------------------------
  // Post-processing

  /** The links from the `i`-th on, each at `new/name` pointing to `new/target`. */
  function LinkFrom(tree: Tree, newDir: string, links: seq<Symlink>, i: nat): (Tree, Outcome)
    requires i <= |links|
    decreases |links| - i
  {
    if i == |links| then (tree, Pass)
    else match CreateSymbolicLink(tree, Join(newDir, links[i].name), Join(newDir, links[i].target))
      case Err(e) => (tree, Fail(e))
      case Ok(t) => LinkFrom(t, newDir, links, i + 1)
  }

  /** Lines 96-116: nothing when `old` and `new` are the same; otherwise `new` is replaced by
      a copy of the staging directory, and the source container's symlinks are added. */
  function PostProcessSpec(tree: Tree, patch: WharfPatch, oldDir: string, newDir: string, staging: string): (Tree, Outcome)
  {
    if oldDir == newDir then (tree, Pass)
    else
      var cleared := if Exists(tree, newDir) then RemoveItem(tree, newDir) else Ok(tree);
      if cleared.Err? then (tree, Fail(cleared.failure))
      else
        var copied := CopyItem(cleared.value, staging, newDir);
        if copied.Err? then (cleared.value, Fail(copied.failure))
        else LinkFrom(copied.value, newDir, patch.sourceContainer.symlinks, 0)
  }

  method PostProcess(fs: FileSystem, patch: WharfPatch, oldDir: string, newDir: string, staging: string)
    returns (o: Outcome)
    modifies fs
    ensures (fs.tree, o) == PostProcessSpec(old(fs.tree), patch, oldDir, newDir, staging)
  {
    if oldDir == newDir {
      return Pass;
    }
    if Exists(fs.tree, newDir) {
      o := fs.Commit(RemoveItem(fs.tree, newDir));
      if o.Fail? {
        return;
      }
    }
    o := fs.Commit(CopyItem(fs.tree, staging, newDir));
    if o.Fail? {
      return;
    }
    var links := patch.sourceContainer.symlinks;
    for i := 0 to |links|
      invariant LinkFrom(fs.tree, newDir, links, i) == PostProcessSpec(old(fs.tree), patch, oldDir, newDir, staging)
    {
      o := fs.Commit(CreateSymbolicLink(fs.tree, Join(newDir, links[i].name), Join(newDir, links[i].target)));
      if o.Fail? {
        return;
      }
    }
    o := Pass;
  }

  // ---------------------------------------------------------------------------
  // The whole operation

  /** `apply(patch:old:new:stagingDir:)` with the staging directory given. */
  function ApplySpec(reading: Reading, patch: WharfPatch, oldDir: string, newDir: string, staging: string, tree: Tree): (Tree, Outcome)
  {
    var (prepared, o1) := PreProcessSpec(tree, staging, patch.sourceContainer);
    if o1.Fail? then (prepared, o1)
    else
      var (replayed, o2) := RunFrom(reading, patch, oldDir, staging, Replay(prepared, NoFile), 0);
      if o2.Fail? then (replayed.tree, o2)
      else PostProcessSpec(replayed.tree, patch, oldDir, newDir, staging)
  }

  method ApplyPatch(fs: FileSystem, patch: WharfPatch, oldDir: string, newDir: string, staging: string)
    returns (o: Outcome)
    modifies fs
    ensures (fs.tree, o) == ApplySpec(AsWritten, patch, oldDir, newDir, staging, old(fs.tree))
  {
    o := PreProcess(fs, staging, patch.sourceContainer);
    if o.Fail? {
      return;
    }
    var h;
    h, o := RunOps(fs, patch, oldDir, staging);
    if o.Fail? {
      return;
    }
    o := PostProcess(fs, patch, oldDir, newDir, staging);
  }

  // ---------------------------------------------------------------------------
  // Properties: pre-processing

  /** The path directory `k` is staged at. */
  function Staged(staging: string, dirs: seq<Directory>, k: nat): string
    requires k < |dirs|
  {
    Join(staging, dirs[k].name)
  }

  /** Every staged path that is in the tree leads somewhere: no dangling link and no cycle. */
  predicate Resolved(tree: Tree, staging: string, dirs: seq<Directory>)
  {
    forall k :: 0 <= k < |dirs| && Staged(staging, dirs, k) in tree ==> Exists(tree, Staged(staging, dirs, k))
  }

  /** No file or link is in the way of a staged path from the `i`-th on that has to be
      created. */
  predicate Unblocked(tree: Tree, staging: string, dirs: seq<Directory>, i: nat)
  {
    forall k :: i <= k < |dirs| ==> Staged(staging, dirs, k) in tree || Clear(tree, Staged(staging, dirs, k))
  }

  /** No staged path is a symbolic link. */
  predicate NoLinks(tree: Tree, staging: string, dirs: seq<Directory>)
  {
    forall k :: 0 <= k < |dirs| && Staged(staging, dirs, k) in tree ==> !tree[Staged(staging, dirs, k)].LinkNode?
  }

  lemma {:induction false} PrepareFromGrows(tree: Tree, staging: string, dirs: seq<Directory>, i: nat)
    requires i <= |dirs|
    ensures Grown(tree, PrepareFrom(tree, staging, dirs, i).0)
    decreases |dirs| - i
  {
    if i < |dirs| && PrepareDirectory(tree, staging, dirs[i]).Ok? {
      var next := PrepareDirectory(tree, staging, dirs[i]).value;
      PrepareDirectoryGrows(tree, staging, dirs[i]);
      PrepareFromGrows(next, staging, dirs, i + 1);
      GrownTransitive(tree, next, PrepareFrom(next, staging, dirs, i + 1).0);
    }
  }

  /** One directory prepared keeps the staged paths resolved and unblocked. */
  lemma PrepareKeepsReady(tree: Tree, staging: string, dirs: seq<Directory>, i: nat)
    requires i < |dirs| && PrepareDirectory(tree, staging, dirs[i]).Ok?
    requires Resolved(tree, staging, dirs) && Unblocked(tree, staging, dirs, i + 1)
    ensures var next := PrepareDirectory(tree, staging, dirs[i]).value;
            Resolved(next, staging, dirs) && Unblocked(next, staging, dirs, i + 1)
  {
    var next := PrepareDirectory(tree, staging, dirs[i]).value;
    PrepareDirectoryGrows(tree, staging, dirs[i]);
    forall k | 0 <= k < |dirs| && Staged(staging, dirs, k) in next
      ensures Exists(next, Staged(staging, dirs, k))
    {
      if Staged(staging, dirs, k) in tree {
        GrownTarget(tree, next, Staged(staging, dirs, k));
      }
    }
    forall k | i + 1 <= k < |dirs|
      ensures Staged(staging, dirs, k) in next || Clear(next, Staged(staging, dirs, k))
    {
      GrownClear(tree, next, Staged(staging, dirs, k));
    }
  }

  /** What one prepared directory created is unblocked in the tree before. */
  lemma PrepareCreatedUnblocked(tree: Tree, staging: string, dirs: seq<Directory>, i: nat)
    requires i < |dirs| && PrepareDirectory(tree, staging, dirs[i]).Ok?
    requires Unblocked(PrepareDirectory(tree, staging, dirs[i]).value, staging, dirs, i + 1)
    ensures Unblocked(tree, staging, dirs, i)
  {
    var next := PrepareDirectory(tree, staging, dirs[i]).value;
    var path := Staged(staging, dirs, i);
    PrepareDirectoryGrows(tree, staging, dirs[i]);
    forall k | i <= k < |dirs|
      ensures Staged(staging, dirs, k) in tree || Clear(tree, Staged(staging, dirs, k))
    {
      var q := Staged(staging, dirs, k);
      if k > i && q !in tree {
        if q in next {
          if q != path {
            ClearAncestor(tree, q, path);
          }
        } else {
          GrownClear(tree, next, q);
        }
      }
    }
  }

  /** The directory loop fails with an I/O error, and passes only when no file or link is in
      the way of a staged path that has to be created. */
  lemma {:induction false} PrepareFromFails(tree: Tree, staging: string, dirs: seq<Directory>, i: nat)
    requires i <= |dirs|
    ensures var o := PrepareFrom(tree, staging, dirs, i).1;
            (o.Fail? ==> o.failure == IoError) && (o == Pass ==> Unblocked(tree, staging, dirs, i))
    decreases |dirs| - i
  {
    if i < |dirs| && PrepareDirectory(tree, staging, dirs[i]).Ok? {
      var next := PrepareDirectory(tree, staging, dirs[i]).value;
      PrepareFromFails(next, staging, dirs, i + 1);
      if PrepareFrom(next, staging, dirs, i + 1).1 == Pass {
        PrepareCreatedUnblocked(tree, staging, dirs, i);
      }
    }
  }

  /** A directory whose staged path leads somewhere, or is unblocked, is prepared. */
  lemma PrepareReadyStep(tree: Tree, staging: string, dirs: seq<Directory>, i: nat)
    requires i < |dirs| && Resolved(tree, staging, dirs) && Unblocked(tree, staging, dirs, i)
    ensures PrepareDirectory(tree, staging, dirs[i]).Ok?
  {
    assert Staged(staging, dirs, i) in tree ==> Exists(tree, Staged(staging, dirs, i));
    assert Staged(staging, dirs, i) in tree || Clear(tree, Staged(staging, dirs, i));
  }

  /** The directory loop passes when every staged path in the tree leads somewhere and nothing
      is in the way of the others. */
  lemma {:induction false} PrepareFromPasses(tree: Tree, staging: string, dirs: seq<Directory>, i: nat)
    requires i <= |dirs|
    ensures Resolved(tree, staging, dirs) && Unblocked(tree, staging, dirs, i) ==> PrepareFrom(tree, staging, dirs, i).1 == Pass
    decreases |dirs| - i
  {
    if i < |dirs| && Resolved(tree, staging, dirs) && Unblocked(tree, staging, dirs, i) {
      PrepareReadyStep(tree, staging, dirs, i);
      var next := PrepareDirectory(tree, staging, dirs[i]).value;
      PrepareKeepsReady(tree, staging, dirs, i);
      PrepareFromPasses(next, staging, dirs, i + 1);
    }
  }

  lemma GrownNoLinks(tree: Tree, t: Tree, staging: string, dirs: seq<Directory>)
    requires Grown(tree, t) && NoLinks(tree, staging, dirs)
    ensures NoLinks(t, staging, dirs)
  {
    forall k | 0 <= k < |dirs| && Staged(staging, dirs, k) in t
      ensures !t[Staged(staging, dirs, k)].LinkNode?
    {
    }
  }

  /** One prepared directory keeps a path that is not staged, and creates only directories on
      the way to the staged path. */
  lemma PrepareKeepsOne(tree: Tree, staging: string, dirs: seq<Directory>, i: nat, p: string)
    requires i < |dirs| && PrepareDirectory(tree, staging, dirs[i]).Ok?
    requires NoLinks(tree, staging, dirs) && p != Staged(staging, dirs, i)
    ensures var next := PrepareDirectory(tree, staging, dirs[i]).value;
            NoLinks(next, staging, dirs)
            && (p in tree ==> p in next && next[p] == tree[p])
            && (p in next && p !in tree ==> next[p].DirNode? && Ancestor(p, Staged(staging, dirs, i)))
  {
    var next := PrepareDirectory(tree, staging, dirs[i]).value;
    PrepareDirectoryGrows(tree, staging, dirs[i]);
    PrepareDirectoryPlaces(tree, staging, dirs[i]);
    GrownNoLinks(tree, next, staging, dirs);
  }

  /** A path that is not staged and was there is left as it was, and what is new is a directory
      on the way to a staged path. Through a staged link the target's bits would change. */
  lemma {:induction false} PrepareFromKeeps(tree: Tree, staging: string, dirs: seq<Directory>, i: nat, p: string)
    requires i <= |dirs| && NoLinks(tree, staging, dirs)
    requires forall k :: i <= k < |dirs| ==> p != Staged(staging, dirs, k)
    ensures var t := PrepareFrom(tree, staging, dirs, i).0;
            (p in tree ==> p in t && t[p] == tree[p])
            && (p in t && p !in tree ==> t[p].DirNode? && exists k :: i <= k < |dirs| && Ancestor(p, Staged(staging, dirs, k)))
    decreases |dirs| - i
  {
    if i < |dirs| && PrepareDirectory(tree, staging, dirs[i]).Ok? {
      var next := PrepareDirectory(tree, staging, dirs[i]).value;
      PrepareKeepsOne(tree, staging, dirs, i, p);
      PrepareFromKeeps(next, staging, dirs, i + 1, p);
      var t := PrepareFrom(next, staging, dirs, i + 1).0;
      if p in t && p !in tree && p in next {
        assert Ancestor(p, Staged(staging, dirs, i));
      }
    }
  }

  /** One prepared directory keeps whether a path holds nothing or a directory. */
  lemma PlacesStep(tree: Tree, staging: string, dirs: seq<Directory>, i: nat, path: string)
    requires i < |dirs| && PrepareDirectory(tree, staging, dirs[i]).Ok? && NoLinks(tree, staging, dirs)
    ensures var next := PrepareDirectory(tree, staging, dirs[i]).value;
            NoLinks(next, staging, dirs)
            && ((path !in next || next[path].DirNode?) <==> (path !in tree || tree[path].DirNode?))
  {
    var next := PrepareDirectory(tree, staging, dirs[i]).value;
    PrepareDirectoryGrows(tree, staging, dirs[i]);
    GrownNoLinks(tree, next, staging, dirs);
  }

  /** The prepared directory's own path: a directory with its permissions unless a file is
      there. */
  lemma PlacesHere(tree: Tree, staging: string, dirs: seq<Directory>, k: nat)
    requires k < |dirs| && PrepareDirectory(tree, staging, dirs[k]).Ok? && NoLinks(tree, staging, dirs)
    ensures var path, next := Staged(staging, dirs, k), PrepareDirectory(tree, staging, dirs[k]).value;
            NoLinks(next, staging, dirs)
            && path in next
            && (next[path].DirNode? <==> path !in tree || tree[path].DirNode?)
            && (next[path].DirNode? ==> next[path] == DirNode(dirs[k].permissions))
  {
    var path, next := Staged(staging, dirs, k), PrepareDirectory(tree, staging, dirs[k]).value;
    PrepareDirectoryGrows(tree, staging, dirs[k]);
    PrepareDirectoryPlaces(tree, staging, dirs[k]);
    GrownNoLinks(tree, next, staging, dirs);
    if path in tree {
      assert !tree[path].LinkNode?;
      assert Target(tree, path) == Some(path);
    }
  }

  /** Directories with different names are staged at different paths. */
  lemma StagedApart(staging: string, dirs: seq<Directory>, k: nat)
    requires k < |dirs| && forall j :: k < j < |dirs| ==> dirs[j].name != dirs[k].name
    ensures forall j :: k < j < |dirs| ==> Staged(staging, dirs, k) != Staged(staging, dirs, j)
  {
    forall j | k < j < |dirs|
      ensures Staged(staging, dirs, k) != Staged(staging, dirs, j)
    {
      var a, b := Staged(staging, dirs, k), Staged(staging, dirs, j);
      assert a[|staging| + 1..] == dirs[k].name && b[|staging| + 1..] == dirs[j].name;
    }
  }

  /** From directory `k` on, its path is placed and then left alone. */
  lemma PlacesAt(tree: Tree, staging: string, dirs: seq<Directory>, k: nat)
    requires k < |dirs| && NoLinks(tree, staging, dirs) && PrepareDirectory(tree, staging, dirs[k]).Ok?
    requires forall j :: k < j < |dirs| ==> dirs[j].name != dirs[k].name
    ensures var path, t := Staged(staging, dirs, k), PrepareFrom(tree, staging, dirs, k).0;
            path in t
            && (t[path].DirNode? <==> path !in tree || tree[path].DirNode?)
            && (t[path].DirNode? ==> t[path] == DirNode(dirs[k].permissions))
  {
    var path, next := Staged(staging, dirs, k), PrepareDirectory(tree, staging, dirs[k]).value;
    assert PrepareFrom(tree, staging, dirs, k).0 == PrepareFrom(next, staging, dirs, k + 1).0;
    PlacesHere(tree, staging, dirs, k);
    StagedApart(staging, dirs, k);
    PrepareFromKeeps(next, staging, dirs, k + 1, path);
    var t := PrepareFrom(next, staging, dirs, k + 1).0;
    assert path in t && t[path] == next[path];
  }

  /** The staged path of directory `k`, when no later directory has the same name and the loop
      passes, ends up a directory with `k`'s permissions exactly when nothing but a directory
      was there. */
  lemma {:induction false} PrepareFromPlaces(tree: Tree, staging: string, dirs: seq<Directory>, i: nat, k: nat)
    requires i <= k < |dirs| && NoLinks(tree, staging, dirs)
    requires forall j :: k < j < |dirs| ==> dirs[j].name != dirs[k].name
    ensures var path, (t, o) := Staged(staging, dirs, k), PrepareFrom(tree, staging, dirs, i);
            o == Pass ==>
              path in t
              && (t[path].DirNode? <==> path !in tree || tree[path].DirNode?)
              && (t[path].DirNode? ==> t[path] == DirNode(dirs[k].permissions))
    decreases |dirs| - i
  {
    var path := Staged(staging, dirs, k);
    if PrepareDirectory(tree, staging, dirs[i]).Ok? {
      var next := PrepareDirectory(tree, staging, dirs[i]).value;
      if i < k {
        PlacesStep(tree, staging, dirs, i, path);
        PrepareFromPlaces(next, staging, dirs, i + 1, k);
      } else {
        PlacesAt(tree, staging, dirs, k);
      }
    }
  }

  /** The staging root can be had: it leads somewhere, or nothing is in the way of creating it. */
  predicate RootReady(tree: Tree, staging: string)
  {
    Exists(tree, staging) || (staging !in tree && Clear(tree, staging))
  }

  /** The staging root is had exactly when it is ready; a new one is a directory, created with
      the directories on the way to it. */
  lemma RootFacts(tree: Tree, staging: string)
    ensures var root := Root(tree, staging);
            (root.Ok? <==> RootReady(tree, staging))
            && (root.Err? ==> root.failure == IoError)
            && (root.Ok? ==>
                  Grown(tree, root.value) && Exists(root.value, staging)
                  && forall p :: p in root.value && p !in tree ==> p == staging || Ancestor(p, staging))
  {
    if !Exists(tree, staging) && CreateDirectory(tree, staging, StagingPermissions).Ok? {
      CreateDirectoryGrows(tree, staging, StagingPermissions);
    }
  }

  /** Adding only the staging root and the directories above it changes nothing about the
      staged paths, which lie below it. */
  lemma RootKeepsStaged(tree: Tree, t: Tree, staging: string, dirs: seq<Directory>)
    requires Grown(tree, t) && forall p :: p in t && p !in tree ==> p == staging || Ancestor(p, staging)
    ensures Unblocked(t, staging, dirs, 0) <==> Unblocked(tree, staging, dirs, 0)
    ensures Resolved(tree, staging, dirs) ==> Resolved(t, staging, dirs)
    ensures NoLinks(tree, staging, dirs) ==> NoLinks(t, staging, dirs)
    ensures forall k :: 0 <= k < |dirs| ==> (Staged(staging, dirs, k) in t <==> Staged(staging, dirs, k) in tree)
  {
    forall k | 0 <= k < |dirs|
      ensures (Staged(staging, dirs, k) in t <==> Staged(staging, dirs, k) in tree)
              && (Clear(t, Staged(staging, dirs, k)) <==> Clear(tree, Staged(staging, dirs, k)))
              && (Staged(staging, dirs, k) in tree && Exists(tree, Staged(staging, dirs, k)) ==> Exists(t, Staged(staging, dirs, k)))
    {
      GrownClear(tree, t, Staged(staging, dirs, k));
      if Staged(staging, dirs, k) in tree && Exists(tree, Staged(staging, dirs, k)) {
        GrownTarget(tree, t, Staged(staging, dirs, k));
      }
    }
  }

  /** Pre-processing fails with an I/O error, and only when the staging root cannot be had, a
      file or a link is in the way of a directory that has to be created, or a staged path
      leads nowhere. */
  lemma PreProcessPasses(tree: Tree, staging: string, c: Container)
    ensures var o, dirs := PreProcessSpec(tree, staging, c).1, c.directories;
            (o.Fail? ==> o.failure == IoError)
            && (o == Pass ==> RootReady(tree, staging) && Unblocked(tree, staging, dirs, 0))
            && (RootReady(tree, staging) && Resolved(tree, staging, dirs) && Unblocked(tree, staging, dirs, 0) ==> o == Pass)
  {
    RootFacts(tree, staging);
    if RootReady(tree, staging) {
      var root := Root(tree, staging).value;
      RootKeepsStaged(tree, root, staging, c.directories);
      PrepareFromFails(root, staging, c.directories, 0);
      PrepareFromPasses(root, staging, c.directories, 0);
    }
  }

  /** A staging root that is a regular file blocks the first directory. */
  lemma StagingFileBlocks(tree: Tree, staging: string, c: Container)
    requires |staging| > 0 && staging in tree && tree[staging].FileNode?
    requires |c.directories| > 0 && Join(staging, c.directories[0].name) !in tree
    ensures PreProcessSpec(tree, staging, c) == (tree, Fail(IoError))
  {
    assert Ancestor(staging, Join(staging, c.directories[0].name));
  }

  /** A dangling link at the first directory's place makes `createDirectory` fail. */
  lemma DanglingLinkFails(tree: Tree, staging: string, c: Container)
    requires Exists(tree, staging) && |c.directories| > 0
    requires var path := Join(staging, c.directories[0].name);
             path in tree && tree[path].LinkNode? && tree[path].destination !in tree
    ensures PreProcessSpec(tree, staging, c) == (tree, Fail(IoError))
  {
  }

  /** After pre-processing passes, the staging root leads somewhere, and every directory of
      the container (the last of any with the same name) is a directory with its recorded
      permissions unless a file was already at its place. */
  lemma PreProcessPlaces(tree: Tree, staging: string, c: Container, k: nat)
    requires k < |c.directories| && NoLinks(tree, staging, c.directories)
    requires forall j :: k < j < |c.directories| ==> c.directories[j].name != c.directories[k].name
    ensures var (t, o) := PreProcessSpec(tree, staging, c);
            var path := Staged(staging, c.directories, k);
            o == Pass ==>
              Exists(t, staging)
              && path in t
              && (t[path].DirNode? <==> path !in tree || tree[path].DirNode?)
              && (t[path].DirNode? ==> t[path] == DirNode(c.directories[k].permissions))
  {
    var dirs := c.directories;
    RootFacts(tree, staging);
    if RootReady(tree, staging) {
      var root := Root(tree, staging).value;
      RootKeepsStaged(tree, root, staging, dirs);
      PrepareFromGrows(root, staging, dirs, 0);
      PrepareFromPlaces(root, staging, dirs, 0, k);
      GrownTarget(root, PrepareFrom(root, staging, dirs, 0).0, staging);
    }
  }

  /** Pre-processing leaves every entry that is not a staged path as it was, and what it adds
      is a directory: the staging root, or one on the way to it or to a staged path. */
  lemma PreProcessKeeps(tree: Tree, staging: string, c: Container, p: string)
    requires NoLinks(tree, staging, c.directories)
    requires forall j :: 0 <= j < |c.directories| ==> p != Staged(staging, c.directories, j)
    ensures var t, dirs := PreProcessSpec(tree, staging, c).0, c.directories;
            (p in tree ==> p in t && t[p] == tree[p])
            && (p in t && p !in tree ==>
                  t[p].DirNode?
                  && (p == staging || Ancestor(p, staging) || exists j :: 0 <= j < |dirs| && Ancestor(p, Staged(staging, dirs, j))))
  {
    var dirs := c.directories;
    RootFacts(tree, staging);
    if RootReady(tree, staging) {
      var root := Root(tree, staging).value;
      RootKeepsStaged(tree, root, staging, dirs);
      PrepareFromKeeps(root, staging, dirs, 0, p);
    }
  }

  // ---------------------------------------------------------------------------
  // Properties: reading a block range

  /** Reading about all of a file's blocks gives the whole file. */
  lemma ReadRangeWhole(data: seq<byte>)
    ensures ReadRange(data, |data|, 0, NumBlocks(|data|)) == Ok(data)
  {
    NumBlocksBounds(|data|);
    assert Min((0 + NumBlocks(|data|)) * BlockSize, |data|) == |data|;
    assert data[0..|data|] == data;
  }

  /** Reading one block gives exactly block `b`, the bytes its block hash was computed from. */
  lemma ReadRangeChunk(data: seq<byte>, b: nat)
    requires b < NumBlocks(|data|)
    ensures ReadRange(data, |data|, b, 1) == Ok(Chunk(data, b))
  {
    NumBlocksBounds(|data|);
  }

  /** Two adjacent ranges read what their union reads: a merged block range reproduces the
      bytes of the ranges it was merged from. */
  lemma ReadRangeJoin(data: seq<byte>, size: int, b: int, s1: nat, s2: nat)
    requires ReadRange(data, size, b, s1).Ok? && ReadRange(data, size, b + s1, s2).Ok?
    ensures ReadRange(data, size, b, s1 + s2) == Ok(ReadRange(data, size, b, s1).value + ReadRange(data, size, b + s1, s2).value)
  {
    var lo := b * BlockSize;
    var mid := (b + s1) * BlockSize;
    var hi := Min((b + s1 + s2) * BlockSize, size);
    assert Min(mid, size) == mid || s2 == 0;
    assert data[lo..hi] == data[lo..Min(mid, size)] + data[Min(mid, size)..hi];
  }

  /** As written, the read of a single-block file that is shorter than 64 KiB traps: both
      ends of the closed range are the file's size, one past its last byte. */
  lemma AsWrittenShortFileTraps(data: seq<byte>)
    requires |data| < BlockSize
    ensures ReadRangeAsWritten(data, |data|, 0, 1) == Err(Trap)
    ensures ReadRange(data, |data|, 0, 1) == Ok(data)
  {
    assert BlockSizeAt(|data|, 0) == |data| % BlockSize == |data|;
    assert data[0..|data|] == data;
  }

  /** As written, the first block of a file of two full blocks or more reads one byte. */
  lemma AsWrittenFirstBlockIsOneByte(data: seq<byte>)
    requires |data| >= 2 * BlockSize
    ensures ReadRangeAsWritten(data, |data|, 0, 1) == Ok([data[BlockSize]])
    ensures |ReadRange(data, |data|, 0, 1).value| == BlockSize
  {
    assert BlockSizeAt(|data|, 0) == BlockSize && BlockSizeAt(|data|, 1) == BlockSize;
    assert data[BlockSize..BlockSize + 1] == [data[BlockSize]];
  }

  // ---------------------------------------------------------------------------
  // Properties: the operation loop

  /** A `startFile` with the bsdiff algorithm anywhere ahead stops the loop with a failure. */
  lemma {:induction false} BsdiffStops(reading: Reading, patch: WharfPatch, oldDir: string, staging: string, st: Replay, i: nat, j: nat)
    requires i <= j < |patch.syncOps| && patch.syncOps[j].StartFile? && patch.syncOps[j].algorithm == BsdiffAlgorithm
    ensures RunFrom(reading, patch, oldDir, staging, st, i).1.Fail?
    decreases j - i
  {
    var r := Step(reading, patch, oldDir, staging, st, patch.syncOps[i]);
    if i < j && r.Ok? {
      BsdiffStops(reading, patch, oldDir, staging, r.value, i + 1, j);
    }
  }

  /** The first failure is the outcome, whatever follows: bsdiff is never handled as rsync. */
  lemma BsdiffFirst(reading: Reading, patch: WharfPatch, oldDir: string, staging: string, st: Replay, i: nat)
    requires i < |patch.syncOps| && patch.syncOps[i].StartFile? && patch.syncOps[i].algorithm == BsdiffAlgorithm
    ensures RunFrom(reading, patch, oldDir, staging, st, i) == (st, Fail(Thrown(Unimplemented)))
  {
  }

  /** The staged paths: one per file of the source container. */
  predicate Unstaged(patch: WharfPatch, staging: string, p: string)
  {
    forall k :: 0 <= k < |patch.sourceContainer.files| ==> p != Join(staging, patch.sourceContainer.files[k].name)
  }

  /** One operation changes nothing at a path that is not staged, and opens only staged
      paths. */
  lemma StepKeeps(reading: Reading, patch: WharfPatch, oldDir: string, staging: string, st: Replay, op: SyncOperation, p: string)
    requires Unstaged(patch, staging, p) && (st.handle.OpenFile? ==> st.handle.path != p)
    ensures var r := Step(reading, patch, oldDir, staging, st, op);
            r.Ok? ==> (p in r.value.tree <==> p in st.tree) && (p in st.tree ==> r.value.tree[p] == st.tree[p])
                      && (r.value.handle.OpenFile? ==> r.value.handle.path != p)
  {
  }

  /** The loop writes only staged paths: in particular the old tree's files, when none of
      them is staged, are read and never changed. */
  lemma {:induction false} RunKeeps(reading: Reading, patch: WharfPatch, oldDir: string, staging: string, st: Replay, i: nat, p: string)
    requires Unstaged(patch, staging, p) && (st.handle.OpenFile? ==> st.handle.path != p)
    ensures var t := RunFrom(reading, patch, oldDir, staging, st, i).0.tree;
            (p in t <==> p in st.tree) && (p in st.tree ==> t[p] == st.tree[p])
    decreases |patch.syncOps| - i
  {
    if i < |patch.syncOps| {
      var r := Step(reading, patch, oldDir, staging, st, patch.syncOps[i]);
      StepKeeps(reading, patch, oldDir, staging, st, patch.syncOps[i], p);
      if r.Ok? {
        RunKeeps(reading, patch, oldDir, staging, r.value, i + 1, p);
      }
    }
  }

  /** Data and block ranges append to the open file; a block range with no file open only
      reads; data with no file open, and both on a closed handle, trap. */
  lemma StepWrites(reading: Reading, patch: WharfPatch, oldDir: string, staging: string, st: Replay, op: SyncOperation)
    requires op.DataOp? || op.BlockRange?
    requires st.handle.OpenFile? ==> st.handle.path in st.tree && st.tree[st.handle.path].FileNode?
    ensures var r := Step(reading, patch, oldDir, staging, st, op);
            var bytes := if op.DataOp? then Ok(op.data)
                         else if 0 <= op.sourceFileIndex < |patch.targetContainer.files| then
                           var file := patch.targetContainer.files[op.sourceFileIndex];
                           var read := ReadFile(st.tree, Join(oldDir, file.name));
                           if read.Ok? then ReadBlocks(reading, read.value, file.size, op.blockIndex, op.blockSpan) else Err(read.failure)
                         else Err(Trap);
            (st.handle.OpenFile? ==>
               (r.Ok? <==> bytes.Ok?)
               && (r.Ok? ==> r.value == Replay(st.tree[st.handle.path := FileNode(st.tree[st.handle.path].contents + bytes.value)], st.handle)))
            && (st.handle.NoFile? ==> if op.DataOp? then r == Err(Trap) else (r.Ok? <==> bytes.Ok?) && (r.Ok? ==> r.value == st))
            && (st.handle.ClosedFile? ==> r.Err? && (bytes.Ok? ==> r == Err(Trap)))
  {
  }

  /** `startFile(rsync, i)` leaves the staged file empty and open, unless the directory that
      holds it is missing or a directory is at its place; `heyYouDidIt` closes the open file,
      keeps a closed one, and traps with none. */
  lemma StepBrackets(reading: Reading, patch: WharfPatch, oldDir: string, staging: string, st: Replay, op: SyncOperation)
    requires op.StartFile? || op.HeyYouDidIt?
    ensures var r := Step(reading, patch, oldDir, staging, st, op);
            (op.StartFile? && op.algorithm == RsyncAlgorithm && 0 <= op.fileIndex < |patch.sourceContainer.files| ==>
               var path := Join(staging, patch.sourceContainer.files[op.fileIndex].name);
               (r.Ok? <==> Reachable(st.tree, path) && !(path in st.tree && st.tree[path].DirNode?))
               && (r.Ok? ==> r.value == Replay(st.tree[path := FileNode([])], OpenFile(path))))
            && (op.StartFile? && op.algorithm == RsyncAlgorithm && !(0 <= op.fileIndex < |patch.sourceContainer.files|) ==>
               r == Err(Trap))
            && (op.HeyYouDidIt? ==>
               (st.handle.NoFile? ==> r == Err(Trap))
               && (st.handle.OpenFile? ==> r == Ok(Replay(st.tree, ClosedFile(st.handle.path))))
               && (st.handle.ClosedFile? ==> r == Ok(st)))
  {
  }

  /** The conditions of a file sent whole: `startFile` of the staged path, one block range over
      all of an old file whose recorded size is its length, and `heyYouDidIt`; the staged path
      can hold a file, and the old file is not it. */
  predicate SentWhole(patch: WharfPatch, oldDir: string, staging: string, st: Replay, i: nat,
                      s: i64, f: i64, span: i64, data: seq<byte>)
  {
    i + 3 <= |patch.syncOps|
    && 0 <= s < |patch.sourceContainer.files| && 0 <= f < |patch.targetContainer.files|
    && patch.syncOps[i] == StartFile(RsyncAlgorithm, s) && span as int == NumBlocks(|data|)
    && patch.syncOps[i + 1] == BlockRange(f, 0, span)
    && patch.syncOps[i + 2] == HeyYouDidIt
    && var path, from := Join(staging, patch.sourceContainer.files[s].name), Join(oldDir, patch.targetContainer.files[f].name);
       path != from && Reachable(st.tree, path) && !(path in st.tree && st.tree[path].DirNode?)
       && ReadFile(st.tree, from) == Ok(data)
       && patch.targetContainer.files[f].size == |data|
  }

  /** With the intended read, a file sent whole leaves the staged file equal to the old one,
      and closed. */
  lemma ReplayWholeFile(patch: WharfPatch, oldDir: string, staging: string, st: Replay, i: nat,
                        s: i64, f: i64, span: i64, data: seq<byte>)
    requires SentWhole(patch, oldDir, staging, st, i, s, f, span, data)
    ensures var path := Join(staging, patch.sourceContainer.files[s].name);
            RunFrom(Corrected, patch, oldDir, staging, st, i)
            == RunFrom(Corrected, patch, oldDir, staging, Replay(st.tree[path := FileNode(data)], ClosedFile(path)), i + 3)
  {
    var path := Join(staging, patch.sourceContainer.files[s].name);
    var t0 := st.tree[path := FileNode([])];
    ReadRangeWhole(data);
    assert Step(Corrected, patch, oldDir, staging, st, patch.syncOps[i]) == Ok(Replay(t0, OpenFile(path)));
    var t1 := t0[path := FileNode([] + data)];
    assert [] + data == data;
    assert Step(Corrected, patch, oldDir, staging, Replay(t0, OpenFile(path)), patch.syncOps[i + 1]) == Ok(Replay(t1, OpenFile(path)));
    assert t1 == st.tree[path := FileNode(data)];
    assert RunFrom(Corrected, patch, oldDir, staging, st, i) == RunFrom(Corrected, patch, oldDir, staging, Replay(t0, OpenFile(path)), i + 1);
    assert RunFrom(Corrected, patch, oldDir, staging, Replay(t0, OpenFile(path)), i + 1)
           == RunFrom(Corrected, patch, oldDir, staging, Replay(t1, OpenFile(path)), i + 2);
  }

  /** As written, a file sent whole that is shorter than one block stops the loop with a trap,
      leaving the staged file empty and open. */
  lemma ReplayWholeFileAsWritten(patch: WharfPatch, oldDir: string, staging: string, st: Replay, i: nat,
                                 s: i64, f: i64, span: i64, data: seq<byte>)
    requires SentWhole(patch, oldDir, staging, st, i, s, f, span, data) && 0 < |data| < BlockSize
    ensures var path := Join(staging, patch.sourceContainer.files[s].name);
            RunFrom(AsWritten, patch, oldDir, staging, st, i) == (Replay(st.tree[path := FileNode([])], OpenFile(path)), Fail(Trap))
  {
    var path := Join(staging, patch.sourceContainer.files[s].name);
    var t0 := st.tree[path := FileNode([])];
    NumBlocksBounds(|data|);
    AsWrittenShortFileTraps(data);
    assert Step(AsWritten, patch, oldDir, staging, st, patch.syncOps[i]) == Ok(Replay(t0, OpenFile(path)));
    assert Step(AsWritten, patch, oldDir, staging, Replay(t0, OpenFile(path)), patch.syncOps[i + 1]) == Err(Trap);
  }

  // ---------------------------------------------------------------------------
  // Properties: post-processing

  /** Applying in place does nothing after the loop. */
  lemma InPlaceKeeps(tree: Tree, patch: WharfPatch, dir: string, staging: string)
    ensures PostProcessSpec(tree, patch, dir, dir, staging) == (tree, Pass)
  {
  }

  /** When all links are made, every entry that was there is kept, and every link from the
      `i`-th on is at `new/name`, pointing to `new/target`. */
  lemma {:induction false} LinkFromFacts(tree: Tree, newDir: string, links: seq<Symlink>, i: nat, p: string, k: nat)
    requires i <= |links|
    requires LinkFrom(tree, newDir, links, i).1 == Pass
    ensures var t := LinkFrom(tree, newDir, links, i).0;
            (p in tree ==> p in t && t[p] == tree[p])
            && (i <= k < |links| ==>
                  Join(newDir, links[k].name) in t && t[Join(newDir, links[k].name)] == LinkNode(Join(newDir, links[k].target)))
    decreases |links| - i
  {
    if i < |links| {
      var next := CreateSymbolicLink(tree, Join(newDir, links[i].name), Join(newDir, links[i].target)).value;
      LinkFromFacts(next, newDir, links, i + 1, p, k);
      if k == i {
        LinkFromFacts(next, newDir, links, i + 1, Join(newDir, links[k].name), k);
      }
    }
  }

  /** After a copy to a different `new` that succeeds, every entry of the staging directory
      that is not below `new` is at the same place below `new`, and every source symlink is
      there pointing below `new`. */
  lemma PostProcessFacts(tree: Tree, patch: WharfPatch, oldDir: string, newDir: string, staging: string, p: string, k: nat)
    requires oldDir != newDir && PostProcessSpec(tree, patch, oldDir, newDir, staging).1 == Pass
    ensures var t, links := PostProcessSpec(tree, patch, oldDir, newDir, staging).0, patch.sourceContainer.symlinks;
            (p in tree && Within(p, staging) && !Within(p, newDir) ==>
               Rebase(p, staging, newDir) in t && t[Rebase(p, staging, newDir)] == tree[p])
            && (k < |links| ==>
                  Join(newDir, links[k].name) in t && t[Join(newDir, links[k].name)] == LinkNode(Join(newDir, links[k].target)))
  {
    var cleared := if Exists(tree, newDir) then Removed(tree, newDir) else tree;
    var copied := CopyItem(cleared, staging, newDir).value;
    var links := patch.sourceContainer.symlinks;
    LinkFromFacts(copied, newDir, links, 0, if Within(p, staging) then Rebase(p, staging, newDir) else p, k);
    if p in tree && Within(p, staging) && !Within(p, newDir) {
      CopyItemPlaces(cleared, staging, newDir, p);
    }
  }

  /** Making the links adds no entry but the links themselves. */
  lemma {:induction false} LinkFromOnly(tree: Tree, newDir: string, links: seq<Symlink>, i: nat, q: string)
    requires i <= |links| && q in LinkFrom(tree, newDir, links, i).0
    ensures q in tree || exists k :: i <= k < |links| && q == Join(newDir, links[k].name)
    decreases |links| - i
  {
    if i < |links| {
      var made := CreateSymbolicLink(tree, Join(newDir, links[i].name), Join(newDir, links[i].target));
      if made.Ok? {
        LinkFromOnly(made.value, newDir, links, i + 1, q);
      }
    }
  }

  /** The converse of `PostProcessFacts`: after a copy to a different `new` that succeeds,
      `new` holds nothing but rebased staging entries and the source symlinks, and every path
      outside `new` is as it was. It is stated for trees in which nothing lies below a missing
      `new`, as in any file system, where an entry's directory exists. */
  lemma PostProcessExact(tree: Tree, patch: WharfPatch, oldDir: string, newDir: string, staging: string, q: string)
    requires oldDir != newDir && PostProcessSpec(tree, patch, oldDir, newDir, staging).1 == Pass
    requires newDir !in tree ==> forall r :: r in tree ==> !Within(r, newDir)
    ensures var t, links := PostProcessSpec(tree, patch, oldDir, newDir, staging).0, patch.sourceContainer.symlinks;
            (!Within(q, newDir) ==> (q in t <==> q in tree) && (q in t ==> t[q] == tree[q]))
            && (q in t && Within(q, newDir) ==>
                  (exists p :: p in tree && Within(p, staging) && !Within(p, newDir) && q == Rebase(p, staging, newDir))
                  || (exists k :: 0 <= k < |links| && q == Join(newDir, links[k].name)))
  {
    var links := patch.sourceContainer.symlinks;
    var cleared := if Exists(tree, newDir) then Removed(tree, newDir) else tree;
    var copied := CopyItem(cleared, staging, newDir).value;
    assert copied == cleared + Moved(cleared, staging, newDir);
    ClearedOutside(tree, newDir, cleared);
    if q in LinkFrom(copied, newDir, links, 0).0 {
      LinkFromOnly(copied, newDir, links, 0, q);
    }
    LinkFromFacts(copied, newDir, links, 0, q, 0);
    if !Within(q, newDir) {
      if q in cleared {
        CopyItemKeeps(cleared, staging, newDir, q);
      }
      if q in copied && q !in cleared {
        var p :| p in cleared && Within(p, staging) && q == Rebase(p, staging, newDir);
        RebaseWithin(p, staging, newDir);
      }
    }
  }

  /** What the clearing step keeps: the entries outside `new`, unchanged, and nothing below it
      once a copy to `new` is possible. */
  lemma ClearedOutside(tree: Tree, newDir: string, cleared: Tree)
    requires cleared == if Exists(tree, newDir) then Removed(tree, newDir) else tree
    requires newDir !in tree ==> forall r :: r in tree ==> !Within(r, newDir)
    ensures forall q :: !Within(q, newDir) ==> (q in cleared <==> q in tree) && (q in cleared ==> cleared[q] == tree[q])
    ensures newDir !in cleared ==> forall q :: q in cleared ==> !Within(q, newDir) && q in tree
  {
  }

  // ---------------------------------------------------------------------------
  // Properties: the whole operation

  /** A patch with a bsdiff `startFile` is never applied: the apply fails, and nothing is
      copied to `new`. */
  lemma ApplyBsdiffFails(reading: Reading, patch: WharfPatch, oldDir: string, newDir: string, staging: string, tree: Tree, j: nat)
    requires j < |patch.syncOps| && patch.syncOps[j].StartFile? && patch.syncOps[j].algorithm == BsdiffAlgorithm
    ensures var (prepared, o1) := PreProcessSpec(tree, staging, patch.sourceContainer);
            var (replayed, _) := RunFrom(reading, patch, oldDir, staging, Replay(prepared, NoFile), 0);
            var (t, o) := ApplySpec(reading, patch, oldDir, newDir, staging, tree);
            o.Fail? && t == (if o1.Fail? then prepared else replayed.tree)
  {
    var prepared := PreProcessSpec(tree, staging, patch.sourceContainer).0;
    BsdiffStops(reading, patch, oldDir, staging, Replay(prepared, NoFile), 0, j);
  }
}

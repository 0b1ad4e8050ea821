/** `QuayContainer` and its entries (Sources/Quay/Files/WharfContainer.swift): the directories,
    files and symlinks of a tree, their protobuf records, and the file paths under a root. */
module Containers {
  import opened Shared
  import opened Errors
  import opened Protobuf

  datatype Directory = Directory(name: string, permissions: u32)
  datatype File = File(name: string, permissions: u32, size: i64)
  datatype Symlink = Symlink(name: string, target: string, permissions: u32)

  datatype Container = Container(directories: seq<Directory>, files: seq<File>, symlinks: seq<Symlink>)

  /** `QuayContainer.empty`. */
  const Empty := Container([], [], [])

  /** `mode & 0xFFFF` on a UInt32: the low sixteen bits. */
  function Low16(mode: u32): (r: u32)
    ensures r < 0x1_0000
  {
    mode % 0x1_0000
  }

  /** `permissions | bit` on a UInt32, for the single bits 0x10000 and 0x8000000: the value
      itself when the bit is already set, else the value plus the bit. */
  function WithBit(permissions: u32, bit: int): (r: u32)
    requires bit == 0x1_0000 || bit == 0x800_0000
    ensures r % 0x1_0000 == permissions % 0x1_0000
    ensures (r / bit) % 2 == 1
  {
    if (permissions / bit) % 2 == 1 then permissions else permissions + bit
  }

  /** `Directory.init(protobuf:)`: the mode's low sixteen bits become the permissions. */
  function DirectoryFromPB(pb: PBDir): (d: Directory)
    ensures d.name == pb.path && d.permissions < 0x1_0000 && d.permissions == pb.mode % 0x1_0000
  {
    Directory(pb.path, Low16(pb.mode))
  }

  /** `Directory.protobuf()`: the permissions with the directory bit 0x10000 set. */
  function DirectoryToPB(d: Directory): (pb: PBDir)
    ensures pb.path == d.name && pb.mode % 0x1_0000 == d.permissions % 0x1_0000
    ensures (pb.mode / 0x1_0000) % 2 == 1
  {
    PBDir(d.name, WithBit(d.permissions, 0x1_0000))
  }

  function FileFromPB(pb: PBFile): (f: File)
    ensures f.name == pb.path && f.permissions == pb.mode && f.size == pb.size
  {
    File(pb.path, pb.mode, pb.size)
  }

  /** `File.protobuf()`; the record's offset is left at its default of 0. */
  function FileToPB(f: File): (pb: PBFile)
    ensures pb.path == f.name && pb.mode == f.permissions && pb.size == f.size && pb.offset == 0
  {
    PBFile(f.name, f.permissions, f.size, 0)
  }

  function SymlinkFromPB(pb: PBSymlink): (l: Symlink)
    ensures l.name == pb.path && l.target == pb.dest && l.permissions == pb.mode % 0x1_0000
  {
    Symlink(pb.path, pb.dest, Low16(pb.mode))
  }

  /** `Symlink.protobuf()`: the permissions with the bit 0x8000000 set. */
  function SymlinkToPB(l: Symlink): (pb: PBSymlink)
    ensures pb.path == l.name && pb.dest == l.target && pb.mode % 0x1_0000 == l.permissions % 0x1_0000
    ensures (pb.mode / 0x800_0000) % 2 == 1
  {
    PBSymlink(l.name, WithBit(l.permissions, 0x800_0000), l.target)
  }

  /** `files.reduce(0) { $0 + $1.size }`: a left fold over Int, trapping on overflow. */
  function SizeSum(files: seq<File>): (r: Result<i64>)
    ensures r.Err? ==> r.failure == Trap
  {
    if files == [] then Ok(0)
    else
      var acc :- SizeSum(files[..|files| - 1]);
      var total := acc + files[|files| - 1].size;
      if -0x8000_0000_0000_0000 <= total < 0x8000_0000_0000_0000 then Ok(total) else Err(Trap)
  }

  /** `QuayContainer.init(protobuf:)`: the three lists converted element by element. */
  function ContainerFromPB(pb: PBContainer): (c: Container)
    ensures |c.directories| == |pb.dirs| && |c.files| == |pb.files| && |c.symlinks| == |pb.symlinks|
    ensures forall i :: 0 <= i < |c.directories| ==> c.directories[i] == DirectoryFromPB(pb.dirs[i])
    ensures forall i :: 0 <= i < |c.files| ==> c.files[i] == FileFromPB(pb.files[i])
    ensures forall i :: 0 <= i < |c.symlinks| ==> c.symlinks[i] == SymlinkFromPB(pb.symlinks[i])
  {
    Container(
      seq(|pb.dirs|, i requires 0 <= i < |pb.dirs| => DirectoryFromPB(pb.dirs[i])),
      seq(|pb.files|, i requires 0 <= i < |pb.files| => FileFromPB(pb.files[i])),
      seq(|pb.symlinks|, i requires 0 <= i < |pb.symlinks| => SymlinkFromPB(pb.symlinks[i])))
  }

  /** `QuayContainer.protobuf()`: the lists converted element by element, in order, and the size
      field set to the sum of the file sizes (a trap when the sum overflows Int). */
  function ContainerToPB(c: Container): (r: Result<PBContainer>)
    ensures r.Ok? <==> SizeSum(c.files).Ok?
    ensures r.Ok? ==> r.value.size == SizeSum(c.files).value
    ensures r.Ok? ==> |r.value.dirs| == |c.directories| && |r.value.files| == |c.files| && |r.value.symlinks| == |c.symlinks|
    ensures r.Ok? ==> forall i :: 0 <= i < |c.directories| ==> r.value.dirs[i] == DirectoryToPB(c.directories[i])
    ensures r.Ok? ==> forall i :: 0 <= i < |c.files| ==> r.value.files[i] == FileToPB(c.files[i])
    ensures r.Ok? ==> forall i :: 0 <= i < |c.symlinks| ==> r.value.symlinks[i] == SymlinkToPB(c.symlinks[i])
  {
    var size :- SizeSum(c.files);
    Ok(PBContainer(
      seq(|c.files|, i requires 0 <= i < |c.files| => FileToPB(c.files[i])),
      seq(|c.directories|, i requires 0 <= i < |c.directories| => DirectoryToPB(c.directories[i])),
      seq(|c.symlinks|, i requires 0 <= i < |c.symlinks| => SymlinkToPB(c.symlinks[i])),
      size))
  }

  // ---------------------------------------------------------------------------
  // Round trips

  /** A directory survives its protobuf record exactly when its permissions fit sixteen bits. */
  lemma DirectoryRoundTrip(d: Directory)
    ensures DirectoryFromPB(DirectoryToPB(d)) == d <==> d.permissions < 0x1_0000
  {
  }

  /** A symlink's name and target always survive its record; its permissions exactly when they
      fit sixteen bits. */
  lemma SymlinkRoundTrip(l: Symlink)
    ensures SymlinkFromPB(SymlinkToPB(l)).name == l.name
    ensures SymlinkFromPB(SymlinkToPB(l)).target == l.target
    ensures SymlinkFromPB(SymlinkToPB(l)) == l <==> l.permissions < 0x1_0000
  {
  }

  /** The file record loses nothing. */
  lemma FileRoundTrip(f: File)
    ensures FileFromPB(FileToPB(f)) == f
  {
  }

  predicate PermissionsFit(c: Container)
  {
    (forall d :: d in c.directories ==> d.permissions < 0x1_0000)
    && (forall l :: l in c.symlinks ==> l.permissions < 0x1_0000)
  }

  /** A container whose record can be built survives it exactly when every directory and
      symlink permission fits sixteen bits. */
  lemma ContainerRoundTrip(c: Container)
    requires ContainerToPB(c).Ok?
    ensures ContainerFromPB(ContainerToPB(c).value) == c <==> PermissionsFit(c)
  {
    var c' := ContainerFromPB(ContainerToPB(c).value);
    forall i | 0 <= i < |c.directories| { DirectoryRoundTrip(c.directories[i]); }
    forall i | 0 <= i < |c.symlinks| { SymlinkRoundTrip(c.symlinks[i]); }
    forall i | 0 <= i < |c.files| { FileRoundTrip(c.files[i]); }
    if PermissionsFit(c) {
      assert c'.directories == c.directories;
      assert c'.symlinks == c.symlinks;
      assert c'.files == c.files;
    }
    if c' == c {
      forall d | d in c.directories ensures d.permissions < 0x1_0000 {
        var i :| 0 <= i < |c.directories| && c.directories[i] == d;
        assert c'.directories[i] == d;
      }
      forall l | l in c.symlinks ensures l.permissions < 0x1_0000 {
        var i :| 0 <= i < |c.symlinks| && c.symlinks[i] == l;
        assert c'.symlinks[i] == l;
      }
    }
  }

  /** The sum of the sizes, as unbounded integers. */
  function TotalSize(files: seq<File>): int
  {
    if files == [] then 0 else TotalSize(files[..|files| - 1]) + files[|files| - 1].size
  }

  /** For sizes that are never negative the fold traps only when the total leaves Int64,
      and otherwise yields the total. */
  lemma {:induction false} SizeSumIsTotal(files: seq<File>)
    requires forall f :: f in files ==> f.size >= 0
    ensures SizeSum(files).Ok? <==> TotalSize(files) < 0x8000_0000_0000_0000
    ensures SizeSum(files).Ok? ==> SizeSum(files).value == TotalSize(files)
  {
    if files != [] {
      var init := files[..|files| - 1];
      assert forall f :: f in init ==> f in files;
      SizeSumIsTotal(init);
      TotalSizeGrows(files);
    }
  }

  lemma {:induction false} TotalSizeGrows(files: seq<File>)
    requires files != [] && forall f :: f in files ==> f.size >= 0
    ensures TotalSize(files[..|files| - 1]) <= TotalSize(files)
  {
    assert files[|files| - 1] in files;
  }

  // ---------------------------------------------------------------------------
  // Paths

  /** `root.appendingPathComponent(name).path` for a root path without a trailing slash. */
  function Join(root: string, name: string): (p: string)
    ensures |p| == |root| + 1 + |name| && p[..|root|] == root && p[|root|] == '/' && p[|root| + 1..] == name
  {
    root + "/" + name
  }

  /** The path `iterFiles` builds for one file: under the root when there is one, and the bare
      name (taken relative to the working directory) when there is none. */
  function FilePath(root: Option<string>, name: string): string
  {
    match root
    case Some(r) => Join(r, name)
    case None => name
  }

  /** `iterFiles(_:)`: one path per file, in file order. */
  method IterFiles(c: Container, root: Option<string>) returns (urls: seq<string>)
    ensures |urls| == |c.files|
    ensures forall i :: 0 <= i < |urls| ==> urls[i] == FilePath(root, c.files[i].name)
  {
    urls := [];
    for i := 0 to |c.files|
      invariant |urls| == i
      invariant forall j :: 0 <= j < i ==> urls[j] == FilePath(root, c.files[j].name)
    {
      urls := urls + [FilePath(root, c.files[i].name)];
    }
  }

  /** `empty` has no entries, and its record has no entries and size 0. */
  lemma EmptyRecord()
    ensures ContainerToPB(Empty) == Ok(PBContainer([], [], [], 0))
  {
  }
}

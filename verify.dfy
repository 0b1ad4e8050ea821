/** `Quay.verify(signature:dir:)` (Sources/Quay/Operations/Verify.swift): every directory and
    symlink the signature's container names is looked up under `dir`, and each one missing or
    of the wrong kind, or each symlink pointing elsewhere, is a wound. Files are not checked
    yet, and entries the signature does not name are never looked at. */
module Verify {
  import opened Shared
  import opened Errors
  import opened Containers
  import opened Signatures
  import opened FileSystems

  datatype Wound = DirectoryWound(index: int) | SymlinkWound(index: int) | FileWound(index: int)

  datatype VerificationResult = VerificationResult(wounds: seq<Wound>)

  /** `okay`. */
  predicate Okay(r: VerificationResult)
  {
    |r.wounds| == 0
  }

  /** Line 33-34: a directory resource is there. */
  predicate DirectoryIntact(tree: Tree, path: string)
  {
    path in tree && tree[path].DirNode?
  }

  /** A file URL as `==` compares it: its relative part and the base URL it is relative to,
      if any. */
  datatype FileUrl = FileUrl(base: Option<string>, relative: string)

  /** `URL(fileURLWithPath: destination, relativeTo: dir)`: an absolute destination has no
      base; a relative one keeps `dir` as its base. */
  function UrlRelativeTo(destination: string, dir: string): (u: FileUrl)
    ensures u.relative == destination
    ensures u.base.None? <==> |destination| > 0 && destination[0] == '/'
  {
    if |destination| > 0 && destination[0] == '/' then FileUrl(None, destination) else FileUrl(Some(dir), destination)
  }

  /** `dir.appendingPathComponent(name)`: the joined path, with no base. */
  function Appending(dir: string, name: string): (u: FileUrl)
    ensures u.base.None? && u.relative == Join(dir, name)
  {
    FileUrl(None, Join(dir, name))
  }

  /** Lines 44-48: a symbolic link is there and the URL of its destination, relative to `dir`,
      equals `dir` with the target appended. */
  predicate SymlinkIntact(tree: Tree, dir: string, l: Symlink)
  {
    var path := Join(dir, l.name);
    path in tree && tree[path].LinkNode? && UrlRelativeTo(tree[path].destination, dir) == Appending(dir, l.target)
  }

  /** The comparison of line 48 on paths: only an absolute destination that is exactly `dir`
      joined with the target passes; a relative destination never does, wherever it points,
      because its URL keeps `dir` as its base. */
  lemma SymlinkIntactAt(tree: Tree, dir: string, l: Symlink)
    ensures var path := Join(dir, l.name);
            SymlinkIntact(tree, dir, l)
            <==> path in tree && tree[path].LinkNode? && |tree[path].destination| > 0
                 && tree[path].destination[0] == '/' && tree[path].destination == Join(dir, l.target)
  {
  }

  /** A link whose destination is relative is a wound even when it names the target. */
  lemma RelativeLinkWounded(tree: Tree, dir: string, l: Symlink)
    requires var path := Join(dir, l.name);
             path in tree && tree[path].LinkNode? && tree[path].destination == l.target
             && !(|l.target| > 0 && l.target[0] == '/')
    ensures !SymlinkIntact(tree, dir, l)
  {
  }

  /** The wounds of the first `n` directories, in order. */
  function DirectoryWounds(dirs: seq<Directory>, dir: string, tree: Tree, n: nat): seq<Wound>
    requires n <= |dirs|
  {
    if n == 0 then []
    else DirectoryWounds(dirs, dir, tree, n - 1)
         + (if DirectoryIntact(tree, Join(dir, dirs[n - 1].name)) then [] else [DirectoryWound(n - 1)])
  }

  /** The wounds of the first `n` symlinks, in order. */
  function SymlinkWounds(links: seq<Symlink>, dir: string, tree: Tree, n: nat): seq<Wound>
    requires n <= |links|
  {
    if n == 0 then []
    else SymlinkWounds(links, dir, tree, n - 1)
         + (if SymlinkIntact(tree, dir, links[n - 1]) then [] else [SymlinkWound(n - 1)])
  }

  /** What `verify` returns. */
  function VerifySpec(signature: WharfSignature, dir: string, tree: Tree): VerificationResult
  {
    var c := signature.container;
    VerificationResult(DirectoryWounds(c.directories, dir, tree, |c.directories|)
                       + SymlinkWounds(c.symlinks, dir, tree, |c.symlinks|))
  }

  /** `verify(signature:dir:)`: a loop over directories and one over symlinks, each appending
      its wounds; the loop over files does nothing. */
  method VerifyTree(signature: WharfSignature, dir: string, tree: Tree) returns (results: VerificationResult)
    ensures results == VerifySpec(signature, dir, tree)
  {
    var c := signature.container;
    results := VerificationResult([]);
    for idx := 0 to |c.directories|
      invariant results.wounds == DirectoryWounds(c.directories, dir, tree, idx)
    {
      var toCheck := Join(dir, c.directories[idx].name);
      if toCheck in tree && tree[toCheck].DirNode? {
        continue;
      }
      results := results.(wounds := results.wounds + [DirectoryWound(idx)]);
    }
    ghost var directoryWounds := results.wounds;
    for idx := 0 to |c.symlinks|
      invariant results.wounds == directoryWounds + SymlinkWounds(c.symlinks, dir, tree, idx)
    {
      var toCheck := Join(dir, c.symlinks[idx].name);
      if toCheck in tree && tree[toCheck].LinkNode? {
        var targetPath := tree[toCheck].destination;
        if UrlRelativeTo(targetPath, dir) == Appending(dir, c.symlinks[idx].target) {
          continue;
        }
      }
      results := results.(wounds := results.wounds + [SymlinkWound(idx)]);
    }
    for fileIdx := 0 to |c.files|
      invariant results == VerifySpec(signature, dir, tree)
    {
    }
  }

  // ---------------------------------------------------------------------------
  // Properties

  /** The rank of a wound in the result: directories first, then symlinks, each by index. */
  function Rank(w: Wound, directories: int): int
  {
    match w
    case DirectoryWound(i) => i
    case SymlinkWound(i) => directories + i
    case FileWound(i) => -1
  }

  /** Wounds of one kind, all of indices below `n`, by strictly ascending index. */
  predicate Ascending(ws: seq<Wound>, n: int, directories: bool)
  {
    (forall i :: 0 <= i < |ws| ==> (if directories then ws[i].DirectoryWound? else ws[i].SymlinkWound?)
                                    && 0 <= ws[i].index < n)
    && (forall i, j :: 0 <= i < j < |ws| ==> ws[i].index < ws[j].index)
  }

  lemma AscendingGrows(ws: seq<Wound>, n: int, directories: bool)
    requires Ascending(ws, n, directories)
    ensures Ascending(ws, n + 1, directories)
  {
  }

  lemma AscendingAppend(ws: seq<Wound>, w: Wound, n: nat, directories: bool)
    requires Ascending(ws, n, directories)
    requires (if directories then w.DirectoryWound? else w.SymlinkWound?) && w.index == n
    ensures Ascending(ws + [w], n + 1, directories)
  {
    var vs := ws + [w];
    forall i | 0 <= i < |vs|
      ensures (if directories then vs[i].DirectoryWound? else vs[i].SymlinkWound?) && 0 <= vs[i].index < n + 1
    {
      if i < |ws| {
        assert vs[i] == ws[i];
      } else {
        assert vs[i] == w;
      }
    }
    forall i, j | 0 <= i < j < |vs| ensures vs[i].index < vs[j].index {
      assert vs[i] == ws[i];
      if j < |ws| {
        assert vs[j] == ws[j];
      }
    }
  }

  /** Every wound ranks below the next: no file wounds, no repeats, directories before symlinks. */
  predicate Ranked(ws: seq<Wound>, directories: int)
  {
    forall i, j :: 0 <= i < j < |ws| ==> Precedes(ws[i], ws[j], directories)
  }

  /** `a` ranks below `b`, and neither is a file wound. */
  predicate Precedes(a: Wound, b: Wound, directories: int)
  {
    0 <= Rank(a, directories) < Rank(b, directories)
  }

  /** The directory wounds are directory wounds of the first `n` indices, ascending. */
  lemma {:induction false} DirectoryWoundsSorted(dirs: seq<Directory>, dir: string, tree: Tree, n: nat)
    requires n <= |dirs|
    ensures Ascending(DirectoryWounds(dirs, dir, tree, n), n, true)
  {
    if n > 0 {
      DirectoryWoundsSorted(dirs, dir, tree, n - 1);
      var prev := DirectoryWounds(dirs, dir, tree, n - 1);
      if DirectoryIntact(tree, Join(dir, dirs[n - 1].name)) {
        assert DirectoryWounds(dirs, dir, tree, n) == prev;
        AscendingGrows(prev, n - 1, true);
      } else {
        AscendingAppend(prev, DirectoryWound(n - 1), n - 1, true);
      }
    }
  }

  /** Directory `k` is wounded exactly when it is among the first `n` and not intact. */
  lemma {:induction false} DirectoryWoundAt(dirs: seq<Directory>, dir: string, tree: Tree, n: nat, k: int)
    requires n <= |dirs|
    ensures (DirectoryWound(k) in DirectoryWounds(dirs, dir, tree, n))
            == (0 <= k < n && !DirectoryIntact(tree, Join(dir, dirs[k].name)))
  {
    if n > 0 {
      DirectoryWoundAt(dirs, dir, tree, n - 1, k);
    }
  }

  lemma {:induction false} SymlinkWoundsSorted(links: seq<Symlink>, dir: string, tree: Tree, n: nat)
    requires n <= |links|
    ensures Ascending(SymlinkWounds(links, dir, tree, n), n, false)
  {
    if n > 0 {
      SymlinkWoundsSorted(links, dir, tree, n - 1);
      var prev := SymlinkWounds(links, dir, tree, n - 1);
      if SymlinkIntact(tree, dir, links[n - 1]) {
        assert SymlinkWounds(links, dir, tree, n) == prev;
        AscendingGrows(prev, n - 1, false);
      } else {
        AscendingAppend(prev, SymlinkWound(n - 1), n - 1, false);
      }
    }
  }

  lemma {:induction false} SymlinkWoundAt(links: seq<Symlink>, dir: string, tree: Tree, n: nat, k: int)
    requires n <= |links|
    ensures (SymlinkWound(k) in SymlinkWounds(links, dir, tree, n)) == (0 <= k < n && !SymlinkIntact(tree, dir, links[k]))
  {
    if n > 0 {
      SymlinkWoundAt(links, dir, tree, n - 1, k);
    }
  }

  /** A directory is wounded exactly when it is missing or not a directory; a symlink exactly
      when it is missing, not a link, or resolves elsewhere; a file never. */
  lemma VerifyWoundAt(signature: WharfSignature, dir: string, tree: Tree, k: int)
    ensures var c, ws := signature.container, VerifySpec(signature, dir, tree).wounds;
            (DirectoryWound(k) in ws) == (0 <= k < |c.directories| && !DirectoryIntact(tree, Join(dir, c.directories[k].name)))
            && (SymlinkWound(k) in ws) == (0 <= k < |c.symlinks| && !SymlinkIntact(tree, dir, c.symlinks[k]))
            && FileWound(k) !in ws
  {
    var c := signature.container;
    var ds := DirectoryWounds(c.directories, dir, tree, |c.directories|);
    var ss := SymlinkWounds(c.symlinks, dir, tree, |c.symlinks|);
    DirectoryWoundsSorted(c.directories, dir, tree, |c.directories|);
    SymlinkWoundsSorted(c.symlinks, dir, tree, |c.symlinks|);
    DirectoryWoundAt(c.directories, dir, tree, |c.directories|, k);
    SymlinkWoundAt(c.symlinks, dir, tree, |c.symlinks|, k);
    OnlyKind(ds, true);
    OnlyKind(ss, false);
  }

  lemma OnlyKind(ws: seq<Wound>, directories: bool)
    requires forall i :: 0 <= i < |ws| ==> if directories then ws[i].DirectoryWound? else ws[i].SymlinkWound?
    ensures forall k :: FileWound(k) !in ws
    ensures forall k :: (if directories then SymlinkWound(k) else DirectoryWound(k)) !in ws
  {
  }

  lemma VerifyWounds(signature: WharfSignature, dir: string, tree: Tree)
    ensures var c, ws := signature.container, VerifySpec(signature, dir, tree).wounds;
            (forall k :: (DirectoryWound(k) in ws) ==
                         (0 <= k < |c.directories| && !DirectoryIntact(tree, Join(dir, c.directories[k].name))))
            && (forall k :: (SymlinkWound(k) in ws) == (0 <= k < |c.symlinks| && !SymlinkIntact(tree, dir, c.symlinks[k])))
            && (forall k :: FileWound(k) !in ws)
  {
    forall k {
      VerifyWoundAt(signature, dir, tree, k);
    }
  }

  /** The wounds come directory wounds first, then symlink wounds, each by ascending index, and
      none twice. */
  lemma VerifyOrder(signature: WharfSignature, dir: string, tree: Tree)
    ensures Ranked(VerifySpec(signature, dir, tree).wounds, |signature.container.directories|)
  {
    var c := signature.container;
    var ds := DirectoryWounds(c.directories, dir, tree, |c.directories|);
    var ss := SymlinkWounds(c.symlinks, dir, tree, |c.symlinks|);
    DirectoryWoundsSorted(c.directories, dir, tree, |c.directories|);
    SymlinkWoundsSorted(c.symlinks, dir, tree, |c.symlinks|);
    RankedJoin(VerifySpec(signature, dir, tree).wounds, ds, ss, |c.directories|, |c.symlinks|);
  }

  /** Ascending directory wounds below `n` followed by ascending symlink wounds are ranked. */
  lemma RankedJoin(ws: seq<Wound>, ds: seq<Wound>, ss: seq<Wound>, n: nat, m: int)
    requires ws == ds + ss && Ascending(ds, n, true) && Ascending(ss, m, false)
    ensures Ranked(ws, n)
  {
    forall i, j | 0 <= i < j < |ws| ensures Precedes(ws[i], ws[j], n) {
      if j < |ds| {
        assert ws[i] == ds[i] && ws[j] == ds[j];
        assert Rank(ws[i], n) == ds[i].index && Rank(ws[j], n) == ds[j].index;
      } else if i < |ds| {
        assert ws[i] == ds[i] && ws[j] == ss[j - |ds|];
        assert Rank(ws[i], n) == ds[i].index < n;
        assert Rank(ws[j], n) == n + ss[j - |ds|].index;
      } else {
        assert ws[i] == ss[i - |ds|] && ws[j] == ss[j - |ds|];
        assert Rank(ws[i], n) == n + ss[i - |ds|].index && Rank(ws[j], n) == n + ss[j - |ds|].index;
      }
    }
  }

  /** The directory verifies exactly when every named directory and symlink is intact. */
  lemma VerifyOkay(signature: WharfSignature, dir: string, tree: Tree)
    ensures var c := signature.container;
            Okay(VerifySpec(signature, dir, tree))
            <==> (forall k :: 0 <= k < |c.directories| ==> DirectoryIntact(tree, Join(dir, c.directories[k].name)))
                 && (forall k :: 0 <= k < |c.symlinks| ==> SymlinkIntact(tree, dir, c.symlinks[k]))
  {
    var c := signature.container;
    var ws := VerifySpec(signature, dir, tree).wounds;
    VerifyWounds(signature, dir, tree);
    if !Okay(VerifySpec(signature, dir, tree)) {
      var ds := DirectoryWounds(c.directories, dir, tree, |c.directories|);
      var ss := SymlinkWounds(c.symlinks, dir, tree, |c.symlinks|);
      assert ws == ds + ss;
      var k := ws[0].index;
      if |ds| > 0 {
        DirectoryWoundsSorted(c.directories, dir, tree, |c.directories|);
        assert ws[0] == ds[0];
        assert DirectoryWound(k) in ws;
      } else {
        SymlinkWoundsSorted(c.symlinks, dir, tree, |c.symlinks|);
        assert ws[0] == ss[0];
        assert SymlinkWound(k) in ws;
      }
    }
  }

  /** Two trees that agree on every path the signature names give the same result: entries
      the signature does not name, such as save data, never matter. */
  lemma VerifyIgnoresOthers(signature: WharfSignature, dir: string, tree: Tree, other: Tree)
    requires forall k :: 0 <= k < |signature.container.directories| ==>
               var p := Join(dir, signature.container.directories[k].name);
               (p in tree <==> p in other) && (p in tree ==> tree[p] == other[p])
    requires forall k :: 0 <= k < |signature.container.symlinks| ==>
               var p := Join(dir, signature.container.symlinks[k].name);
               (p in tree <==> p in other) && (p in tree ==> tree[p] == other[p])
    ensures VerifySpec(signature, dir, tree) == VerifySpec(signature, dir, other)
  {
    var c := signature.container;
    DirectoriesAgree(c.directories, dir, tree, other, |c.directories|);
    SymlinksAgree(c.symlinks, dir, tree, other, |c.symlinks|);
  }

  lemma {:induction false} DirectoriesAgree(dirs: seq<Directory>, dir: string, tree: Tree, other: Tree, n: nat)
    requires n <= |dirs|
    requires forall k :: 0 <= k < |dirs| ==>
               var p := Join(dir, dirs[k].name); (p in tree <==> p in other) && (p in tree ==> tree[p] == other[p])
    ensures DirectoryWounds(dirs, dir, tree, n) == DirectoryWounds(dirs, dir, other, n)
  {
    if n > 0 {
      DirectoriesAgree(dirs, dir, tree, other, n - 1);
    }
  }

  lemma {:induction false} SymlinksAgree(links: seq<Symlink>, dir: string, tree: Tree, other: Tree, n: nat)
    requires n <= |links|
    requires forall k :: 0 <= k < |links| ==>
               var p := Join(dir, links[k].name); (p in tree <==> p in other) && (p in tree ==> tree[p] == other[p])
    ensures SymlinkWounds(links, dir, tree, n) == SymlinkWounds(links, dir, other, n)
  {
    if n > 0 {
      SymlinksAgree(links, dir, tree, other, n - 1);
    }
  }
}

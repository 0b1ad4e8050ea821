/** The file system the operations read and change, in place of `FileManager`, `Data(contentsOf:)`
    and `FileHandle`: a map from absolute path to a directory (with its permission bits), a
    regular file (with its bytes) or a symbolic link (with its destination). Every primitive
    either succeeds with the new tree or fails with `IoError` and changes nothing. */
module FileSystems {
  import opened Shared
  import opened Errors

  datatype Node = DirNode(permissions: u32) | FileNode(contents: seq<byte>) | LinkNode(destination: string)

  type Tree = map<string, Node>

  /** `path` is `root` itself or lies below it. */
  predicate Within(path: string, root: string)
  {
    path == root || (|path| > |root| && path[..|root|] == root && path[|root|] == '/')
  }

  /** The tree without `root` and everything below it. */
  function Removed(tree: Tree, root: string): (t: Tree)
    ensures forall p :: p in t <==> p in tree && !Within(p, root)
    ensures forall p :: p in t ==> t[p] == tree[p]
  {
    map p | p in tree && !Within(p, root) :: tree[p]
  }

  /** Where a path below `from` lands below `to`. */
  function Rebase(path: string, from: string, to: string): string
    requires Within(path, from)
  {
    to + path[|from|..]
  }

  lemma RebaseInjective(p: string, q: string, from: string, to: string)
    requires Within(p, from) && Within(q, from) && Rebase(p, from, to) == Rebase(q, from, to)
    ensures p == q
  {
    assert p[|from|..] == Rebase(p, from, to)[|to|..];
    assert q[|from|..] == Rebase(q, from, to)[|to|..];
    assert p == p[..|from|] + p[|from|..];
    assert q == q[..|from|] + q[|from|..];
  }

  /** The entries below `from`, moved below `to`. */
  function Moved(tree: Tree, from: string, to: string): (t: Tree)
    ensures forall p :: p in tree && Within(p, from) ==> Rebase(p, from, to) in t && t[Rebase(p, from, to)] == tree[p]
    ensures forall q :: q in t ==> exists p :: p in tree && Within(p, from) && q == Rebase(p, from, to)
  {
    forall p, q | p in tree && Within(p, from) && q in tree && Within(q, from) && Rebase(p, from, to) == Rebase(q, from, to)
      ensures p == q
    {
      RebaseInjective(p, q, from, to);
    }
    map p | p in tree && Within(p, from) :: Rebase(p, from, to) := tree[p]
  }

  /** `q` is a directory on the way to `p`: a non-empty proper prefix of `p` that `p`
      continues with a `/`. The root directory is not an entry of the tree and always exists. */
  predicate Ancestor(q: string, p: string)
  {
    0 < |q| < |p| && p[..|q|] == q && p[|q|] == '/'
  }

  /** The directories on the way to `p`. */
  function Ancestors(p: string): (s: set<string>)
    ensures forall q :: q in s <==> Ancestor(q, p)
  {
    var s := set i | 0 < i < |p| && p[i] == '/' :: p[..i];
    assert forall q :: Ancestor(q, p) ==> q == p[..|q|] && q in s;
    s
  }

  /** What is on the way to a directory is on the way to what lies below it. */
  lemma AncestorTransitive(a: string, b: string, c: string)
    requires Ancestor(a, b) && Ancestor(b, c)
    ensures Ancestor(a, c)
  {
    assert c[..|b|][..|a|] == c[..|a|];
    assert c[..|b|][|a|] == c[|a|];
  }

  /** The entry `path` leads to when symbolic links are followed, at most `fuel` of them: the
      path of an entry that is not a link, or `None` for a missing entry, a dangling link and a
      chain of more than `fuel` links. */
  function Follow(tree: Tree, path: string, fuel: nat): (r: Option<string>)
    ensures r.Some? ==> path in tree && r.value in tree && !tree[r.value].LinkNode?
    ensures path in tree && !tree[path].LinkNode? ==> r == Some(path)
    decreases fuel
  {
    if path !in tree then None
    else if !tree[path].LinkNode? then Some(path)
    else if fuel == 0 then None
    else Follow(tree, tree[path].destination, fuel - 1)
  }

  /** Where `path` leads. A chain of links that visits no entry twice has fewer links than the
      tree has entries, so a longer chain is a cycle, which `stat` reports as an error. */
  function Target(tree: Tree, path: string): Option<string>
  {
    Follow(tree, path, |tree|)
  }

  /** `fileExists(atPath:)`, which follows symbolic links: a dangling link, or one in a cycle,
      does not exist. */
  predicate Exists(tree: Tree, path: string)
  {
    Target(tree, path).Some?
  }

  /** `path` leads to a directory. */
  predicate IsDirectory(tree: Tree, path: string)
  {
    Target(tree, path).Some? && tree[Target(tree, path).value].DirNode?
  }

  /** Nothing on the way to `path` is anything but a directory: no file, and no link, in the
      middle of the path. */
  predicate Clear(tree: Tree, path: string)
  {
    forall q :: q in tree && Ancestor(q, path) ==> tree[q].DirNode?
  }

  /** Every directory on the way to `path` exists. */
  predicate Reachable(tree: Tree, path: string)
  {
    forall i :: 0 < i < |path| && path[i] == '/' ==> path[..i] in tree && tree[path[..i]].DirNode?
  }

  /** `t` is `tree` with directories added or their bits changed: every entry keeps its kind,
      files and links keep their contents, and every new entry is a directory. */
  predicate Grown(tree: Tree, t: Tree)
  {
    (forall p :: p in tree ==> p in t && (tree[p].DirNode? ==> t[p].DirNode?) && (!tree[p].DirNode? ==> t[p] == tree[p]))
    && (forall p :: p in t && p !in tree ==> t[p].DirNode?)
  }

  /** `path` and the missing directories on the way to it, all created with the given bits. */
  function Made(tree: Tree, path: string, permissions: u32): (t: Tree)
    ensures forall p :: p in tree ==> p in t && t[p] == tree[p]
    ensures forall p :: p in t && p !in tree ==> (p == path || Ancestor(p, path)) && t[p] == DirNode(permissions)
    ensures path in t && (path !in tree ==> t[path] == DirNode(permissions))
    ensures Clear(tree, path) ==> Reachable(t, path)
  {
    tree + map q | q in Ancestors(path) + {path} && q !in tree :: DirNode(permissions)
  }

  /** `createDirectory(at:withIntermediateDirectories: true, attributes:)`: a path that leads to
      a directory is left as it is, and any other entry at the path (a file, a link to a file, a
      dangling link) is an error; otherwise the directory is made together with the missing
      directories on the way to it, each with the given bits, unless a file or a link is in
      the way. */
  function CreateDirectory(tree: Tree, path: string, permissions: u32): (r: Result<Tree>)
    ensures r.Ok? <==> if path in tree then IsDirectory(tree, path) else Clear(tree, path)
    ensures r.Ok? && path in tree ==> r.value == tree
    ensures r.Ok? && path !in tree ==> r.value == Made(tree, path, permissions)
    ensures r.Err? ==> r.failure == IoError
  {
    if path in tree then (if IsDirectory(tree, path) then Ok(tree) else Err(IoError))
    else if Clear(tree, path) then Ok(Made(tree, path, permissions))
    else Err(IoError)
  }

  /** `setAttributes([.posixPermissions: …], ofItemAtPath:)`, which follows symbolic links: the
      directory the path leads to takes the new bits; the bits of files are not part of this
      tree; a path that leads nowhere is an error. */
  function SetPermissions(tree: Tree, path: string, permissions: u32): (r: Result<Tree>)
    ensures r.Ok? <==> Exists(tree, path)
    ensures r.Ok? ==> var q := Target(tree, path).value;
                      r.value == if tree[q].DirNode? then tree[q := DirNode(permissions)] else tree
    ensures r.Err? ==> r.failure == IoError
  {
    match Target(tree, path)
    case None => Err(IoError)
    case Some(q) => if tree[q].DirNode? then Ok(tree[q := DirNode(permissions)]) else Ok(tree)
  }

  /** `"".write(to:atomically: true, encoding:)`: the path becomes an empty file, unless it is a
      directory or the directory that would hold it does not exist. */
  function WriteEmpty(tree: Tree, path: string): (r: Result<Tree>)
    ensures r.Ok? <==> Reachable(tree, path) && !(path in tree && tree[path].DirNode?)
    ensures r.Ok? ==> r.value == tree[path := FileNode([])]
    ensures r.Err? ==> r.failure == IoError
  {
    if !Reachable(tree, path) || (path in tree && tree[path].DirNode?) then Err(IoError)
    else Ok(tree[path := FileNode([])])
  }

  /** `Data(contentsOf:)`: the bytes of a regular file. */
  function ReadFile(tree: Tree, path: string): (r: Result<seq<byte>>)
    ensures r.Ok? <==> path in tree && tree[path].FileNode?
    ensures r.Ok? ==> r.value == tree[path].contents
    ensures r.Err? ==> r.failure == IoError
  {
    if path in tree && tree[path].FileNode? then Ok(tree[path].contents) else Err(IoError)
  }

  /** `removeItem(at:)`: the entry and everything below it. */
  function RemoveItem(tree: Tree, path: string): (r: Result<Tree>)
    ensures r.Ok? <==> path in tree
    ensures r.Ok? ==> r.value == Removed(tree, path)
    ensures r.Err? ==> r.failure == IoError
  {
    if path !in tree then Err(IoError) else Ok(Removed(tree, path))
  }

  /** `copyItem(at:to:)`: the entry and everything below it, copied below `to`; the source must
      exist, the destination must not, and the directory that would hold it must. */
  function CopyItem(tree: Tree, from: string, to: string): (r: Result<Tree>)
    ensures r.Ok? <==> from in tree && to !in tree && Reachable(tree, to)
    ensures r.Ok? ==> r.value == tree + Moved(tree, from, to)
    ensures r.Err? ==> r.failure == IoError
  {
    if from !in tree || to in tree || !Reachable(tree, to) then Err(IoError)
    else Ok(tree + Moved(tree, from, to))
  }

  /** `createSymbolicLink(at:withDestinationURL:)`: fails when the path is taken or the
      directory that would hold the link does not exist. */
  function CreateSymbolicLink(tree: Tree, link: string, destination: string): (r: Result<Tree>)
    ensures r.Ok? <==> link !in tree && Reachable(tree, link)
    ensures r.Ok? ==> r.value == tree[link := LinkNode(destination)]
    ensures r.Err? ==> r.failure == IoError
  {
    if link in tree || !Reachable(tree, link) then Err(IoError) else Ok(tree[link := LinkNode(destination)])
  }

  /** A write through an open `FileHandle` positioned at the end of a file. */
  function AppendBytes(tree: Tree, path: string, bytes: seq<byte>): (r: Result<Tree>)
    ensures r.Ok? <==> path in tree && tree[path].FileNode?
    ensures r.Ok? ==> r.value == tree[path := FileNode(tree[path].contents + bytes)]
    ensures r.Err? ==> r.failure == IoError
  {
    if path in tree && tree[path].FileNode? then Ok(tree[path := FileNode(tree[path].contents + bytes)])
    else Err(IoError)
  }

  /** The tree after a primitive: the new tree when it succeeded, the old one when it failed. */
  function After(tree: Tree, r: Result<Tree>): Tree
  {
    if r.Ok? then r.value else tree
  }

  function OutcomeOf<T>(r: Result<T>): (o: Outcome)
    ensures o.Pass? <==> r.Ok?
    ensures o.Fail? ==> o.failure == r.failure
  {
    if r.Ok? then Pass else Fail(r.failure)
  }

  /** The one file system the operations share, changed in place. */
  class FileSystem {
    var tree: Tree

    constructor (tree: Tree)
      ensures this.tree == tree
    {
      this.tree := tree;
    }

    /** Carry out a primitive computed on the current tree. */
    method Commit(r: Result<Tree>) returns (o: Outcome)
      modifies this
      ensures tree == After(old(tree), r) && o == OutcomeOf(r)
    {
      if r.Ok? {
        tree := r.value;
      }
      o := OutcomeOf(r);
    }
  }

  // ---------------------------------------------------------------------------
  // Properties

  /** A copy puts every entry below the source at the same place below the destination, and
      leaves every entry of the tree that is not below the destination as it was. */
  lemma CopyItemPlaces(tree: Tree, from: string, to: string, p: string)
    requires CopyItem(tree, from, to).Ok? && Within(p, from) && p in tree
    ensures var t := CopyItem(tree, from, to).value;
            Rebase(p, from, to) in t && t[Rebase(p, from, to)] == tree[p]
  {
  }

  lemma CopyItemKeeps(tree: Tree, from: string, to: string, p: string)
    requires CopyItem(tree, from, to).Ok? && p in tree && !Within(p, to)
    ensures var t := CopyItem(tree, from, to).value; p in t && t[p] == tree[p]
  {
    forall q | q in tree && Within(q, from)
      ensures Within(Rebase(q, from, to), to)
    {
      RebaseWithin(q, from, to);
    }
  }

  lemma RebaseWithin(p: string, from: string, to: string)
    requires Within(p, from)
    ensures Within(Rebase(p, from, to), to)
  {
    var r := Rebase(p, from, to);
    assert r[..|to|] == to;
    if p != from {
      assert r[|to|] == p[|from|];
    }
  }

  /** Writing an empty file and appending gives exactly the appended bytes. */
  lemma WriteThenAppend(tree: Tree, path: string, a: seq<byte>, b: seq<byte>)
    requires WriteEmpty(tree, path).Ok?
    ensures var t0 := WriteEmpty(tree, path).value;
            var t1 := AppendBytes(t0, path, a).value;
            AppendBytes(t0, path, a).Ok? && AppendBytes(t1, path, b).Ok?
            && ReadFile(AppendBytes(t1, path, b).value, path) == Ok(a + b)
  {
    assert [] + a == a;
  }

  lemma GrownTransitive(a: Tree, b: Tree, c: Tree)
    requires Grown(a, b) && Grown(b, c)
    ensures Grown(a, c)
  {
  }

  /** Adding directories does not change where a path that led somewhere leads. */
  lemma {:induction false} GrownFollow(tree: Tree, t: Tree, path: string, fuel: nat)
    requires Grown(tree, t) && Follow(tree, path, fuel).Some?
    ensures Follow(t, path, fuel) == Follow(tree, path, fuel)
    decreases fuel
  {
    if tree[path].LinkNode? {
      GrownFollow(tree, t, tree[path].destination, fuel - 1);
    }
  }

  /** More fuel does not change where a path that led somewhere leads. */
  lemma {:induction false} FollowMore(tree: Tree, path: string, fuel: nat, more: nat)
    requires fuel <= more && Follow(tree, path, fuel).Some?
    ensures Follow(tree, path, more) == Follow(tree, path, fuel)
    decreases fuel
  {
    if tree[path].LinkNode? {
      FollowMore(tree, tree[path].destination, fuel - 1, more - 1);
    }
  }

  lemma {:induction false} SubsetSize(a: set<string>, b: set<string>)
    requires a <= b
    ensures |a| <= |b|
    decreases |a|
  {
    if a != {} {
      var x :| x in a;
      SubsetSize(a - {x}, b - {x});
    }
  }

  lemma GrownTarget(tree: Tree, t: Tree, path: string)
    requires Grown(tree, t) && Target(tree, path).Some?
    ensures Target(t, path) == Target(tree, path)
    ensures Exists(t, path) && (IsDirectory(t, path) <==> IsDirectory(tree, path))
  {
    SubsetSize(tree.Keys, t.Keys);
    GrownFollow(tree, t, path, |tree|);
    FollowMore(t, path, |tree|, |t|);
  }

  /** Whether files or links are in the way of a path does not change when directories are
      added. */
  lemma GrownClear(tree: Tree, t: Tree, path: string)
    requires Grown(tree, t)
    ensures Clear(t, path) <==> Clear(tree, path)
  {
  }

  /** What is clear on the way to a path is clear on the way to the directories above it. */
  lemma ClearAncestor(tree: Tree, a: string, p: string)
    requires Clear(tree, p) && Ancestor(a, p)
    ensures Clear(tree, a)
  {
    forall q | q in tree && Ancestor(q, a)
      ensures tree[q].DirNode?
    {
      AncestorTransitive(q, a, p);
    }
  }

  /** Creating a directory only adds directories. */
  lemma CreateDirectoryGrows(tree: Tree, path: string, permissions: u32)
    requires CreateDirectory(tree, path, permissions).Ok?
    ensures Grown(tree, CreateDirectory(tree, path, permissions).value)
  {
  }

  /** Setting the bits of what a path leads to only changes the bits of a directory. */
  lemma SetPermissionsGrows(tree: Tree, path: string, permissions: u32)
    requires SetPermissions(tree, path, permissions).Ok?
    ensures Grown(tree, SetPermissions(tree, path, permissions).value)
  {
  }
}

/** `constructBlockLibrary(hashes:)` (Sources/Quay/Other/BlockLibrary.swift): the signature's
    block hashes grouped by weak hash, each group in input order. */
module BlockLibrary {
  import opened Shared
  import opened Blocks

  type Library = map<u32, seq<BlockHash>>

  /** One step of the loop: start a group, or append to the existing one. */
  function Insert(library: Library, hash: BlockHash): Library
  {
    var key := hash.weakHash;
    if key !in library then library[key := [hash]] else library[key := library[key] + [hash]]
  }

  /** The library built from `hashes`, inserting them front to back. */
  function LibraryOf(hashes: seq<BlockHash>): Library
  {
    if hashes == [] then map[] else Insert(LibraryOf(hashes[..|hashes| - 1]), hashes[|hashes| - 1])
  }

  /** `constructBlockLibrary(hashes:)`. */
  method ConstructBlockLibrary(hashes: seq<BlockHash>) returns (library: Library)
    ensures library == LibraryOf(hashes)
  {
    library := map[];
    for i := 0 to |hashes|
      invariant library == LibraryOf(hashes[..i])
    {
      assert hashes[..i + 1][..i] == hashes[..i];
      var hash := hashes[i];
      var key := hash.weakHash;
      if key !in library {
        library := library[key := [hash]];
      } else {
        library := library[key := library[key] + [hash]];
      }
    }
    assert hashes[..|hashes|] == hashes;
  }

  // ---------------------------------------------------------------------------
  // Properties

  /** The hashes with weak hash k, in input order: the reference definition of a group. */
  function WithWeak(hashes: seq<BlockHash>, k: u32): seq<BlockHash>
  {
    if hashes == [] then []
    else
      var rest := WithWeak(hashes[..|hashes| - 1], k);
      if hashes[|hashes| - 1].weakHash == k then rest + [hashes[|hashes| - 1]] else rest
  }

  function WeakHashes(hashes: seq<BlockHash>): set<u32>
  {
    set h | h in hashes :: h.weakHash
  }

  /** The library's keys are exactly the input's weak hashes, and the group under each key is
      the input's hashes with that weak hash, in input order. */
  lemma {:induction false} LibraryIsGrouping(hashes: seq<BlockHash>)
    ensures LibraryOf(hashes).Keys == WeakHashes(hashes)
    ensures forall k :: k in LibraryOf(hashes) ==> LibraryOf(hashes)[k] == WithWeak(hashes, k)
  {
    if hashes != [] {
      var init, last := hashes[..|hashes| - 1], hashes[|hashes| - 1];
      LibraryIsGrouping(init);
      assert hashes == init + [last];
      assert WeakHashes(hashes) == WeakHashes(init) + {last.weakHash} by {
        forall k | k in WeakHashes(hashes) ensures k in WeakHashes(init) + {last.weakHash} {
          var h :| h in hashes && h.weakHash == k;
          if h != last { assert h in init; }
        }
        forall k | k in WeakHashes(init) ensures k in WeakHashes(hashes) {
          var h :| h in init && h.weakHash == k;
          assert h in hashes;
        }
      }
      if last.weakHash !in LibraryOf(init) {
        NoneWithWeak(init, last.weakHash);
      }
      forall k | k in LibraryOf(hashes) ensures LibraryOf(hashes)[k] == WithWeak(hashes, k) {
        if k == last.weakHash {
          assert WithWeak(hashes, k) == WithWeak(init, k) + [last];
        } else {
          assert k in LibraryOf(init);
          assert WithWeak(hashes, k) == WithWeak(init, k);
        }
      }
    }
  }

  lemma {:induction false} NoneWithWeak(hashes: seq<BlockHash>, k: u32)
    requires k !in WeakHashes(hashes)
    ensures WithWeak(hashes, k) == []
  {
    if hashes != [] {
      var init := hashes[..|hashes| - 1];
      assert hashes[|hashes| - 1] in hashes;
      assert WeakHashes(init) <= WeakHashes(hashes) by {
        forall j | j in WeakHashes(init) ensures j in WeakHashes(hashes) {
          var h :| h in init && h.weakHash == j;
          assert h in hashes;
        }
      }
      NoneWithWeak(init, k);
    }
  }

  /** The group of a key holds exactly the input hashes with that weak hash, none missing. */
  lemma {:induction false} WithWeakMembers(hashes: seq<BlockHash>, k: u32)
    ensures forall h :: h in WithWeak(hashes, k) <==> h in hashes && h.weakHash == k
  {
    if hashes != [] {
      var init := hashes[..|hashes| - 1];
      assert hashes == init + [hashes[|hashes| - 1]];
      WithWeakMembers(init, k);
    }
  }

  /** Every input hash is in the group of its weak hash; every group is non-empty and holds only
      hashes with its key; an empty input gives an empty library. */
  lemma LibraryMembership(hashes: seq<BlockHash>)
    ensures forall h :: h in hashes ==> h.weakHash in LibraryOf(hashes) && h in LibraryOf(hashes)[h.weakHash]
    ensures forall k :: k in LibraryOf(hashes) ==> LibraryOf(hashes)[k] != []
    ensures forall k, h :: k in LibraryOf(hashes) && h in LibraryOf(hashes)[k] ==> h.weakHash == k
    ensures hashes == [] ==> LibraryOf(hashes) == map[]
  {
    LibraryIsGrouping(hashes);
    forall k | k in LibraryOf(hashes) ensures LibraryOf(hashes)[k] != [] && forall h :: h in LibraryOf(hashes)[k] ==> h.weakHash == k {
      WithWeakMembers(hashes, k);
      var h :| h in hashes && h.weakHash == k;
      assert h in WithWeak(hashes, k);
    }
    forall h | h in hashes ensures h.weakHash in LibraryOf(hashes) && h in LibraryOf(hashes)[h.weakHash] {
      WithWeakMembers(hashes, h.weakHash);
    }
  }

  /** The number of hashes stored in a library. */
  ghost function Stored(library: Library): nat
    decreases |library|
  {
    if library == map[] then 0
    else
      var k :| k in library;
      |library[k]| + Stored(library - {k})
  }

  lemma {:induction false} StoredWithout(library: Library, k: u32)
    requires k in library
    ensures Stored(library) == |library[k]| + Stored(library - {k})
    decreases |library|
  {
    var j :| j in library && Stored(library) == |library[j]| + Stored(library - {j});
    if j != k {
      var rest := library - {j};
      StoredWithout(rest, k);
      StoredWithout(library - {k}, j);
      assert rest - {k} == (library - {k}) - {j};
    }
  }

  /** The group lengths add up to the number of input hashes. */
  lemma {:induction false} StoredCount(hashes: seq<BlockHash>)
    ensures Stored(LibraryOf(hashes)) == |hashes|
  {
    if hashes != [] {
      var init, last := hashes[..|hashes| - 1], hashes[|hashes| - 1];
      StoredCount(init);
      var lib := LibraryOf(init);
      var key := last.weakHash;
      var lib' := Insert(lib, last);
      StoredWithout(lib', key);
      assert lib' - {key} == lib - {key};
      if key in lib {
        StoredWithout(lib, key);
      } else {
        assert lib - {key} == lib;
      }
    }
  }
}

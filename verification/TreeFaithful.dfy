/** What a regular-tree digest says of the disk (filesystem.ts). */
module TreeFaithful {
  import opened Wrappers
  import opened Unicode
  import opened GitPath
  import opened Spelling
  import opened TreeListing
  import opened TreeCollect
  import opened TreeEntries
  import opened TreeDigest
  import opened TreeFiles
  import opened TreeOrder
  import opened TreeRepeats
  import opened TreeSeen
  import opened TreeTwins
  import opened TreeWalk

  /** The entry is that of the regular file on a path of UTF-8 names, under the path's key. */
  ghost predicate Names(digest: Digest, root: Raw, path: Path, e: (Bytes, Entry)) {
    Spelled(path) == e.0 && Utf8Parts(path) && FileAt(digest, root, path) == Some(e.1)
  }

  /** Whatever the names: each collected entry is that of a file under its key, one entry a key,
      and every file on a path of UTF-8 names has its key collected. */
  lemma CollectedSpells(digest: Digest, root: Folder)
    requires RawCollect(digest, root).Some?
    ensures DistinctKeys(RawCollect(digest, root).value.entries)
    ensures forall e :: e in RawCollect(digest, root).value.entries ==> exists path :: Names(digest, root, path, e)
    ensures forall path :: Utf8Parts(path) && FileAt(digest, root, path).Some? ==>
      HasKey(RawCollect(digest, root).value.entries, Spelled(path))
  {
    RepeatsUnseen(digest, root);
    CollectCovers(digest, Seen(root));
    var s, visits := Collect(digest, Seen(root)).value, Listing([], Seen(root));
    forall e | e in s.entries ensures exists path :: Names(digest, root, path, e) {
      var v :| v in visits && Shows(digest, v, e, s.total);
      ListingHas([], Seen(root), v);
      assert v.path[0..] == v.path;
      ReadAt(digest, root, v.path);
      assert Names(digest, root, v.path, e);
    }
    forall path | Utf8Parts(path) && FileAt(digest, root, path).Some? ensures HasKey(s.entries, Spelled(path)) {
      ReadAt(digest, root, path);
      var v := Visit(path, At(Seen(root), path).value);
      assert path[0..] == path;
      ListingHas([], Seen(root), v);
    }
  }

  // Which of several files under one key is kept

  /** The file is visited after every other file with its key. */
  ghost predicate LastOf(digest: Digest, root: Raw, path: Path, e: (Bytes, Entry)) {
    && Names(digest, root, path, e)
    && forall other, f :: Names(digest, root, other, (e.0, f)) && other != path ==> Before(other, path)
  }

  ghost predicate LastAt(visits: seq<Visit>, i: nat, key: Bytes)
    requires i < |visits|
  {
    && visits[i].node.File? && Spelled(visits[i].path) == key
    && forall j :: i < j < |visits| && visits[j].node.File? ==> Spelled(visits[j].path) != key
  }

  lemma {:induction false} PutsLast(digest: Digest, visits: seq<Visit>, i: nat, key: Bytes)
    requires i < |visits| && LastAt(visits, i, key)
    ensures key in Puts(digest, visits) && Puts(digest, visits)[key] == EntryOf(digest, visits[i].node)
    decreases |visits|
  {
    if i < |visits| - 1 { PutsLast(digest, visits[..|visits| - 1], i, key); }
  }

  lemma {:induction false} LastPut(digest: Digest, visits: seq<Visit>, key: Bytes) returns (i: nat)
    requires key in Puts(digest, visits)
    ensures i < |visits| && LastAt(visits, i, key)
    decreases |visits|
  {
    i := |visits| - 1;
    if !(visits[i].node.File? && Spelled(visits[i].path) == key) { i := LastPut(digest, visits[..i], key); }
  }

  lemma InValues(entries: Entries, e: (Bytes, Entry))
    requires DistinctKeys(entries)
    ensures e in entries <==> e.0 in Values(entries) && Values(entries)[e.0] == e.1
  {
    if e in entries {
      var i :| 0 <= i < |entries| && entries[i] == e;
      ValuesAt(entries, i);
    }
    if e.0 in Values(entries) && Values(entries)[e.0] == e.1 {
      ValuesKeys(entries, e.0);
      var i :| 0 <= i < |entries| && entries[i].0 == e.0;
      ValuesAt(entries, i);
      assert entries[i] == (entries[i].0, entries[i].1) == e;
    }
  }

  lemma FileVisit(digest: Digest, root: Folder, v: Visit)
    requires RawCollect(digest, root).Some?
    ensures v in Listing([], Seen(root)) && v.node.File? ==>
      Names(digest, root, v.path, (Spelled(v.path), EntryOf(digest, v.node)))
  {
    ListingHas([], Seen(root), v);
    assert v.path[0..] == v.path;
    ReadAt(digest, root, v.path);
  }

  lemma VisitOf(digest: Digest, root: Folder, path: Path, e: (Bytes, Entry)) returns (v: Visit)
    requires RawCollect(digest, root).Some? && Names(digest, root, path, e)
    ensures v in Listing([], Seen(root)) && v.node.File? && v.path == path && EntryOf(digest, v.node) == e.1
  {
    ReadAt(digest, root, path);
    v := Visit(path, At(Seen(root), path).value);
    assert path[0..] == path;
    ListingHas([], Seen(root), v);
  }

  lemma VisitsOrdered(root: Node, i: nat, j: nat)
    requires root.Dir? && i < j < |Listing([], root)| && Listing([], root)[i].node.File? && Listing([], root)[j].node.File?
    ensures Before(Listing([], root)[i].path, Listing([], root)[j].path)
  {
    var visits := Listing([], root);
    ListingOrdered([], root);
    assert Comes(0, visits[i], visits[j]);
    assert visits[i].path[0..] == visits[i].path && visits[j].path[0..] == visits[j].path;
  }

  lemma ComesFirst(digest: Digest, root: Folder, i: nat, other: Path, e: (Bytes, Entry))
    requires RawCollect(digest, root).Some? && i < |Listing([], Seen(root))| && LastAt(Listing([], Seen(root)), i, e.0)
    requires Names(digest, root, other, e) && other != Listing([], Seen(root))[i].path
    ensures Before(other, Listing([], Seen(root))[i].path)
  {
    var u := VisitOf(digest, root, other, e);
    var j :| 0 <= j < |Listing([], Seen(root))| && Listing([], Seen(root))[j] == u;
    VisitsOrdered(Seen(root), j, i);
  }

  lemma LastIsLast(digest: Digest, root: Folder, i: nat, key: Bytes)
    requires RawCollect(digest, root).Some? && i < |Listing([], Seen(root))| && LastAt(Listing([], Seen(root)), i, key)
    ensures
      var v := Listing([], Seen(root))[i];
      LastOf(digest, root, v.path, (key, EntryOf(digest, v.node)))
  {
    var v := Listing([], Seen(root))[i];
    FileVisit(digest, root, v);
    forall other, f | Names(digest, root, other, (key, f)) && other != v.path ensures Before(other, v.path) {
      ComesFirst(digest, root, i, other, (key, f));
    }
  }

  lemma LastIsAt(digest: Digest, root: Folder, path: Path, e: (Bytes, Entry)) returns (i: nat)
    requires RawCollect(digest, root).Some? && LastOf(digest, root, path, e)
    ensures i < |Listing([], Seen(root))| && LastAt(Listing([], Seen(root)), i, e.0)
    ensures EntryOf(digest, Listing([], Seen(root))[i].node) == e.1
  {
    var visits := Listing([], Seen(root));
    var v := VisitOf(digest, root, path, e);
    i :| 0 <= i < |visits| && visits[i] == v;
    forall j | i < j < |visits| && visits[j].node.File? ensures Spelled(visits[j].path) != e.0 {
      VisitsOrdered(Seen(root), i, j);
      BeforeAsymmetric(visits[i].path, visits[j].path);
      assert visits[j] in visits;
      FileVisit(digest, root, visits[j]);
    }
  }

  lemma CollectedPuts(digest: Digest, root: Folder, e: (Bytes, Entry))
    requires RawCollect(digest, root).Some?
    ensures
      var put := Puts(digest, Listing([], Seen(root)));
      e in RawCollect(digest, root).value.entries <==> e.0 in put && put[e.0] == e.1
  {
    RepeatsUnseen(digest, root);
    FoldPuts(digest, START.value, Listing([], Seen(root)));
    assert Values([]) + Puts(digest, Listing([], Seen(root))) == Puts(digest, Listing([], Seen(root)));
    InValues(RawCollect(digest, root).value.entries, e);
  }

  /** Whatever the names: under each key, the file that is visited last is collected, and nothing else. */
  lemma CollectedLast(digest: Digest, root: Folder, e: (Bytes, Entry))
    requires RawCollect(digest, root).Some?
    ensures e in RawCollect(digest, root).value.entries <==> exists path :: LastOf(digest, root, path, e)
  {
    var visits := Listing([], Seen(root));
    CollectedPuts(digest, root, e);
    if e in RawCollect(digest, root).value.entries {
      var i := LastPut(digest, visits, e.0);
      PutsLast(digest, visits, i, e.0);
      LastIsLast(digest, root, i, e.0);
      assert LastOf(digest, root, visits[i].path, (e.0, e.1));
    }
    if path :| LastOf(digest, root, path, e) {
      var i := LastIsAt(digest, root, path, e);
      PutsLast(digest, visits, i, e.0);
    }
  }

  /** The entries that the digest hashes. */
  function KeptOf(digest: Digest, root: Folder, excluded: set<Bytes>): Entries
    requires RawCollect(digest, root).Some?
  {
    TreeDigest.Kept(RawCollect(digest, root).value.entries, excluded)
  }

  /** Whatever the names: the hashed bytes agree exactly when the collected lists do, as lists. */
  lemma DigestBindsLists(digest: Digest, a: Folder, b: Folder, excluded: set<Bytes>)
    requires TextDigest(digest) && RawCollect(digest, a).Some? && RawCollect(digest, b).Some?
    ensures AllRecordable(KeptOf(digest, a, excluded)) && AllRecordable(KeptOf(digest, b, excluded))
    ensures
      Hashed(KeptOf(digest, a, excluded)) == Hashed(KeptOf(digest, b, excluded)) <==>
        KeptOf(digest, a, excluded) == KeptOf(digest, b, excluded)
  {
    CollectRecordable(digest, RawListing([], a), excluded);
    CollectRecordable(digest, RawListing([], b), excluded);
    var x := KeptOf(digest, a, excluded);
    var y := KeptOf(digest, b, excluded);
    if Hashed(x) == Hashed(y) { HashedInjective(x, y); }
  }

  /** Whatever the names: equal hashed bytes mean the same last file under every key. */
  lemma DigestTells(digest: Digest, a: Folder, b: Folder, excluded: set<Bytes>, e: (Bytes, Entry))
    requires TextDigest(digest) && RawCollect(digest, a).Some? && RawCollect(digest, b).Some? && e.0 !in excluded
    ensures AllRecordable(KeptOf(digest, a, excluded)) && AllRecordable(KeptOf(digest, b, excluded))
    ensures Hashed(KeptOf(digest, a, excluded)) == Hashed(KeptOf(digest, b, excluded)) ==>
      ((exists path :: LastOf(digest, a, path, e)) <==> exists path :: LastOf(digest, b, path, e))
  {
    DigestBindsLists(digest, a, b, excluded);
    CollectedLast(digest, a, e);
    CollectedLast(digest, b, e);
    assert e in KeptOf(digest, a, excluded) <==> e in RawCollect(digest, a).value.entries;
    assert e in KeptOf(digest, b, excluded) <==> e in RawCollect(digest, b).value.entries;
  }

  /** Without backslashes, each regular file on a path of UTF-8 names outside the skipped
      directories is collected once, and nothing else is. */
  lemma CollectedExactly(digest: Digest, root: Folder, key: Bytes)
    requires PlainRaw(root) && RawCollect(digest, root).Some?
    ensures forall entry :: (key, entry) in RawCollect(digest, root).value.entries <==>
      Utf8Parts(Split(key)) && FileAt(digest, root, Split(key)) == Some(entry)
    ensures DistinctKeys(RawCollect(digest, root).value.entries)
  {
    RepeatsUnseen(digest, root);
    PlainSeen(root);
    FilesExactly(digest, Seen(root), key);
    ReadAt(digest, root, Split(key));
  }

  lemma KeptOnDisk(digest: Digest, root: Folder, excluded: set<Bytes>)
    requires PlainRaw(root) && RawCollect(digest, root).Some?
    ensures Sorted(KeptOf(digest, root, excluded))
    ensures
      var kept := KeptOf(digest, root, excluded);
      forall e :: e in kept <==> e.0 !in excluded && Utf8Parts(Split(e.0)) && FileAt(digest, root, Split(e.0)) == Some(e.1)
  {
    RepeatsUnseen(digest, root);
    PlainSeen(root);
    KeptExactly(digest, Seen(root), excluded);
    forall key ensures
        EntryAt(digest, Seen(root), key) == if Utf8Parts(Split(key)) then FileAt(digest, root, Split(key)) else None {
      ReadAt(digest, root, Split(key));
    }
  }

  /** Without backslashes, the hashed bytes agree exactly when every path of UTF-8 names outside the
      excluded ones holds the same file: empty directories, skipped names and listing order do not
      matter. */
  lemma DigestFaithful(digest: Digest, a: Folder, b: Folder, excluded: set<Bytes>)
    requires PlainRaw(a) && PlainRaw(b) && TextDigest(digest)
    requires RawCollect(digest, a).Some? && RawCollect(digest, b).Some?
    ensures AllRecordable(KeptOf(digest, a, excluded)) && AllRecordable(KeptOf(digest, b, excluded))
    ensures
      Hashed(KeptOf(digest, a, excluded)) == Hashed(KeptOf(digest, b, excluded)) <==>
        forall key :: key !in excluded && Utf8Parts(Split(key)) ==>
          FileAt(digest, a, Split(key)) == FileAt(digest, b, Split(key))
  {
    DigestBindsLists(digest, a, b, excluded);
    KeptOnDisk(digest, a, excluded);
    KeptOnDisk(digest, b, excluded);
    var x := KeptOf(digest, a, excluded);
    var y := KeptOf(digest, b, excluded);
    if x == y {
      forall key | key !in excluded && Utf8Parts(Split(key))
        ensures FileAt(digest, a, Split(key)) == FileAt(digest, b, Split(key)) {
        var e, f := FileAt(digest, a, Split(key)), FileAt(digest, b, Split(key));
        if e.Some? { assert (key, e.value) in x; }
        if f.Some? { assert (key, f.value) in y; }
      }
    }
    if forall key :: key !in excluded && Utf8Parts(Split(key)) ==> FileAt(digest, a, Split(key)) == FileAt(digest, b, Split(key)) {
      forall e ensures e in x <==> e in y {
        assert e == (e.0, e.1);
      }
      SortedUnique(x, y);
    }
  }

  /** If moreover every listed name is UTF-8, every path counts. */
  lemma DigestExact(digest: Digest, a: Folder, b: Folder, excluded: set<Bytes>)
    requires PlainRaw(a) && PlainRaw(b) && Utf8Names(a) && Utf8Names(b) && TextDigest(digest)
    requires RawCollect(digest, a).Some? && RawCollect(digest, b).Some?
    ensures AllRecordable(KeptOf(digest, a, excluded)) && AllRecordable(KeptOf(digest, b, excluded))
    ensures
      Hashed(KeptOf(digest, a, excluded)) == Hashed(KeptOf(digest, b, excluded)) <==>
        forall key :: key !in excluded ==> FileAt(digest, a, Split(key)) == FileAt(digest, b, Split(key))
  {
    DigestFaithful(digest, a, b, excluded);
    forall key ensures !Utf8Parts(Split(key)) ==> FileAt(digest, a, Split(key)) == FileAt(digest, b, Split(key)) == None {
      if RawAt(a, Split(key)).Some? { OnlyUtf8(a, Split(key)); }
      if RawAt(b, Split(key)).Some? { OnlyUtf8(b, Split(key)); }
    }
  }
}

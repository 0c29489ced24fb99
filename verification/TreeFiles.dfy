/** The collected list of a tree without backslashes is its files, in walk order (filesystem.ts). */
module TreeFiles {
  import opened Wrappers
  import opened Unicode
  import opened GitPath
  import opened Spelling
  import opened TreeListing
  import opened TreeCollect
  import opened TreeOrder
  import opened TreeDigest
  import Order

  /** No name below here contains a backslash. */
  predicate PlainNames(node: Node) {
    node.Dir? ==> forall n :: n in node.children ==> PosixName(n) && BACKSLASH_BYTE !in n && PlainNames(node.children[n])
  }

  lemma {:induction false} PlainAt(root: Node, path: Path)
    requires PlainNames(root) && At(root, path).Some?
    ensures forall i :: 0 <= i < |path| ==> PosixName(path[i]) && BACKSLASH_BYTE !in path[i]
    decreases |path|
  {
    if path != [] { PlainAt(root.children[path[0]], path[1..]); }
  }

  lemma PlainVisit(root: Node, v: Visit)
    requires root.Dir? && PlainNames(root) && v in Listing([], root)
    ensures v.path != [] && At(root, v.path) == Some(v.node)
    ensures Split(Join(v.path)) == v.path && Spelled(v.path) == Join(v.path)
  {
    ListingHas([], root, v);
    assert v.path[0..] == v.path;
    PlainAt(root, v.path);
    JoinPlain(v.path);
    SplitOfJoin(v.path);
  }

  // The collected entries are the files of the listing, in its order

  function FileEntries(digest: Digest, visits: seq<Visit>): Entries {
    if visits == [] then []
    else
      OneEntry(digest, visits[0]) + FileEntries(digest, visits[1..])
  }

  lemma {:induction false} FileEntriesHas(digest: Digest, visits: seq<Visit>, e: (Bytes, Entry))
    ensures e in FileEntries(digest, visits) <==>
      exists v :: v in visits && v.node.File? && e == (Join(v.path), EntryOf(digest, v.node))
  {
    if visits != [] {
      FileEntriesHas(digest, visits[1..], e);
      assert visits == [visits[0]] + visits[1..];
      assert visits[0] in visits;
    }
  }

  lemma {:induction false} PutFresh(entries: Entries, key: Bytes, entry: Entry)
    requires forall e :: e in entries ==> e.0 != key
    ensures Put(entries, key, entry) == entries + [(key, entry)]
  {
    if entries == [] {
    } else {
      assert entries[0] in entries;
      PutFresh(entries[1..], key, entry);
      assert entries == [entries[0]] + entries[1..];
    }
  }

  /** Every file visit has a plain path, new to `entries` and to the visits before it. */
  ghost predicate NewKeys(entries: Entries, visits: seq<Visit>) {
    && (forall v :: v in visits ==> Spelled(v.path) == Join(v.path))
    && (forall v, e :: v in visits && v.node.File? && e in entries ==> Join(v.path) != e.0)
    && forall i, j :: 0 <= i < j < |visits| && visits[i].node.File? && visits[j].node.File? ==>
         Join(visits[i].path) != Join(visits[j].path)
  }

  function OneEntry(digest: Digest, v: Visit): Entries {
    if v.node.File? then [(Join(v.path), EntryOf(digest, v.node))] else []
  }

  lemma StepAppends(digest: Digest, s: Option<Collected>, v: Visit)
    requires Step(digest, s, v).Some? && Spelled(v.path) == Join(v.path)
    requires v.node.File? ==> forall e :: e in s.value.entries ==> e.0 != Join(v.path)
    ensures Step(digest, s, v).value.entries == s.value.entries + OneEntry(digest, v)
  {
    if v.node.File? { PutFresh(s.value.entries, Join(v.path), EntryOf(digest, v.node)); }
  }

  lemma NewKeysStep(digest: Digest, entries: Entries, visits: seq<Visit>)
    requires visits != [] && NewKeys(entries, visits)
    ensures NewKeys(entries + OneEntry(digest, visits[0]), visits[1..])
  {
    assert forall i :: 0 <= i < |visits| - 1 ==> visits[1..][i] == visits[i + 1];
    assert forall u :: u in visits[1..] ==> u in visits;
    forall u, e | u in visits[1..] && u.node.File? && e in entries + OneEntry(digest, visits[0])
      ensures Join(u.path) != e.0 {
      var j :| 0 <= j < |visits[1..]| && visits[1..][j] == u;
      assert visits[j + 1] == u;
    }
  }

  lemma {:induction false} FoldFiles(digest: Digest, s: Option<Collected>, visits: seq<Visit>)
    requires s.Some? && Fold(digest, s, visits).Some? && NewKeys(s.value.entries, visits)
    ensures Fold(digest, s, visits).value.entries == s.value.entries + FileEntries(digest, visits)
    decreases |visits|
  {
    if visits != [] {
      var v, next := visits[0], Step(digest, s, visits[0]);
      assert v in visits;
      if next.None? {
        FoldNone(digest, visits[1..]);
      } else {
        StepAppends(digest, s, v);
        NewKeysStep(digest, s.value.entries, visits);
        FoldFiles(digest, next, visits[1..]);
        Regroup(s.value.entries, OneEntry(digest, v), FileEntries(digest, visits[1..]));
      }
    }
  }

  /** The pairs are in walk order, so their keys are distinct. */
  ghost predicate Sorted(entries: Entries) {
    forall i, j :: 0 <= i < j < |entries| ==> Before(Split(entries[i].0), Split(entries[j].0))
  }

  lemma {:induction false} FilesSorted(digest: Digest, visits: seq<Visit>)
    requires Ordered(0, visits)
    requires forall v :: v in visits ==> Split(Join(v.path)) == v.path
    ensures Sorted(FileEntries(digest, visits))
  {
    if visits != [] {
      var v, rest := visits[0], visits[1..];
      assert Ordered(0, rest) by {
        assert forall i :: 0 <= i < |rest| ==> rest[i] == visits[i + 1];
      }
      FilesSorted(digest, rest);
      if v.node.File? {
        forall e | e in FileEntries(digest, rest) ensures Before(v.path, Split(e.0)) {
          FileEntriesHas(digest, rest, e);
          var u :| u in rest && u.node.File? && e == (Join(u.path), EntryOf(digest, u.node));
          var j :| 0 <= j < |rest| && rest[j] == u;
          assert Comes(0, visits[0], visits[j + 1]);
          assert v.path[0..] == v.path && u.path[0..] == u.path;
        }
        assert Split(Join(v.path)) == v.path;
      }
    }
  }

  /** No two files of a tree with plain names have one key. */
  lemma ListingNewKeys(root: Node)
    requires root.Dir? && PlainNames(root)
    ensures NewKeys([], Listing([], root)) && Ordered(0, Listing([], root))
    ensures forall v :: v in Listing([], root) ==> Split(Join(v.path)) == v.path
  {
    var visits := Listing([], root);
    forall v | v in visits ensures Split(Join(v.path)) == v.path && Spelled(v.path) == Join(v.path) {
      PlainVisit(root, v);
    }
    ListingOrdered([], root);
    forall i, j | 0 <= i < j < |visits| && visits[i].node.File? && visits[j].node.File?
      ensures Join(visits[i].path) != Join(visits[j].path) {
      assert Comes(0, visits[i], visits[j]) && visits[i] in visits && visits[j] in visits;
      assert visits[i].path[0..] == visits[i].path && visits[j].path[0..] == visits[j].path;
      BeforeAsymmetric(visits[i].path, visits[j].path);
    }
  }

  /** Over plain names, the collected entries are the listed files in the order of the walk. */
  lemma CollectedFiles(digest: Digest, root: Node)
    requires root.Dir? && PlainNames(root) && Collect(digest, root).Some?
    ensures Collect(digest, root).value.entries == FileEntries(digest, Listing([], root))
    ensures Sorted(Collect(digest, root).value.entries)
  {
    ListingNewKeys(root);
    FoldFiles(digest, START, Listing([], root));
    FilesSorted(digest, Listing([], root));
  }

  /** The file at a slash-separated path, as an entry. */
  function EntryAt(digest: Digest, root: Node, key: Bytes): Option<Entry> {
    var found := At(root, Split(key));
    if found.Some? && found.value.File? then Some(EntryOf(digest, found.value)) else None
  }

  /** Each regular file outside the skipped directories is collected once, and nothing else is. */
  lemma FilesExactly(digest: Digest, root: Node, key: Bytes)
    requires root.Dir? && PlainNames(root) && Collect(digest, root).Some?
    ensures forall entry :: (key, entry) in Collect(digest, root).value.entries <==> EntryAt(digest, root, key) == Some(entry)
    ensures forall i, j :: 0 <= i < j < |Collect(digest, root).value.entries| ==>
      Collect(digest, root).value.entries[i].0 != Collect(digest, root).value.entries[j].0
  {
    CollectedFiles(digest, root);
    var visits := Listing([], root);
    forall entry ensures (key, entry) in FileEntries(digest, visits) <==> EntryAt(digest, root, key) == Some(entry) {
      FileEntriesHas(digest, visits, (key, entry));
      forall v | v in visits ensures At(root, v.path) == Some(v.node) && Split(Join(v.path)) == v.path {
        PlainVisit(root, v);
      }
      var path := Split(key);
      JoinOfSplit(key);
      if EntryAt(digest, root, key) == Some(entry) {
        var v := Visit(path, At(root, path).value);
        assert path[0..] == path;
        ListingHas([], root, v);
      }
    }
    SortedDistinct(Collect(digest, root).value.entries);
  }

  lemma SortedDistinct(entries: Entries)
    requires Sorted(entries)
    ensures forall i, j :: 0 <= i < j < |entries| ==> entries[i].0 != entries[j].0
  {
    forall i, j | 0 <= i < j < |entries| ensures entries[i].0 != entries[j].0 {
      BeforeAsymmetric(Split(entries[i].0), Split(entries[j].0));
    }
  }

  lemma {:induction false} KeptSorted(entries: Entries, excluded: set<Bytes>)
    requires Sorted(entries)
    ensures Sorted(TreeDigest.Kept(entries, excluded))
  {
    if entries != [] {
      assert Sorted(entries[1..]);
      KeptSorted(entries[1..], excluded);
      var rest := TreeDigest.Kept(entries[1..], excluded);
      forall e | e in rest ensures Before(Split(entries[0].0), Split(e.0)) {
        assert e in entries[1..];
      }
    }
  }

  // A list in walk order is determined by its elements.
  lemma {:induction false} SortedUnique(a: Entries, b: Entries)
    requires Sorted(a) && Sorted(b) && forall e :: e in a <==> e in b
    ensures a == b
  {
    assert |a| > 0 ==> a[0] in a;
    assert |b| > 0 ==> b[0] in b;
    if a != [] && b != [] {
      assert a[0] == b[0] by {
        var i :| 0 <= i < |b| && b[i] == a[0];
        var j :| 0 <= j < |a| && a[j] == b[0];
        if i != 0 && j != 0 { BeforeAsymmetric(Split(a[0].0), Split(a[j].0)); }
      }
      forall e ensures e in a[1..] <==> e in b[1..] {
        SortedTail(a, e);
        SortedTail(b, e);
      }
      SortedUnique(a[1..], b[1..]);
      assert a == [a[0]] + a[1..] && b == [b[0]] + b[1..];
    }
  }

  lemma SortedTail(a: Entries, e: (Bytes, Entry))
    requires Sorted(a) && a != []
    ensures e in a[1..] <==> e in a && e != a[0]
  {
    SortedDistinct(a);
    if e in a && e != a[0] {
      var i :| 0 <= i < |a| && a[i] == e;
      assert a[1..][i - 1] == e;
    }
  }

  lemma KeptExactly(digest: Digest, root: Node, excluded: set<Bytes>)
    requires root.Dir? && PlainNames(root) && Collect(digest, root).Some?
    ensures Sorted(TreeDigest.Kept(Collect(digest, root).value.entries, excluded))
    ensures
      var kept := TreeDigest.Kept(Collect(digest, root).value.entries, excluded);
      forall e :: e in kept <==> e.0 !in excluded && EntryAt(digest, root, e.0) == Some(e.1)
  {
    CollectedFiles(digest, root);
    KeptSorted(Collect(digest, root).value.entries, excluded);
    forall key, entry
      ensures (key, entry) in Collect(digest, root).value.entries <==> EntryAt(digest, root, key) == Some(entry) {
      FilesExactly(digest, root, key);
    }
  }
}

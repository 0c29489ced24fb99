/** Exactly when a regular tree can be collected, and so has a digest (filesystem.ts). */
module TreeSuccess {
  import opened Wrappers
  import opened Unicode
  import opened GitPath
  import opened Spelling
  import opened TreeListing
  import opened TreeCollect
  import opened TreeFiles
  import opened TreeSeen
  import opened TreeWalk

  // Over visits with different keys

  function FileCount(visits: seq<Visit>): nat {
    if visits == [] then 0 else (if visits[0].node.File? then 1 else 0) + FileCount(visits[1..])
  }

  function FileBytes(visits: seq<Visit>): nat {
    if visits == [] then 0 else (if visits[0].node.File? then |visits[0].node.contents| else 0) + FileBytes(visits[1..])
  }

  /** A visit that the loop body accepts on its own. */
  predicate Fits(v: Visit) {
    Accepts(Spelled(v.path)) && !v.node.Special? && (v.node.File? ==> |v.node.contents| <= 268435456)
  }

  predicate WithinLimits(entries: nat, bytes: nat, visits: seq<Visit>) {
    FileCount(visits) > 0 ==> entries + FileCount(visits) <= 50000 && bytes + FileBytes(visits) <= 536870912
  }

  lemma {:induction false} NoFiles(visits: seq<Visit>)
    requires FileCount(visits) == 0
    ensures FileBytes(visits) == 0
  {
    if visits != [] { NoFiles(visits[1..]); }
  }

  lemma StepFits(digest: Digest, s: Collected, v: Visit)
    requires Spelled(v.path) == Join(v.path) && (v.node.File? ==> forall e :: e in s.entries ==> e.0 != Join(v.path))
    ensures Step(digest, Some(s), v).Some? <==>
      Fits(v) && (v.node.File? ==> |s.entries| + 1 <= 50000 && s.total + |v.node.contents| <= 536870912)
    ensures Step(digest, Some(s), v).Some? ==>
      var next := Step(digest, Some(s), v).value;
      && next.entries == s.entries + OneEntry(digest, v)
      && next.total == s.total + if v.node.File? then |v.node.contents| else 0
  {
    if Step(digest, Some(s), v).Some? { StepAppends(digest, Some(s), v); }
  }

  lemma {:induction false} FoldFits(digest: Digest, s: Collected, visits: seq<Visit>)
    requires NewKeys(s.entries, visits)
    ensures Fold(digest, Some(s), visits).Some? <==>
      (forall v :: v in visits ==> Fits(v)) && WithinLimits(|s.entries|, s.total, visits)
    decreases |visits|
  {
    if visits != [] {
      var v, rest, next := visits[0], visits[1..], Step(digest, Some(s), visits[0]);
      assert v in visits && forall u :: u in visits <==> u == v || u in rest;
      StepFits(digest, s, v);
      if next.None? {
        FoldNone(digest, rest);
      } else {
        NewKeysStep(digest, s.entries, visits);
        FoldFits(digest, next.value, rest);
        if FileCount(rest) == 0 { NoFiles(rest); }
      }
    }
  }

  // Over disks with ordinary names

  /** What the walk accepts of an entry: a directory, or a regular file of one link and bounded size. */
  predicate Collectable(raw: Raw) {
    raw.Directory? || (raw.Regular? && !raw.linked && |raw.contents| <= 268435456)
  }

  lemma {:induction false} SeenAtUtf8(raw: Raw, path: Path)
    requires Utf8Names(raw)
    ensures At(Seen(raw), path) == if RawAt(raw, path).Some? then Some(Seen(RawAt(raw, path).value)) else None
    decreases |path|
  {
    if path != [] && raw.Directory? && !Skipped(path[0]) {
      var name := path[0];
      assert name in Seen(raw).children <==> name in ReadNames(raw.children);
      if name in raw.children { OwnName(raw, name); }
      if name in Seen(raw).children {
        ReadAlone(raw, name);
        SeenAtUtf8(raw.children[name], path[1..]);
      }
    }
  }

  lemma PlainAccepts(root: Node, v: Visit)
    requires root.Dir? && PlainNames(root) && v in Listing([], root) && Utf8Parts(v.path)
    ensures Accepts(Spelled(v.path)) <==> |v.path| <= 64
  {
    PlainVisit(root, v);
    PlainAt(root, v.path);
    SpelledDecodes(v.path);
  }

  lemma VisitFits(root: Folder, v: Visit)
    requires PlainRaw(root) && Utf8Names(root) && v in Listing([], Seen(root))
    ensures RawAt(root, v.path).Some? && v.path != []
    ensures Fits(v) <==> Collectable(RawAt(root, v.path).value) && |v.path| <= 64
  {
    ListingHas([], Seen(root), v);
    assert v.path[0..] == v.path;
    SeenAtUtf8(root, v.path);
    OnlyUtf8(root, v.path);
    PlainSeen(root);
    PlainAccepts(Seen(root), v);
  }

  predicate ReachedFits(raw: Raw, path: Path) { |path| <= 64 && Collectable(raw) }

  /** Everything that a path of unskipped names reaches is accepted. */
  ghost predicate AllReachedFit(root: Folder) {
    forall path :: path != [] && RawAt(root, path).Some? ==> ReachedFits(RawAt(root, path).value, path)
  }

  lemma VisitsFit(root: Folder)
    requires PlainRaw(root) && Utf8Names(root)
    ensures (forall v :: v in Listing([], Seen(root)) ==> Fits(v)) <==> AllReachedFit(root)
  {
    var visits := Listing([], Seen(root));
    if AllReachedFit(root) {
      forall v | v in visits ensures Fits(v) { VisitFits(root, v); }
    }
    if forall v :: v in visits ==> Fits(v) {
      forall path | path != [] && RawAt(root, path).Some? ensures ReachedFits(RawAt(root, path).value, path) {
        var v := Visit(path, Seen(RawAt(root, path).value));
        SeenAtUtf8(root, path);
        assert path[0..] == path;
        ListingHas([], Seen(root), v);
        VisitFits(root, v);
      }
    }
  }

  /** Without backslashes and other names than UTF-8, a tree is collected exactly when everything the
      walk reaches is a directory or a regular file of one link and at most 256 MiB, no more than 64
      names deep, and there are at most 50000 files of at most 512 MiB in all. */
  lemma CollectsExactly(digest: Digest, root: Folder)
    requires PlainRaw(root) && Utf8Names(root)
    ensures RawCollect(digest, root).Some? <==>
      AllReachedFit(root) && FileCount(Listing([], Seen(root))) <= 50000 && FileBytes(Listing([], Seen(root))) <= 536870912
  {
    var visits := Listing([], Seen(root));
    PlainSeen(root);
    UnaliasedWalk([], root);
    ListingNewKeys(Seen(root));
    FoldFits(digest, START.value, visits);
    if FileCount(visits) == 0 { NoFiles(visits); }
    VisitsFit(root);
  }
}

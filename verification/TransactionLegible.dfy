/** Exactly when success of `applyCandidateFiles` means the target tree, whatever outsiders do. */
module TransactionLegible {
  import opened Wrappers
  import opened Unicode
  import opened GitPath
  import opened Spelling
  import opened RepositoryTree
  import opened Transaction
  import opened TransactionAtomicity
  import opened TransactionSlips
  import opened TransactionTwins

  /** Other bytes that are read as the same text. */
  lemma OtherBytes(b: Bytes) returns (other: Bytes)
    requires !Legible(b)
    ensures other != b && Lossy(other) == Lossy(b)
  {
    if DecodeUtf8(b).None? {
      other := Lossy(b);
      LossyDecodes(b);
      LossyOfUtf8(other);
    } else {
      other := Broken(b);
      BrokenReads(b);
    }
  }

  function OtherNode(here: Option<Node>): (node: Node)
    ensures Some(node) != here && (here.Some? ==> here.value.Dir? == node.Dir?)
  {
    match here
    case Some(Dir(mode)) => Dir(if mode == 0 then 1 else 0)
    case Some(File(mode, bytes)) => File(if mode == 0 then 1 else 0, bytes)
    case _ => File(0, [])
  }

  /** An edit that no check sees, and that changes the tree where it counts. */
  ghost predicate Slip(w: World, base: Tree, proposed: Tree, files: seq<Path>, e: Edit) {
    Unseen(w, base, proposed, files, e) && !Ignored(e.at)
    && Get(Edited(Target(base, proposed, files), e), e.at) != Get(Target(base, proposed, files), e.at)
  }

  /** Beside a name that holds U+FFFD. */
  lemma MarkedSlips(w: World, base: Tree, expected: Tree, proposed: Tree, first: nat, files: seq<Path>, d: Path) returns (e: Edit)
    requires WouldSucceed(w, base, expected, proposed, first, files)
    requires Shown(Target(base, proposed, files), d) && NamedPath(d) && d != [] && HasMark(d[|d| - 1].text)
    ensures Slip(w, base, proposed, files, e) && (PlainPath(d) ==> PlainPath(e.at))
  {
    var end, name := Target(base, proposed, files), d[|d| - 1].text;
    EndIsTree(base, expected, proposed, files);
    assert PosixPath(d) && DecodeUtf8(NameText(d[|d| - 1])).Some?;
    BrokenIsName(name);
    LossyOfUtf8(name);
    var z := WithLast(d, Broken(name));
    LastReadable(d, Broken(name));
    assert !Readable(z);
    assert z !in files by { assert forall i :: 0 <= i < |files| ==> Readable(files[i]); }
    e := Edit(z, OtherNode(Get(end, z)), None);
    NameSlips(w, base, expected, proposed, first, files, d, Broken(name), e.node);
    MarkedIsNotIgnored(d, Broken(name));
  }

  lemma MarkedIsNotIgnored(d: Path, text: Bytes)
    requires d != [] && d[|d| - 1].Plain? && HasMark(d[|d| - 1].text) && PosixName(text) && DecodeUtf8(text).None?
    ensures Ignored(WithLast(d, text)) <==> Ignored(d)
  {
    ReadName(text);
    AsciiLegible(GIT);
    AsciiLegible(NODE_MODULES);
    LastIgnored(d, text);
  }

  /** At a path or link of the resulting tree that is not legible. */
  lemma IllegibleSlips(w: World, base: Tree, expected: Tree, proposed: Tree, first: nat, files: seq<Path>, p: Path) returns (e: Edit)
    requires WouldSucceed(w, base, expected, proposed, first, files)
    requires Listed(Target(base, proposed, files), files, p) && NamedPath(p)
    requires !LegiblePath(p) || !LegibleNode(Target(base, proposed, files)[p])
    ensures Slip(w, base, proposed, files, e) && (PlainPath(p) ==> PlainPath(e.at))
  {
    var end := Target(base, proposed, files);
    if p in files { NoFileDirectory(base, expected, proposed, files, p); }
    assert !Ignored(p) by {
      if p in files { var i :| 0 <= i < |files| && files[i] == p; }
    }
    if !LegiblePath(p) {
      EndIsTree(base, expected, proposed, files);
      var d := IllegibleShows(end, p);
      e := MarkedSlips(w, base, expected, proposed, first, files, d);
    } else {
      var other := OtherBytes(end[p].target);
      LegibleReadable(p);
      LinkSlips(w, base, expected, proposed, first, files, p, other);
      e := Edit(p, Link(base[p].mode, other), None);
    }
  }

  /** The path counts for the promise. */
  predicate Counts(files: seq<Path>, p: Path) { p in files || !Ignored(p) }

  /** An undisturbed call leaves the target, as far as it counts. */
  ghost predicate LeavesTarget(base: Tree, expected: Tree, proposed: Tree, files: seq<Path>) {
    forall p :: Counts(files, p) ==> Get(Target(base, proposed, files), p) == Get(Target(expected, proposed, files), p)
  }

  /** When the target holds a name or link that something else is read as, some edit slips in that
      makes a successful call miss it, without any backslash of its own. */
  lemma IllegibleMisses(w: World, base: Tree, expected: Tree, proposed: Tree, first: nat, files: seq<Path>) returns (e: Edit)
    requires WouldSucceed(w, base, expected, proposed, first, files)
    requires LeavesTarget(base, expected, proposed, files) && !LegibleTarget(Target(expected, proposed, files), files)
    ensures Slip(w, base, proposed, files, e)
    ensures Counts(files, e.at) && Get(Edited(Target(base, proposed, files), e), e.at) != Get(Target(expected, proposed, files), e.at)
    ensures PlainTree(base) ==> PlainPath(e.at)
  {
    var target, end := Target(expected, proposed, files), Target(base, proposed, files);
    var p :| Listed(target, files, p) && !(LegiblePath(p) && LegibleNode(target[p]));
    assert Counts(files, p) && Get(end, p) == Get(target, p);
    FilesReady(w, base, expected, proposed, first, files);
    assert forall f :: f in files ==> PlainPath(f);
    e := IllegibleSlips(w, base, expected, proposed, first, files, p);
  }

  /** So for trees without backslashes, where an undisturbed call leaves the target: success is exact
      whatever outsiders do when the target is flat and legible, and otherwise some edit slips in. */
  lemma ExactOrSlips(w: World, base: Tree, expected: Tree, proposed: Tree, first: nat, files: seq<Path>) returns (e: Edit)
    requires WouldSucceed(w, base, expected, proposed, first, files) && LeavesTarget(base, expected, proposed, files)
    requires PlainTree(base) && WellFormed(expected) && PlainTree(expected)
    ensures (FlatTarget(expected, proposed, files) && LegibleTarget(Target(expected, proposed, files), files)) ||
      (Slip(w, base, proposed, files, e) && Counts(files, e.at)
       && Get(Edited(Target(base, proposed, files), e), e.at) != Get(Target(expected, proposed, files), e.at))
  {
    e := Edit([], File(0, []), None);
    if !LegibleTarget(Target(expected, proposed, files), files) {
      e := IllegibleMisses(w, base, expected, proposed, first, files);
    } else if !FlatTarget(expected, proposed, files) {
      e := DeepSlips(w, base, expected, proposed, first, files);
    }
  }

  lemma DeepSlips(w: World, base: Tree, expected: Tree, proposed: Tree, first: nat, files: seq<Path>) returns (e: Edit)
    requires WouldSucceed(w, base, expected, proposed, first, files) && LeavesTarget(base, expected, proposed, files)
    requires PlainTree(base) && WellFormed(expected) && PlainTree(expected)
    requires LegibleTarget(Target(expected, proposed, files), files) && !FlatTarget(expected, proposed, files)
    ensures Slip(w, base, proposed, files, e) && Counts(files, e.at)
    ensures Get(Edited(Target(base, proposed, files), e), e.at) != Get(Target(expected, proposed, files), e.at)
  {
    var target, end := Target(expected, proposed, files), Target(base, proposed, files);
    FilesReady(w, base, expected, proposed, first, files);
    assert forall f :: f in files ==> f != [] && PosixPath(f) && PlainPath(f);
    var p :| Listed(target, files, p) && !(|p| == 1 && PosixPath(p) && PlainPath(p));
    assert |p| >= 2 && PlainPath(p) && PosixPath(p);
    assert Counts(files, p) && Get(end, p) == Get(target, p);
    if p in files { var i :| 0 <= i < |files| && files[i] == p; }
    LegibleReadable(p);
    TwinSpells(p);
    TwinSlips(w, base, expected, proposed, first, files, p, false);
    e := Edit(Twin(p), end[p], None);
    assert Twin(p) !in files && Twin(p) !in base && Twin(p) !in expected;
  }
}

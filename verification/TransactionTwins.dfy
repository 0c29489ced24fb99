/** Names and links that are read alike, and what slips past `applyCandidateFiles` under them. */
module TransactionTwins {
  import opened Wrappers
  import opened Unicode
  import opened Spelling
  import opened RepositoryTree
  import opened Transaction
  import opened TransactionAtomicity
  import opened TransactionCalm
  import opened TransactionSlips

  // The tree that an undisturbed call leaves

  /** A call that nothing interferes with would succeed. */
  ghost predicate WouldSucceed(w: World, base: Tree, expected: Tree, proposed: Tree, first: nat, files: seq<Path>) {
    && Prepared(w, base, expected, proposed, first, files) && (forall p :: p in base ==> NamedPath(p))
    && AllApplicable(base, expected, proposed, files) && Walkable(Target(base, proposed, files))
  }

  lemma NoFileDirectory(base: Tree, expected: Tree, proposed: Tree, files: seq<Path>, p: Path)
    requires AllApplicable(base, expected, proposed, files) && p in files
    ensures Safe(base, p) && (p in base ==> base[p].File?) && (p in proposed ==> proposed[p].File?)
  {
    var i :| 0 <= i < |files| && files[i] == p;
    assert Applicable(base, expected, proposed, files[i]);
    ApplicableChecks(base, expected, proposed, files[i]);
  }

  lemma EndDirectories(base: Tree, expected: Tree, proposed: Tree, files: seq<Path>, p: Path)
    requires WellFormed(base) && AllApplicable(base, expected, proposed, files) && p in Target(base, proposed, files)
    ensures ParentsOk(base, p) && ParentsOk(Target(base, proposed, files), p)
    ensures Target(base, proposed, files)[p].Dir? ==> p in base && p !in files
  {
    forall q | q in files ensures q in base ==> base[q].File? { NoFileDirectory(base, expected, proposed, files, q); }
    if p in files { NoFileDirectory(base, expected, proposed, files, p); }
    forall k | 0 < k < |p| ensures p[..k] in Target(base, proposed, files) && Target(base, proposed, files)[p[..k]].Dir? {
      assert p[..k] in base && base[p[..k]].Dir?;
    }
  }

  lemma EndIsTree(base: Tree, expected: Tree, proposed: Tree, files: seq<Path>)
    requires WellFormed(base) && AllApplicable(base, expected, proposed, files)
    ensures WellFormed(Target(base, proposed, files))
  {
    forall p | p in Target(base, proposed, files)
      ensures p != [] && PosixPath(p) && ParentsOk(Target(base, proposed, files), p) {
      EndDirectories(base, expected, proposed, files, p);
      if p in files {
        NoFileDirectory(base, expected, proposed, files, p);
        assert forall j :: 0 <= j < |p| ==> SafeName(p[j]);
      }
    }
  }

  lemma FilesReady(w: World, base: Tree, expected: Tree, proposed: Tree, first: nat, files: seq<Path>)
    requires WouldSucceed(w, base, expected, proposed, first, files)
    ensures FilesOk(proposed, files)
    ensures forall i :: 0 <= i < |files| ==> Safe(base, files[i]) && (files[i] in base ==> base[files[i]].File?)
  {
    forall i | 0 <= i < |files|
      ensures files[i] != [] && PosixPath(files[i]) && PlainPath(files[i])
      ensures Safe(base, files[i]) && (files[i] in base ==> base[files[i]].File?) {
      NoFileDirectory(base, expected, proposed, files, files[i]);
      SafeIsPlain(base, files[i]);
    }
  }

  // An entry that is no directory, or that no text names, stands beside the changed files.
  lemma StandsAside(base: Tree, files: seq<Path>, e: Edit)
    requires forall i :: 0 <= i < |files| ==> Safe(base, files[i]) && PlainPath(files[i]) && Readable(files[i])
    requires e.at !in files && (e.gone.Some? ==> e.gone.value !in files)
    requires !PlainPath(e.at) || !Readable(e.at) || (e.at in base && !base[e.at].Dir?)
    requires e.gone.Some? ==> e.gone.value in base && !base[e.gone.value].Dir?
    ensures Aside(files, e)
  {
    forall i, k | 0 <= i < |files| && 0 < k < |files[i]| ensures files[i][..k] != e.at && e.gone != Some(files[i][..k]) {
      PrefixOf(files[i], k);
      assert files[i][..k] in base && base[files[i][..k]].Dir?;
    }
    assert forall i :: 0 <= i < |files| ==> files[i] in files;
  }

  /** Trees that show the same records under the same keys are walked alike. */
  lemma WalkedAlike(w: World, a: Tree, b: Tree, files: seq<Path>)
    requires Walks(w) && Unshadowed(b, files)
    requires forall x :: Shown(a, x) ==> HasKey(b, Key(x)) && forall y :: ShownAs(b, y, Key(x)) ==> RecordOf(w.hash, b[y]) == RecordOf(w.hash, a[x])
    requires forall y :: Shown(b, y) ==> HasKey(a, Key(y))
    ensures w.walk(0, a) == w.walk(0, b)
  {
    var u, v := w.walk(0, a), w.walk(0, b);
    assert Walked(w.hash, a, u) && Walked(w.hash, b, v);
    forall key | HasKey(b, key) ensures HasKey(a, key) {
      var y :| ShownAs(b, y, key);
      assert Shown(b, y);
    }
    forall key ensures InView(u, key) == InView(v, key) {
      if key in u {
        assert HasKey(a, key) && KeyShows(w.hash, a, key, u[key]);
        var x :| ShownAs(a, x, key) && RecordOf(w.hash, a[x]) == u[key];
        assert Shown(a, x) && HasKey(b, Key(x));
        var y :| ShownAs(b, y, key);
        UnshadowedWalk(w, 0, b, files, y);
      }
    }
    SameViews(u, v);
  }

  lemma SameShown(w: World, a: Tree, b: Tree, files: seq<Path>)
    requires Walks(w) && Unshadowed(b, files)
    requires forall x :: Shown(a, x) <==> Shown(b, x)
    requires forall x :: Shown(b, x) ==> x in a && RecordOf(w.hash, a[x]) == RecordOf(w.hash, b[x])
    ensures w.walk(0, a) == w.walk(0, b)
  {
    forall x | Shown(a, x) ensures HasKey(b, Key(x)) && HasKey(a, Key(x)) {
      assert ShownAs(b, x, Key(x)) && ShownAs(a, x, Key(x));
    }
    WalkedAlike(w, a, b, files);
  }

  // A link that is read like another

  /** An unchanged link is pointed elsewhere, to a target that is read as the same text. */
  lemma LinkSlips(w: World, base: Tree, expected: Tree, proposed: Tree, first: nat, files: seq<Path>, q: Path, target: Bytes)
    requires WouldSucceed(w, base, expected, proposed, first, files)
    requires Shown(Target(base, proposed, files), q) && q !in files && Target(base, proposed, files)[q].Link?
    requires Lossy(target) == Lossy(Target(base, proposed, files)[q].target)
    ensures Unseen(w, base, proposed, files, Edit(q, Link(base[q].mode, target), None))
  {
    var end, e := Target(base, proposed, files), Edit(q, Link(base[q].mode, target), None);
    FilesReady(w, base, expected, proposed, first, files);
    StandsAside(base, files, e);
    EndUnshadowed(base, proposed, files);
    assert Edited(end, e).Keys == end.Keys;
    SameShown(w, Edited(end, e), end, files);
    forall p | p in Edited(end, e) && Visited(Edited(end, e), p) ensures Decoded(p) in Edited(end, e) { assert Visited(end, p); }
  }

  // A name that is read like another

  /** Beside an entry, one is written under a name that is read like its own. */
  lemma NameSlips(w: World, base: Tree, expected: Tree, proposed: Tree, first: nat, files: seq<Path>, d: Path, text: Bytes, node: Node)
    requires WouldSucceed(w, base, expected, proposed, first, files)
    requires Shown(Target(base, proposed, files), d) && NamedPath(d) && d != []
    requires PosixName(text) && DecodeUtf8(text).None? && Lossy(text) == d[|d| - 1].text
    requires WithLast(d, text) in base ==> base[WithLast(d, text)].Dir? == node.Dir?
    ensures Unseen(w, base, proposed, files, Edit(WithLast(d, text), node, None))
  {
    var end, z := Target(base, proposed, files), WithLast(d, text);
    var e := Edit(z, node, None);
    FilesReady(w, base, expected, proposed, first, files);
    LastReadable(d, text);
    assert !Readable(z) && NamedPath(z);
    assert z !in files;
    StandsAside(base, files, e);
    NameFits(base, expected, proposed, files, d, text);
    EndUnshadowed(base, proposed, files);
    SameShown(w, Edited(end, e), end, files);
    NameSlipsWalkable(end, d, text, node);
  }

  lemma NameFits(base: Tree, expected: Tree, proposed: Tree, files: seq<Path>, d: Path, text: Bytes)
    requires WellFormed(base) && AllApplicable(base, expected, proposed, files) && d in Target(base, proposed, files)
    requires d != [] && PosixName(text)
    ensures ParentsOk(base, WithLast(d, text)) && PosixPath(WithLast(d, text))
  {
    var z := WithLast(d, text);
    EndDirectories(base, expected, proposed, files, d);
    forall k | 0 < k < |z| ensures z[..k] in base && base[z[..k]].Dir? { assert z[..k] == d[..k]; }
    EndIsTree(base, expected, proposed, files);
  }

  lemma NameSlipsWalkable(end: Tree, d: Path, text: Bytes, node: Node)
    requires Walkable(end) && d in end && d != [] && d[|d| - 1].Plain?
    requires DecodeUtf8(text).None? && Lossy(text) == d[|d| - 1].text
    ensures Walkable(Edited(end, Edit(WithLast(d, text), node, None)))
  {
    var z := WithLast(d, text);
    var after := Edited(end, Edit(z, node, None));
    forall p | p in after && Visited(after, p) ensures Decoded(p) in after {
      if p == z {
        assert Decoded(z) == WithLast(z, Lossy(text));
        assert WithLast(z, Lossy(text)) == d;
      } else {
        assert Visited(end, p);
      }
    }
  }

  // A path that is spelled like another

  /** A deeper entry is copied, or moved, to its twin in the root. */
  lemma TwinSlips(w: World, base: Tree, expected: Tree, proposed: Tree, first: nat, files: seq<Path>, p: Path, moved: bool)
    requires WouldSucceed(w, base, expected, proposed, first, files)
    requires Shown(Target(base, proposed, files), p) && NamedPath(p) && |p| >= 2 && Twin(p) !in base
    requires moved ==> p !in files && LegiblePath(p) && !base[p].Dir?
    ensures Unseen(w, base, proposed, files, Edit(Twin(p), Target(base, proposed, files)[p], if moved then Some(p) else None))
  {
    var end := Target(base, proposed, files);
    var e := Edit(Twin(p), end[p], if moved then Some(p) else None);
    FilesReady(w, base, expected, proposed, first, files);
    EndIsTree(base, expected, proposed, files);
    TwinSpells(p);
    assert Twin(p) !in files;
    StandsAside(base, files, e);
    TwinWalked(w, base, proposed, files, p, e);
    DecodedIsRead(Twin(p));
    TwinWalkable(base, proposed, files, p, e);
  }

  lemma TwinWalked(w: World, base: Tree, proposed: Tree, files: seq<Path>, p: Path, e: Edit)
    requires Walks(w) && FilesOk(proposed, files) && Unshadowed(base, files) && Shown(Target(base, proposed, files), p)
    requires PosixPath(p) && NamedPath(p) && |p| >= 2 && Twin(p) !in Target(base, proposed, files)
    requires e.at == Twin(p) && e.node == Target(base, proposed, files)[p] && (e.gone.Some? ==> e.gone.value == p)
    ensures w.walk(0, Edited(Target(base, proposed, files), e)) == w.walk(0, Target(base, proposed, files))
  {
    var end, after := Target(base, proposed, files), Edited(Target(base, proposed, files), e);
    TwinSpells(p);
    EndUnshadowed(base, proposed, files);
    forall x | Shown(after, x)
      ensures HasKey(end, Key(x)) && forall z :: ShownAs(end, z, Key(x)) ==> RecordOf(w.hash, end[z]) == RecordOf(w.hash, after[x]) {
      var stands := if x == Twin(p) then p else x;
      assert ShownAs(end, stands, Key(x));
    }
    forall z | Shown(end, z) ensures HasKey(after, Key(z)) {
      assert ShownAs(after, if z == p then Twin(p) else z, Key(z));
    }
    WalkedAlike(w, after, end, files);
  }

  lemma NotReadAs(x: Path, p: Path)
    requires x != [] && PosixPath(x) && NamedPath(x) && Readable(x[..|x| - 1]) && x != p && LegiblePath(p)
    ensures Decoded(x) != p
  {
    DecodedIsRead(x);
    if p != [] { assert Legible(NameText(p[|p| - 1])); }
  }

  lemma TwinWalkable(base: Tree, proposed: Tree, files: seq<Path>, p: Path, e: Edit)
    requires Walkable(Target(base, proposed, files)) && WellFormed(Target(base, proposed, files))
    requires forall x :: x in Target(base, proposed, files) ==> NamedPath(x)
    requires p in Target(base, proposed, files) && e.at != [] && Decoded(e.at) == e.at
    requires e.gone.Some? ==> e.gone.value == p && LegiblePath(p)
    ensures Walkable(Edited(Target(base, proposed, files), e))
  {
    var end, after := Target(base, proposed, files), Edited(Target(base, proposed, files), e);
    forall x | x in after && Visited(after, x) ensures Decoded(x) in after {
      if x != e.at {
        assert Visited(end, x);
        if e.gone.Some? { NotReadAs(x, p); }
      }
    }
  }
}

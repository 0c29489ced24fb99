/** When applying an inspected artifact succeeds, and what its confirmation then says. */
module ArtifactSuccess {
  import opened Wrappers
  import opened Unicode
  import opened GitPath
  import opened Spelling
  import opened RepositoryTree
  import opened Artifact
  import opened ArtifactTransfer

  predicate NoDirectory(base: Tree, proposed: Tree, p: Path) {
    (p in base ==> !base[p].Dir?) && (p in proposed ==> !proposed[p].Dir?)
  }

  /** No changed path is a directory on either side. */
  predicate NoDirectories(base: Tree, proposed: Tree, files: seq<Bytes>) {
    forall i :: 0 <= i < |files| ==> NoDirectory(base, proposed, PathOf(files[i]))
  }

  lemma NoDirectoriesStep(base: Tree, proposed: Tree, files: seq<Bytes>, n: nat)
    requires 0 < n <= |files|
    ensures NoDirectories(base, proposed, files[..n]) <==>
      NoDirectories(base, proposed, files[..n - 1]) && NoDirectory(base, proposed, PathOf(files[n - 1]))
  {
    var shorter, longer := files[..n - 1], files[..n];
    assert longer == shorter + [files[n - 1]];
    assert forall i :: 0 <= i < n - 1 ==> longer[i] == shorter[i];
    if NoDirectories(base, proposed, longer) {
      assert NoDirectory(base, proposed, PathOf(longer[n - 1]));
      assert forall i :: 0 <= i < n - 1 ==> NoDirectory(base, proposed, PathOf(longer[i]));
    }
  }

  // The directories above an inspected path stay directories while others are applied.
  lemma StaysPassable(base: Tree, t: Tree, proposed: Tree, files: seq<Bytes>, n: nat, p: Path, k: nat)
    requires n <= |files| && Between(base, t, proposed, files, n) && Passable(base, p) && Passable(proposed, p)
    requires 0 < k < |p| && p[..k] in t
    ensures t[p[..k]].Dir?
  {
    var r := p[..k];
    ReachedOrSame(base, t, proposed, files, n, r);
    assert r in t <==> Get(t, r).Some?;
  }

  lemma ReachedOrSame(base: Tree, t: Tree, proposed: Tree, files: seq<Bytes>, n: nat, q: Path)
    requires n <= |files| && Between(base, t, proposed, files, n)
    ensures Get(t, q) == Wanted(proposed, q) || SameOrAbove(base, t, proposed, q)
  {
    if Reached(files, n, q) {
      var i :| 0 <= i < n && PathOf(files[i]) == q;
      assert Settled(t, proposed, files[i]);
    }
  }

  // The next file finds its own path and the directories above it as the base has them.
  lemma NextApplies(base: Tree, t: Tree, proposed: Tree, files: seq<Bytes>, n: nat)
    requires n < |files| && Between(base, t, proposed, files, n) && Normalized(files[n])
    requires forall i, j :: 0 <= i < j < |files| ==> files[i] != files[j]
    requires Passable(base, PathOf(files[n])) && Passable(proposed, PathOf(files[n]))
    ensures Applied(t, proposed, files[n]).Some? <==> NoDirectory(base, proposed, PathOf(files[n]))
  {
    var p := PathOf(files[n]);
    if Reached(files, n, p) {
      var i :| 0 <= i < n && PathOf(files[i]) == p;
      assert Settled(t, proposed, files[i]);
      PathsDiffer(files[i], files[n]);
    }
    assert SameOrAbove(base, t, proposed, p);
    assert p in t <==> Get(t, p).Some?;
    assert p in base <==> Get(base, p).Some?;
    forall k | 0 < k < |p| && p[..k] in t ensures t[p[..k]].Dir? { StaysPassable(base, t, proposed, files, n, p, k); }
    assert Passable(t, p);
  }

  ghost predicate Accepted(base: Tree, proposed: Tree, m: TreeMap, n: TreeMap, files: seq<Bytes>) {
    WellFormed(proposed) && Inspected(m, n, base, proposed, Changed(m, n)) && Lists(files, Changed(m, n))
  }

  lemma AcceptedFile(base: Tree, proposed: Tree, m: TreeMap, n: TreeMap, files: seq<Bytes>, i: nat)
    requires Accepted(base, proposed, m, n, files) && i < |files|
    ensures KeyInspected(m, n, base, proposed, files[i])
  {
    assert files[i] in files;
  }

  /** On a clone of the base, apply succeeds exactly when no changed path is a directory in the base
      or in the proposed tree. */
  lemma {:induction false} AppliesIff(base: Tree, proposed: Tree, m: TreeMap, n: TreeMap, files: seq<Bytes>, k: nat)
    requires Accepted(base, proposed, m, n, files) && k <= |files|
    ensures AppliedAll(base, proposed, files[..k]).Some? <==> NoDirectories(base, proposed, files[..k])
    decreases k
  {
    if k > 0 {
      AppliesIff(base, proposed, m, n, files, k - 1);
      NoDirectoriesStep(base, proposed, files, k);
      assert files[..k][..k - 1] == files[..k - 1];
      var before := AppliedAll(base, proposed, files[..k - 1]);
      if before.Some? {
        AppliedBetween(base, proposed, files, k - 1);
        AcceptedFile(base, proposed, m, n, files, k - 1);
        NextApplies(base, before.value, proposed, files, k - 1);
      }
    }
  }

  /** A successful apply to a clone of the base always passes the confirmation that follows. */
  lemma AlwaysConfirmed(hash: Hash, base: Tree, proposed: Tree, m: TreeMap, n: TreeMap, files: seq<Bytes>, i: nat)
    requires Accepted(base, proposed, m, n, files) && i < |files| && AppliedAll(base, proposed, files).Some?
    ensures Confirmed(hash, AppliedAll(base, proposed, files).value, proposed, PathOf(files[i]))
  {
    assert files[..|files|] == files;
    AppliedBetween(base, proposed, files, |files|);
    AcceptedFile(base, proposed, m, n, files, i);
    var t, p := AppliedAll(base, proposed, files).value, PathOf(files[i]);
    assert Settled(t, proposed, files[i]);
    assert p in t <==> Get(t, p).Some?;
    if p in proposed { CopyEntry(hash, proposed[p]); }
    forall k | 0 < k < |p| && p[..k] in t ensures t[p[..k]].Dir? { StaysPassable(base, t, proposed, files, |files|, p, k); }
  }

  /** A changed path below anything that is no directory on one side is refused: a file that becomes
      a directory with files in it, or the other way round, never passes inspection. */
  lemma NestedChangeRefused(base: Tree, proposed: Tree, m: TreeMap, n: TreeMap, p: Path, key: Bytes)
    requires key in Changed(m, n) && ProperPrefix(p, PathOf(key))
    requires (p in base && !base[p].Dir?) || (p in proposed && !proposed[p].Dir?)
    ensures !Inspected(m, n, base, proposed, Changed(m, n))
  {
    assert PathOf(key)[..|p|] == p;
    assert !KeyInspected(m, n, base, proposed, key);
  }

  // A backslash

  const A_BACKSLASH_B: Bytes := [0x61, 0x5c, 0x62]
  const A_SLASH_B: Bytes := [0x61, 0x2f, 0x62]

  function OneFile(mode: Mode, bytes: Bytes): Tree { map[[Plain(A_BACKSLASH_B)] := File(mode, bytes)] }

  function OneEntry(hash: Hash, mode: Mode, bytes: Bytes): TreeMap { map[A_SLASH_B := EntryOf(hash, File(mode, bytes))] }

  lemma OneFileSets(mode: Mode, bytes: Bytes, q: Path, key: Bytes)
    ensures Sets(OneFile(mode, bytes), q, key) <==> q == [Plain(A_BACKSLASH_B)] && key == A_SLASH_B
  {
    var p := [Plain(A_BACKSLASH_B)];
    assert Texts(p) == [A_BACKSLASH_B];
    JoinOne(A_BACKSLASH_B);
    assert Key(p) == A_SLASH_B;
    assert p[0] == Plain(A_BACKSLASH_B) && A_BACKSLASH_B != GIT && A_BACKSLASH_B != NODE_MODULES;
    assert !Ignored(p);
    AsciiLegible(A_BACKSLASH_B);
    assert Readable(p);
  }

  lemma OneFileCollected(hash: Hash, mode: Mode, bytes: Bytes)
    ensures Collected(hash, OneFile(mode, bytes), OneEntry(hash, mode, bytes))
    ensures Unambiguous(OneFile(mode, bytes)) && WellFormed(OneFile(mode, bytes))
  {
    var t, p := OneFile(mode, bytes), [Plain(A_BACKSLASH_B)];
    forall q, key ensures Sets(t, q, key) <==> q == p && key == A_SLASH_B { OneFileSets(mode, bytes, q, key); }
    assert SomeSets(t, A_SLASH_B) && SetsEntry(hash, t, A_SLASH_B, EntryOf(hash, t[p])) by { assert Sets(t, p, A_SLASH_B); }
    assert PosixName(A_BACKSLASH_B);
  }

  lemma SlashPath()
    ensures Normalized(A_SLASH_B) && PathOf(A_SLASH_B) == [Plain([0x61]), Plain([0x62])]
  {
    SplitOfJoin([[0x61], [0x62]]);
    assert [[0x61], [0x62]][1..] == [[0x62]];
    assert Join([[0x61], [0x62]]) == A_SLASH_B;
    assert Split(A_SLASH_B) == [[0x61], [0x62]];
  }

  /** A changed file named `a\b` is reported as a/b, where there is nothing: inspection, apply and
      confirmation all pass, and the checkout keeps the old file. */
  lemma BackslashMissed(hash: Hash, mode: Mode, x: Bytes, y: Bytes)
    requires hash(x) != hash(y)
    ensures
      var base, proposed := OneFile(mode, x), OneFile(mode, y);
      var m, n := OneEntry(hash, mode, x), OneEntry(hash, mode, y);
      && Transfer(hash, base, proposed, m, n, [A_SLASH_B], base)
      && AppliedAll(base, proposed, [A_SLASH_B]) == Some(base) && Confirmed(hash, base, proposed, PathOf(A_SLASH_B))
      && !Reconstructed(hash, base, n)
  {
    var base, proposed := OneFile(mode, x), OneFile(mode, y);
    var m, n := OneEntry(hash, mode, x), OneEntry(hash, mode, y);
    OneFileCollected(hash, mode, x);
    OneFileCollected(hash, mode, y);
    SlashPath();
    var p := PathOf(A_SLASH_B);
    assert p[..1] == [Plain([0x61])] && |[0x61]| != |A_BACKSLASH_B|;
    assert [Plain([0x61])][0] == Plain([0x61]) && [Plain(A_BACKSLASH_B)][0] == Plain(A_BACKSLASH_B);
    assert p !in base && p !in proposed && Passable(base, p) && Passable(proposed, p);
    assert At(m, A_SLASH_B) != At(n, A_SLASH_B);
    assert Changed(m, n) == {A_SLASH_B};
    assert [A_SLASH_B][..0] == [];
    assert AppliedAll(base, proposed, []) == Some(base) && Applied(base, proposed, A_SLASH_B) == Some(base);
    assert Collected(hash, base, m) && m != n;
  }
}

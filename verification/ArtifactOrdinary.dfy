/** The whole transfer of an artifact between trees with ordinary names, as its caller sees it. */
module ArtifactOrdinary {
  import opened Wrappers
  import opened Unicode
  import opened GitPath
  import opened Spelling
  import opened RepositoryTree
  import opened Artifact
  import opened ArtifactTransfer
  import opened ArtifactSuccess

  /** A file counts as executable when one of its last three octal digits is odd. */
  lemma ExecutableDigits(special: nat, user: nat, group: nat, others: nat)
    requires special < 8 && user < 8 && group < 8 && others < 8
    ensures Executable(512 * special + 64 * user + 8 * group + others) <==>
      user % 2 == 1 || group % 2 == 1 || others % 2 == 1
  {
    var mode := 512 * special + 64 * user + 8 * group + others;
    assert mode / 8 == 64 * special + 8 * user + group && mode / 64 == 8 * special + user;
  }

  /** No entry there: nothing, or a directory. */
  predicate NoEntry(t: Tree, p: Path) { p in t ==> t[p].Dir? }

  /** Both trees have the same entry there, or none: files agree in their execute bit and digest, links
      in the digest of the target as it is read. */
  predicate SameContent(hash: Hash, a: Tree, b: Tree, p: Path) {
    if NoEntry(a, p) || NoEntry(b, p) then NoEntry(a, p) && NoEntry(b, p)
    else if a[p].File? && b[p].File? then
      (Executable(a[p].mode) <==> Executable(b[p].mode)) && hash(a[p].bytes) == hash(b[p].bytes)
    else a[p].Link? && b[p].Link? && hash(Lossy(a[p].target)) == hash(Lossy(b[p].target))
  }

  /** What lets a changed path be transferred: it is a file or nothing on both sides, and nothing but
      directories stands above it. */
  predicate Transferable(base: Tree, proposed: Tree, p: Path) {
    && (p in base ==> base[p].File?) && (p in proposed ==> proposed[p].File?)
    && forall k :: 0 < k < |p| ==> (p[..k] in base ==> base[p[..k]].Dir?) && (p[..k] in proposed ==> proposed[p[..k]].Dir?)
  }

  /** A path that a walk can show. */
  predicate Walked(p: Path) { p != [] && PosixPath(p) && OrdinaryPath(p) && !SkippedPath(p) }

  // Keys and paths

  /** An ordinary path is the one that its key names. */
  lemma KeyNames(p: Path)
    requires Walked(p)
    ensures Normalized(Key(p)) && PathOf(Key(p)) == p
  {
    OrdinaryIsPlain(p);
    SplitOfSpelled(Texts(p));
    SkippedIsIgnored(p);
    assert forall i :: 0 <= i < |p| ==> Texts(p)[i] == p[i].text;
    JoinPlain(Texts(p));
    assert p[0] == Plain(p[0].text) && p[0].Plain?;
    assert PathOf(Key(p)) == p;
  }

  lemma SetsOrdinary(t: Tree, q: Path, key: Bytes)
    requires WellFormed(t) && OrdinaryTree(t)
    ensures Sets(t, q, key) <==> q in t && !t[q].Dir? && Walked(q) && Key(q) == key
  {
    SkippedIsIgnored(q);
    if q in t { OrdinaryIsPlain(q); }
  }

  /** A walk of an ordinary tree shows each entry under its own key. */
  lemma WalkAt(hash: Hash, t: Tree, m: TreeMap, p: Path)
    requires WellFormed(t) && OrdinaryTree(t) && Collected(hash, t, m) && Walked(p)
    ensures At(m, Key(p)) == if NoEntry(t, p) then None else Some(EntryOf(hash, t[p]))
  {
    forall q ensures Sets(t, q, Key(p)) <==> q == p && !NoEntry(t, p) { OnlySets(t, p, q); }
    if NoEntry(t, p) {
      assert !SomeSets(t, Key(p));
    } else {
      assert Sets(t, p, Key(p)) && SomeSets(t, Key(p));
      assert SetsEntry(hash, t, Key(p), m[Key(p)]);
    }
  }

  lemma OnlySets(t: Tree, p: Path, q: Path)
    requires WellFormed(t) && OrdinaryTree(t) && Walked(p)
    ensures Sets(t, q, Key(p)) <==> q == p && !NoEntry(t, p)
  {
    SetsOrdinary(t, q, Key(p));
    if Sets(t, q, Key(p)) {
      KeyNames(q);
      KeyNames(p);
    }
  }

  lemma KeyComesFrom(hash: Hash, t: Tree, m: TreeMap, key: Bytes) returns (p: Path)
    requires WellFormed(t) && OrdinaryTree(t) && Collected(hash, t, m) && key in m
    ensures Walked(p) && Key(p) == key
  {
    p :| Sets(t, p, key);
    SetsOrdinary(t, p, key);
  }

  /** What two walks are of. */
  ghost predicate Pair(hash: Hash, base: Tree, proposed: Tree, m: TreeMap, n: TreeMap) {
    && WellFormed(base) && OrdinaryTree(base) && Collected(hash, base, m)
    && WellFormed(proposed) && OrdinaryTree(proposed) && Collected(hash, proposed, n)
  }

  lemma EntriesMatch(hash: Hash, a: Node, b: Node)
    requires !a.Dir? && !b.Dir?
    ensures EntryOf(hash, a) == EntryOf(hash, b) <==>
      if a.File? && b.File? then (Executable(a.mode) <==> Executable(b.mode)) && hash(a.bytes) == hash(b.bytes)
      else a.Link? && b.Link? && hash(Lossy(a.target)) == hash(Lossy(b.target))
  {
  }

  /** The changed keys are those of the paths whose contents differ. */
  lemma ChangedAt(hash: Hash, base: Tree, proposed: Tree, m: TreeMap, n: TreeMap, p: Path)
    requires Pair(hash, base, proposed, m, n) && Walked(p)
    ensures Key(p) in Changed(m, n) <==> !SameContent(hash, base, proposed, p)
  {
    WalkAt(hash, base, m, p);
    WalkAt(hash, proposed, n, p);
    if !NoEntry(base, p) && !NoEntry(proposed, p) { EntriesMatch(hash, base[p], proposed[p]); }
    assert Key(p) in Changed(m, n) <==> At(m, Key(p)) != At(n, Key(p));
  }

  lemma ChangedPath(hash: Hash, base: Tree, proposed: Tree, m: TreeMap, n: TreeMap, key: Bytes) returns (p: Path)
    requires Pair(hash, base, proposed, m, n) && key in Changed(m, n)
    ensures Walked(p) && Key(p) == key && PathOf(key) == p && !SameContent(hash, base, proposed, p)
  {
    if key in m { p := KeyComesFrom(hash, base, m, key); } else { p := KeyComesFrom(hash, proposed, n, key); }
    KeyNames(p);
    ChangedAt(hash, base, proposed, m, n, p);
  }

  // Acceptance

  /** Every path that differs can be transferred. */
  ghost predicate AllTransferable(hash: Hash, base: Tree, proposed: Tree) {
    forall p :: Walked(p) && !SameContent(hash, base, proposed, p) ==> Transferable(base, proposed, p)
  }

  lemma InspectedAt(hash: Hash, base: Tree, proposed: Tree, m: TreeMap, n: TreeMap, p: Path)
    requires Pair(hash, base, proposed, m, n) && Walked(p)
    ensures KeyInspected(m, n, base, proposed, Key(p)) && NoDirectory(base, proposed, p) <==> Transferable(base, proposed, p)
  {
    KeyNames(p);
    WalkAt(hash, base, m, p);
    WalkAt(hash, proposed, n, p);
  }

  lemma AcceptedIff(hash: Hash, base: Tree, proposed: Tree, m: TreeMap, n: TreeMap, files: seq<Bytes>)
    requires Pair(hash, base, proposed, m, n) && Lists(files, Changed(m, n))
    ensures Inspected(m, n, base, proposed, Changed(m, n)) && NoDirectories(base, proposed, files) <==>
      AllTransferable(hash, base, proposed)
  {
    if Inspected(m, n, base, proposed, Changed(m, n)) && NoDirectories(base, proposed, files) {
      forall p | Walked(p) && !SameContent(hash, base, proposed, p) ensures Transferable(base, proposed, p) {
        ChangedAt(hash, base, proposed, m, n, p);
        KeyNames(p);
        var i :| 0 <= i < |files| && files[i] == Key(p);
        assert NoDirectory(base, proposed, PathOf(files[i]));
        InspectedAt(hash, base, proposed, m, n, p);
      }
    }
    if AllTransferable(hash, base, proposed) {
      forall key | key in Changed(m, n)
        ensures KeyInspected(m, n, base, proposed, key) && NoDirectory(base, proposed, PathOf(key)) {
        var p := ChangedPath(hash, base, proposed, m, n, key);
        InspectedAt(hash, base, proposed, m, n, p);
      }
      assert forall i :: 0 <= i < |files| ==> files[i] in files;
    }
  }

  /** A changed file arrives with its bytes and its nine permission bits, a deleted one is gone, and an
      entry that is the same stays as it was. */
  predicate Transferred(hash: Hash, base: Tree, proposed: Tree, after: Tree, p: Path) {
    if SameContent(hash, base, proposed, p) then !NoEntry(base, p) ==> Get(after, p) == Get(base, p)
    else if p !in proposed then p !in after
    else proposed[p].File? ==> Get(after, p) == Some(File(proposed[p].mode % 512, proposed[p].bytes))
  }

  lemma InChanged(files: seq<Bytes>, changed: set<Bytes>, i: nat)
    requires Lists(files, changed) && i < |files|
    ensures files[i] in changed
  {
    assert files[i] in files;
  }

  /** After a successful apply, every path that a walk can show has the proposed content. */
  lemma TransferredAt(hash: Hash, base: Tree, proposed: Tree, m: TreeMap, n: TreeMap, files: seq<Bytes>, after: Tree, p: Path)
    requires Pair(hash, base, proposed, m, n) && Lists(files, Changed(m, n)) && Walked(p)
    requires AppliedAll(base, proposed, files) == Some(after)
    ensures SameContent(hash, after, proposed, p) && Transferred(hash, base, proposed, after, p)
  {
    assert files[..|files|] == files;
    ChangedAt(hash, base, proposed, m, n, p);
    AppliedBetween(base, proposed, files, |files|);
    if Reached(files, |files|, p) {
      var i :| 0 <= i < |files| && PathOf(files[i]) == p;
      assert Settled(after, proposed, files[i]);
      InChanged(files, Changed(m, n), i);
      var q := ChangedPath(hash, base, proposed, m, n, files[i]);
      assert p in after <==> Get(after, p).Some?;
      if p in proposed { CopyEntry(hash, proposed[p]); }
    } else {
      KeyNames(p);
      forall i | 0 <= i < |files| ensures files[i] != Key(p) { assert PathOf(files[i]) != p; }
      assert SameOrAbove(base, after, proposed, p);
      assert p in after <==> Get(after, p).Some?;
      assert p in base <==> Get(base, p).Some?;
    }
  }

  /** Inspect, apply and confirm: on a clone of the base this succeeds exactly when the report names
      the changed keys and every path that differs can be transferred; every path then has the proposed
      content, and what did not differ is as it was. */
  method TransferOrdinary(hash: Hash, checkout: Checkout, proposed: Tree, m: TreeMap, n: TreeMap, reported: seq<Bytes>)
    returns (ok: bool)
    requires Pair(hash, checkout.tree, proposed, m, n)
    modifies checkout
    ensures ok <==> (set key | key in reported) == Changed(m, n) && AllTransferable(hash, old(checkout.tree), proposed)
    ensures ok ==> forall p :: Walked(p) ==> SameContent(hash, checkout.tree, proposed, p)
    ensures ok ==> forall p :: Walked(p) ==> Transferred(hash, old(checkout.tree), proposed, checkout.tree, p)
  {
    ghost var base := checkout.tree;
    var files := InspectVerifiedArtifact(m, n, checkout.tree, proposed, reported);
    if files.None? {
      if (set key | key in reported) == Changed(m, n) {
        var list := Distinct(reported, Changed(m, n));
        AcceptedIff(hash, base, proposed, m, n, list);
      }
      return false;
    }
    AcceptedIff(hash, base, proposed, m, n, files.value);
    AppliesIff(base, proposed, m, n, files.value, |files.value|);
    assert files.value[..|files.value|] == files.value;
    ok := checkout.ApplyVerifiedArtifact(proposed, files.value);
    if ok {
      forall i | 0 <= i < |files.value| ensures Confirmed(hash, checkout.tree, proposed, PathOf(files.value[i])) {
        AlwaysConfirmed(hash, base, proposed, m, n, files.value, i);
      }
      forall p | Walked(p)
        ensures SameContent(hash, checkout.tree, proposed, p) && Transferred(hash, base, proposed, checkout.tree, p) {
        TransferredAt(hash, base, proposed, m, n, files.value, checkout.tree, p);
      }
      ok := AssertAppliedArtifact(hash, checkout.tree, proposed, files.value);
    }
  }
}

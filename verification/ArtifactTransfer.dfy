/** When inspecting and then applying an artifact reconstructs the proposed tree. */
module ArtifactTransfer {
  import opened Wrappers
  import opened Unicode
  import opened GitPath
  import opened Spelling
  import opened RepositoryTree
  import opened Artifact

  // One file

  lemma ModeKept(mode: Mode)
    ensures Executable(mode % 0x200) == Executable(mode)
  {
    var low, high := mode % 0x200, mode / 0x200;
    assert mode == low + 0x200 * high;
    assert mode / 8 == low / 8 + 0x40 * high;
    assert mode / 64 == low / 64 + 8 * high;
  }

  lemma CopyEntry(hash: Hash, source: Node)
    requires source.File?
    ensures EntryOf(hash, Copy(source)) == EntryOf(hash, source)
  {
    ModeKept(source.mode);
  }

  /** The path of a normalized text is plain, and has that text as its key. */
  lemma PathKey(key: Bytes)
    requires Normalized(key)
    ensures Key(PathOf(key)) == key && PosixPath(PathOf(key)) && PlainPath(PathOf(key))
  {
    assert Texts(PathOf(key)) == Split(key);
    JoinOfSplit(key);
    forall i | 0 <= i < |Split(key)| ensures BACKSLASH_BYTE !in Split(key)[i] { PartOfText(key, i); }
  }

  lemma {:induction false} PartOfText(text: Bytes, i: nat)
    requires i < |Split(text)| && BACKSLASH_BYTE !in text
    ensures BACKSLASH_BYTE !in Split(text)[i]
    decreases |text|
  {
    if text != [] {
      var rest := Split(text[1..]);
      if text[0] == SLASH {
        if i > 0 { PartOfText(text[1..], i - 1); }
      } else {
        PartOfText(text[1..], i);
      }
    }
  }

  lemma PathsDiffer(a: Bytes, b: Bytes)
    requires Normalized(a) && Normalized(b) && PathOf(a) == PathOf(b)
    ensures a == b
  {
    PathKey(a);
    PathKey(b);
  }

  predicate ProperPrefix(p: Path, q: Path) { 0 < |p| < |q| && q[..|p|] == p }

  function Wanted(proposed: Tree, p: Path): Option<Node> {
    if p in proposed && proposed[p].File? then Some(Copy(proposed[p])) else None
  }

  /** Applying one file gives its path the proposed state; besides that, only missing ancestors appear. */
  lemma AppliedEffect(t: Tree, proposed: Tree, key: Bytes, q: Path)
    requires Applied(t, proposed, key).Some?
    ensures
      var p, after := PathOf(key), Applied(t, proposed, key).value;
      && (p in proposed ==> proposed[p].File?) && (p in t ==> !t[p].Dir?)
      && Get(after, p) == Wanted(proposed, p)
      && (q != p ==> Get(after, q) == Get(t, q) || (q !in t && q in after && after[q].Dir? && ProperPrefix(q, p) && p in proposed))
  {
    var p, after := PathOf(key), Applied(t, proposed, key).value;
    if p in proposed && p !in t && q != p && q !in t && q in after {
      assert q in WithParents(t, p);
      var k :| 0 < k < |p| && p[..k] == q;
      assert ProperPrefix(q, p);
    }
  }

  // All files

  predicate Reached(files: seq<Bytes>, n: nat, q: Path)
    requires n <= |files|
  {
    exists i :: 0 <= i < n && PathOf(files[i]) == q
  }

  /** While files are applied: the applied ones have their proposed state, and otherwise only
      directories above proposed files may have appeared. */
  ghost predicate Between(start: Tree, t: Tree, proposed: Tree, files: seq<Bytes>, n: nat)
    requires n <= |files|
  {
    && (forall i :: 0 <= i < n ==> Settled(t, proposed, files[i]))
    && forall q :: !Reached(files, n, q) ==> SameOrAbove(start, t, proposed, q)
  }

  predicate Settled(t: Tree, proposed: Tree, key: Bytes) {
    var p := PathOf(key);
    Normalized(key) && Passable(proposed, p) && (p in proposed ==> proposed[p].File?) && Get(t, p) == Wanted(proposed, p)
  }

  predicate SameOrAbove(start: Tree, t: Tree, proposed: Tree, q: Path) {
    Get(t, q) == Get(start, q) || (q !in start && q in t && t[q].Dir? && q in proposed && proposed[q].Dir?)
  }

  lemma AncestorProposed(proposed: Tree, p: Path, q: Path)
    requires WellFormed(proposed) && p in proposed && ProperPrefix(q, p)
    ensures q in proposed && proposed[q].Dir?
  {
    assert p[..|q|] == q;
  }

  lemma NextBetween(start: Tree, t: Tree, proposed: Tree, files: seq<Bytes>, n: nat)
    requires WellFormed(proposed) && n < |files| && Between(start, t, proposed, files, n)
    requires forall i, j :: 0 <= i < j < |files| ==> files[i] != files[j]
    requires Applied(t, proposed, files[n]).Some?
    ensures Between(start, Applied(t, proposed, files[n]).value, proposed, files, n + 1)
  {
    var p, after := PathOf(files[n]), Applied(t, proposed, files[n]).value;
    forall i | 0 <= i < n ensures Settled(after, proposed, files[i]) {
      var q := PathOf(files[i]);
      assert Settled(t, proposed, files[i]);
      if q == p { PathsDiffer(files[i], files[n]); }
      AppliedEffect(t, proposed, files[n], q);
      if ProperPrefix(q, p) && p in proposed { AncestorProposed(proposed, p, q); }
    }
    AppliedEffect(t, proposed, files[n], p);
    forall q | !Reached(files, n + 1, q) ensures SameOrAbove(start, after, proposed, q) {
      assert PathOf(files[n]) != q && !Reached(files, n, q);
      AppliedEffect(t, proposed, files[n], q);
      if ProperPrefix(q, p) && p in proposed { AncestorProposed(proposed, p, q); }
    }
  }

  /** After a successful apply to any tree, every file has its proposed state, and every other path
      is as it was but for new directories. */
  lemma {:induction false} AppliedBetween(start: Tree, proposed: Tree, files: seq<Bytes>, n: nat)
    requires WellFormed(proposed) && n <= |files| && AppliedAll(start, proposed, files[..n]).Some?
    requires forall i, j :: 0 <= i < j < |files| ==> files[i] != files[j]
    ensures Between(start, AppliedAll(start, proposed, files[..n]).value, proposed, files, n)
    decreases n
  {
    if n > 0 {
      assert files[..n][..n - 1] == files[..n - 1];
      AppliedBetween(start, proposed, files, n - 1);
      NextBetween(start, AppliedAll(start, proposed, files[..n - 1]).value, proposed, files, n - 1);
    }
  }

  // What the walks show

  /** No two entries of the tree are set under one key. */
  ghost predicate Unambiguous(t: Tree) {
    forall q, r :: q in t && Sets(t, q, Key(q)) && Sets(t, r, Key(q)) ==> q == r
  }

  lemma UnambiguousAt(hash: Hash, t: Tree, m: TreeMap, q: Path, key: Bytes)
    requires Unambiguous(t) && Collected(hash, t, m) && Sets(t, q, key)
    ensures At(m, key) == Some(EntryOf(hash, t[q]))
  {
    assert SomeSets(t, key) && SetsEntry(hash, t, key, m[key]);
  }

  /** Every entry under a changed key is at the path that the key names, and not only spelled like it. */
  ghost predicate OwnPaths(t: Tree, changed: set<Bytes>) {
    forall q, key :: key in changed && Sets(t, q, key) ==> q == PathOf(key)
  }

  /** Every tree can be walked. */
  lemma {:induction false} WalkOver(hash: Hash, part: Tree) returns (m: TreeMap)
    ensures Collected(hash, part, m)
    decreases |part|
  {
    m := map[];
    if part.Keys != {} {
      var q :| q in part;
      var rest := part - {q};
      assert rest.Keys == part.Keys - {q};
      m := WalkOver(hash, rest);
      assert forall r, key :: Sets(part, r, key) <==> Sets(rest, r, key) || (r == q && Sets(part, q, key));
      if Sets(part, q, Key(q)) {
        var fuller := m[Key(q) := EntryOf(hash, part[q])];
        forall key ensures key in fuller <==> SomeSets(part, key) {
          if r :| Sets(rest, r, key) { assert Sets(part, r, key); }
        }
        forall key | key in fuller ensures SetsEntry(hash, part, key, fuller[key]) {
          if key != Key(q) {
            assert SetsEntry(hash, rest, key, m[key]);
            var r :| Sets(rest, r, key) && EntryOf(hash, rest[r]) == m[key];
            assert Sets(part, r, key);
          }
        }
        m := fuller;
      } else {
        forall key | key in m ensures SetsEntry(hash, part, key, m[key]) {
          var r :| Sets(rest, r, key) && EntryOf(hash, rest[r]) == m[key];
          assert Sets(part, r, key);
        }
        forall key ensures SomeSets(part, key) <==> SomeSets(rest, key) {
          if r :| Sets(rest, r, key) { assert Sets(part, r, key); }
        }
      }
    }
  }

  /** And so that this entry is set last. */
  lemma WalkLast(hash: Hash, t: Tree, q: Path, key: Bytes) returns (m: TreeMap)
    requires Sets(t, q, key)
    ensures Collected(hash, t, m) && At(m, key) == Some(EntryOf(hash, t[q]))
  {
    m := WalkOver(hash, t);
    assert SomeSets(t, key) && SetsEntry(hash, t, key, EntryOf(hash, t[q]));
    m := m[key := EntryOf(hash, t[q])];
  }

  /** What an inspection, and then an apply to any checkout with the entries of the base, are about. */
  ghost predicate Transfer(hash: Hash, base: Tree, proposed: Tree, m: TreeMap, n: TreeMap, files: seq<Bytes>, checkout: Tree) {
    && WellFormed(proposed) && Collected(hash, checkout, m) && Collected(hash, proposed, n)
    && Inspected(m, n, base, proposed, Changed(m, n)) && Lists(files, Changed(m, n))
    && AppliedAll(checkout, proposed, files).Some?
  }

  lemma TransferBetween(hash: Hash, base: Tree, proposed: Tree, m: TreeMap, n: TreeMap, files: seq<Bytes>, checkout: Tree)
    requires Transfer(hash, base, proposed, m, n, files, checkout)
    ensures Between(checkout, AppliedAll(checkout, proposed, files).value, proposed, files, |files|)
    ensures forall i :: 0 <= i < |files| ==> files[i] in Changed(m, n) && Normalized(files[i]) && Key(PathOf(files[i])) == files[i]
  {
    assert files[..|files|] == files;
    AppliedBetween(checkout, proposed, files, |files|);
    forall i | 0 <= i < |files| ensures files[i] in Changed(m, n) && Normalized(files[i]) && Key(PathOf(files[i])) == files[i] {
      assert files[i] in files;
      assert KeyInspected(m, n, base, proposed, files[i]);
      PathKey(files[i]);
    }
  }

  // Away from the paths of the changed keys, the apply sets and removes nothing.
  lemma SetsElsewhere(hash: Hash, base: Tree, proposed: Tree, m: TreeMap, n: TreeMap, files: seq<Bytes>, checkout: Tree,
                      q: Path, key: Bytes)
    requires Transfer(hash, base, proposed, m, n, files, checkout) && !(key in files && q == PathOf(key))
    ensures
      var after := AppliedAll(checkout, proposed, files).value;
      && (Sets(after, q, key) <==> Sets(checkout, q, key)) && (Sets(checkout, q, key) ==> after[q] == checkout[q])
  {
    var after := AppliedAll(checkout, proposed, files).value;
    TransferBetween(hash, base, proposed, m, n, files, checkout);
    if Key(q) == key {
      assert forall i :: 0 <= i < |files| ==> files[i] in files && Key(PathOf(files[i])) == files[i];
      assert !Reached(files, |files|, q);
      assert SameOrAbove(checkout, after, proposed, q);
      assert q in after <==> Get(after, q).Some?;
      assert q in checkout <==> Get(checkout, q).Some?;
    }
  }

  lemma SettledFile(hash: Hash, base: Tree, proposed: Tree, m: TreeMap, n: TreeMap, files: seq<Bytes>, checkout: Tree, key: Bytes)
    requires Transfer(hash, base, proposed, m, n, files, checkout) && key in files
    ensures
      var after, p := AppliedAll(checkout, proposed, files).value, PathOf(key);
      && Key(p) == key && (Sets(after, p, key) <==> Sets(proposed, p, key))
      && (Sets(after, p, key) ==> EntryOf(hash, after[p]) == EntryOf(hash, proposed[p]))
  {
    var after, p := AppliedAll(checkout, proposed, files).value, PathOf(key);
    TransferBetween(hash, base, proposed, m, n, files, checkout);
    var i :| 0 <= i < |files| && files[i] == key;
    assert Settled(after, proposed, files[i]);
    assert p in after <==> Get(after, p).Some?;
    if p in proposed { CopyEntry(hash, proposed[p]); }
  }

  // When every walk of the result is the one of the proposed tree

  ghost predicate Reconstructed(hash: Hash, after: Tree, n: TreeMap) { forall walked :: Collected(hash, after, walked) ==> walked == n }

  predicate Shows(hash: Hash, t: Tree, q: Path, e: Option<Entry>)
    requires q in t && !t[q].Dir?
  {
    e == Some(EntryOf(hash, t[q]))
  }

  /** Every walk has this under the key. */
  ghost predicate AllShow(hash: Hash, t: Tree, key: Bytes, e: Option<Entry>) {
    (forall q :: Sets(t, q, key) ==> Shows(hash, t, q, e)) && (e.Some? ==> SomeSets(t, key))
  }

  lemma AllShowAt(hash: Hash, t: Tree, walked: TreeMap, key: Bytes, e: Option<Entry>)
    requires Collected(hash, t, walked) && AllShow(hash, t, key, e)
    ensures At(walked, key) == e
  {
    if key in walked {
      assert SetsEntry(hash, t, key, walked[key]);
    }
  }

  /** Where walks can differ from a map under a key, some walk does. */
  lemma WalkShows(hash: Hash, t: Tree, n: TreeMap, key: Bytes)
    requires Reconstructed(hash, t, n)
    ensures AllShow(hash, t, key, At(n, key))
  {
    forall q | Sets(t, q, key) ensures Shows(hash, t, q, At(n, key)) {
      var walked := WalkLast(hash, t, q, key);
      assert walked == n;
    }
    var walked := WalkOver(hash, t);
    assert walked == n;
  }

  lemma ReconstructedIff(hash: Hash, t: Tree, n: TreeMap)
    ensures Reconstructed(hash, t, n) <==> forall key :: AllShow(hash, t, key, At(n, key))
  {
    if Reconstructed(hash, t, n) {
      forall key ensures AllShow(hash, t, key, At(n, key)) { WalkShows(hash, t, n, key); }
    }
    if forall key :: AllShow(hash, t, key, At(n, key)) {
      forall walked | Collected(hash, t, walked) ensures walked == n {
        forall key ensures At(walked, key) == At(n, key) { AllShowAt(hash, t, walked, key, At(n, key)); }
        SameMaps(walked, n);
      }
    }
  }

  predicate Stray(t: Tree, q: Path, key: Bytes) { Sets(t, q, key) && q != PathOf(key) }

  /** Under a changed key, what stays elsewhere in the checkout and what is copied to the key's own
      path are the proposed entry; under another key, everything in the checkout is. */
  ghost predicate Agreeing(hash: Hash, checkout: Tree, proposed: Tree, m: TreeMap, n: TreeMap, key: Bytes) {
    if key in Changed(m, n) then
      && (forall q :: Stray(checkout, q, key) ==> Shows(hash, checkout, q, At(n, key)))
      && (Sets(proposed, PathOf(key), key) ==> Shows(hash, proposed, PathOf(key), At(n, key)))
      && (key in n ==> Sets(proposed, PathOf(key), key) || exists q :: Stray(checkout, q, key))
    else forall q :: Sets(checkout, q, key) ==> Shows(hash, checkout, q, At(m, key))
  }

  lemma UnchangedShows(hash: Hash, base: Tree, proposed: Tree, m: TreeMap, n: TreeMap, files: seq<Bytes>, checkout: Tree, key: Bytes)
    requires Transfer(hash, base, proposed, m, n, files, checkout) && key !in files
    ensures AllShow(hash, AppliedAll(checkout, proposed, files).value, key, At(n, key))
       <==> Agreeing(hash, checkout, proposed, m, n, key)
  {
    var after := AppliedAll(checkout, proposed, files).value;
    forall q ensures (Sets(after, q, key) <==> Sets(checkout, q, key)) && (Sets(checkout, q, key) ==> after[q] == checkout[q]) {
      SetsElsewhere(hash, base, proposed, m, n, files, checkout, q, key);
    }
    assert key !in Changed(m, n) && At(m, key) == At(n, key);
    assert SomeSets(after, key) <==> SomeSets(checkout, key);
  }

  lemma ChangedShows(hash: Hash, base: Tree, proposed: Tree, m: TreeMap, n: TreeMap, files: seq<Bytes>, checkout: Tree, key: Bytes)
    requires Transfer(hash, base, proposed, m, n, files, checkout) && key in files
    ensures AllShow(hash, AppliedAll(checkout, proposed, files).value, key, At(n, key))
       <==> Agreeing(hash, checkout, proposed, m, n, key)
  {
    var after, p := AppliedAll(checkout, proposed, files).value, PathOf(key);
    assert key in Changed(m, n);
    SettledFile(hash, base, proposed, m, n, files, checkout, key);
    forall q | q != p
      ensures (Sets(after, q, key) <==> Stray(checkout, q, key)) && (Stray(checkout, q, key) ==> after[q] == checkout[q]) {
      SetsElsewhere(hash, base, proposed, m, n, files, checkout, q, key);
    }
    if AllShow(hash, after, key, At(n, key)) {
      forall q | Stray(checkout, q, key) ensures Shows(hash, checkout, q, At(n, key)) { assert Sets(after, q, key); }
      if key in n { var q :| Sets(after, q, key); }
    }
    if Agreeing(hash, checkout, proposed, m, n, key) {
      forall q | Sets(after, q, key) ensures Shows(hash, after, q, At(n, key)) {
        if q != p { assert Stray(checkout, q, key); }
      }
      if q :| Stray(checkout, q, key) { assert Sets(after, q, key); }
    }
  }

  /** Inspection and apply reconstruct the proposed tree, whatever order the walks take, exactly when
      the entries that stay agree with the proposed ones, key by key. */
  lemma Reconstructs(hash: Hash, base: Tree, proposed: Tree, m: TreeMap, n: TreeMap, files: seq<Bytes>, checkout: Tree)
    requires Transfer(hash, base, proposed, m, n, files, checkout)
    ensures Reconstructed(hash, AppliedAll(checkout, proposed, files).value, n)
       <==> forall key :: Agreeing(hash, checkout, proposed, m, n, key)
  {
    var after := AppliedAll(checkout, proposed, files).value;
    ReconstructedIff(hash, after, n);
    forall key ensures AllShow(hash, after, key, At(n, key)) <==> Agreeing(hash, checkout, proposed, m, n, key) {
      if key in files {
        ChangedShows(hash, base, proposed, m, n, files, checkout, key);
      } else {
        UnchangedShows(hash, base, proposed, m, n, files, checkout, key);
      }
    }
  }

  // Trees in which no two entries share a key

  lemma OwnAgrees(hash: Hash, base: Tree, proposed: Tree, m: TreeMap, n: TreeMap, files: seq<Bytes>, checkout: Tree, key: Bytes)
    requires Transfer(hash, base, proposed, m, n, files, checkout) && Unambiguous(checkout) && Unambiguous(proposed)
    requires OwnPaths(checkout, Changed(m, n)) && OwnPaths(proposed, Changed(m, n))
    ensures Agreeing(hash, checkout, proposed, m, n, key)
  {
    if key in Changed(m, n) {
      assert forall q :: !Stray(checkout, q, key);
      if Sets(proposed, PathOf(key), key) { UnambiguousAt(hash, proposed, n, PathOf(key), key); }
      if key in n { var q :| Sets(proposed, q, key); }
    } else {
      forall q | Sets(checkout, q, key) ensures Shows(hash, checkout, q, At(m, key)) {
        UnambiguousAt(hash, checkout, m, q, key);
      }
    }
  }

  lemma StrayDisagrees(hash: Hash, base: Tree, proposed: Tree, m: TreeMap, n: TreeMap, files: seq<Bytes>, checkout: Tree,
                       q: Path, key: Bytes)
    requires Transfer(hash, base, proposed, m, n, files, checkout) && Unambiguous(checkout) && Unambiguous(proposed)
    requires key in Changed(m, n) && (Stray(checkout, q, key) || Stray(proposed, q, key))
    ensures !Agreeing(hash, checkout, proposed, m, n, key)
  {
    if Agreeing(hash, checkout, proposed, m, n, key) {
      if Stray(proposed, q, key) {
        assert Key(q) == key;
        UnambiguousAt(hash, proposed, n, q, key);
        assert !Sets(proposed, PathOf(key), key);
      }
      var r :| Stray(checkout, r, key);
      UnambiguousAt(hash, checkout, m, r, key);
      assert false;
    }
  }

  lemma StrayEntry(t: Tree, changed: set<Bytes>) returns (q: Path, key: Bytes)
    requires !OwnPaths(t, changed)
    ensures key in changed && Sets(t, q, key) && q != PathOf(key)
  {
    q, key :| key in changed && Sets(t, q, key) && q != PathOf(key);
  }

  /** Where no two entries of the checkout, or of the proposed tree, share a key, they reconstruct it
      exactly when every entry under a changed key, in both, is at the path that the key names. */
  lemma ReconstructsOwn(hash: Hash, base: Tree, proposed: Tree, m: TreeMap, n: TreeMap, files: seq<Bytes>, checkout: Tree)
    requires Transfer(hash, base, proposed, m, n, files, checkout) && Unambiguous(checkout) && Unambiguous(proposed)
    ensures Reconstructed(hash, AppliedAll(checkout, proposed, files).value, n)
       <==> OwnPaths(checkout, Changed(m, n)) && OwnPaths(proposed, Changed(m, n))
  {
    Reconstructs(hash, base, proposed, m, n, files, checkout);
    if OwnPaths(checkout, Changed(m, n)) && OwnPaths(proposed, Changed(m, n)) {
      forall key ensures Agreeing(hash, checkout, proposed, m, n, key) {
        OwnAgrees(hash, base, proposed, m, n, files, checkout, key);
      }
    } else {
      var q, key := StrayEntry(if OwnPaths(checkout, Changed(m, n)) then proposed else checkout, Changed(m, n));
      StrayDisagrees(hash, base, proposed, m, n, files, checkout, q, key);
    }
  }

  // What no walk shows

  /** An entry that no lookup finds, or a link whose target is read as before, can change unseen:
      nothing is reported, and nothing is transferred. */
  lemma UnreadMissed(hash: Hash, base: Tree, q: Path, node: Node, m: TreeMap)
    requires q in base && Collected(hash, base, m)
    requires (!Readable(q) && !base[q].Dir? && !node.Dir?) || SameReading(base[q], node)
    ensures Collected(hash, base[q := node], m) && Inspected(m, m, base, base[q := node], {})
    ensures AppliedAll(base, base[q := node], []) == Some(base)
  {
    var after := base[q := node];
    forall r, key ensures (Sets(after, r, key) <==> Sets(base, r, key)) &&
                          (Sets(base, r, key) ==> EntryOf(hash, after[r]) == EntryOf(hash, base[r])) {
    }
    forall key ensures SomeSets(after, key) <==> SomeSets(base, key) {
      if r :| Sets(base, r, key) { assert Sets(after, r, key); }
    }
    forall key | key in m ensures SetsEntry(hash, after, key, m[key]) {
      var r :| Sets(base, r, key) && EntryOf(hash, base[r]) == m[key];
      assert Sets(after, r, key);
    }
    assert Changed(m, m) == {};
  }

  lemma SameMaps(a: TreeMap, b: TreeMap)
    requires forall key :: At(a, key) == At(b, key)
    ensures a == b
  {
    assert forall key :: key in a <==> At(a, key).Some?;
    assert forall key :: key in b <==> At(b, key).Some?;
  }

  /** Trees without backslashes always meet the condition. */
  lemma PlainOwnPaths(t: Tree, changed: set<Bytes>)
    requires WellFormed(t) && PlainTree(t) && forall key :: key in changed ==> Normalized(key)
    ensures OwnPaths(t, changed) && Unambiguous(t)
  {
    forall q, key | key in changed && Sets(t, q, key) ensures q == PathOf(key) {
      PathKey(key);
      KeyInjective(q, PathOf(key));
    }
    forall q, r | q in t && Sets(t, q, Key(q)) && Sets(t, r, Key(q)) ensures q == r { KeyInjective(q, r); }
  }
}

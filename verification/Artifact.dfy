/** Transfer of a verified artifact: inspect a tree diff, apply it, confirm it (artifact.ts). */
module Artifact {
  import opened Wrappers
  import opened Unicode
  import opened GitPath
  import opened Spelling
  import opened RepositoryTree
  import Order

  /** `TreeEntry`, by its canonical Git mode. */
  datatype Entry = FileEntry(executable: bool, digest: Bytes) | LinkEntry(digest: Bytes)

  /** What `collectTree` fills: entries by their keys, in which a backslash is spelled as a slash. */
  type TreeMap = map<Bytes, Entry>

  /** Any of the three execute bits. */
  predicate Executable(mode: Mode) { mode % 2 == 1 || mode / 8 % 2 == 1 || mode / 64 % 2 == 1 }

  /** `readlinkSync` decodes a target lossily before it is hashed. */
  function EntryOf(hash: Hash, node: Node): Entry
    requires !node.Dir?
  {
    if node.File? then FileEntry(Executable(node.mode), hash(node.bytes)) else LinkEntry(hash(Lossy(node.target)))
  }

  /** An entry that the walk sets under this key: every name is looked up as it was read, so that
      only entries whose names are UTF-8 are found. */
  predicate Sets(t: Tree, q: Path, key: Bytes) { q in t && !t[q].Dir? && !Ignored(q) && Readable(q) && Key(q) == key }

  ghost predicate SomeSets(t: Tree, key: Bytes) { exists q :: Sets(t, q, key) }

  ghost predicate SetsEntry(hash: Hash, t: Tree, key: Bytes, e: Entry) { exists q :: Sets(t, q, key) && EntryOf(hash, t[q]) == e }

  /** What `collectTree` can return: of entries that share a key, any may have been set last. */
  ghost predicate Collected(hash: Hash, t: Tree, m: TreeMap) {
    && (forall key :: key in m <==> SomeSets(t, key))
    && forall key :: key in m ==> SetsEntry(hash, t, key, m[key])
  }

  function At(m: TreeMap, key: Bytes): Option<Entry> { if key in m then Some(m[key]) else None }

  // Paths

  /** `normalizeArtifactPath` accepts the text. A text with a NUL is refused by the first `lstat`. */
  predicate Normalized(key: Bytes) {
    && (forall i :: 0 <= i < |Split(key)| ==> PosixName(Split(key)[i]))
    && BACKSLASH_BYTE !in key && Split(key)[0] !in {GIT, NODE_MODULES}
  }

  /** The path that the file system resolves a text to. */
  function PathOf(key: Bytes): (p: Path)
    ensures |p| == |Split(key)| > 0
  {
    seq(|Split(key)|, i requires 0 <= i < |Split(key)| => Plain(Split(key)[i]))
  }

  /** `assertNoSymlinkComponents` passes: no component is a link, and nothing lies below a file,
      where `lstat` fails with ENOTDIR. */
  predicate Passable(t: Tree, p: Path) {
    && (forall k :: 0 < k < |p| && p[..k] in t ==> t[p[..k]].Dir?)
    && (p in t ==> !t[p].Link?)
  }

  // inspectVerifiedArtifact

  function Changed(m: TreeMap, n: TreeMap): set<Bytes> {
    set key | key in m.Keys + n.Keys && At(m, key) != At(n, key)
  }

  /** `assertRegularArtifactEntry`, allowing a missing entry. */
  predicate Regular(t: Tree, m: TreeMap, key: Bytes) {
    Passable(t, PathOf(key)) && (key in m ==> m[key].FileEntry?)
  }

  predicate KeyInspected(m: TreeMap, n: TreeMap, base: Tree, proposed: Tree, key: Bytes) {
    Normalized(key) && Regular(base, m, key) && Regular(proposed, n, key)
  }

  /** The report names exactly the changed keys, and each is a path that is regular or missing on
      both sides. */
  predicate Inspected(m: TreeMap, n: TreeMap, base: Tree, proposed: Tree, changed: set<Bytes>) {
    changed == Changed(m, n) && forall key :: key in changed ==> KeyInspected(m, n, base, proposed, key)
  }

  /** The list without duplicates. */
  ghost predicate Lists(files: seq<Bytes>, changed: set<Bytes>) {
    (forall i, j :: 0 <= i < j < |files| ==> files[i] != files[j]) && forall key :: key in files <==> key in changed
  }

  /** m and n are what the two walks collected. */
  method InspectVerifiedArtifact(m: TreeMap, n: TreeMap, base: Tree, proposed: Tree, reported: seq<Bytes>)
    returns (files: Option<seq<Bytes>>)
    ensures files.Some? <==> Inspected(m, n, base, proposed, set key | key in reported)
    ensures files.Some? ==> Lists(files.value, set key | key in reported)
  {
    var changed := set key | key in reported;
    var list := Distinct(reported, changed);
    var ok := changed == Changed(m, n);
    var i := 0;
    while ok && i < |list|
      invariant 0 <= i <= |list|
      invariant ok ==> changed == Changed(m, n) && forall j :: 0 <= j < i ==> KeyInspected(m, n, base, proposed, list[j])
      invariant !ok ==> !Inspected(m, n, base, proposed, changed)
      decreases |list| - i
    {
      assert list[i] in changed;
      ok := KeyInspected(m, n, base, proposed, list[i]);
      i := i + 1;
    }
    files := if ok then Some(list) else None;
  }

  /** `[...new Set(reported)]`. */
  method Distinct(reported: seq<Bytes>, ghost changed: set<Bytes>) returns (list: seq<Bytes>)
    requires changed == set key | key in reported
    ensures Lists(list, changed)
  {
    list := [];
    var i := 0;
    while i < |reported|
      invariant 0 <= i <= |reported| && (forall a, b :: 0 <= a < b < |list| ==> list[a] != list[b])
      invariant forall key :: key in list <==> key in reported[..i]
    {
      if reported[i] !in list { list := list + [reported[i]]; }
      i := i + 1;
    }
  }

  // applyVerifiedArtifact

  const NEW_DIRECTORY_MODE: Mode := 0x1ed

  /** `mkdirSync(dirname(p), { recursive: true })`. */
  function WithParents(t: Tree, p: Path): Tree {
    t + map k | 0 < k < |p| && p[..k] !in t :: p[..k] := Dir(NEW_DIRECTORY_MODE)
  }

  /** What `copyFileSync` and `chmodSync` leave of a proposed file. */
  function Copy(source: Node): Node
    requires source.File?
  {
    File(source.mode % 0x200, source.bytes)
  }

  /** One file of the loop; None is a thrown error. */
  function Applied(t: Tree, proposed: Tree, key: Bytes): Option<Tree> {
    var p := PathOf(key);
    if !Normalized(key) || !Passable(proposed, p) || !Passable(t, p) then None
    else if p !in proposed then
      if p !in t then Some(t) else if t[p].File? then Some(t - {p}) else None
    else if !proposed[p].File? then None
    else if p in t then if t[p].File? then Some(t[p := Copy(proposed[p])]) else None
    else Some(WithParents(t, p)[p := Copy(proposed[p])])
  }

  function AppliedAll(t: Tree, proposed: Tree, files: seq<Bytes>): Option<Tree>
    decreases |files|
  {
    if files == [] then Some(t)
    else
      var before := AppliedAll(t, proposed, files[..|files| - 1]);
      if before.None? then None else Applied(before.value, proposed, files[|files| - 1])
  }

  /** The clean Git clone that the artifact is applied to. */
  class Checkout {
    var tree: Tree

    method ApplyOne(proposed: Tree, key: Bytes) returns (ok: bool)
      modifies this
      ensures ok <==> Applied(old(tree), proposed, key).Some?
      ensures tree == if ok then Applied(old(tree), proposed, key).value else old(tree)
    {
      ok := false;
      if !Normalized(key) { return; }
      var p := PathOf(key);
      if !Passable(proposed, p) || !Passable(tree, p) { return; }
      if p !in proposed {
        if p in tree {
          if !tree[p].File? { return; }
          tree := tree - {p};
        }
        ok := true;
      } else if proposed[p].File? {
        if p in tree {
          if !tree[p].File? { return; }
        } else {
          tree := WithParents(tree, p);
        }
        tree := tree[p := Copy(proposed[p])];
        ok := true;
      }
    }

    /** Stops at the first file it refuses, leaving the files before it applied. */
    method ApplyVerifiedArtifact(proposed: Tree, files: seq<Bytes>) returns (ok: bool)
      modifies this
      ensures ok <==> AppliedAll(old(tree), proposed, files).Some?
      ensures ok ==> tree == AppliedAll(old(tree), proposed, files).value
    {
      ok := true;
      var i := 0;
      assert files[..0] == [];
      while ok && i < |files|
        invariant 0 <= i <= |files|
        invariant ok <==> AppliedAll(old(tree), proposed, files[..i]).Some?
        invariant ok ==> tree == AppliedAll(old(tree), proposed, files[..i]).value
        decreases |files| - i
      {
        assert files[..i + 1][..i] == files[..i];
        ok := ApplyOne(proposed, files[i]);
        i := i + 1;
      }
      if !ok { StaysRefused(old(tree), proposed, files, i); }
      assert files[..|files|] == files;
    }
  }

  lemma {:induction false} StaysRefused(t: Tree, proposed: Tree, files: seq<Bytes>, i: nat)
    requires i <= |files| && AppliedAll(t, proposed, files[..i]).None?
    ensures AppliedAll(t, proposed, files).None?
    decreases |files|
  {
    if i == |files| {
      assert files[..i] == files;
    } else {
      assert files[..|files| - 1][..i] == files[..i];
      StaysRefused(t, proposed, files[..|files| - 1], i);
    }
  }

  // assertAppliedArtifact

  /** `treeEntry` of the path in both trees: a directory throws. */
  predicate Confirmed(hash: Hash, t: Tree, proposed: Tree, p: Path) {
    && Passable(t, p) && Passable(proposed, p)
    && (p in t ==> !t[p].Dir?) && (p in proposed ==> !proposed[p].Dir?)
    && (p in t <==> p in proposed) && (p in t ==> EntryOf(hash, t[p]) == EntryOf(hash, proposed[p]))
  }

  method AssertAppliedArtifact(hash: Hash, t: Tree, proposed: Tree, files: seq<Bytes>) returns (ok: bool)
    ensures ok <==> forall i :: 0 <= i < |files| ==> Confirmed(hash, t, proposed, PathOf(files[i]))
  {
    ok := true;
    var i := 0;
    while ok && i < |files|
      invariant 0 <= i <= |files|
      invariant ok <==> forall j :: 0 <= j < i ==> Confirmed(hash, t, proposed, PathOf(files[j]))
      decreases |files| - i
    {
      ok := Confirmed(hash, t, proposed, PathOf(files[i]));
      i := i + 1;
    }
  }
}

/** Where the walk reads a disk as it is: by names that are UTF-8 (filesystem.ts). */
module TreeSeen {
  import opened Wrappers
  import opened Unicode
  import opened Spelling
  import opened TreeListing
  import opened TreeCollect
  import opened TreeFiles
  import opened TreeRepeats
  import opened TreeWalk

  /** What a path of unskipped names reaches on the disk. */
  function RawAt(raw: Raw, path: Path): Option<Raw>
    decreases |path|
  {
    if path == [] then Some(raw)
    else if raw.Directory? && path[0] in raw.children && !Skipped(path[0]) then RawAt(raw.children[path[0]], path[1..])
    else None
  }

  /** The regular file that a path reaches, as an entry. */
  function FileAt(digest: Digest, raw: Raw, path: Path): Option<Entry> {
    var found := RawAt(raw, path);
    if found.Some? && found.value.Regular?
    then Some(Entry(found.value.executable, |found.value.contents|, digest(found.value.contents)))
    else None
  }

  // What a successful collection has looked at

  /** Nothing that the walk refuses is reached. */
  ghost predicate Clear(node: Node) { forall path :: At(node, path) != Some(Special) }

  lemma ClearChild(node: Node, name: Bytes)
    requires Clear(node) && node.Dir? && name in node.children && !Skipped(name)
    ensures node.children[name] != Special && Clear(node.children[name])
  {
    forall path ensures At(node.children[name], path) != Some(Special) {
      assert ([name] + path)[1..] == path;
      assert At(node, [name] + path) == At(node.children[name], path);
    }
    assert At(node.children[name], []) == Some(node.children[name]);
  }

  lemma {:induction false} FoldChecks(digest: Digest, s: Option<Collected>, visits: seq<Visit>, v: Visit)
    requires Fold(digest, s, visits).Some? && v in visits
    ensures v.node != Special && Accepts(Spelled(v.path))
    decreases |visits|
  {
    if Step(digest, s, visits[0]).None? { FoldNone(digest, visits[1..]); }
    if v != visits[0] { FoldChecks(digest, Step(digest, s, visits[0]), visits[1..], v); }
  }

  lemma CollectedClear(digest: Digest, root: Node)
    requires root.Dir? && Collect(digest, root).Some?
    ensures Clear(root)
  {
    forall path ensures At(root, path) != Some(Special) {
      if path != [] && At(root, path).Some? {
        var v := Visit(path, At(root, path).value);
        assert path[0..] == path;
        ListingHas([], root, v);
        FoldChecks(digest, START, Listing([], root), v);
      }
    }
  }

  lemma ReadNameDecodes(children: map<Bytes, Raw>, name: Bytes)
    requires name in ReadNames(children)
    ensures DecodeUtf8(name).Some?
  {
    var n :| n in children && Lossy(n) == name;
    LossyDecodes(n);
  }

  /** Where nothing is refused, the walk reaches what paths of UTF-8 names reach, and nothing else. */
  lemma {:induction false} SeenAt(raw: Raw, path: Path)
    requires Clear(Seen(raw))
    ensures Utf8Parts(path) && RawAt(raw, path).Some? ==> At(Seen(raw), path) == Some(Seen(RawAt(raw, path).value))
    ensures At(Seen(raw), path).Some? ==> Utf8Parts(path) && RawAt(raw, path).Some?
    decreases |path|
  {
    if path != [] && raw.Directory? && !Skipped(path[0]) {
      var name := path[0];
      if Utf8Parts(path) && name in raw.children { LossyOfUtf8(name); }
      if name in Seen(raw).children {
        ReadNameDecodes(raw.children, name);
        ClearChild(Seen(raw), name);
        SeenAt(raw.children[name], path[1..]);
        assert Utf8Parts(path) <==> Utf8Parts(path[1..]) by { PartsStep(path); }
      }
    }
  }

  lemma PartsStep(parts: Parts)
    requires parts != []
    ensures Utf8Parts(parts) <==> DecodeUtf8(parts[0]).Some? && Utf8Parts(parts[1..])
  {
    assert parts == [parts[0]] + parts[1..];
  }

  /** The files that a walk reads are the regular files on paths of UTF-8 names. */
  lemma ReadAt(digest: Digest, root: Folder, path: Path)
    requires RawCollect(digest, root).Some?
    ensures
      var found := At(Seen(root), path);
      (if found.Some? && found.value.File? then Some(EntryOf(digest, found.value)) else None)
        == if Utf8Parts(path) then FileAt(digest, root, path) else None
  {
    RepeatsUnseen(digest, root);
    CollectedClear(digest, Seen(root));
    SeenAt(root, path);
  }

  // Plain names

  /** No name on the disk contains a backslash. */
  predicate PlainRaw(raw: Raw) {
    raw.Directory? ==> forall n :: n in raw.children ==> PosixName(n) && BACKSLASH_BYTE !in n && PlainRaw(raw.children[n])
  }

  lemma {:induction false} PlainSeen(raw: Raw)
    requires PlainRaw(raw)
    ensures PlainNames(Seen(raw))
  {
    if raw.Directory? {
      forall name | name in Seen(raw).children
        ensures PosixName(name) && BACKSLASH_BYTE !in name && PlainNames(Seen(raw).children[name]) {
        var n :| n in raw.children && Lossy(n) == name;
        LossyIsName(n);
        if Agrees(raw.children, name) { PlainSeen(raw.children[name]); }
      }
    }
  }

  // Names that are UTF-8

  /** Every name that is listed is UTF-8. */
  predicate Utf8Names(raw: Raw) {
    raw.Directory? ==> forall n :: n in raw.children && !Skipped(n) ==> DecodeUtf8(n).Some? && Utf8Names(raw.children[n])
  }

  lemma {:induction false} OnlyUtf8(raw: Raw, path: Path)
    requires Utf8Names(raw) && RawAt(raw, path).Some?
    ensures Utf8Parts(path)
    decreases |path|
  {
    if path != [] {
      OnlyUtf8(raw.children[path[0]], path[1..]);
      PartsStep(path);
    }
  }

  lemma OwnName(dir: Folder, name: Bytes)
    requires Utf8Names(dir) && name in dir.children
    ensures Lossy(name) == name
  {
    if Skipped(name) { AsciiLegible(name); }
    LossyOfUtf8(name);
  }

  lemma OwnReading(children: map<Bytes, Raw>, name: Bytes)
    requires name in ReadNames(children) && forall n :: n in children ==> Lossy(n) == n
    ensures name in children && Agrees(children, name) && ReadAs(children, name) == {name}
  {
    forall n ensures n in ReadAs(children, name) <==> n == name { }
  }

  lemma ReadAlone(dir: Folder, name: Bytes)
    requires Utf8Names(dir) && name in Seen(dir).children
    ensures name in dir.children && Agrees(dir.children, name) && ReadAs(dir.children, name) == {name}
  {
    forall n | n in dir.children ensures Lossy(n) == n { OwnName(dir, n); }
    OwnReading(dir.children, name);
  }

  lemma RepeatedAlone(dir: Folder, name: Bytes)
    requires Utf8Names(dir) && name in Seen(dir).children
    ensures Repeated(|ReadAs(dir.children, name)|, name) == [name]
  {
    ReadAlone(dir, name);
    assert |{name}| == 1 && Repeated(1, name) == Repeated(0, name) + [name];
  }

  lemma {:induction false} SpreadAlone(dir: Folder, names: seq<Bytes>)
    requires Utf8Names(dir) && forall n :: n in names ==> n in Seen(dir).children && !Skipped(n)
    ensures Spread(dir.children, names) == names
    decreases |names|
  {
    if names != [] {
      var n := |names| - 1;
      SpreadAlone(dir, names[..n]);
      assert names == names[..n] + [names[n]];
      RepeatedAlone(dir, names[n]);
    }
  }

  /** By UTF-8 names, every entry is visited once, and as it is. */
  lemma {:induction false} UnaliasedWalk(prefix: Path, dir: Folder)
    requires Utf8Names(dir)
    ensures RawListing(prefix, dir) == Listing(prefix, Seen(dir))
    decreases dir, 1
  {
    SpreadAlone(dir, Names(Seen(dir).children));
    UnaliasedBelow(prefix, dir, Listed(dir));
  }

  lemma {:induction false} UnaliasedBelow(prefix: Path, dir: Folder, names: seq<Bytes>)
    requires Utf8Names(dir) && forall n :: n in names ==> n in Seen(dir).children && !Skipped(n)
    ensures RawBelow(prefix, dir, names) == Below(prefix, Seen(dir), names)
    decreases dir, 0, |names|
  {
    if names != [] {
      var last := names[|names| - 1];
      UnaliasedBelow(prefix, dir, names[..|names| - 1]);
      ReadAlone(dir, last);
      if Look(dir, last).Dir? { UnaliasedWalk(prefix + [last], dir.children[last]); }
    }
  }

  /** A disk that holds a tree. */
  function Bare(node: Node): Raw {
    match node
    case Dir(children) => Directory(map n | n in children :: Bare(children[n]))
    case File(executable, contents) => Regular(executable, contents, false)
    case Special => Other
  }

  predicate Utf8Tree(node: Node) {
    node.Dir? ==> forall n :: n in node.children ==> DecodeUtf8(n).Some? && Utf8Tree(node.children[n])
  }

  lemma {:induction false} SeenBare(node: Node)
    requires Utf8Tree(node)
    ensures Seen(Bare(node)) == node && Utf8Names(Bare(node))
  {
    if node.Dir? {
      var children := Bare(node).children;
      forall n | n in children ensures DecodeUtf8(n).Some? && Utf8Names(children[n]) && Seen(children[n]) == node.children[n] {
        SeenBare(node.children[n]);
      }
      forall n | n in children ensures Lossy(n) == n { LossyOfUtf8(n); }
      forall n | n in ReadNames(children) ensures n in children && Agrees(children, n) { OwnReading(children, n); }
      assert forall n :: n in children ==> n in ReadNames(children);
      assert Seen(Bare(node)).children == node.children;
    }
  }

  /** A tree of UTF-8 names is collected from the disk as it stands. */
  lemma OnDisk(digest: Digest, root: Node)
    requires root.Dir? && Utf8Tree(root)
    ensures RawCollect(digest, Bare(root)) == Collect(digest, root)
  {
    SeenBare(root);
    UnaliasedWalk([], Bare(root));
  }
}

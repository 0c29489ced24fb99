/** What no regular-tree digest shows: entries whose names are read as the names of others, and
    files that have the key of a file with a backslash (filesystem.ts). */
module TreeUnread {
  import opened Wrappers
  import opened Unicode
  import opened GitPath
  import opened Spelling
  import opened TreeListing
  import opened TreeCollect
  import opened TreeRepeats
  import opened TreeSeen
  import opened TreeTwins
  import opened TreeWalk

  /** The disk with another entry under a name. */
  function Changed(raw: Raw, dir: Path, name: Bytes, entry: Raw): (r: Folder)
    requires RawAt(raw, dir).Some? && RawAt(raw, dir).value.Directory?
    decreases |dir|
  {
    if dir == [] then Directory(raw.children[name := entry])
    else Directory(raw.children[dir[0] := Changed(raw.children[dir[0]], dir[1..], name, entry)])
  }

  lemma {:induction false} ChangedAt(raw: Raw, dir: Path, name: Bytes, entry: Raw, rest: Path)
    requires RawAt(raw, dir).Some? && RawAt(raw, dir).value.Directory? && !Skipped(name)
    ensures RawAt(Changed(raw, dir, name, entry), dir + [name] + rest) == RawAt(entry, rest)
    decreases |dir|
  {
    var path := dir + [name] + rest;
    if dir == [] {
      assert path == [name] + rest && path[1..] == rest;
    } else {
      assert path[1..] == dir[1..] + [name] + rest && path[0] == dir[0];
      ChangedAt(raw.children[dir[0]], dir[1..], name, entry, rest);
    }
  }

  lemma {:induction false} ChangedPlain(raw: Raw, dir: Path, name: Bytes, entry: Raw)
    requires PlainRaw(raw) && PlainRaw(entry) && RawAt(raw, dir).Some? && RawAt(raw, dir).value.Directory?
    requires name in RawAt(raw, dir).value.children
    ensures PlainRaw(Changed(raw, dir, name, entry))
    decreases |dir|
  {
    if dir != [] { ChangedPlain(raw.children[dir[0]], dir[1..], name, entry); }
  }

  // One entry in one directory

  lemma {:induction false} SameSpread(a: map<Bytes, Raw>, b: map<Bytes, Raw>, names: seq<Bytes>)
    requires a.Keys == b.Keys
    ensures Spread(a, names) == Spread(b, names)
    decreases |names|
  {
    if names != [] {
      var n := |names| - 1;
      SameSpread(a, b, names[..n]);
      assert ReadAs(a, names[n]) == ReadAs(b, names[n]);
    }
  }

  /** The entry cannot be looked up, or the walk makes the same of both. */
  predicate Alias(prefix: Path, dir: Folder, name: Bytes, entry: Raw)
    requires name in dir.children
  {
    && SameKind(dir.children[name], entry)
    && (DecodeUtf8(name).Some? ==>
          && Seen(entry) == Seen(dir.children[name])
          && (entry.Directory? ==> RawListing(prefix + [name], entry) == RawListing(prefix + [name], dir.children[name])))
  }

  lemma AliasLook(prefix: Path, dir: Folder, name: Bytes, entry: Raw)
    requires name in dir.children && Alias(prefix, dir, name, entry)
    ensures Seen(Directory(dir.children[name := entry])) == Seen(dir)
  {
    var a, b := dir.children, dir.children[name := entry];
    assert ReadNames(a) == ReadNames(b);
    forall d | d in ReadNames(a) ensures Agrees(a, d) <==> Agrees(b, d) {
      AliasAgrees(a, name, entry, d);
    }
    forall d | d in ReadNames(a) ensures Seen(Directory(b)).children[d] == Seen(dir).children[d] {
      ReadNameDecodes(a, d);
    }
    assert Seen(Directory(b)).children == Seen(dir).children;
  }

  lemma AliasAgrees(children: map<Bytes, Raw>, name: Bytes, entry: Raw, d: Bytes)
    requires name in children && SameKind(children[name], entry)
    ensures Agrees(children, d) <==> Agrees(children[name := entry], d)
  {
  }

  lemma {:induction false} AliasBelow(prefix: Path, dir: Folder, name: Bytes, entry: Raw, names: seq<Bytes>)
    requires name in dir.children && Alias(prefix, dir, name, entry)
    requires forall n :: n in names ==> n in Seen(dir).children && n in Seen(Directory(dir.children[name := entry])).children
    ensures RawBelow(prefix, Directory(dir.children[name := entry]), names) == RawBelow(prefix, dir, names)
    decreases |names|
  {
    if names != [] {
      var last := names[|names| - 1];
      AliasBelow(prefix, dir, name, entry, names[..|names| - 1]);
      AliasLook(prefix, dir, name, entry);
      assert last in ReadNames(dir.children) by { assert last in Seen(dir).children; }
      ReadNameDecodes(dir.children, last);
      assert Inside(prefix, Directory(dir.children[name := entry]), last) == Inside(prefix, dir, last);
    }
  }

  lemma AliasListing(prefix: Path, dir: Folder, name: Bytes, entry: Raw)
    requires name in dir.children && Alias(prefix, dir, name, entry)
    ensures RawListing(prefix, Directory(dir.children[name := entry])) == RawListing(prefix, dir)
  {
    AliasLook(prefix, dir, name, entry);
    SameSpread(dir.children, dir.children[name := entry], Names(Seen(dir).children));
    AliasBelow(prefix, dir, name, entry, Listed(dir));
  }

  /** An entry whose name is no UTF-8, in any directory, can be any other of its kind: the walk is
      the same. */
  lemma {:induction false} AliasUnseen(prefix: Path, root: Folder, dir: Path, name: Bytes, entry: Raw)
    requires RawAt(root, dir).Some? && RawAt(root, dir).value.Directory? && name in RawAt(root, dir).value.children
    requires DecodeUtf8(name).None? && SameKind(RawAt(root, dir).value.children[name], entry)
    ensures Seen(Changed(root, dir, name, entry)) == Seen(root)
    ensures RawListing(prefix, Changed(root, dir, name, entry)) == RawListing(prefix, root)
    decreases |dir|
  {
    if dir == [] {
      AliasLook(prefix, root, name, entry);
      AliasListing(prefix, root, name, entry);
    } else {
      var child := Changed(root.children[dir[0]], dir[1..], name, entry);
      AliasUnseen(prefix + [dir[0]], root.children[dir[0]], dir[1..], name, entry);
      AliasLook(prefix, root, dir[0], child);
      AliasListing(prefix, root, dir[0], child);
    }
  }

  // Some disk with the same digest

  lemma {:induction false} FindUnread(raw: Raw) returns (dir: Path, name: Bytes)
    requires !Utf8Names(raw)
    ensures Utf8Parts(dir) && RawAt(raw, dir).Some? && RawAt(raw, dir).value.Directory?
    ensures name in RawAt(raw, dir).value.children && DecodeUtf8(name).None? && !Skipped(name)
  {
    var n :| n in raw.children && !Skipped(n) && !(DecodeUtf8(n).Some? && Utf8Names(raw.children[n]));
    if DecodeUtf8(n).None? {
      dir, name := [], n;
    } else {
      var rest: Path;
      rest, name := FindUnread(raw.children[n]);
      dir := [n] + rest;
      assert dir[1..] == rest;
      PartsStep(dir);
    }
  }

  lemma {:induction false} ClearAt(raw: Raw, path: Path)
    requires Clear(Seen(raw)) && Utf8Parts(path) && RawAt(raw, path).Some?
    ensures Clear(Seen(RawAt(raw, path).value))
    decreases |path|
  {
    if path != [] {
      LossyOfUtf8(path[0]);
      ClearChild(Seen(raw), path[0]);
      PartsStep(path);
      ClearAt(raw.children[path[0]], path[1..]);
    }
  }

  lemma KeptName(name: Bytes)
    requires !Skipped(name)
    ensures !Skipped(Lossy(name))
  {
    AsciiLegible(GIT);
    AsciiLegible(NODE_MODULES);
    LossyKeeps(name, GIT);
    LossyKeeps(name, NODE_MODULES);
  }

  lemma LookKind(dir: Folder, name: Bytes)
    requires name in dir.children && Lossy(name) in Seen(dir).children && Seen(dir).children[Lossy(name)] != Special
    ensures !dir.children[name].Other?
  {
    assert SameKind(dir.children[name], dir.children[Lossy(name)]);
  }

  /** What is listed where nothing is refused is a directory or a regular file. */
  lemma ClearKind(dir: Folder, name: Bytes)
    requires Clear(Seen(dir)) && name in dir.children && !Skipped(name)
    ensures !dir.children[name].Other?
  {
    KeptName(name);
    assert Lossy(name) in Seen(dir).children by { assert Lossy(name) in ReadNames(dir.children); }
    ClearChild(Seen(dir), Lossy(name));
    LookKind(dir, name);
  }

  const X: Bytes := [0x78]

  /** Another entry of the same kind, and where it differs. */
  lemma Other(digest: Digest, entry: Raw) returns (other: Raw, rest: Path)
    requires !entry.Other?
    ensures SameKind(entry, other) && FileAt(digest, other, rest) != FileAt(digest, entry, rest)
    ensures rest == [] || rest == [X]
    ensures PlainRaw(other)
  {
    if entry.Regular? {
      other, rest := entry.(executable := !entry.executable), [];
    } else {
      var there := FileAt(digest, entry, [X]);
      var file := Regular(there.Some? && !there.value.executable, [], false);
      other, rest := Directory(map[X := file]), [X];
      assert [X][1..] == [];
      assert RawAt(other, [X]) == Some(file);
    }
  }

  /** As soon as some listed name is no UTF-8, the same is collected from a disk with other files. */
  lemma UnreadTwin(digest: Digest, root: Folder) returns (other: Folder, path: Path)
    requires RawCollect(digest, root).Some? && !Utf8Names(root)
    ensures RawCollect(digest, other) == RawCollect(digest, root)
    ensures FileAt(digest, other, path) != FileAt(digest, root, path)
    ensures PlainRaw(root) ==> PlainRaw(other)
  {
    var dir, name := FindUnread(root);
    var folder := RawAt(root, dir).value;
    RepeatsUnseen(digest, root);
    CollectedClear(digest, Seen(root));
    ClearAt(root, dir);
    ClearKind(folder, name);
    var entry, rest := Other(digest, folder.children[name]);
    other, path := Changed(root, dir, name, entry), dir + [name] + rest;
    AliasUnseen([], root, dir, name, entry);
    ChangedAt(root, dir, name, entry, rest);
    AsItWas(root, dir, name, rest);
    if PlainRaw(root) { ChangedPlain(root, dir, name, entry); }
  }

  lemma AsItWas(root: Raw, dir: Path, name: Bytes, rest: Path)
    requires RawAt(root, dir).Some? && RawAt(root, dir).value.Directory? && name in RawAt(root, dir).value.children && !Skipped(name)
    ensures RawAt(root, dir + [name] + rest) == RawAt(RawAt(root, dir).value.children[name], rest)
  {
    Unchanged(root, dir, name);
    ChangedAt(root, dir, name, RawAt(root, dir).value.children[name], rest);
  }

  lemma {:induction false} Unchanged(raw: Raw, dir: Path, name: Bytes)
    requires RawAt(raw, dir).Some? && RawAt(raw, dir).value.Directory? && name in RawAt(raw, dir).value.children
    ensures Changed(raw, dir, name, RawAt(raw, dir).value.children[name]) == raw
    decreases |dir|
  {
    if dir == [] {
      assert raw.children[name := raw.children[name]] == raw.children;
    } else {
      Unchanged(raw.children[dir[0]], dir[1..], name);
      assert raw.children[dir[0] := raw.children[dir[0]]] == raw.children;
    }
  }

  // Backslash twins on a disk

  lemma {:induction false} BareAt(node: Node, path: Path)
    ensures RawAt(Bare(node), path) == var found := At(node, path); if found.Some? then Some(Bare(found.value)) else None
    decreases |path|
  {
    if path != [] && node.Dir? && path[0] in node.children { BareAt(node.children[path[0]], path[1..]); }
  }

  lemma {:induction false} GraftedUtf8(node: Node, dir: Path, name: Bytes, sub: Node)
    requires Utf8Tree(node) && At(node, dir).Some? && At(node, dir).value.Dir? && DecodeUtf8(name).Some? && Utf8Tree(sub)
    ensures Utf8Tree(Grafted(node, dir, name, sub))
    decreases |dir|
  {
    if dir != [] { GraftedUtf8(node.children[dir[0]], dir[1..], name, sub); }
  }

  lemma {:induction false} Utf8At(node: Node, path: Path)
    requires Utf8Tree(node) && At(node, path).Some?
    ensures Utf8Tree(At(node, path).value)
    decreases |path|
  {
    if path != [] { Utf8At(node.children[path[0]], path[1..]); }
  }

  lemma EscapedDecodes(x: Bytes, y: Bytes)
    requires DecodeUtf8(Escaped(x, y)).Some?
    ensures DecodeUtf8(x).Some? && DecodeUtf8(y).Some?
  {
    DecodeAsciiChanged(Escaped(x, y), x + ([SLASH] + y));
    DecodesBefore(x, y);
    DecodesAfter(x, y);
  }

  /** On a disk with UTF-8 names: a file with a backslash in its name can be copied to its free slash
      twin, and the same entries are collected. */
  lemma TwinOnDisk(digest: Digest, root: Node, dir: Path, x: Bytes, y: Bytes, file: Node)
    requires Utf8Tree(root) && Twinnable(root, dir, x, y) && file == At(root, dir).value.children[Escaped(x, y)]
    requires RawCollect(digest, Bare(root)).Some? && Room(RawCollect(digest, Bare(root)).value, file)
    ensures
      var twinned := Bare(Grafted(root, dir, x, Dir(map[y := file])));
      && RawCollect(digest, twinned).Some?
      && RawCollect(digest, twinned).value.entries == RawCollect(digest, Bare(root)).value.entries
      && FileAt(digest, Bare(root), dir + [x, y]).None? && FileAt(digest, twinned, dir + [x, y]).Some?
  {
    var grafted := Grafted(root, dir, x, Dir(map[y := file]));
    OnDisk(digest, root);
    TwinUnseen(digest, root, dir, x, y, file);
    Utf8At(root, dir);
    EscapedDecodes(x, y);
    GraftedUtf8(root, dir, x, Dir(map[y := file]));
    OnDisk(digest, grafted);
    BareAt(root, dir + [x, y]);
    BareAt(grafted, dir + [x, y]);
  }
}

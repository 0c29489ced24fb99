/** The repository as a path-to-node map, and its filesystem steps (pipeline.ts). */
module RepositoryTree {
  import opened Wrappers
  import opened Unicode
  import opened GitPath
  import opened Spelling
  import GitObject

  /** A directory entry name. Staging and rollback names carry the name they stand for and the
      `randomUUID()` of one transaction; UUIDs are modelled by numbers that are never drawn twice,
      and every name that this transaction did not draw is Plain. */
  datatype Name = Plain(text: Bytes) | Stage(of: Bytes, id: nat) | Rollback(of: Bytes, id: nat)

  type Path = seq<Name>
  type Mode = m: nat | m < 0x1000

  datatype Node = File(mode: Mode, bytes: Bytes) | Dir(mode: Mode) | Link(mode: Mode, target: Bytes)

  type Tree = map<Path, Node>

  function Get(t: Tree, p: Path): Option<Node> { if p in t then Some(t[p]) else None }

  // Names and keys

  /** `.api-migrator-`, `.stage` and `.rollback`. */
  const INFIX: Bytes := [0x2e, 0x61, 0x70, 0x69, 0x2d, 0x6d, 0x69, 0x67, 0x72, 0x61, 0x74, 0x6f, 0x72, 0x2d]
  const STAGE_SUFFIX: Bytes := [0x2e, 0x73, 0x74, 0x61, 0x67, 0x65]
  const ROLLBACK_SUFFIX: Bytes := [0x2e, 0x72, 0x6f, 0x6c, 0x6c, 0x62, 0x61, 0x63, 0x6b]

  function NameText(n: Name): Bytes {
    match n
    case Plain(text) => text
    case Stage(of, id) => [DOT] + of + INFIX + GitObject.DecimalBytes(id) + STAGE_SUFFIX
    case Rollback(of, id) => [DOT] + of + INFIX + GitObject.DecimalBytes(id) + ROLLBACK_SUFFIX
  }

  function Texts(p: Path): (r: Parts)
    ensures |r| == |p|
  {
    seq(|p|, i requires 0 <= i < |p| => NameText(p[i]))
  }

  /** The key of a path in a walked tree. */
  function Key(p: Path): Bytes { Spelled(Texts(p)) }

  /** Every name is UTF-8: what the program reads of it is what is there. */
  predicate Readable(p: Path) { forall i :: 0 <= i < |p| ==> DecodeUtf8(NameText(p[i])).Some? }

  lemma KeyDecodes(p: Path)
    requires Readable(p)
    ensures DecodeUtf8(Key(p)).Some?
  {
    assert forall i :: 0 <= i < |p| ==> Texts(p)[i] == NameText(p[i]);
    SpelledDecodes(Texts(p));
  }

  /** What a directory listing makes of an entry's path: the last name is decoded lossily. */
  function Decoded(p: Path): (q: Path)
    requires p != []
    ensures |q| == |p| && q[..|p| - 1] == p[..|p| - 1]
  {
    var text := NameText(p[|p| - 1]);
    if DecodeUtf8(text).Some? then p else WithLast(p, Lossy(text))
  }

  predicate NamedPath(p: Path) { forall i :: 0 <= i < |p| ==> p[i].Plain? }

  /** No name holds a backslash. */
  predicate PlainPath(p: Path) { NamedPath(p) && forall i :: 0 <= i < |p| ==> BACKSLASH_BYTE !in p[i].text }

  /** What a file system guarantees of the names in it. */
  predicate PosixPath(p: Path) { forall i :: 0 <= i < |p| && p[i].Plain? ==> PosixName(p[i].text) }

  /** Paths without backslashes have their own keys: the slashes in a key separate its names. */
  lemma KeyInjective(p: Path, q: Path)
    requires p != [] && q != [] && PosixPath(p) && PosixPath(q) && PlainPath(p) && PlainPath(q) && Key(p) == Key(q)
    ensures p == q
  {
    SpelledInjective(Texts(p), Texts(q));
    forall i | 0 <= i < |p| ensures p[i] == q[i] { assert Texts(p)[i] == Texts(q)[i]; }
  }

  /** The name in the root directory that has the key of a deeper path. */
  function Twin(p: Path): Path { [Plain(Flattened(Texts(p)))] }

  lemma TwinSpells(p: Path)
    requires |p| >= 2 && PosixPath(p) && NamedPath(p)
    ensures Key(Twin(p)) == Key(p) && PosixPath(Twin(p)) && NamedPath(Twin(p)) && !PlainPath(Twin(p)) && !Ignored(Twin(p))
    ensures Readable(p) ==> Readable(Twin(p))
  {
    if Readable(p) {
      assert forall i :: 0 <= i < |p| ==> Texts(p)[i] == NameText(p[i]);
      FlattenedDecodes(Texts(p));
    }
    FlattenedSpells(Texts(p));
    FlattenedIsName(Texts(p));
    assert Texts(Twin(p)) == [Flattened(Texts(p))];
    assert BACKSLASH_BYTE in Twin(p)[0].text && BACKSLASH_BYTE !in GIT && BACKSLASH_BYTE !in NODE_MODULES;
  }

  /** A single plain name has no twin. */
  lemma NoOtherKey(p: Path, q: Path)
    requires |p| == 1 && PlainPath(p) && PosixPath(p) && q != [] && NamedPath(q) && Key(q) == Key(p)
    ensures q == p
  {
    JoinOne(p[0].text);
    assert Texts(p) == [p[0].text];
    NoTwin(p[0].text, Texts(q));
    assert Texts(q)[0] == p[0].text;
  }

  /** Every proper ancestor is a real directory. */
  predicate ParentsOk(t: Tree, p: Path) {
    forall k :: 0 < k < |p| ==> p[..k] in t && t[p[..k]].Dir?
  }

  ghost predicate WellFormed(t: Tree) {
    forall p :: p in t ==> p != [] && PosixPath(p) && ParentsOk(t, p)
  }

  /** No name in the tree holds a backslash. */
  predicate PlainTree(t: Tree) { forall p :: p in t ==> PlainPath(p) }

  predicate SafeName(n: Name) { n.Plain? ==> PosixName(n.text) && BACKSLASH_BYTE !in n.text }

  /** `safeRepositoryPath` accepts the path. */
  predicate Safe(t: Tree, p: Path) {
    p != [] && (forall i :: 0 <= i < |p| ==> SafeName(p[i])) && ParentsOk(t, p)
  }

  // Steps: what each system call does, or nothing when it cannot.

  function Unlinked(t: Tree, p: Path): Option<Tree> {
    if p in t && !t[p].Dir? then Some(t - {p}) else None
  }

  /** `copyFileSync` with COPYFILE_EXCL; a failed copy removes its own destination. */
  function Copied(t: Tree, p: Path, mode: Mode, bytes: Bytes): Option<Tree> {
    if p != [] && p !in t && PosixPath(p) && ParentsOk(t, p) then Some(t[p := File(mode, bytes)]) else None
  }

  function Chmodded(t: Tree, p: Path, mode: Mode): Option<Tree> {
    if p in t && t[p].File? then Some(t[p := File(mode, t[p].bytes)]) else None
  }

  function Renamed(t: Tree, from: Path, to: Path): Option<Tree> {
    if from in t && t[from].File? && from != to && to != [] && PosixPath(to) && ParentsOk(t, to) && (to in t ==> !t[to].Dir?)
    then Some((t - {from})[to := t[from]])
    else None
  }

  // A file never is an ancestor, so file steps keep the tree well formed.

  lemma NotAnAncestor(t: Tree, p: Path, q: Path, k: nat)
    requires WellFormed(t) && q in t && 0 < k < |q| && q[..k] == p
    ensures p in t && t[p].Dir?
  {
  }

  lemma UnlinkKeeps(t: Tree, p: Path)
    requires WellFormed(t) && Unlinked(t, p).Some?
    ensures WellFormed(Unlinked(t, p).value)
  {
    var after := Unlinked(t, p).value;
    forall q | q in after ensures ParentsOk(after, q) {
      forall k | 0 < k < |q| ensures q[..k] in after && after[q[..k]].Dir? {
        assert q[..k] in t && t[q[..k]].Dir?;
      }
    }
  }

  lemma CopyKeeps(t: Tree, p: Path, mode: Mode, bytes: Bytes)
    requires WellFormed(t) && Copied(t, p, mode, bytes).Some?
    ensures WellFormed(Copied(t, p, mode, bytes).value)
  {
    var after := Copied(t, p, mode, bytes).value;
    forall q | q in after ensures ParentsOk(after, q) {
      forall k | 0 < k < |q| ensures q[..k] in after && after[q[..k]].Dir? {
        if q != p { assert q[..k] in t && t[q[..k]].Dir?; }
      }
    }
  }

  lemma ChmodKeeps(t: Tree, p: Path, mode: Mode)
    requires WellFormed(t) && Chmodded(t, p, mode).Some?
    ensures WellFormed(Chmodded(t, p, mode).value)
  {
    var after := Chmodded(t, p, mode).value;
    forall q | q in after ensures ParentsOk(after, q) {
      forall k | 0 < k < |q| ensures q[..k] in after && after[q[..k]].Dir? {
        assert q[..k] in t && t[q[..k]].Dir?;
      }
    }
  }

  lemma RenameKeeps(t: Tree, from: Path, to: Path)
    requires WellFormed(t) && Renamed(t, from, to).Some?
    ensures WellFormed(Renamed(t, from, to).value)
  {
    var after := Renamed(t, from, to).value;
    forall q | q in after ensures ParentsOk(after, q) {
      forall k | 0 < k < |q| ensures q[..k] in after && after[q[..k]].Dir? {
        assert q[..k] in t && t[q[..k]].Dir?;
      }
    }
  }

  /** File steps never make or remove a directory. */
  predicate SameDirs(a: Tree, b: Tree) {
    && (forall p :: p in a && a[p].Dir? ==> p in b && b[p].Dir?)
    && (forall p :: p in b && b[p].Dir? ==> p in a && a[p].Dir?)
  }

  lemma SafeIffSafe(a: Tree, b: Tree, p: Path)
    requires SameDirs(a, b)
    ensures Safe(a, p) <==> Safe(b, p)
  {
  }

  // Records

  datatype Kind = DirectoryKind | FileKind | SymlinkKind

  /** `repositoryTreeEntry`: what two trees are compared by. */
  datatype Record = Record(kind: Kind, mode: Mode, digest: Bytes)

  type Hash = Bytes -> Bytes

  /** `readlinkSync` decodes a target lossily before it is hashed. */
  function RecordOf(hash: Hash, node: Node): Record {
    match node
    case Dir(mode) => Record(DirectoryKind, mode, [])
    case File(mode, bytes) => Record(FileKind, mode, hash(bytes))
    case Link(mode, target) => Record(SymlinkKind, mode, hash(Lossy(target)))
  }

  /** What is hashed of a node. */
  function Contents(node: Node): Bytes {
    match node
    case Dir(_) => []
    case File(_, bytes) => bytes
    case Link(_, target) => Lossy(target)
  }

  /** Links whose targets are read as one text. */
  predicate SameReading(a: Node, b: Node) { a.Link? && b.Link? && a.mode == b.mode && Lossy(a.target) == Lossy(b.target) }

  /** Equal records come from equal nodes, or from links that are read alike, or what was hashed of
      them collides. */
  lemma RecordBinds(hash: Hash, a: Node, b: Node)
    requires RecordOf(hash, a) == RecordOf(hash, b)
    ensures a == b || SameReading(a, b) || (Contents(a) != Contents(b) && hash(Contents(a)) == hash(Contents(b)))
  {
  }

  /** Git metadata and installed dependencies are not compared. */
  predicate Ignored(p: Path) {
    exists i :: 0 <= i < |p| && (p[i] == Plain(GIT) || p[i] == Plain(NODE_MODULES))
  }

  /** Every name is UTF-8 and holds no backslash. */
  predicate OrdinaryPath(p: Path) {
    forall i :: 0 <= i < |p| ==> p[i].Plain? && DecodeUtf8(p[i].text).Some? && 0x5c !in p[i].text
  }

  predicate OrdinaryTree(t: Tree) { forall p :: p in t ==> OrdinaryPath(p) }

  /** The path leads through Git metadata or installed dependencies. */
  predicate SkippedPath(p: Path) {
    exists i :: 0 <= i < |p| && p[i].Plain? && (p[i].text == Ascii(".git") || p[i].text == Ascii("node_modules"))
  }

  lemma SkippedIsIgnored(p: Path)
    ensures SkippedPath(p) <==> Ignored(p)
  {
    assert GIT == Ascii(".git") && NODE_MODULES == Ascii("node_modules");
    if i :| 0 <= i < |p| && (p[i] == Plain(GIT) || p[i] == Plain(NODE_MODULES)) { assert p[i].Plain?; }
    if i :| 0 <= i < |p| && p[i].Plain? && (p[i].text == Ascii(".git") || p[i].text == Ascii("node_modules")) {
      assert p[i] == Plain(p[i].text);
    }
  }

  lemma OrdinaryIsPlain(p: Path)
    requires OrdinaryPath(p)
    ensures PlainPath(p) && Readable(p)
  {
  }

  /** A walk lists the entry: its directory is reached by names that are read as they are. */
  predicate Visited(t: Tree, p: Path) { p in t && p != [] && !Ignored(p) && Readable(p[..|p| - 1]) }

  /** Every listed name is looked up as it was read; where there is no such entry the walk fails. */
  predicate Walkable(t: Tree) { forall p :: p in t && Visited(t, p) ==> Decoded(p) in t }

  /** The entry is found by a walk. */
  predicate Shown(t: Tree, p: Path) { p in t && !Ignored(p) && Readable(p) }

  /** A walk that does not fail finds exactly what its listed names are read as. */
  lemma FoundIsShown(t: Tree, q: Path)
    requires Walkable(t) && forall p :: p in t ==> p != [] && PosixPath(p) && (NamedPath(p) || Readable(p))
    ensures Shown(t, q) <==> exists p :: p in t && Visited(t, p) && Decoded(p) == q
  {
    if Shown(t, q) { assert Visited(t, q) && Decoded(q) == q; }
    if p :| p in t && Visited(t, p) && Decoded(p) == q {
      DecodedIsRead(p);
    }
  }

  lemma ReadName(text: Bytes)
    requires PosixName(text) && DecodeUtf8(text).None?
    ensures PosixName(Lossy(text)) && DecodeUtf8(Lossy(text)).Some? && HasMark(Lossy(text))
    ensures BACKSLASH_BYTE in Lossy(text) <==> BACKSLASH_BYTE in text
    ensures Lossy(text) !in {GIT, NODE_MODULES} && text !in {GIT, NODE_MODULES}
  {
    LossyIsName(text);
    AsciiLegible(GIT);
    AsciiLegible(NODE_MODULES);
    LossyKeeps(text, GIT);
    LossyKeeps(text, NODE_MODULES);
  }

  /** The path with another last name. */
  function WithLast(p: Path, text: Bytes): (q: Path)
    requires p != []
    ensures |q| == |p| && q[|p| - 1] == Plain(text) && forall i :: 0 <= i < |p| - 1 ==> q[i] == p[i]
  {
    p[..|p| - 1] + [Plain(text)]
  }

  lemma LastReadable(p: Path, text: Bytes)
    requires p != []
    ensures Readable(WithLast(p, text)) <==> Readable(p[..|p| - 1]) && DecodeUtf8(text).Some?
  {
    var n, q := |p| - 1, WithLast(p, text);
    assert forall i :: 0 <= i < n ==> p[..n][i] == q[i];
    assert NameText(q[n]) == text;
  }

  lemma LastIgnored(p: Path, text: Bytes)
    requires p != [] && p[|p| - 1].Plain? && text !in {GIT, NODE_MODULES} && p[|p| - 1].text !in {GIT, NODE_MODULES}
    ensures Ignored(WithLast(p, text)) <==> Ignored(p)
  {
    var q := WithLast(p, text);
    assert forall i :: 0 <= i < |p| - 1 ==> q[i] == p[i];
  }

  /** What a listed name is read as can be read back, and is ignored exactly when the name is. */
  lemma DecodedIsRead(p: Path)
    requires p != [] && PosixPath(p) && (NamedPath(p) || Readable(p)) && Readable(p[..|p| - 1])
    ensures Readable(Decoded(p)) && (Ignored(Decoded(p)) <==> Ignored(p)) && PosixPath(Decoded(p))
    ensures Readable(p) ==> Decoded(p) == p
    ensures !Readable(p) ==> NamedPath(Decoded(p)) && HasMark(Decoded(p)[|p| - 1].text)
    ensures !Readable(p) && PlainPath(p) ==> PlainPath(Decoded(p))
  {
    var n := |p| - 1;
    if DecodeUtf8(NameText(p[n])).None? {
      ReadName(p[n].text);
      LastReadable(p, Lossy(p[n].text));
      LastIgnored(p, Lossy(p[n].text));
      assert Decoded(p) == WithLast(p, Lossy(p[n].text));
    } else {
      assert forall i :: 0 <= i < n ==> p[..n][i] == p[i];
    }
  }

  /** The Map of a walk: one record for each key. */
  type View = map<Bytes, Record>

  predicate ShownAs(t: Tree, p: Path, key: Bytes) { Shown(t, p) && Key(p) == key }

  ghost predicate HasKey(t: Tree, key: Bytes) { exists p :: ShownAs(t, p, key) }

  ghost predicate KeyShows(hash: Hash, t: Tree, key: Bytes, r: Record) {
    exists p :: ShownAs(t, p, key) && RecordOf(hash, t[p]) == r
  }

  /** What a walk can make of a tree. Where several entries share one key, any of them may be the
      one that was set last. */
  ghost predicate Walked(hash: Hash, t: Tree, v: View) {
    && (forall key :: key in v <==> HasKey(t, key))
    && forall key :: key in v ==> KeyShows(hash, t, key, v[key])
  }

  function InView(v: View, key: Bytes): Option<Record> { if key in v then Some(v[key]) else None }

  /** If every entry with this key has one record, that is what the walk shows. */
  lemma WalkedAt(hash: Hash, t: Tree, v: View, p: Path)
    requires Walked(hash, t, v) && Shown(t, p)
    requires forall q :: ShownAs(t, q, Key(p)) ==> RecordOf(hash, t[q]) == RecordOf(hash, t[p])
    ensures InView(v, Key(p)) == Some(RecordOf(hash, t[p]))
  {
    assert ShownAs(t, p, Key(p)) && HasKey(t, Key(p));
    assert KeyShows(hash, t, Key(p), v[Key(p)]);
  }

  lemma SameViews(u: View, v: View)
    requires forall key :: InView(u, key) == InView(v, key)
    ensures u == v
  {
    assert forall key :: key in u <==> InView(u, key).Some?;
    assert forall key :: key in v <==> InView(v, key).Some?;
  }

  /** A path and a node that nothing else is read as. */
  predicate LegiblePath(p: Path) { forall i :: 0 <= i < |p| ==> Legible(NameText(p[i])) }

  predicate LegibleNode(node: Node) { node.Link? ==> Legible(node.target) }

  lemma {:induction false} FirstIllegible(p: Path) returns (k: nat)
    requires !LegiblePath(p)
    ensures k < |p| && !Legible(NameText(p[k])) && LegiblePath(p[..k])
    decreases |p|
  {
    var n := |p| - 1;
    if LegiblePath(p[..n]) {
      k := n;
      assert forall i :: 0 <= i < n ==> p[..n][i] == p[i];
    } else {
      k := FirstIllegible(p[..n]);
      assert p[..n][..k] == p[..k];
    }
  }

  lemma PrefixOf(p: Path, k: nat)
    requires k <= |p|
    ensures (NamedPath(p) ==> NamedPath(p[..k])) && (PlainPath(p) ==> PlainPath(p[..k]))
    ensures (Ignored(p[..k]) ==> Ignored(p)) && (Readable(p) ==> Readable(p[..k]))
  {
    assert forall i :: 0 <= i < k ==> p[..k][i] == p[i];
  }

  /** Under an entry with a name that is no UTF-8, or holds U+FFFD, there is one that shows it. */
  lemma IllegibleShows(t: Tree, p: Path) returns (d: Path)
    requires WellFormed(t) && Walkable(t) && p in t && NamedPath(p) && !Ignored(p) && !LegiblePath(p)
    ensures Shown(t, d) && NamedPath(d) && HasMark(d[|d| - 1].text) && (PlainPath(p) ==> PlainPath(d))
  {
    var k := FirstIllegible(p);
    d := p[..k + 1];
    PrefixOf(p, k + 1);
    assert d in t by { if k + 1 == |p| { assert d == p; } }
    assert d[..k] == p[..k] && d[k] == p[k];
    if DecodeUtf8(NameText(d[k])).None? {
      DecodedIsRead(d);
      assert Visited(t, d);
      d := Decoded(d);
    } else {
      LastReadable(d, d[k].text);
      assert WithLast(d, d[k].text) == d;
    }
  }

  /** `tree.set` and `tree.delete` for every overlaid path, in list order. */
  function Overlaid(v: View, overlays: seq<(Bytes, Option<Record>)>): View
    decreases |overlays|
  {
    if overlays == [] then v
    else
      var (key, r) := overlays[0];
      Overlaid(if r.Some? then v[key := r.value] else v - {key}, overlays[1..])
  }
}

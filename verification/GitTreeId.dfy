/** `gitTreeOid`: validation, construction and encoding of a flat entry list. */
module GitTreeId {
  import opened Wrappers
  import opened Unicode
  import opened GitPath
  import opened GitTree
  import opened GitObject
  import opened GitBinding
  import opened GitWalk
  import Order

  predicate PlainName(name: Bytes) { name != [] && 0 !in name && SLASH !in name }

  lemma {:induction false} SplitBytes(path: Bytes)
    ensures forall i, b :: 0 <= i < |Split(path)| && b in Split(path)[i] ==> b in path
  {
    if path != [] {
      SplitBytes(path[1..]);
      assert path == [path[0]] + path[1..];
    }
  }

  lemma ValidParts(path: Bytes)
    requires ValidGitPath(path)
    ensures forall i :: 0 <= i < |Split(path)| ==> PlainName(Split(path)[i])
  {
    SplitBytes(path);
    assert 0 !in path;
    forall i | 0 <= i < |Split(path)| ensures PlainName(Split(path)[i]) {
      assert ValidComponent(Split(path)[i]);
    }
  }

  lemma {:induction false} InsertKeepsNames(dir: Directory, parts: Path, file: File)
    requires NamesOk(dir) && parts != [] && Insert(dir, parts, file).Some?
    requires forall i :: 0 <= i < |parts| ==> PlainName(parts[i])
    ensures NamesOk(Insert(dir, parts, file).value)
    decreases |parts|
  {
    if |parts| > 1 {
      var next := if parts[0] in dir.directories then dir.directories[parts[0]] else EMPTY;
      InsertKeepsNames(next, parts[1..], file);
    }
  }

  predicate AllValid(entries: seq<Entry>) {
    forall i :: 0 <= i < |entries| ==> ValidGitPath(entries[i].path)
  }

  lemma {:induction false} BuiltNames(entries: seq<Entry>)
    requires AllValid(entries) && Build(entries).Some?
    ensures NamesOk(Build(entries).value)
    decreases |entries|
  {
    if entries != [] {
      var n := |entries| - 1;
      BuiltNames(entries[..n]);
      ValidParts(entries[n].path);
      InsertKeepsNames(Build(entries[..n]).value, Split(entries[n].path), entries[n].file);
    }
  }

  function GitTreeOid(hash: Hash, entries: seq<Entry>): Option<Bytes> {
    if !AllValid(entries) || Build(entries).None? then None
    else
      BuiltNames(entries);
      Some(TreeOid(hash, Build(entries).value))
  }

  lemma {:induction false} PrefixBuilds(entries: seq<Entry>, k: nat)
    requires k <= |entries| && Build(entries).Some?
    ensures Build(entries[..k]).Some?
    decreases |entries|
  {
    if k < |entries| {
      assert entries[..|entries| - 1][..k] == entries[..k];
      PrefixBuilds(entries[..|entries| - 1], k);
    } else {
      assert entries[..k] == entries;
    }
  }

  /** The loop of the source: validate, refuse a path already seen, insert. */
  method BuildTree(entries: seq<Entry>, valid: Bytes -> bool) returns (r: Option<Directory>)
    ensures r == if forall i :: 0 <= i < |entries| ==> valid(entries[i].path) then Build(entries) else None
  {
    var root := EMPTY;
    var seen: set<Bytes> := {};
    for index := 0 to |entries|
      invariant forall i :: 0 <= i < index ==> valid(entries[i].path)
      invariant Build(entries[..index]) == Some(root)
      invariant seen == PathSet(entries, index)
    {
      var entry := entries[index];
      BuildStep(entries, index, root);
      PathSetStep(entries, index);
      if !valid(entry.path) || entry.path in seen {
        return None;
      }
      seen := seen + {entry.path};
      var inserted := Insert(root, Split(entry.path), entry.file);
      if inserted.None? {
        return None;
      }
      root := inserted.value;
    }
    assert entries[..|entries|] == entries;
    r := Some(root);
  }

  ghost function PathSet(entries: seq<Entry>, k: nat): set<Bytes>
    requires k <= |entries|
  {
    set i | 0 <= i < k :: entries[i].path
  }

  lemma PathSetStep(entries: seq<Entry>, k: nat)
    requires k < |entries|
    ensures PathSet(entries, k + 1) == PathSet(entries, k) + {entries[k].path}
  {
  }

  method ComputeGitTreeOid(hash: Hash, entries: seq<Entry>) returns (r: Option<Bytes>)
    ensures r == GitTreeOid(hash, entries)
  {
    var root := BuildTree(entries, ValidGitPath);
    if root.None? {
      return None;
    }
    BuiltNames(entries);
    r := Some(TreeOid(hash, root.value));
  }

  // The next entry decides: a repeated path or a refused insertion fails the whole list.
  lemma BuildStep(entries: seq<Entry>, k: nat, root: Directory)
    requires k < |entries| && Build(entries[..k]) == Some(root)
    ensures Build(entries[..k + 1])
         == if entries[k].path in PathSet(entries, k) then None
            else Insert(root, Split(entries[k].path), entries[k].file)
    ensures Build(entries[..k + 1]).None? ==> Build(entries).None?
  {
    var next := entries[..k + 1];
    assert next[..k] == entries[..k] && next[k] == entries[k];
    assert forall i :: 0 <= i < k ==> next[i] == entries[i];
    if Build(entries).Some? { PrefixBuilds(entries, k + 1); }
  }

  // What the id means

  ghost function Paths(entries: seq<Entry>): (r: seq<Bytes>)
    ensures |r| == |entries| && forall i :: 0 <= i < |r| ==> r[i] == entries[i].path
  {
    seq(|entries|, i requires 0 <= i < |entries| => entries[i].path)
  }

  /** Walking the tree lists every entry path once, in strictly increasing byte order;
      so a byte-ordered entry list, as a bundle must hold, is exactly the tree walk. */
  lemma WalkIsBundleOrder(entries: seq<Entry>)
    requires AllValid(entries) && Build(entries).Some?
    ensures NamesOk(Build(entries).value)
    ensures var walk := Walk(Build(entries).value);
      && Order.Increasing(walk)
      && (forall p :: p in walk <==> p in Paths(entries))
      && (Order.Increasing(Paths(entries)) ==> Paths(entries) == walk)
  {
    var dir := Build(entries).value;
    BuiltNames(entries);
    BuildExact(entries);
    WalkIncreasing(dir);
    var walk, paths := Walk(dir), Paths(entries);
    forall p ensures p in walk <==> p in paths {
      WalkHas(dir, p);
      LookupSome(dir, entries, Split(p));
      if p in walk {
        var i :| 0 <= i < |entries| && Split(entries[i].path) == Split(p);
        SamePath(entries[i].path, p);
        assert paths[i] == p;
      }
      if p in paths {
        var i :| 0 <= i < |paths| && paths[i] == p;
      }
    }
    if Order.Increasing(paths) { Order.IncreasingUnique(paths, walk); }
  }

  ghost function TreeObjects(hash: Hash, entries: seq<Entry>): set<Bytes>
    requires GitTreeOid(hash, entries).Some?
  {
    BuiltNames(entries);
    Objects(hash, Build(entries).value)
  }

  /** Two entry lists with one tree id hold the same entries, unless two of the byte
      strings hashed on the way are different and share a digest. */
  lemma OidBindsEntries(hash: Hash, n: nat, a: seq<Entry>, b: seq<Entry>)
    requires FixedLength(hash, n)
    requires GitTreeOid(hash, a).Some? && GitTreeOid(hash, a) == GitTreeOid(hash, b)
    ensures (forall e :: e in a <==> e in b) || Collision(hash, TreeObjects(hash, a), TreeObjects(hash, b))
  {
    var x, y := Build(a).value, Build(b).value;
    BuiltNames(a);
    BuiltNames(b);
    TreeBinding(hash, n, x, y);
    if x == y {
      BuildExact(a);
      BuildExact(b);
      forall e ensures e in a <==> e in b {
        EntryFound(x, a, e);
        EntryFound(x, b, e);
      }
    }
  }

  lemma EntryFound(dir: Directory, entries: seq<Entry>, e: Entry)
    requires Describes(dir, entries)
    ensures e in entries <==> Lookup(dir, Split(e.path)) == Some(e.file)
  {
    if e in entries {
      assert Contains(entries, Split(e.path), e.file);
    }
    if Contains(entries, Split(e.path), e.file) {
      var i :| 0 <= i < |entries| && Split(entries[i].path) == Split(e.path) && entries[i].file == e.file;
      SamePath(entries[i].path, e.path);
      assert entries[i] == e;
    }
  }
}

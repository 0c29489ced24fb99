/** Git tree construction from a flat entry list (runner-git-tree.ts). */
module GitTree {
  import opened Wrappers
  import opened Unicode
  import opened GitPath

  /** A regular blob; executable is mode 100755, otherwise 100644. */
  datatype File = File(executable: bool, content: Bytes)

  datatype Directory = Directory(directories: map<Bytes, Directory>, files: map<Bytes, File>)

  datatype Entry = Entry(path: Bytes, file: File)

  const EMPTY := Directory(map[], map[])

  type Path = seq<Bytes>

  /** The walk of `insert`: every ancestor must be a directory or absent, the leaf no directory. */
  function Insert(dir: Directory, parts: Path, file: File): Option<Directory>
    requires parts != []
    decreases |parts|
  {
    var name := parts[0];
    if |parts| == 1 then
      if name in dir.directories then None
      else Some(dir.(files := dir.files[name := file]))
    else if name in dir.files then None
    else
      var next := if name in dir.directories then dir.directories[name] else EMPTY;
      var inner := Insert(next, parts[1..], file);
      if inner.None? then None
      else Some(dir.(directories := dir.directories[name := inner.value]))
  }

  /** The file at a path, if any. */
  function Lookup(dir: Directory, parts: Path): Option<File>
    decreases |parts|
  {
    if parts == [] then None
    else if |parts| == 1 then
      if parts[0] in dir.files then Some(dir.files[parts[0]]) else None
    else if parts[0] in dir.directories then Lookup(dir.directories[parts[0]], parts[1..])
    else None
  }

  /** Whether a path names a directory of the tree. */
  predicate DirectoryAt(dir: Directory, parts: Path)
    decreases |parts|
  {
    parts == [] || (parts[0] in dir.directories && DirectoryAt(dir.directories[parts[0]], parts[1..]))
  }

  // One insertion

  ghost predicate Free(dir: Directory, parts: Path) {
    && !DirectoryAt(dir, parts)
    && forall k :: 0 < k < |parts| ==> Lookup(dir, parts[..k]).None?
  }

  lemma FreeStep(dir: Directory, parts: Path)
    requires |parts| > 1
    ensures var next := if parts[0] in dir.directories then dir.directories[parts[0]] else EMPTY;
      Free(dir, parts) <==> parts[0] !in dir.files && Free(next, parts[1..])
  {
    var next := if parts[0] in dir.directories then dir.directories[parts[0]] else EMPTY;
    assert parts[..1] == [parts[0]];
    forall k | 1 < k < |parts|
      ensures parts[..k] == [parts[0]] + parts[1..][..k - 1]
      ensures Lookup(dir, parts[..k]).None? <==> Lookup(next, parts[1..][..k - 1]).None?
    {
      assert parts[..k][1..] == parts[1..][..k - 1];
    }
    if Free(dir, parts) {
      assert Lookup(dir, parts[..1]).None?;
      forall k | 0 < k < |parts[1..]| ensures Lookup(next, parts[1..][..k]).None? {
        assert Lookup(dir, parts[..k + 1]).None?;
      }
    }
    if parts[0] !in dir.files && Free(next, parts[1..]) {
      forall k | 0 < k < |parts| ensures Lookup(dir, parts[..k]).None? {
        if k > 1 { assert Lookup(next, parts[1..][..k - 1]).None?; }
      }
    }
  }

  /** Insertion fails exactly when a proper prefix is a file or the path is a directory. */
  lemma {:induction false} InsertSucceeds(dir: Directory, parts: Path, file: File)
    requires parts != []
    ensures Insert(dir, parts, file).Some? <==> Free(dir, parts)
    decreases |parts|
  {
    if |parts| == 1 {
      assert DirectoryAt(dir, parts) <==> parts[0] in dir.directories by { assert parts[1..] == []; }
    } else {
      var next := if parts[0] in dir.directories then dir.directories[parts[0]] else EMPTY;
      FreeStep(dir, parts);
      InsertSucceeds(next, parts[1..], file);
    }
  }

  ghost predicate ProperPrefix(q: Path, p: Path) { q <= p && |q| < |p| }

  /** What insertion changes: the file at the path, and directories for its proper prefixes. */
  lemma {:induction false} InsertEffect(dir: Directory, parts: Path, file: File, q: Path)
    requires parts != [] && Insert(dir, parts, file).Some?
    ensures var after := Insert(dir, parts, file).value;
      && Lookup(after, q) == (if q == parts then Some(file) else Lookup(dir, q))
      && (DirectoryAt(after, q) <==> DirectoryAt(dir, q) || ProperPrefix(q, parts))
    decreases |parts|
  {
    if q != [] && |parts| > 1 {
      var next := if parts[0] in dir.directories then dir.directories[parts[0]] else EMPTY;
      if q[0] == parts[0] {
        InsertEffect(next, parts[1..], file, q[1..]);
        assert q == [q[0]] + q[1..] && parts == [parts[0]] + parts[1..];
        assert q[1..] <= parts[1..] <==> q <= parts;
      }
    } else if q != [] {
      assert parts == [parts[0]] && q == [q[0]] + q[1..];
    }
  }

  // The whole list

  /** `gitTreeOid` before encoding: all entries inserted in list order. */
  function Build(entries: seq<Entry>): Option<Directory>
    decreases |entries|
  {
    if entries == [] then Some(EMPTY)
    else
      var last := entries[|entries| - 1];
      var before := Build(entries[..|entries| - 1]);
      if before.None? || (exists i :: 0 <= i < |entries| - 1 && entries[i].path == last.path) then None
      else Insert(before.value, Split(last.path), last.file)
  }

  /** Paths are pairwise distinct and none is a proper component prefix of another. */
  ghost predicate Compatible(entries: seq<Entry>) {
    forall i, j :: 0 <= i < |entries| && 0 <= j < |entries| && i != j ==>
      !(Split(entries[i].path) <= Split(entries[j].path))
  }

  ghost predicate Describes(dir: Directory, entries: seq<Entry>) {
    && (forall q, f :: Lookup(dir, q) == Some(f) <==> Contains(entries, q, f))
    && (forall q :: DirectoryAt(dir, q) <==> q == [] || Below(entries, q))
  }

  ghost predicate Contains(entries: seq<Entry>, q: Path, f: File) {
    exists i :: 0 <= i < |entries| && Split(entries[i].path) == q && entries[i].file == f
  }

  ghost predicate Below(entries: seq<Entry>, q: Path) {
    exists i :: 0 <= i < |entries| && ProperPrefix(q, Split(entries[i].path))
  }

  lemma SamePath(a: Bytes, b: Bytes)
    ensures Split(a) == Split(b) <==> a == b
  {
    JoinOfSplit(a);
    JoinOfSplit(b);
  }

  // The last entry joins a compatible list exactly when the tree has room for it.
  lemma LastFits(init: seq<Entry>, dir: Directory, last: Entry)
    requires Describes(dir, init)
    ensures Free(dir, Split(last.path)) && (forall i :: 0 <= i < |init| ==> init[i].path != last.path)
       <==> forall i :: 0 <= i < |init| ==>
              !(Split(init[i].path) <= Split(last.path)) && !(Split(last.path) <= Split(init[i].path))
  {
    var p := Split(last.path);
    forall i | 0 <= i < |init| ensures Split(init[i].path) == p <==> init[i].path == last.path {
      SamePath(init[i].path, last.path);
    }
    forall k | 0 < k < |p|
      ensures Lookup(dir, p[..k]).Some? <==> exists i :: 0 <= i < |init| && Split(init[i].path) == p[..k]
    {
      LookupSome(dir, init, p[..k]);
    }
    forall i | 0 <= i < |init| && Split(init[i].path) <= p && Split(init[i].path) != p
      ensures Split(init[i].path) == p[..|Split(init[i].path)|]
    {
    }
  }

  lemma LookupSome(dir: Directory, entries: seq<Entry>, q: Path)
    requires Describes(dir, entries)
    ensures Lookup(dir, q).Some? <==> exists i :: 0 <= i < |entries| && Split(entries[i].path) == q
  {
    forall i | 0 <= i < |entries| && Split(entries[i].path) == q ensures Lookup(dir, q).Some? {
      assert Contains(entries, q, entries[i].file);
    }
    if Lookup(dir, q).Some? {
      assert Contains(entries, q, Lookup(dir, q).value);
    }
  }

  /** Insertion accepts a list exactly when its paths are pairwise distinct and none
      is a component prefix of another; the tree then holds these files and no more. */
  lemma {:induction false} BuildExact(entries: seq<Entry>)
    ensures Build(entries).Some? <==> Compatible(entries)
    ensures Build(entries).Some? ==> Describes(Build(entries).value, entries)
    decreases |entries|
  {
    if entries == [] {
      EmptyDescribes();
    } else {
      var n := |entries| - 1;
      var init, last := entries[..n], entries[n];
      BuildExact(init);
      assert forall i :: 0 <= i < n ==> init[i] == entries[i];
      if Build(init).Some? {
        var dir := Build(init).value;
        LastFits(init, dir, last);
        InsertSucceeds(dir, Split(last.path), last.file);
        assert Compatible(entries) <==> Free(dir, Split(last.path)) && forall i :: 0 <= i < n ==> init[i].path != last.path;
        if Build(entries).Some? { LastDescribes(init, dir, last); assert init + [last] == entries; }
      }
    }
  }

  lemma EmptyDescribes()
    ensures Describes(EMPTY, [])
  {
  }

  lemma LastDescribes(init: seq<Entry>, dir: Directory, last: Entry)
    requires Describes(dir, init) && Insert(dir, Split(last.path), last.file).Some?
    requires forall i :: 0 <= i < |init| ==> init[i].path != last.path
    ensures Describes(Insert(dir, Split(last.path), last.file).value, init + [last])
  {
    var p, n, all := Split(last.path), |init|, init + [last];
    var after := Insert(dir, p, last.file).value;
    forall q, f ensures Lookup(after, q) == Some(f) <==> Contains(all, q, f) {
      InsertEffect(dir, p, last.file, q);
      assert Contains(all, q, f) <==> Contains(init, q, f) || (q == p && f == last.file) by {
        if Contains(init, q, f) {
          var i :| 0 <= i < n && Split(init[i].path) == q && init[i].file == f;
          assert all[i] == init[i];
        }
        assert all[n] == last;
      }
      if Contains(init, q, f) && q == p {
        var i :| 0 <= i < n && Split(init[i].path) == q && init[i].file == f;
        SamePath(init[i].path, last.path);
      }
    }
    forall q ensures DirectoryAt(after, q) <==> q == [] || Below(all, q) {
      InsertEffect(dir, p, last.file, q);
      assert Below(all, q) <==> Below(init, q) || ProperPrefix(q, p) by {
        if Below(init, q) {
          var i :| 0 <= i < n && ProperPrefix(q, Split(init[i].path));
          assert all[i] == init[i];
        }
        assert all[n] == last;
      }
    }
  }

  lemma TopDirectory(dir: Directory, n: Bytes)
    ensures DirectoryAt(dir, [n]) <==> n in dir.directories
  {
    var q: Path := [n];
    assert q[1..] == [];
  }

  // A tree is determined by its files and directories.
  lemma {:induction false} Extensional(a: Directory, b: Directory)
    requires forall q :: Lookup(a, q) == Lookup(b, q)
    requires forall q :: DirectoryAt(a, q) <==> DirectoryAt(b, q)
    ensures a == b
    decreases a
  {
    forall n ensures n in a.files <==> n in b.files
      ensures n in a.files ==> a.files[n] == b.files[n] {
      assert Lookup(a, [n]) == Lookup(b, [n]);
    }
    assert a.files == b.files;
    forall n ensures n in a.directories <==> n in b.directories {
      TopDirectory(a, n);
      TopDirectory(b, n);
    }
    forall n | n in a.directories ensures a.directories[n] == b.directories[n] {
      forall q ensures Lookup(a.directories[n], q) == Lookup(b.directories[n], q)
        ensures DirectoryAt(a.directories[n], q) <==> DirectoryAt(b.directories[n], q) {
        assert ([n] + q)[1..] == q;
        assert Lookup(a, [n] + q) == Lookup(b, [n] + q);
        assert DirectoryAt(a, [n] + q) <==> DirectoryAt(b, [n] + q);
      }
      Extensional(a.directories[n], b.directories[n]);
    }
    assert a.directories == b.directories;
  }

  /** The order of the entries does not matter: not for acceptance, not for the tree. */
  lemma OrderIndependent(a: seq<Entry>, b: seq<Entry>)
    requires multiset(a) == multiset(b)
    ensures Build(a) == Build(b)
  {
    BuildExact(a);
    BuildExact(b);
    CompatibleAsMultiset(a, b);
    CompatibleAsMultiset(b, a);
    if Compatible(a) {
      var x, y := Build(a).value, Build(b).value;
      assert forall e :: e in a <==> e in multiset(a);
      assert forall e :: e in b <==> e in multiset(b);
      forall q ensures DirectoryAt(x, q) <==> DirectoryAt(y, q) {
        BelowMoves(a, b, q);
        BelowMoves(b, a, q);
      }
      forall q ensures Lookup(x, q) == Lookup(y, q) {
        forall f ensures Lookup(x, q) == Some(f) <==> Lookup(y, q) == Some(f) {
          ContainsMoves(a, b, q, f);
          ContainsMoves(b, a, q, f);
        }
        if Lookup(x, q).Some? { assert Lookup(y, q) == Some(Lookup(x, q).value); }
      }
      Extensional(x, y);
    }
  }

  lemma ContainsMoves(a: seq<Entry>, b: seq<Entry>, q: Path, f: File)
    requires forall e :: e in a ==> e in b
    ensures Contains(a, q, f) ==> Contains(b, q, f)
  {
    if Contains(a, q, f) {
      var i :| 0 <= i < |a| && Split(a[i].path) == q && a[i].file == f;
      assert a[i] in b;
    }
  }

  lemma BelowMoves(a: seq<Entry>, b: seq<Entry>, q: Path)
    requires forall e :: e in a ==> e in b
    ensures Below(a, q) ==> Below(b, q)
  {
    if Below(a, q) {
      var i :| 0 <= i < |a| && ProperPrefix(q, Split(a[i].path));
      assert a[i] in b;
    }
  }

  lemma CompatibleAsMultiset(a: seq<Entry>, b: seq<Entry>)
    requires multiset(a) == multiset(b)
    ensures Compatible(a) ==> Compatible(b)
  {
    if Compatible(a) {
      forall i, j | 0 <= i < |b| && 0 <= j < |b| && i != j
        ensures !(Split(b[i].path) <= Split(b[j].path))
      {
        if b[i] == b[j] {
          Twice(b, i, j);
          var k, l := TwoPlaces(a, b[i]);
        } else {
          assert b[i] in multiset(b) && b[j] in multiset(b);
          assert b[i] in a && b[j] in a;
        }
      }
    }
  }

  lemma Twice(s: seq<Entry>, i: nat, j: nat)
    requires i < |s| && j < |s| && i != j && s[i] == s[j]
    ensures multiset(s)[s[i]] >= 2
  {
    var lo, hi := if i < j then i else j, if i < j then j else i;
    assert s == s[..hi] + [s[hi]] + s[hi + 1..];
    assert s[lo] in s[..hi];
  }

  lemma TwoPlaces(s: seq<Entry>, e: Entry) returns (k: nat, l: nat)
    requires multiset(s)[e] >= 2
    ensures k < l < |s| && s[k] == e && s[l] == e
  {
    assert e in multiset(s);
    k :| 0 <= k < |s| && s[k] == e;
    var rest := s[..k] + s[k + 1..];
    assert s == s[..k] + [e] + s[k + 1..];
    assert multiset(s) == multiset(rest) + multiset{e};
    assert e in multiset(rest);
    var m :| 0 <= m < |rest| && rest[m] == e;
    if m < k { k, l := m, k; } else { l := m + 1; }
  }
}

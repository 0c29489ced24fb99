/** The order in which `collectRegularTree` visits a tree (filesystem.ts). */
module TreeListing {
  import opened Wrappers
  import opened Unicode
  import opened GitPath
  import Order

  /** A tree by the names that the walk reads. Special is everything the walk refuses: symbolic
      links, devices, files with more than one link, and names that cannot be looked up. */
  datatype Node = Dir(children: map<Bytes, Node>) | File(executable: bool, contents: Bytes) | Special

  type Path = seq<Bytes>

  datatype Visit = Visit(path: Path, node: Node)

  predicate Skipped(name: Bytes) { name == GIT || name == NODE_MODULES }

  /** Git metadata and installed dependencies are passed over, and nothing else. */
  lemma SkippedSpelled(name: Bytes)
    ensures Skipped(name) <==> name == Ascii(".git") || name == Ascii("node_modules")
  {
    assert GIT == Ascii(".git") && NODE_MODULES == Ascii("node_modules");
  }

  /** The entries of a directory that are looked at, in `compareNames` order. */
  function Names(children: map<Bytes, Node>): (r: seq<Bytes>)
    ensures Order.Increasing(r)
    ensures forall n :: n in r <==> n in children && !Skipped(n)
  {
    var kept := set n | n in children && !Skipped(n);
    var sorted := Order.Sorted(kept);
    assert forall i :: 0 <= i < |sorted| ==> sorted[i] in kept;
    sorted
  }

  /** The order of the walk: a directory's own entries, then its directories, last name first. */
  function Listing(prefix: Path, dir: Node): seq<Visit>
    requires dir.Dir?
    decreases dir, 1
  {
    var names := Names(dir.children);
    Entries(prefix, dir.children, names) + Below(prefix, dir, names)
  }

  function Entries(prefix: Path, children: map<Bytes, Node>, names: seq<Bytes>): (r: seq<Visit>)
    requires forall n :: n in names ==> n in children
    ensures |r| == |names|
    ensures forall i :: 0 <= i < |r| ==> r[i] == Visit(prefix + [names[i]], children[names[i]])
  {
    seq(|names|, i requires 0 <= i < |names| => Visit(prefix + [names[i]], children[names[i]]))
  }

  function Below(prefix: Path, dir: Node, names: seq<Bytes>): seq<Visit>
    requires dir.Dir? && forall n :: n in names ==> n in dir.children
    decreases dir, 0, |names|
  {
    if names == [] then []
    else
      var last := names[|names| - 1];
      (if dir.children[last].Dir? then Listing(prefix + [last], dir.children[last]) else [])
        + Below(prefix, dir, names[..|names| - 1])
  }

  /** What a path of unskipped names reaches. */
  function At(node: Node, path: Path): Option<Node>
    decreases |path|
  {
    if path == [] then Some(node)
    else if node.Dir? && path[0] in node.children && !Skipped(path[0]) then At(node.children[path[0]], path[1..])
    else None
  }

  lemma AtChild(dir: Node, name: Bytes)
    requires dir.Dir?
    ensures At(dir, [name]) == if name in dir.children && !Skipped(name) then Some(dir.children[name]) else None
  {
    assert [name][1..] == [];
  }

  /** The walk visits exactly the entries that a path of unskipped names reaches. */
  lemma {:induction false} ListingHas(prefix: Path, dir: Node, v: Visit)
    requires dir.Dir?
    ensures v in Listing(prefix, dir) <==>
      prefix <= v.path && |prefix| < |v.path| && At(dir, v.path[|prefix|..]) == Some(v.node)
    decreases dir, 1
  {
    var names := Names(dir.children);
    BelowHas(prefix, dir, names, v);
    EntriesHas(prefix, dir, v);
    if prefix <= v.path && |prefix| < |v.path| && At(dir, v.path[|prefix|..]) == Some(v.node) {
      assert v.path[|prefix|] in names;
    }
  }

  lemma EntriesHas(prefix: Path, dir: Node, v: Visit)
    requires dir.Dir?
    ensures v in Entries(prefix, dir.children, Names(dir.children)) <==>
      prefix <= v.path && |v.path| == |prefix| + 1 && At(dir, v.path[|prefix|..]) == Some(v.node)
  {
    var names := Names(dir.children);
    var entries := Entries(prefix, dir.children, names);
    if v in entries {
      var i :| 0 <= i < |entries| && entries[i] == v;
      assert v.path[|prefix|..] == [names[i]];
      AtChild(dir, names[i]);
    }
    if prefix <= v.path && |v.path| == |prefix| + 1 && At(dir, v.path[|prefix|..]) == Some(v.node) {
      var name := v.path[|prefix|];
      assert v.path == prefix + [name] && v.path[|prefix|..] == [name];
      AtChild(dir, name);
      var i :| 0 <= i < |names| && names[i] == name;
      assert entries[i] == v;
    }
  }

  lemma {:induction false} BelowHas(prefix: Path, dir: Node, names: seq<Bytes>, v: Visit)
    requires dir.Dir? && forall n :: n in names ==> n in dir.children && !Skipped(n)
    ensures v in Below(prefix, dir, names) <==>
      prefix <= v.path && |prefix| + 1 < |v.path| && v.path[|prefix|] in names && At(dir, v.path[|prefix|..]) == Some(v.node)
    decreases dir, 0, |names|
  {
    if names != [] {
      var n := |names| - 1;
      var last := names[n];
      BelowHas(prefix, dir, names[..n], v);
      assert names == names[..n] + [last];
      if dir.children[last].Dir? {
        ListingHas(prefix + [last], dir.children[last], v);
      }
      if prefix <= v.path && |prefix| + 1 < |v.path| {
        assert v.path[|prefix|..][1..] == v.path[|prefix| + 1..];
        assert v.path[..|prefix| + 1] == prefix + [v.path[|prefix|]];
        if v.path[|prefix|] == last && !dir.children[last].Dir? {
          assert At(dir.children[last], v.path[|prefix| + 1..]).None?;
        }
      }
    }
  }
}

/** Digests of trees with any names: what the collected list says of them, and how a file with a
    backslash in its name gets a twin that no digest shows. */
module TreeTwins {
  import opened Wrappers
  import opened Unicode
  import opened GitPath
  import opened Spelling
  import opened TreeListing
  import opened TreeCollect
  import opened TreeEntries
  import opened TreeDigest
  import Order

  // What a list says

  predicate Shows(digest: Digest, v: Visit, e: (Bytes, Entry), total: nat) {
    && v.node.File? && Spelled(v.path) == e.0 && EntryOf(digest, v.node) == e.1
    && |v.node.contents| <= MAX_SOURCE_FILE_BYTES && |v.node.contents| <= total && Accepts(Spelled(v.path))
  }

  ghost predicate Shown(digest: Digest, visits: seq<Visit>, e: (Bytes, Entry), total: nat) {
    exists v :: v in visits && Shows(digest, v, e, total)
  }

  /** Every entry is that of a visited file under its key, and every visited file has its key. */
  ghost predicate Covers(digest: Digest, s: Collected, visits: seq<Visit>) {
    && DistinctKeys(s.entries)
    && (forall e :: e in s.entries ==> Shown(digest, visits, e, s.total))
    && forall v :: v in visits && v.node.File? ==> HasKey(s.entries, Spelled(v.path))
  }

  lemma StepCovers(digest: Digest, s: Collected, visits: seq<Visit>, v: Visit)
    requires Covers(digest, s, visits) && Step(digest, Some(s), v).Some?
    ensures Covers(digest, Step(digest, Some(s), v).value, visits + [v])
    ensures Step(digest, Some(s), v).value.total >= s.total
    ensures |Step(digest, Some(s), v).value.entries| >= |s.entries|
  {
    var after, all := Step(digest, Some(s), v).value, visits + [v];
    if v.node.File? {
      var key, entry := Spelled(v.path), EntryOf(digest, v.node);
      PutKeys(s.entries, key, entry);
      forall e | e in after.entries ensures Shown(digest, all, e, after.total) {
        PutHas(s.entries, key, entry, e);
        if e in s.entries {
          var u :| u in visits && Shows(digest, u, e, s.total);
          assert u in all && Shows(digest, u, e, after.total);
        } else {
          assert v in all && Shows(digest, v, e, after.total);
        }
      }
    } else {
      forall e | e in after.entries ensures Shown(digest, all, e, after.total) {
        var u :| u in visits && Shows(digest, u, e, s.total);
        assert u in all;
      }
    }
  }

  lemma {:induction false} FoldCovers(digest: Digest, s: Collected, before: seq<Visit>, visits: seq<Visit>)
    requires Covers(digest, s, before) && Fold(digest, Some(s), visits).Some?
    ensures Covers(digest, Fold(digest, Some(s), visits).value, before + visits)
    ensures Fold(digest, Some(s), visits).value.total >= s.total
    ensures |Fold(digest, Some(s), visits).value.entries| >= |s.entries|
    decreases |visits|
  {
    if visits == [] {
      assert before + visits == before;
    } else {
      var next := Step(digest, Some(s), visits[0]);
      if next.None? { FoldNone(digest, visits[1..]); }
      StepCovers(digest, s, before, visits[0]);
      FoldCovers(digest, next.value, before + [visits[0]], visits[1..]);
      assert before + [visits[0]] + visits[1..] == before + visits;
    }
  }

  /** Whatever the names: each collected entry is that of a file under its key, one entry a key,
      and every file of the walk has its key collected. */
  lemma CollectCovers(digest: Digest, root: Node)
    requires root.Dir? && Collect(digest, root).Some?
    ensures Covers(digest, Collect(digest, root).value, Listing([], root))
  {
    FoldCovers(digest, START.value, [], Listing([], root));
    assert [] + Listing([], root) == Listing([], root);
  }

  // A tree with one more file

  /** The tree with an entry added to the directory that a path reaches. */
  function Grafted(node: Node, dir: Path, name: Bytes, sub: Node): (r: Node)
    requires At(node, dir).Some? && At(node, dir).value.Dir?
    ensures r.Dir? && node.Dir?
    decreases |dir|
  {
    if dir == [] then Dir(node.children[name := sub])
    else Dir(node.children[dir[0] := Grafted(node.children[dir[0]], dir[1..], name, sub)])
  }

  lemma {:induction false} GraftedHas(node: Node, dir: Path, name: Bytes, sub: Node, rest: Path)
    requires At(node, dir).Some? && At(node, dir).value.Dir? && !Skipped(name)
    ensures At(Grafted(node, dir, name, sub), dir + [name] + rest) == At(sub, rest)
    ensures name !in At(node, dir).value.children ==> At(node, dir + [name] + rest) == None
    decreases |dir|
  {
    var path := dir + [name] + rest;
    if dir == [] {
      assert path == [name] + rest && path[1..] == rest;
    } else {
      assert path[1..] == dir[1..] + [name] + rest && path[0] == dir[0];
      GraftedHas(node.children[dir[0]], dir[1..], name, sub, rest);
    }
  }

  /** Visits that the walk treats alike: of one path, and both directories or the same node. */
  predicate Alike(a: seq<Visit>, b: seq<Visit>) {
    |a| == |b| && forall i :: 0 <= i < |a| ==>
      a[i].path == b[i].path && (a[i].node == b[i].node || (a[i].node.Dir? && b[i].node.Dir?))
  }

  lemma AlikeConcat(a: seq<Visit>, b: seq<Visit>, c: seq<Visit>, d: seq<Visit>)
    requires Alike(a, b) && Alike(c, d)
    ensures Alike(a + c, b + d)
  {
  }

  lemma {:induction false} BelowConcat(prefix: Path, dir: Node, a: seq<Bytes>, b: seq<Bytes>)
    requires dir.Dir? && (forall n :: n in a ==> n in dir.children) && forall n :: n in b ==> n in dir.children
    ensures Below(prefix, dir, a + b) == Below(prefix, dir, b) + Below(prefix, dir, a)
    decreases |b|
  {
    if b == [] {
      assert a + b == a && [] + Below(prefix, dir, a) == Below(prefix, dir, a);
    } else {
      var n := |b| - 1;
      BelowConcat(prefix, dir, a, b[..n]);
      assert (a + b)[..|a + b| - 1] == a + b[..n] && (a + b)[|a + b| - 1] == b[n];
      var block := if dir.children[b[n]].Dir? then Listing(prefix + [b[n]], dir.children[b[n]]) else [];
      Regroup(block, Below(prefix, dir, b[..n]), Below(prefix, dir, a));
    }
  }

  /** Only the directories among the names matter. */
  lemma {:induction false} BelowFrame(prefix: Path, a: Node, b: Node, names: seq<Bytes>)
    requires a.Dir? && b.Dir? && forall n :: n in names ==> n in a.children && n in b.children && a.children[n] == b.children[n]
    ensures Below(prefix, a, names) == Below(prefix, b, names)
    decreases |names|
  {
    if names != [] { BelowFrame(prefix, a, b, names[..|names| - 1]); }
  }

  lemma BelowOne(prefix: Path, dir: Node, name: Bytes)
    requires dir.Dir? && name in dir.children && dir.children[name].Dir?
    ensures Below(prefix, dir, [name]) == Listing(prefix + [name], dir.children[name])
  {
    assert [name][..0] == [];
    assert Below(prefix, dir, []) == [];
    assert Listing(prefix + [name], dir.children[name]) + [] == Listing(prefix + [name], dir.children[name]);
  }

  lemma EntriesConcat(prefix: Path, children: map<Bytes, Node>, a: seq<Bytes>, b: seq<Bytes>)
    requires (forall n :: n in a ==> n in children) && forall n :: n in b ==> n in children
    ensures TreeListing.Entries(prefix, children, a + b) ==
      TreeListing.Entries(prefix, children, a) + TreeListing.Entries(prefix, children, b)
  {
  }

  lemma NamesGrow(children: map<Bytes, Node>, name: Bytes, sub: Node) returns (k: nat)
    requires name !in children && !Skipped(name)
    ensures k <= |Names(children)|
    ensures Names(children[name := sub]) == Names(children)[..k] + [name] + Names(children)[k..]
  {
    k := Order.Inserted(Names(children), name);
    Order.IncreasingUnique(Names(children[name := sub]), Names(children)[..k] + [name] + Names(children)[k..]);
  }

  lemma ListingOne(prefix: Path, name: Bytes, file: Node)
    requires file.File? && !Skipped(name)
    ensures Listing(prefix, Dir(map[name := file])) == [Visit(prefix + [name], file)]
  {
    var dir := Dir(map[name := file]);
    Order.IncreasingUnique(Names(dir.children), [name]);
    assert [name][..0] == [];
    assert Below(prefix, dir, []) == [];
    assert Below(prefix, dir, [name]) == [] + Below(prefix, dir, []);
  }

  /** The walk before and after a graft: the new directory and its file are visited somewhere
      between visits that are otherwise alike, the file after everything that stood beside the
      directory. */
  datatype Cut = Cut(a1: seq<Visit>, a2: seq<Visit>, a3: seq<Visit>, b1: seq<Visit>, b2: seq<Visit>, b3: seq<Visit>)

  ghost predicate CutOk(c: Cut, before: seq<Visit>, after: seq<Visit>, added: Visit, file: Visit) {
    && before == c.a1 + c.a2 + c.a3 && after == c.b1 + [added] + c.b2 + [file] + c.b3
    && Alike(c.a1, c.b1) && Alike(c.a2, c.b2) && Alike(c.a3, c.b3)
  }

  /** The walk of a directory, around one of its subdirectories. */
  lemma ListingAround(prefix: Path, node: Node, lo: seq<Bytes>, d: Bytes, hi: seq<Bytes>)
    requires node.Dir? && Names(node.children) == lo + [d] + hi && d in node.children && node.children[d].Dir?
    requires (forall n :: n in lo ==> n in node.children) && forall n :: n in hi ==> n in node.children
    ensures Listing(prefix, node) ==
      TreeListing.Entries(prefix, node.children, Names(node.children)) + Below(prefix, node, hi)
        + Listing(prefix + [d], node.children[d]) + Below(prefix, node, lo)
  {
    BelowConcat(prefix, node, lo + [d], hi);
    BelowConcat(prefix, node, lo, [d]);
    BelowOne(prefix, node, d);
    Four(TreeListing.Entries(prefix, node.children, Names(node.children)), Below(prefix, node, hi),
         Listing(prefix + [d], node.children[d]), Below(prefix, node, lo));
  }

  lemma Four<T>(a: seq<T>, b: seq<T>, c: seq<T>, d: seq<T>)
    ensures a + (b + (c + d)) == a + b + c + d
  {
  }

  lemma CutBefore(prefix: Path, node: Node, lo: seq<Bytes>, hi: seq<Bytes>)
    requires node.Dir? && Names(node.children) == lo + hi
    requires (forall n :: n in lo ==> n in node.children) && forall n :: n in hi ==> n in node.children
    ensures Listing(prefix, node) ==
      TreeListing.Entries(prefix, node.children, lo)
        + (TreeListing.Entries(prefix, node.children, hi) + Below(prefix, node, hi)) + Below(prefix, node, lo)
  {
    EntriesConcat(prefix, node.children, lo, hi);
    BelowConcat(prefix, node, lo, hi);
    Pairs(TreeListing.Entries(prefix, node.children, lo), TreeListing.Entries(prefix, node.children, hi),
          Below(prefix, node, hi), Below(prefix, node, lo));
  }

  lemma Pairs<T>(a: seq<T>, b: seq<T>, c: seq<T>, d: seq<T>)
    ensures a + b + (c + d) == a + (b + c) + d
  {
  }

  lemma EntriesGrown(prefix: Path, children: map<Bytes, Node>, lo: seq<Bytes>, x: Bytes, sub: Node, hi: seq<Bytes>)
    requires x !in children && (forall n :: n in lo ==> n in children) && forall n :: n in hi ==> n in children
    ensures TreeListing.Entries(prefix, children[x := sub], lo + [x] + hi) ==
      TreeListing.Entries(prefix, children, lo) + [Visit(prefix + [x], sub)] + TreeListing.Entries(prefix, children, hi)
  {
  }

  lemma CutAfter(prefix: Path, node: Node, grown: Node, lo: seq<Bytes>, hi: seq<Bytes>, x: Bytes, y: Bytes, file: Node)
    requires node.Dir? && x !in node.children && !Skipped(y) && file.File?
    requires grown == Dir(node.children[x := Dir(map[y := file])]) && Names(grown.children) == lo + [x] + hi
    requires (forall n :: n in lo ==> n in node.children) && forall n :: n in hi ==> n in node.children
    ensures Listing(prefix, grown) ==
      TreeListing.Entries(prefix, node.children, lo) + [Visit(prefix + [x], Dir(map[y := file]))]
        + (TreeListing.Entries(prefix, node.children, hi) + Below(prefix, node, hi))
        + [Visit(prefix + [x, y], file)] + Below(prefix, node, lo)
  {
    GrownListing(prefix, node, grown, lo, hi, x, y, file);
    BelowFrame(prefix, grown, node, lo);
    BelowFrame(prefix, grown, node, hi);
    Five(TreeListing.Entries(prefix, node.children, lo), [Visit(prefix + [x], Dir(map[y := file]))],
         TreeListing.Entries(prefix, node.children, hi), Below(prefix, node, hi), [Visit(prefix + [x, y], file)],
         Below(prefix, node, lo));
  }

  lemma GrownListing(prefix: Path, node: Node, grown: Node, lo: seq<Bytes>, hi: seq<Bytes>, x: Bytes, y: Bytes, file: Node)
    requires node.Dir? && x !in node.children && !Skipped(y) && file.File?
    requires grown == Dir(node.children[x := Dir(map[y := file])]) && Names(grown.children) == lo + [x] + hi
    requires (forall n :: n in lo ==> n in node.children) && forall n :: n in hi ==> n in node.children
    ensures Listing(prefix, grown) ==
      (TreeListing.Entries(prefix, node.children, lo) + [Visit(prefix + [x], Dir(map[y := file]))]
        + TreeListing.Entries(prefix, node.children, hi))
      + Below(prefix, grown, hi) + [Visit(prefix + [x, y], file)] + Below(prefix, grown, lo)
  {
    ListingAround(prefix, grown, lo, x, hi);
    EntriesGrown(prefix, node.children, lo, x, Dir(map[y := file]), hi);
    ListingOne(prefix + [x], y, file);
    assert prefix + [x] + [y] == prefix + [x, y];
  }

  lemma Five<T>(a: seq<T>, b: seq<T>, c: seq<T>, d: seq<T>, e: seq<T>, f: seq<T>)
    ensures a + b + c + d + e + f == a + b + (c + d) + e + f
  {
  }

  lemma CutHere(prefix: Path, node: Node, x: Bytes, y: Bytes, file: Node) returns (c: Cut)
    requires node.Dir? && x !in node.children && !Skipped(x) && !Skipped(y) && file.File?
    ensures CutOk(c, Listing(prefix, node), Listing(prefix, Dir(node.children[x := Dir(map[y := file])])),
                  Visit(prefix + [x], Dir(map[y := file])), Visit(prefix + [x, y], file))
    ensures forall n :: n in Names(node.children) ==> Visit(prefix + [n], node.children[n]) in c.a1 + c.a2
  {
    var grown := Dir(node.children[x := Dir(map[y := file])]);
    var k := NamesGrow(node.children, x, Dir(map[y := file]));
    var names := Names(node.children);
    var lo, hi := names[..k], names[k..];
    assert names == lo + hi;
    var e1, e2 := TreeListing.Entries(prefix, node.children, lo), TreeListing.Entries(prefix, node.children, hi);
    var d1, d2 := Below(prefix, node, lo), Below(prefix, node, hi);
    c := Cut(e1, e2 + d2, d1, e1, e2 + d2, d1);
    CutBefore(prefix, node, lo, hi);
    CutAfter(prefix, node, grown, lo, hi, x, y, file);
    forall n | n in names ensures Visit(prefix + [n], node.children[n]) in c.a1 + c.a2 {
      VisitBeside(prefix, node.children, lo, hi, d2, n);
    }
  }

  lemma VisitBeside(prefix: Path, children: map<Bytes, Node>, lo: seq<Bytes>, hi: seq<Bytes>, rest: seq<Visit>, n: Bytes)
    requires (forall n :: n in lo ==> n in children) && (forall n :: n in hi ==> n in children) && n in lo + hi
    ensures Visit(prefix + [n], children[n]) in
      TreeListing.Entries(prefix, children, lo) + (TreeListing.Entries(prefix, children, hi) + rest)
  {
    if n in lo {
      var i :| 0 <= i < |lo| && lo[i] == n;
      assert TreeListing.Entries(prefix, children, lo)[i] == Visit(prefix + [n], children[n]);
    } else {
      var i :| 0 <= i < |hi| && hi[i] == n;
      assert TreeListing.Entries(prefix, children, hi)[i] == Visit(prefix + [n], children[n]);
    }
  }

  lemma {:induction false} CutGrafted(prefix: Path, node: Node, dir: Path, x: Bytes, y: Bytes, file: Node) returns (c: Cut)
    requires node.Dir? && At(node, dir).Some? && At(node, dir).value.Dir? && x !in At(node, dir).value.children
    requires !Skipped(x) && !Skipped(y) && file.File?
    ensures CutOk(c, Listing(prefix, node), Listing(prefix, Grafted(node, dir, x, Dir(map[y := file]))),
                  Visit(prefix + dir + [x], Dir(map[y := file])), Visit(prefix + dir + [x, y], file))
    ensures
      var children := At(node, dir).value.children;
      forall n :: n in Names(children) ==> Visit(prefix + dir + [n], children[n]) in c.a1 + c.a2
    decreases |dir|
  {
    if dir == [] {
      assert prefix + dir == prefix;
      c := CutHere(prefix, node, x, y, file);
    } else {
      var d, child := dir[0], node.children[dir[0]];
      assert prefix + [d] + dir[1..] == prefix + dir;
      var inner := CutGrafted(prefix + [d], child, dir[1..], x, y, file);
      c := CutUp(prefix, node, d, Grafted(child, dir[1..], x, Dir(map[y := file])), inner,
                 Visit(prefix + dir + [x], Dir(map[y := file])), Visit(prefix + dir + [x, y], file));
    }
  }

  lemma Around<T>(e: seq<T>, below: seq<T>, p: seq<T>, q: seq<T>, r: seq<T>, above: seq<T>)
    ensures e + below + (p + q + r) + above == (e + below + p) + q + (r + above)
  {
  }

  lemma AroundAdded(e: seq<Visit>, below: seq<Visit>, p: seq<Visit>, u: Visit, q: seq<Visit>, v: Visit, r: seq<Visit>, above: seq<Visit>)
    ensures e + below + (p + [u] + q + [v] + r) + above == (e + below + p) + [u] + q + [v] + (r + above)
  {
  }

  lemma SplitAround(names: seq<Bytes>, d: Bytes) returns (lo: seq<Bytes>, hi: seq<Bytes>)
    requires Order.Increasing(names) && d in names
    ensures names == lo + [d] + hi && d !in lo && d !in hi
  {
    var k :| 0 <= k < |names| && names[k] == d;
    lo, hi := names[..k], names[k + 1..];
    Order.LessIrreflexive(d);
  }

  // One directory further up.
  lemma CutUp(prefix: Path, node: Node, d: Bytes, child: Node, inner: Cut, added: Visit, file: Visit) returns (c: Cut)
    requires node.Dir? && d in node.children && node.children[d].Dir? && child.Dir? && !Skipped(d)
    requires CutOk(inner, Listing(prefix + [d], node.children[d]), Listing(prefix + [d], child), added, file)
    ensures CutOk(c, Listing(prefix, node), Listing(prefix, Dir(node.children[d := child])), added, file)
    ensures forall v :: v in inner.a1 + inner.a2 ==> v in c.a1 + c.a2
  {
    var grown := Dir(node.children[d := child]);
    var names := Names(node.children);
    Order.IncreasingUnique(Names(grown.children), names);
    var lo, hi := SplitAround(names, d);
    assert forall n :: n in lo || n in hi ==> n in names;
    var e, f := TreeListing.Entries(prefix, node.children, names), TreeListing.Entries(prefix, grown.children, names);
    var below, above := Below(prefix, node, hi), Below(prefix, node, lo);
    EntriesAlike(prefix, node.children, grown.children, names);
    c := Cut(e + below + inner.a1, inner.a2, inner.a3 + above, f + below + inner.b1, inner.b2, inner.b3 + above);
    ListingAround(prefix, node, lo, d, hi);
    ListingAround(prefix, grown, lo, d, hi);
    BelowFrame(prefix, grown, node, lo);
    BelowFrame(prefix, grown, node, hi);
    Around(e, below, inner.a1, inner.a2, inner.a3, above);
    AroundAdded(f, below, inner.b1, added, inner.b2, file, inner.b3, above);
    CutAlike(c, inner, e, f, below, above);
  }

  lemma EntriesAlike(prefix: Path, a: map<Bytes, Node>, b: map<Bytes, Node>, names: seq<Bytes>)
    requires forall n :: n in names ==> n in a && n in b && (a[n] == b[n] || (a[n].Dir? && b[n].Dir?))
    ensures Alike(TreeListing.Entries(prefix, a, names), TreeListing.Entries(prefix, b, names))
  {
  }

  lemma CutAlike(c: Cut, inner: Cut, e: seq<Visit>, f: seq<Visit>, below: seq<Visit>, above: seq<Visit>)
    requires c == Cut(e + below + inner.a1, inner.a2, inner.a3 + above, f + below + inner.b1, inner.b2, inner.b3 + above)
    requires Alike(e, f) && Alike(inner.a1, inner.b1) && Alike(inner.a3, inner.b3)
    ensures Alike(c.a1, c.b1) && Alike(c.a3, c.b3)
    ensures forall v :: v in inner.a1 + inner.a2 ==> v in c.a1 + c.a2
  {
    AlikeConcat(e, f, below, below);
    AlikeConcat(e + below, f + below, inner.a1, inner.b1);
    AlikeConcat(inner.a3, inner.b3, above, above);
  }

  // Collecting it

  lemma StepAlike(digest: Digest, s: Option<Collected>, u: Visit, v: Visit)
    requires Alike([u], [v])
    ensures Step(digest, s, u) == Step(digest, s, v)
  {
    assert [u][0] == u && [v][0] == v;
  }

  lemma {:induction false} FoldAlike(digest: Digest, s: Option<Collected>, a: seq<Visit>, b: seq<Visit>)
    requires Alike(a, b)
    ensures Fold(digest, s, a) == Fold(digest, s, b)
    decreases |a|
  {
    if a != [] {
      StepAlike(digest, s, a[0], b[0]);
      FoldAlike(digest, Step(digest, s, a[0]), a[1..], b[1..]);
    }
  }

  lemma StepShift(digest: Digest, s: Collected, more: nat, v: Visit, next: Collected)
    requires Step(digest, Some(s), v) == Some(next) && next.total + more <= MAX_SOURCE_BYTES
    ensures Step(digest, Some(s.(total := s.total + more)), v) == Some(next.(total := next.total + more))
  {
  }

  lemma {:induction false} FoldGrows(digest: Digest, s: Collected, visits: seq<Visit>)
    requires Fold(digest, Some(s), visits).Some?
    ensures s.total <= Fold(digest, Some(s), visits).value.total
    decreases |visits|
  {
    if visits != [] {
      var next := Step(digest, Some(s), visits[0]);
      if next.None? { FoldNone(digest, visits[1..]); }
      FoldGrows(digest, next.value, visits[1..]);
    }
  }

  /** With more bytes counted already, the same entries are collected, while the total allows. */
  lemma {:induction false} FoldShift(digest: Digest, s: Collected, more: nat, visits: seq<Visit>)
    requires Fold(digest, Some(s), visits).Some?
    requires Fold(digest, Some(s), visits).value.total + more <= MAX_SOURCE_BYTES
    ensures
      var end := Fold(digest, Some(s), visits).value;
      Fold(digest, Some(s.(total := s.total + more)), visits) == Some(end.(total := end.total + more))
    decreases |visits|
  {
    if visits != [] {
      var next := Step(digest, Some(s), visits[0]);
      if next.None? { FoldNone(digest, visits[1..]); }
      FoldGrows(digest, next.value, visits[1..]);
      StepShift(digest, s, more, visits[0], next.value);
      FoldShift(digest, next.value, more, visits[1..]);
    }
  }

  lemma AcceptsBefore(a: Bytes, b: Bytes)
    requires Accepts(a + ([SLASH] + b))
    ensures Accepts(a)
  {
    SplitConcat(a, b);
    DecodesBefore(a, b);
    forall i | 0 <= i < |Split(a)| ensures Split(a)[i] !in {[], [DOT], [DOT, DOT]} && 0 !in Split(a)[i] {
      assert Split(a + ([SLASH] + b))[i] == Split(a)[i];
    }
  }

  // The twin

  /** There is room for one more copy of the file. */
  predicate Room(all: Collected, file: Node)
    requires file.File?
  {
    |all.entries| < MAX_SOURCE_ENTRIES && all.total + |file.contents| <= MAX_SOURCE_BYTES
  }

  /** The name that joins two names by a backslash. */
  function Escaped(x: Bytes, y: Bytes): Bytes { x + ([BACKSLASH_BYTE] + y) }

  /** The file `x\y` of one directory, in which the name x is free, and no other file with its key. */
  ghost predicate Twinnable(root: Node, dir: Path, x: Bytes, y: Bytes) {
    && root.Dir? && At(root, dir).Some? && At(root, dir).value.Dir?
    && var children, name := At(root, dir).value.children, Escaped(x, y);
    && name in children && children[name].File? && x !in children && !Skipped(x) && !Skipped(y)
    && forall v :: v in Listing([], root) && v.node.File? && Spelled(v.path) == Spelled(dir + [name]) ==> v.path == dir + [name]
  }

  /** A directory and a file below it are accepted, and the list already holds the file's entry. */
  ghost predicate Revisits(digest: Digest, s: Collected, added: Visit, file: Visit) {
    && added.node.Dir? && Accepts(Spelled(added.path)) && file.node.File? && Accepts(Spelled(file.path))
    && DistinctKeys(s.entries) && (Spelled(file.path), EntryOf(digest, file.node)) in s.entries
    && |file.node.contents| <= MAX_SOURCE_FILE_BYTES
  }

  lemma NotSkipped(x: Bytes, y: Bytes)
    ensures !Skipped(Escaped(x, y))
  {
    var name := Escaped(x, y);
    assert name[|x|] == BACKSLASH_BYTE;
    assert BACKSLASH_BYTE in name && BACKSLASH_BYTE !in GIT && BACKSLASH_BYTE !in NODE_MODULES;
  }

  /** When the twin is reached, its entry is already there. */
  lemma TwinKnown(digest: Digest, root: Node, dir: Path, x: Bytes, y: Bytes, c: Cut, s: Collected, added: Visit, file: Visit)
    requires Twinnable(root, dir, x, y) && c.a1 + c.a2 + c.a3 == Listing([], root)
    requires Fold(digest, START, c.a1 + c.a2) == Some(s)
    requires file == Visit(dir + [x, y], At(root, dir).value.children[Escaped(x, y)])
    requires added.path == dir + [x] && added.node.Dir? && Visit(dir + [Escaped(x, y)], file.node) in c.a1 + c.a2
    ensures Revisits(digest, s, added, file)
  {
    var name := Escaped(x, y);
    var u, visits := Visit(dir + [name], At(root, dir).value.children[name]), c.a1 + c.a2;
    FoldCovers(digest, START.value, [], visits);
    assert [] + visits == visits;
    forall v | v in visits && v.node.File? && Spelled(v.path) == Spelled(u.path) ensures v.node == u.node {
      assert v in Listing([], root) && u in Listing([], root);
      SameVisit(root, u, v);
    }
    EntryKnown(digest, s, visits, u);
    TwinSpelled(dir, x, y);
    AcceptsBefore(Spelled(dir + [x]), Replaced(y));
  }

  lemma SameVisit(root: Node, u: Visit, v: Visit)
    requires root.Dir? && u in Listing([], root) && v in Listing([], root) && u.path == v.path
    ensures u == v
  {
    ListingHas([], root, u);
    ListingHas([], root, v);
  }

  lemma EntryKnown(digest: Digest, s: Collected, visits: seq<Visit>, u: Visit)
    requires Covers(digest, s, visits) && u in visits && u.node.File?
    requires forall v :: v in visits && v.node.File? && Spelled(v.path) == Spelled(u.path) ==> v.node == u.node
    ensures (Spelled(u.path), EntryOf(digest, u.node)) in s.entries
    ensures |u.node.contents| <= MAX_SOURCE_FILE_BYTES && Accepts(Spelled(u.path))
  {
    var i :| 0 <= i < |s.entries| && s.entries[i].0 == Spelled(u.path);
    assert s.entries[i] in s.entries;
    var v :| v in visits && Shows(digest, v, s.entries[i], s.total);
    assert s.entries[i] == (Spelled(u.path), EntryOf(digest, u.node));
  }

  lemma TwinFoldsBack(digest: Digest, before: seq<Visit>, rest: seq<Visit>, s: Collected, end: Collected, more: nat)
    requires Fold(digest, START, before) == Some(s) && Fold(digest, Some(s), rest) == Some(end)
    requires end.total + more <= MAX_SOURCE_BYTES
    ensures Fold(digest, Some(s.(total := s.total + more)), rest) == Some(end.(total := end.total + more))
    ensures |s.entries| <= |end.entries| && s.total <= end.total
  {
    StartCovers(digest);
    FoldCovers(digest, START.value, [], before);
    FoldCovers(digest, s, [] + before, rest);
    FoldShift(digest, s, more, rest);
  }

  lemma TwinFoldsEnd(digest: Digest, before: seq<Visit>, front: seq<Visit>, file: Visit, a3: seq<Visit>, b3: seq<Visit>,
                     s: Collected, end: Collected, more: nat)
    requires Alike(a3, b3) && Fold(digest, START, before) == Some(s) && Fold(digest, START, front) == Some(s)
    requires Fold(digest, Some(s), a3) == Some(end) && end.total + more <= MAX_SOURCE_BYTES
    requires Step(digest, Some(s), file) == Some(s.(total := s.total + more))
    ensures Fold(digest, START, front + [file] + b3) == Some(end.(total := end.total + more))
  {
    TwinFoldsBack(digest, before, a3, s, end, more);
    FoldAlike(digest, Some(s.(total := s.total + more)), a3, b3);
    Joined(digest, front, file, b3, s, s.(total := s.total + more), end.(total := end.total + more));
  }

  lemma TwinFolds(digest: Digest, c: Cut, added: Visit, file: Visit, s: Collected, end: Collected)
    requires Alike(c.a1, c.b1) && Alike(c.a2, c.b2) && Alike(c.a3, c.b3)
    requires Fold(digest, START, c.a1 + c.a2) == Some(s) && Fold(digest, Some(s), c.a3) == Some(end)
    requires added.node.Dir? && Accepts(Spelled(added.path)) && file.node.File?
    requires end.total + |file.node.contents| <= MAX_SOURCE_BYTES
    requires Step(digest, Some(s), file) == Some(s.(total := s.total + |file.node.contents|))
    ensures Fold(digest, START, c.b1 + [added] + c.b2 + [file] + c.b3)
      == Some(end.(total := end.total + |file.node.contents|))
  {
    TwinFoldsFront(digest, c, added, s);
    TwinFoldsEnd(digest, c.a1 + c.a2, c.b1 + [added] + c.b2, file, c.a3, c.b3, s, end, |file.node.contents|);
  }

  lemma Joined(digest: Digest, front: seq<Visit>, v: Visit, back: seq<Visit>, s: Collected, t: Collected, end: Collected)
    requires Fold(digest, START, front) == Some(s) && Step(digest, Some(s), v) == Some(t) && Fold(digest, Some(t), back) == Some(end)
    ensures Fold(digest, START, front + [v] + back) == Some(end)
  {
    FoldOne(digest, START, front, v);
    FoldConcat(digest, START, front + [v], back);
  }

  lemma StartCovers(digest: Digest)
    ensures Covers(digest, START.value, [])
  {
  }

  lemma TwinStep(digest: Digest, s: Collected, file: Visit)
    requires file.node.File? && Accepts(Spelled(file.path)) && |file.node.contents| <= MAX_SOURCE_FILE_BYTES
    requires DistinctKeys(s.entries) && (Spelled(file.path), EntryOf(digest, file.node)) in s.entries
    requires |s.entries| < MAX_SOURCE_ENTRIES && s.total + |file.node.contents| <= MAX_SOURCE_BYTES
    ensures Step(digest, Some(s), file) == Some(s.(total := s.total + |file.node.contents|))
  {
    PutSame(s.entries, Spelled(file.path), EntryOf(digest, file.node));
  }

  lemma TwinFoldsFront(digest: Digest, c: Cut, added: Visit, s: Collected)
    requires Alike(c.a1, c.b1) && Alike(c.a2, c.b2) && Fold(digest, START, c.a1 + c.a2) == Some(s)
    requires added.node.Dir? && Accepts(Spelled(added.path))
    ensures Fold(digest, START, c.b1 + [added] + c.b2) == Some(s)
  {
    FoldConcat(digest, START, c.a1, c.a2);
    FoldAlike(digest, START, c.a1, c.b1);
    var s1 := Fold(digest, START, c.a1);
    if s1.None? { FoldNone(digest, c.a2); }
    FoldAlike(digest, s1, c.a2, c.b2);
    assert Step(digest, s1, added) == s1;
    FoldOne(digest, START, c.b1, added);
    FoldConcat(digest, START, c.b1 + [added], c.b2);
  }

  lemma CollectedFront(digest: Digest, root: Node, c: Cut) returns (s: Collected)
    requires root.Dir? && Collect(digest, root).Some? && c.a1 + c.a2 + c.a3 == Listing([], root)
    ensures Fold(digest, START, c.a1 + c.a2) == Some(s) && Fold(digest, Some(s), c.a3) == Collect(digest, root)
  {
    FoldConcat(digest, START, c.a1 + c.a2, c.a3);
    var front := Fold(digest, START, c.a1 + c.a2);
    if front.None? { FoldNone(digest, c.a3); }
    s := front.value;
  }

  /** An entry that the list already holds is visited once more: nothing is added to the list. */
  lemma VisitedAgain(digest: Digest, root: Node, c: Cut, added: Visit, file: Visit, s: Collected)
    requires root.Dir? && Collect(digest, root).Some? && file.node.File? && Room(Collect(digest, root).value, file.node)
    requires Fold(digest, START, c.a1 + c.a2) == Some(s) && Fold(digest, Some(s), c.a3) == Collect(digest, root)
    requires Revisits(digest, s, added, file)
    requires Alike(c.a1, c.b1) && Alike(c.a2, c.b2) && Alike(c.a3, c.b3)
    ensures
      var all := Collect(digest, root).value;
      Fold(digest, START, c.b1 + [added] + c.b2 + [file] + c.b3) == Some(all.(total := all.total + |file.node.contents|))
  {
    TwinFoldsBack(digest, c.a1 + c.a2, c.a3, s, Collect(digest, root).value, |file.node.contents|);
    TwinStep(digest, s, file);
    TwinFolds(digest, c, added, file, s, Collect(digest, root).value);
  }

  lemma TwinCollected(digest: Digest, root: Node, dir: Path, x: Bytes, y: Bytes, c: Cut, added: Visit, file: Visit)
    requires Twinnable(root, dir, x, y) && file == Visit(dir + [x, y], At(root, dir).value.children[Escaped(x, y)])
    requires added.path == dir + [x] && added.node.Dir? && Visit(dir + [Escaped(x, y)], file.node) in c.a1 + c.a2
    requires Collect(digest, root).Some? && Room(Collect(digest, root).value, file.node)
    requires c.a1 + c.a2 + c.a3 == Listing([], root)
    requires Alike(c.a1, c.b1) && Alike(c.a2, c.b2) && Alike(c.a3, c.b3)
    ensures
      var all := Collect(digest, root).value;
      Fold(digest, START, c.b1 + [added] + c.b2 + [file] + c.b3) == Some(all.(total := all.total + |file.node.contents|))
  {
    var s := CollectedFront(digest, root, c);
    TwinKnown(digest, root, dir, x, y, c, s, added, file);
    VisitedAgain(digest, root, c, added, file, s);
  }

  lemma TwinThere(root: Node, dir: Path, x: Bytes, y: Bytes, file: Node)
    requires At(root, dir).Some? && At(root, dir).value.Dir? && x !in At(root, dir).value.children && !Skipped(x) && !Skipped(y)
    ensures At(root, dir + [x, y]) == None && At(Grafted(root, dir, x, Dir(map[y := file])), dir + [x, y]) == Some(file)
  {
    GraftedHas(root, dir, x, Dir(map[y := file]), [y]);
    assert dir + [x] + [y] == dir + [x, y];
    AtChild(Dir(map[y := file]), y);
  }

  /** A tree that holds a file with a backslash in its name, whose slash twin is free, has the
      same collected list, and so the same digest, as the tree with a second copy of the file
      there: the digest shows one file where there are two. */
  lemma TwinUnseen(digest: Digest, root: Node, dir: Path, x: Bytes, y: Bytes, file: Node)
    requires Twinnable(root, dir, x, y) && file == At(root, dir).value.children[Escaped(x, y)]
    requires Collect(digest, root).Some? && Room(Collect(digest, root).value, file)
    ensures
      var twinned := Grafted(root, dir, x, Dir(map[y := file]));
      && Collect(digest, twinned).Some? && Collect(digest, twinned).value.entries == Collect(digest, root).value.entries
      && At(root, dir + [x, y]) == None && At(twinned, dir + [x, y]) == Some(file)
  {
    assert [] + dir == dir;
    var c := CutGrafted([], root, dir, x, y, file);
    NotSkipped(x, y);
    assert Escaped(x, y) in Names(At(root, dir).value.children);
    TwinCollected(digest, root, dir, x, y, c, Visit(dir + [x], Dir(map[y := file])), Visit(dir + [x, y], file));
    TwinThere(root, dir, x, y, file);
  }
}

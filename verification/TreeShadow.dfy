/** Small trees in which two entries have one key: the digest misses a difference, or sees one where
    both trees have the same files. */
module TreeShadow {
  import opened Wrappers
  import opened Unicode
  import opened GitPath
  import opened Spelling
  import opened TreeListing
  import opened TreeCollect
  import opened TreeDigest
  import opened TreeSeen
  import opened TreeWalk
  import Order

  const A: Bytes := [0x61]
  const B: Bytes := [0x62]
  const A_BACKSLASH_B: Bytes := [0x61, 0x5c, 0x62]
  const A_SLASH_B: Bytes := [0x61, 0x2f, 0x62]

  function Inner(inner: Bytes): Node { Dir(map[B := File(false, inner)]) }

  /** A file `a/b`, and beside it a file whose one name is `a\b`. */
  function Shadowed(outer: Bytes, inner: Bytes): Node {
    Dir(map[A := Inner(inner), A_BACKSLASH_B := File(false, outer)])
  }

  lemma NamesAre(children: map<Bytes, Node>, names: seq<Bytes>)
    requires Order.Increasing(names)
    requires forall n :: n in names <==> n in children && !Skipped(n)
    ensures Names(children) == names
  {
    Order.IncreasingUnique(Names(children), names);
  }

  lemma InnerListing(inner: Bytes)
    ensures Listing([A], Inner(inner)) == [Visit([A, B], File(false, inner))]
  {
    NamesAre(Inner(inner).children, [B]);
    assert [B][..0] == [] && [A] + [B] == [A, B];
    assert Below([A], Inner(inner), [B]) == [] + Below([A], Inner(inner), []);
  }

  lemma BelowRoot(root: Node, inner: Bytes)
    requires root.Dir? && A in root.children && root.children[A] == Inner(inner)
    requires A_BACKSLASH_B in root.children && root.children[A_BACKSLASH_B].File?
    ensures Below([], root, [A, A_BACKSLASH_B]) == Listing([A], Inner(inner))
  {
    assert [A, A_BACKSLASH_B][..1] == [A] && [A][..0] == [] && [] + [A] == [A];
    assert Below([], root, [A, A_BACKSLASH_B]) == [] + Below([], root, [A]);
    assert Below([], root, [A]) == Listing([A], Inner(inner)) + Below([], root, []);
  }

  lemma ListingIs(outer: Bytes, inner: Bytes)
    ensures Listing([], Shadowed(outer, inner)) ==
      [Visit([A], Inner(inner)), Visit([A_BACKSLASH_B], File(false, outer)), Visit([A, B], File(false, inner))]
  {
    var root := Shadowed(outer, inner);
    RootNames(root.children);
    InnerListing(inner);
    BelowRoot(root, inner);
    RootEntries(root.children);
  }

  lemma RootNames(children: map<Bytes, Node>)
    requires children.Keys == {A, A_BACKSLASH_B}
    ensures Names(children) == [A, A_BACKSLASH_B]
  {
    Order.PrefixIsLess(A, A_BACKSLASH_B);
    NamesAre(children, [A, A_BACKSLASH_B]);
  }

  lemma RootEntries(children: map<Bytes, Node>)
    requires A in children && A_BACKSLASH_B in children
    ensures TreeListing.Entries([], children, [A, A_BACKSLASH_B]) ==
      [Visit([A], children[A]), Visit([A_BACKSLASH_B], children[A_BACKSLASH_B])]
  {
    assert [] + [A] == [A] && [] + [A_BACKSLASH_B] == [A_BACKSLASH_B];
  }

  lemma PathsAre()
    ensures Spelled([A]) == A && Spelled([A_BACKSLASH_B]) == A_SLASH_B && Spelled([A, B]) == A_SLASH_B
    ensures Accepts(A) && Accepts(A_SLASH_B)
  {
    SplitPlain(A);
    SplitOfJoin([A, B]);
    assert Join([A, B]) == A_SLASH_B by { assert [A, B][1..] == [B]; }
    AsciiLegible(A);
    AsciiLegible(A_SLASH_B);
  }

  /** The file named `a\b` can hold anything: what is collected, and so the digest, is the same. */
  lemma BackslashShadows(digest: Digest, inner: Bytes, x: Bytes, y: Bytes)
    requires |inner| <= 1024 && |x| <= 1024 && |y| <= 1024
    ensures
      var a, b := Bare(Shadowed(x, inner)), Bare(Shadowed(y, inner));
      && RawCollect(digest, a).Some? && RawCollect(digest, b).Some?
      && RawCollect(digest, a).value.entries == RawCollect(digest, b).value.entries
      && RawAt(a, [A_BACKSLASH_B]) == Some(Regular(false, x, false)) && RawAt(b, [A_BACKSLASH_B]) == Some(Regular(false, y, false))
  {
    ShadowedOnDisk(digest, inner, x);
    ShadowedOnDisk(digest, inner, y);
    OuterAt(x, inner);
    OuterAt(y, inner);
  }

  lemma OuterAt(outer: Bytes, inner: Bytes)
    ensures RawAt(Bare(Shadowed(outer, inner)), [A_BACKSLASH_B]) == Some(Regular(false, outer, false))
  {
    assert [A_BACKSLASH_B][1..] == [];
    assert Bare(File(false, outer)) == Regular(false, outer, false);
  }

  lemma NamesDecode()
    ensures DecodeUtf8(A).Some? && DecodeUtf8(B).Some? && DecodeUtf8(A_BACKSLASH_B).Some?
  {
    AsciiLegible(A);
    AsciiLegible(B);
    AsciiLegible(A_BACKSLASH_B);
  }

  lemma InnerUtf8(inner: Bytes)
    ensures Utf8Tree(Inner(inner))
  {
    NamesDecode();
  }

  lemma ShadowedOnDisk(digest: Digest, inner: Bytes, outer: Bytes)
    requires |inner| <= 1024 && |outer| <= 1024
    ensures RawCollect(digest, Bare(Shadowed(outer, inner))) ==
      Some(Collected([(A_SLASH_B, EntryOf(digest, File(false, inner)))], |outer| + |inner|))
  {
    ShadowedCollects(digest, inner, outer);
    NamesDecode();
    InnerUtf8(inner);
    assert Utf8Tree(Shadowed(outer, inner));
    OnDisk(digest, Shadowed(outer, inner));
  }

  lemma ShadowedCollects(digest: Digest, inner: Bytes, outer: Bytes)
    requires |inner| <= 1024 && |outer| <= 1024
    ensures Collect(digest, Shadowed(outer, inner)) ==
      Some(Collected([(A_SLASH_B, EntryOf(digest, File(false, inner)))], |outer| + |inner|))
  {
    ListingIs(outer, inner);
    PathsAre();
    SecondWins(digest, Shadowed(outer, inner), A_SLASH_B, [A], Inner(inner), [A_BACKSLASH_B], outer, [A, B], inner);
  }

  /** Of two files under one key, the one visited last is kept, in the place of the first. */
  lemma SecondWins(digest: Digest, root: Node, key: Bytes, p: Path, dir: Node, q: Path, outer: Bytes, r: Path, inner: Bytes)
    requires root.Dir? && dir.Dir? && |outer| <= 1024 && |inner| <= 1024
    requires Listing([], root) == [Visit(p, dir), Visit(q, File(false, outer)), Visit(r, File(false, inner))]
    requires Accepts(Spelled(p)) && Accepts(key) && Spelled(q) == key && Spelled(r) == key
    ensures Collect(digest, root) == Some(Collected([(key, EntryOf(digest, File(false, inner)))], |outer| + |inner|))
  {
    var x, y := EntryOf(digest, File(false, outer)), EntryOf(digest, File(false, inner));
    PutTwice(key, x, y);
    DirectoryStep(digest, START, p, dir);
    FileStep(digest, START, q, key, outer);
    FileStep(digest, Some(Collected([(key, x)], |outer|)), r, key, inner);
    CollectThree(digest, root, Visit(p, dir), Visit(q, File(false, outer)), Visit(r, File(false, inner)),
                 START, Some(Collected([(key, x)], |outer|)), Some(Collected([(key, y)], |outer| + |inner|)));
  }

  lemma PutTwice(key: Bytes, a: Entry, b: Entry)
    ensures Put([], key, a) == [(key, a)] && Put([(key, a)], key, b) == [(key, b)]
  {
  }

  lemma DirectoryStep(digest: Digest, s: Option<Collected>, p: Path, dir: Node)
    requires dir.Dir? && Accepts(Spelled(p))
    ensures Step(digest, s, Visit(p, dir)) == s
  {
  }

  lemma FileStep(digest: Digest, s: Option<Collected>, p: Path, key: Bytes, contents: Bytes)
    requires s.Some? && |s.value.entries| <= 1 && s.value.total <= 1024 && |contents| <= 1024
    requires Spelled(p) == key && Accepts(key)
    ensures Step(digest, s, Visit(p, File(false, contents))) ==
      Some(Collected(Put(s.value.entries, key, EntryOf(digest, File(false, contents))), s.value.total + |contents|))
  {
  }

  lemma CollectThree(digest: Digest, root: Node, a: Visit, b: Visit, c: Visit,
                     s1: Option<Collected>, s2: Option<Collected>, s3: Option<Collected>)
    requires root.Dir? && Listing([], root) == [a, b, c]
    requires Step(digest, START, a) == s1 && Step(digest, s1, b) == s2 && Step(digest, s2, c) == s3
    ensures Collect(digest, root) == s3
  {
    FoldOne(digest, START, [a, b], c);
    FoldOne(digest, START, [a], b);
    FoldOne(digest, START, [], a);
    assert [a, b] + [c] == [a, b, c] && [a] + [b] == [a, b] && [] + [a] == [a];
  }

  // The order of the list

  const Z: Bytes := [0x7a]

  /** The files `a\b` and `z` in the root. */
  function Beside(file: Bytes, z: Bytes): Node { Dir(map[A_BACKSLASH_B := File(false, file), Z := File(false, z)]) }

  /** The files `a/b` and `z`. */
  function Inside(file: Bytes, z: Bytes): Node { Dir(map[A := Inner(file), Z := File(false, z)]) }

  lemma TwoNames(children: map<Bytes, Node>, name: Bytes)
    requires children.Keys == {name, Z} && Order.Less(name, Z) && !Skipped(name)
    ensures Names(children) == [name, Z]
    ensures TreeListing.Entries([], children, [name, Z]) == [Visit([name], children[name]), Visit([Z], children[Z])]
  {
    NamesAre(children, [name, Z]);
    assert [] + [name] == [name] && [] + [Z] == [Z];
  }

  lemma ListingBeside(file: Bytes, z: Bytes)
    ensures Listing([], Beside(file, z)) == [Visit([A_BACKSLASH_B], File(false, file)), Visit([Z], File(false, z))]
  {
    var root := Beside(file, z);
    TwoNames(root.children, A_BACKSLASH_B);
    assert [A_BACKSLASH_B, Z][..1] == [A_BACKSLASH_B] && [A_BACKSLASH_B][..0] == [];
    assert Below([], root, [A_BACKSLASH_B]) == [] + Below([], root, []);
    assert Below([], root, [A_BACKSLASH_B, Z]) == [] + Below([], root, [A_BACKSLASH_B]);
  }

  lemma ListingInside(file: Bytes, z: Bytes)
    ensures Listing([], Inside(file, z)) == [Visit([A], Inner(file)), Visit([Z], File(false, z)), Visit([A, B], File(false, file))]
  {
    var root := Inside(file, z);
    TwoNames(root.children, A);
    InnerListing(file);
    BelowInside(root, file);
  }

  lemma BelowInside(root: Node, file: Bytes)
    requires root.Dir? && A in root.children && root.children[A] == Inner(file) && Z in root.children && root.children[Z].File?
    ensures Below([], root, [A, Z]) == Listing([A], Inner(file))
  {
    assert [A, Z][..1] == [A] && [A][..0] == [] && [] + [A] == [A];
    assert Below([], root, [A]) == Listing([A], Inner(file)) + Below([], root, []);
    assert Below([], root, [A, Z]) == [] + Below([], root, [A]);
  }

  lemma PutBoth(a: Bytes, x: Entry, b: Bytes, y: Entry)
    requires a != b
    ensures Put([], a, x) == [(a, x)] && Put([(a, x)], b, y) == [(a, x), (b, y)]
  {
    assert [(a, x)][1..] == [];
  }

  lemma CollectsBeside(digest: Digest, file: Bytes, z: Bytes)
    requires |file| <= 1024 && |z| <= 1024
    ensures Collect(digest, Beside(file, z)) ==
      Some(Collected([(A_SLASH_B, EntryOf(digest, File(false, file))), (Z, EntryOf(digest, File(false, z)))], |file| + |z|))
  {
    ListingBeside(file, z);
    var e, f := EntryOf(digest, File(false, file)), EntryOf(digest, File(false, z));
    BesideSteps(digest, file, z, e, f);
    CollectTwo(digest, Beside(file, z), Visit([A_BACKSLASH_B], File(false, file)), Visit([Z], File(false, z)),
               Some(Collected([(A_SLASH_B, e)], |file|)), Some(Collected([(A_SLASH_B, e), (Z, f)], |file| + |z|)));
  }

  lemma BesideSteps(digest: Digest, file: Bytes, z: Bytes, e: Entry, f: Entry)
    requires |file| <= 1024 && |z| <= 1024
    requires e == EntryOf(digest, File(false, file)) && f == EntryOf(digest, File(false, z))
    ensures Step(digest, START, Visit([A_BACKSLASH_B], File(false, file))) == Some(Collected([(A_SLASH_B, e)], |file|))
    ensures Step(digest, Some(Collected([(A_SLASH_B, e)], |file|)), Visit([Z], File(false, z)))
      == Some(Collected([(A_SLASH_B, e), (Z, f)], |file| + |z|))
  {
    PathsAre();
    ZIs();
    PutBoth(A_SLASH_B, e, Z, f);
    FileStep(digest, START, [A_BACKSLASH_B], A_SLASH_B, file);
    FileStep(digest, Some(Collected([(A_SLASH_B, e)], |file|)), [Z], Z, z);
  }

  lemma CollectTwo(digest: Digest, root: Node, a: Visit, b: Visit, s1: Option<Collected>, s2: Option<Collected>)
    requires root.Dir? && Listing([], root) == [a, b] && Step(digest, START, a) == s1 && Step(digest, s1, b) == s2
    ensures Collect(digest, root) == s2
  {
    FoldOne(digest, START, [a], b);
    FoldOne(digest, START, [], a);
    assert [a] + [b] == [a, b] && [] + [a] == [a];
  }

  lemma CollectsInside(digest: Digest, file: Bytes, z: Bytes)
    requires |file| <= 1024 && |z| <= 1024
    ensures Collect(digest, Inside(file, z)) ==
      Some(Collected([(Z, EntryOf(digest, File(false, z))), (A_SLASH_B, EntryOf(digest, File(false, file)))], |z| + |file|))
  {
    ListingInside(file, z);
    var e, f := EntryOf(digest, File(false, file)), EntryOf(digest, File(false, z));
    InsideSteps(digest, file, z, e, f);
    CollectThree(digest, Inside(file, z), Visit([A], Inner(file)), Visit([Z], File(false, z)), Visit([A, B], File(false, file)),
                 START, Some(Collected([(Z, f)], |z|)), Some(Collected([(Z, f), (A_SLASH_B, e)], |z| + |file|)));
  }

  lemma InsideSteps(digest: Digest, file: Bytes, z: Bytes, e: Entry, f: Entry)
    requires |file| <= 1024 && |z| <= 1024
    requires e == EntryOf(digest, File(false, file)) && f == EntryOf(digest, File(false, z))
    ensures Step(digest, START, Visit([A], Inner(file))) == START
    ensures Step(digest, START, Visit([Z], File(false, z))) == Some(Collected([(Z, f)], |z|))
    ensures Step(digest, Some(Collected([(Z, f)], |z|)), Visit([A, B], File(false, file)))
      == Some(Collected([(Z, f), (A_SLASH_B, e)], |z| + |file|))
  {
    PathsAre();
    ZIs();
    PutBoth(Z, f, A_SLASH_B, e);
    DirectoryStep(digest, START, [A], Inner(file));
    FileStep(digest, START, [Z], Z, z);
    FileStep(digest, Some(Collected([(Z, f)], |z|)), [A, B], A_SLASH_B, file);
  }

  lemma ZIs()
    ensures Spelled([Z]) == Z && Accepts(Z) && Z != A_SLASH_B
  {
    SplitPlain(Z);
    AsciiLegible(Z);
  }

  lemma BothUtf8(file: Bytes, z: Bytes)
    ensures Utf8Tree(Beside(file, z)) && Utf8Tree(Inside(file, z))
  {
    NamesDecode();
    InnerUtf8(file);
    AsciiLegible(Z);
  }

  lemma BesideOnDisk(digest: Digest, file: Bytes, z: Bytes)
    ensures RawCollect(digest, Bare(Beside(file, z))) == Collect(digest, Beside(file, z))
    ensures RawCollect(digest, Bare(Inside(file, z))) == Collect(digest, Inside(file, z))
  {
    BothUtf8(file, z);
    OnDisk(digest, Beside(file, z));
    OnDisk(digest, Inside(file, z));
  }

  /** Two trees that collect to the same map can hash different bytes: the Map is hashed in the
      order of the walk, and `a\b` is walked before `z`, `a/b` after it. */
  lemma OrderTells(digest: Digest, file: Bytes, z: Bytes)
    requires |file| <= 1024 && |z| <= 1024 && TextDigest(digest)
    ensures RawCollect(digest, Bare(Beside(file, z))).Some? && RawCollect(digest, Bare(Inside(file, z))).Some?
    ensures
      var a := RawCollect(digest, Bare(Beside(file, z))).value.entries;
      var b := RawCollect(digest, Bare(Inside(file, z))).value.entries;
      && (forall e :: e in a <==> e in b) && AllRecordable(a) && AllRecordable(b) && Hashed(a) != Hashed(b)
  {
    CollectsBeside(digest, file, z);
    CollectsInside(digest, file, z);
    CollectRecordable(digest, Listing([], Beside(file, z)), {});
    CollectRecordable(digest, Listing([], Inside(file, z)), {});
    BesideOnDisk(digest, file, z);
    var a, b := Collect(digest, Beside(file, z)).value.entries, Collect(digest, Inside(file, z)).value.entries;
    ZIs();
    assert a[0].0 == A_SLASH_B && b[0].0 == Z;
    if Hashed(a) == Hashed(b) { HashedInjective(a, b); }
  }

  // A name that is no UTF-8

  /** A file named U+FFFD, and one whose name is the single byte FF. */
  function Alias(file: Bytes, hidden: Bytes): Folder {
    Directory(map[REPLACEMENT := Regular(false, file, false), [0xff] := Regular(false, hidden, false)])
  }

  lemma StrayIsRead()
    ensures Lossy([0xff]) == REPLACEMENT && Lossy(REPLACEMENT) == REPLACEMENT && DecodeUtf8(REPLACEMENT).Some?
  {
    assert [0xff][1..] == [] && REPLACEMENT + [] == REPLACEMENT;
    StrayByte([]);
    ReplacementScalar([]);
    assert REPLACEMENT[3..] == [];
    LossyOfUtf8(REPLACEMENT);
  }

  lemma AliasSeen(file: Bytes, hidden: Bytes)
    ensures Seen(Alias(file, hidden)) == Dir(map[REPLACEMENT := File(false, file)])
    ensures ReadAs(Alias(file, hidden).children, REPLACEMENT) == {REPLACEMENT, [0xff]}
  {
    StrayIsRead();
    var dir := Alias(file, hidden);
    assert ReadNames(dir.children) == {REPLACEMENT} by {
      assert REPLACEMENT in dir.children;
      assert forall n :: n in dir.children ==> Lossy(n) == REPLACEMENT;
    }
    assert Agrees(dir.children, REPLACEMENT);
    assert Seen(dir).children == map[REPLACEMENT := File(false, file)];
  }

  lemma SpreadTwice(children: map<Bytes, Raw>)
    requires ReadAs(children, REPLACEMENT) == {REPLACEMENT, [0xff]}
    ensures Spread(children, [REPLACEMENT]) == Repeated(2, REPLACEMENT) == [REPLACEMENT, REPLACEMENT]
  {
    assert REPLACEMENT != [0xff] && |{REPLACEMENT, [0xff]}| == 2;
    assert Repeated(2, REPLACEMENT) == Repeated(1, REPLACEMENT) + [REPLACEMENT];
    assert Repeated(1, REPLACEMENT) == Repeated(0, REPLACEMENT) + [REPLACEMENT];
    assert [REPLACEMENT][..0] == [];
    assert Spread(children, [REPLACEMENT]) == Spread(children, []) + Repeated(2, REPLACEMENT);
  }

  lemma TwiceListed(dir: Folder, file: Bytes)
    requires Seen(dir) == Dir(map[REPLACEMENT := File(false, file)])
    requires ReadAs(dir.children, REPLACEMENT) == {REPLACEMENT, [0xff]}
    ensures Listed(dir) == Repeated(2, REPLACEMENT) == [REPLACEMENT, REPLACEMENT]
  {
    NamesAre(Seen(dir).children, [REPLACEMENT]);
    SpreadTwice(dir.children);
  }

  lemma TwiceScanned(dir: Folder, file: Bytes)
    requires Seen(dir) == Dir(map[REPLACEMENT := File(false, file)]) && Listed(dir) == [REPLACEMENT, REPLACEMENT]
    ensures
      var v := Visit([REPLACEMENT], File(false, file));
      Scan([], dir) == [v, v]
  {
    assert [] + [REPLACEMENT] == [REPLACEMENT];
  }

  lemma TwiceVisited(dir: Folder, file: Bytes)
    requires Seen(dir) == Dir(map[REPLACEMENT := File(false, file)])
    requires ReadAs(dir.children, REPLACEMENT) == {REPLACEMENT, [0xff]}
    ensures
      var v := Visit([REPLACEMENT], File(false, file));
      RawListing([], dir) == [v, v]
  {
    TwiceListed(dir, file);
    NothingBelow(dir, 2);
    TwiceScanned(dir, file);
  }

  lemma AliasListing(file: Bytes, hidden: Bytes)
    ensures
      var v := Visit([REPLACEMENT], File(false, file));
      RawListing([], Alias(file, hidden)) == [v, v]
  {
    AliasSeen(file, hidden);
    TwiceVisited(Alias(file, hidden), file);
  }

  lemma {:induction false} NothingBelow(dir: Folder, times: nat)
    requires REPLACEMENT in Seen(dir).children && !Seen(dir).children[REPLACEMENT].Dir?
    ensures RawBelow([], dir, Repeated(times, REPLACEMENT)) == []
    decreases times
  {
    if times > 0 {
      assert Repeated(times, REPLACEMENT)[..times - 1] == Repeated(times - 1, REPLACEMENT);
      NothingBelow(dir, times - 1);
    }
  }

  lemma AliasSteps(digest: Digest, file: Bytes)
    requires |file| <= 512
    ensures
      var v, e := Visit([REPLACEMENT], File(false, file)), EntryOf(digest, File(false, file));
      && Step(digest, START, v) == Some(Collected([(REPLACEMENT, e)], |file|))
      && Step(digest, Some(Collected([(REPLACEMENT, e)], |file|)), v) == Some(Collected([(REPLACEMENT, e)], |file| + |file|))
  {
    var e := EntryOf(digest, File(false, file));
    ReplacementKey();
    PutTwice(REPLACEMENT, e, e);
    FileStep(digest, START, [REPLACEMENT], REPLACEMENT, file);
    FileStep(digest, Some(Collected([(REPLACEMENT, e)], |file|)), [REPLACEMENT], REPLACEMENT, file);
  }

  lemma ReplacementKey()
    ensures Spelled([REPLACEMENT]) == REPLACEMENT && Accepts(REPLACEMENT)
  {
    StrayIsRead();
    SplitPlain(REPLACEMENT);
    JoinOne(REPLACEMENT);
  }

  lemma AliasCollects(digest: Digest, file: Bytes, hidden: Bytes)
    requires |file| <= 512
    ensures RawCollect(digest, Alias(file, hidden)) ==
      Some(Collected([(REPLACEMENT, EntryOf(digest, File(false, file)))], |file| + |file|))
  {
    AliasListing(file, hidden);
    AliasSteps(digest, file);
    var v := Visit([REPLACEMENT], File(false, file));
    FoldOne(digest, START, [v], v);
    FoldOne(digest, START, [], v);
    assert [v] + [v] == [v, v] && [] + [v] == [v];
  }

  /** The file named FF can hold anything: its name is read as U+FFFD, and both times the file of
      that name is. */
  lemma StrayShadows(digest: Digest, file: Bytes, x: Bytes, y: Bytes)
    requires |file| <= 512
    ensures RawCollect(digest, Alias(file, x)).Some?
    ensures RawCollect(digest, Alias(file, x)) == RawCollect(digest, Alias(file, y))
    ensures RawAt(Alias(file, x), [[0xff]]) == Some(Regular(false, x, false))
    ensures RawAt(Alias(file, y), [[0xff]]) == Some(Regular(false, y, false))
  {
    AliasCollects(digest, file, x);
    AliasCollects(digest, file, y);
    HiddenAt(file, x);
    HiddenAt(file, y);
  }

  lemma HiddenAt(file: Bytes, hidden: Bytes)
    ensures RawAt(Alias(file, hidden), [[0xff]]) == Some(Regular(false, hidden, false))
  {
    assert [[0xff]][1..] == [] && !Skipped([0xff]);
  }
}

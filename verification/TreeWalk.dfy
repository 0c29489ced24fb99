/** The stack walk of `collectRegularTree` over what a disk holds (filesystem.ts). */
module TreeWalk {
  import opened Wrappers
  import opened Unicode
  import opened Spelling
  import opened TreeListing
  import opened TreeCollect

  /** What a disk holds. A regular file may have more links; Other is what is neither a directory
      nor a regular file. */
  datatype Raw = Directory(children: map<Bytes, Raw>) | Regular(executable: bool, contents: Bytes, linked: bool) | Other

  type Folder = r: Raw | r.Directory? witness Directory(map[])

  /** What `readdirSync` says of an entry besides its name. */
  predicate SameKind(a: Raw, b: Raw) { (a.Directory? <==> b.Directory?) && (a.Regular? <==> b.Regular?) }

  /** Names are decoded lossily when they are listed. */
  function ReadNames(children: map<Bytes, Raw>): set<Bytes> { set n | n in children :: Lossy(n) }

  /** The lookup of a listed name finds an entry, of the kind of everything that is listed so. */
  predicate Agrees(children: map<Bytes, Raw>, name: Bytes) {
    name in children && forall n :: n in children && Lossy(n) == name ==> SameKind(children[n], children[name])
  }

  /** The tree as the walk reads it: each listed name is looked up as it was read. Where that finds
      nothing, or an entry of another kind than one that is listed so, the walk fails. */
  function Seen(raw: Raw): (r: Node)
    ensures r.Dir? <==> raw.Directory?
  {
    match raw
    case Directory(children) =>
      Dir(map name | name in ReadNames(children) :: if Agrees(children, name) then Seen(children[name]) else Special)
    case Regular(executable, contents, linked) => if linked then Special else File(executable, contents)
    case Other => Special
  }

  /** What one listed name is looked up as. */
  function Look(dir: Folder, name: Bytes): (r: Node)
    requires name in Seen(dir).children
    ensures r.Dir? ==> name in dir.children && dir.children[name].Directory?
  {
    Seen(dir).children[name]
  }

  // Names that are listed more than once

  function Repeated<T>(times: nat, x: T): (r: seq<T>)
    ensures |r| == times && forall y :: y in r ==> y == x
  {
    if times == 0 then [] else Repeated(times - 1, x) + [x]
  }

  /** The entries that are listed under a name. */
  function ReadAs(children: map<Bytes, Raw>, name: Bytes): set<Bytes> { set n | n in children && Lossy(n) == name }

  function Spread(children: map<Bytes, Raw>, names: seq<Bytes>): (r: seq<Bytes>)
    ensures forall n :: n in r ==> n in names
  {
    if names == [] then []
    else
      var last := names[|names| - 1];
      Spread(children, names[..|names| - 1]) + Repeated(|ReadAs(children, last)|, last)
  }

  /** The listing of a directory without the skipped names, in `compareNames` order. Among entries
      that are listed alike, the walk treats each as the first. */
  function Listed(dir: Folder): (r: seq<Bytes>)
    ensures forall n :: n in r ==> n in Seen(dir).children && !Skipped(n)
  {
    Spread(dir.children, Names(Seen(dir).children))
  }

  // The order of the walk

  function RawListing(prefix: Path, dir: Folder): seq<Visit>
    decreases dir, 1
  {
    Scan(prefix, dir) + RawBelow(prefix, dir, Listed(dir))
  }

  /** What the loop over one directory looks at. */
  function Scan(prefix: Path, dir: Folder): (r: seq<Visit>)
    ensures |r| == |Listed(dir)|
    ensures forall i :: 0 <= i < |r| ==> r[i] == Visit(prefix + [Listed(dir)[i]], Look(dir, Listed(dir)[i]))
  {
    TreeListing.Entries(prefix, Seen(dir).children, Listed(dir))
  }

  function RawBelow(prefix: Path, dir: Folder, names: seq<Bytes>): seq<Visit>
    requires forall n :: n in names ==> n in Seen(dir).children
    decreases dir, 0, |names|
  {
    if names == [] then []
    else Inside(prefix, dir, names[|names| - 1]) + RawBelow(prefix, dir, names[..|names| - 1])
  }

  function Inside(prefix: Path, dir: Folder, name: Bytes): seq<Visit>
    requires name in Seen(dir).children
    decreases dir, 0, 0
  {
    if Look(dir, name).Dir? then RawListing(prefix + [name], dir.children[name]) else []
  }

  function RawCollect(digest: Digest, root: Folder): Option<Collected>
  {
    Fold(digest, START, RawListing([], root))
  }

  // The stack

  datatype Pending = Pending(path: Path, dir: Folder)

  /** What is still to be visited: the directory on top of the stack first. */
  ghost function Remaining(stack: seq<Pending>): seq<Visit>
  {
    if stack == [] then []
    else
      var top := stack[|stack| - 1];
      RawListing(top.path, top.dir) + Remaining(stack[..|stack| - 1])
  }

  /** What one listed name pushes. */
  function Push(prefix: Path, dir: Folder, name: Bytes): (r: seq<Pending>)
    requires name in Seen(dir).children
  {
    if Look(dir, name).Dir? then [Pending(prefix + [name], dir.children[name])] else []
  }

  ghost function Pushed(prefix: Path, dir: Folder, names: seq<Bytes>): (r: seq<Pending>)
    requires forall n :: n in names ==> n in Seen(dir).children
    ensures |r| <= |names|
  {
    if names == [] then []
    else Pushed(prefix, dir, names[..|names| - 1]) + Push(prefix, dir, names[|names| - 1])
  }

  lemma RemainingTop(stack: seq<Pending>, top: Pending)
    ensures Remaining(stack + [top]) == RawListing(top.path, top.dir) + Remaining(stack)
  {
    assert (stack + [top])[..|stack|] == stack;
  }

  lemma PushOver(prefix: Path, dir: Folder, name: Bytes, rest: seq<Pending>, lower: seq<Pending>, below: seq<Visit>)
    requires name in Seen(dir).children && Remaining(rest + lower) == below + Remaining(rest)
    ensures Remaining(rest + (lower + Push(prefix, dir, name))) == (Inside(prefix, dir, name) + below) + Remaining(rest)
  {
    if Look(dir, name).Dir? {
      var top := Pending(prefix + [name], dir.children[name]);
      Regroup(rest, lower, [top]);
      RemainingTop(rest + lower, top);
      Regroup(RawListing(top.path, top.dir), below, Remaining(rest));
    } else {
      assert lower + [] == lower && [] + below == below;
    }
  }

  /** Pushing the directories of one directory leaves the walk below it, last name first. */
  lemma {:induction false} RemainingPushed(prefix: Path, dir: Folder, names: seq<Bytes>, rest: seq<Pending>)
    requires forall n :: n in names ==> n in Seen(dir).children
    ensures Remaining(rest + Pushed(prefix, dir, names)) == RawBelow(prefix, dir, names) + Remaining(rest)
    decreases |names|
  {
    if names == [] {
      assert rest + [] == rest && [] + Remaining(rest) == Remaining(rest);
    } else {
      var n := |names| - 1;
      RemainingPushed(prefix, dir, names[..n], rest);
      PushOver(prefix, dir, names[n], rest, Pushed(prefix, dir, names[..n]), RawBelow(prefix, dir, names[..n]));
    }
  }

  // The loops

  /** The stack once the first i entries of the top directory have been looked at. */
  ghost function Stacked(rest: seq<Pending>, top: Pending, i: nat): (r: seq<Pending>)
    requires i <= |Listed(top.dir)|
  {
    rest + Pushed(top.path, top.dir, Listed(top.dir)[..i])
  }

  /** The loop over one directory once the first i entries have been looked at. */
  ghost predicate Scanned(digest: Digest, s: Option<Collected>, rest: seq<Pending>, top: Pending, i: nat,
                          after: Option<Collected>, stack: seq<Pending>)
    requires i <= |Listed(top.dir)|
  {
    stack == Stacked(rest, top, i) && after == Fold(digest, s, Scan(top.path, top.dir)[..i])
  }

  lemma FoldNext(digest: Digest, s: Option<Collected>, visits: seq<Visit>, i: nat)
    requires i < |visits|
    ensures Fold(digest, s, visits[..i + 1]) == Step(digest, Fold(digest, s, visits[..i]), visits[i])
  {
    FoldOne(digest, s, visits[..i], visits[i]);
    assert visits[..i + 1] == visits[..i] + [visits[i]];
  }

  lemma PushedNext(prefix: Path, dir: Folder, names: seq<Bytes>, i: nat)
    requires i < |names| && forall n :: n in names ==> n in Seen(dir).children
    ensures Pushed(prefix, dir, names[..i + 1]) == Pushed(prefix, dir, names[..i]) + Push(prefix, dir, names[i])
  {
    assert names[..i + 1][..i] == names[..i];
  }

  lemma ScanStep(digest: Digest, s: Option<Collected>, rest: seq<Pending>, top: Pending, i: nat,
                 after: Option<Collected>, stack: seq<Pending>)
    requires i < |Listed(top.dir)| && Scanned(digest, s, rest, top, i, after, stack)
    ensures
      var name := Listed(top.dir)[i];
      Scanned(digest, s, rest, top, i + 1, Step(digest, after, Visit(top.path + [name], Look(top.dir, name))),
              stack + Push(top.path, top.dir, name))
  {
    FoldNext(digest, s, Scan(top.path, top.dir), i);
    PushedNext(top.path, top.dir, Listed(top.dir), i);
    Regroup(rest, Pushed(top.path, top.dir, Listed(top.dir)[..i]), Push(top.path, top.dir, Listed(top.dir)[i]));
  }

  lemma ScanStarts(digest: Digest, s: Option<Collected>, rest: seq<Pending>, top: Pending)
    ensures Scanned(digest, s, rest, top, 0, s, rest)
  {
    assert rest + [] == rest;
  }

  // A thrown error ends the loop early, with the same result.
  lemma ScanEnds(digest: Digest, s: Option<Collected>, rest: seq<Pending>, top: Pending, i: nat,
                 after: Option<Collected>, stack: seq<Pending>)
    requires i <= |Listed(top.dir)| && Scanned(digest, s, rest, top, i, after, stack)
    requires i == |Listed(top.dir)| || after.None?
    ensures after == Fold(digest, s, Scan(top.path, top.dir))
    ensures after.Some? ==> stack == rest + Pushed(top.path, top.dir, Listed(top.dir))
  {
    var visits := Scan(top.path, top.dir);
    assert visits == visits[..i] + visits[i..];
    FoldConcat(digest, s, visits[..i], visits[i..]);
    if after.None? { FoldNone(digest, visits[i..]); } else { Whole(Listed(top.dir)); }
  }

  lemma Whole<T>(s: seq<T>)
    ensures s[..|s|] == s
  {
  }

  /** The loop over one directory: its entries are recorded and its directories pushed. */
  method ScanDirectory(digest: Digest, top: Pending, rest: seq<Pending>, s: Option<Collected>)
    returns (after: Option<Collected>, stack: seq<Pending>)
    ensures after == Fold(digest, s, Scan(top.path, top.dir))
    ensures after.Some? ==> stack == rest + Pushed(top.path, top.dir, Listed(top.dir))
  {
    var names := Listed(top.dir);
    after, stack := s, rest;
    ScanStarts(digest, s, rest, top);
    var i := 0;
    while i < |names| && after.Some?
      invariant 0 <= i <= |names| && Scanned(digest, s, rest, top, i, after, stack)
    {
      ScanStep(digest, s, rest, top, i, after, stack);
      after := Step(digest, after, Visit(top.path + [names[i]], Look(top.dir, names[i])));
      stack := stack + Push(top.path, top.dir, names[i]);
      i := i + 1;
    }
    ScanEnds(digest, s, rest, top, i, after, stack);
  }

  // One turn of the outer loop keeps what is left to fold, and makes it shorter.
  lemma Turn(digest: Digest, s: Option<Collected>, top: Pending, rest: seq<Pending>)
    ensures
      var pushed := rest + Pushed(top.path, top.dir, Listed(top.dir));
      && Fold(digest, s, Remaining(rest + [top])) == Fold(digest, Fold(digest, s, Scan(top.path, top.dir)), Remaining(pushed))
      && |Remaining(pushed)| + |pushed| < |Remaining(rest + [top])| + |rest + [top]|
  {
    var scan := Scan(top.path, top.dir);
    RemainingTop(rest, top);
    RemainingPushed(top.path, top.dir, Listed(top.dir), rest);
    Regroup(scan, RawBelow(top.path, top.dir, Listed(top.dir)), Remaining(rest));
    FoldConcat(digest, s, scan, Remaining(rest + Pushed(top.path, top.dir, Listed(top.dir))));
  }

  /** What is collected and what is on the stack together make the whole collection. */
  ghost predicate Owes(digest: Digest, root: Folder, s: Option<Collected>, stack: seq<Pending>)
  {
    Fold(digest, s, Remaining(stack)) == RawCollect(digest, root)
  }

  lemma OwesAfter(digest: Digest, root: Folder, s: Option<Collected>, top: Pending, rest: seq<Pending>)
    requires Owes(digest, root, s, rest + [top])
    ensures
      var after, pushed := Fold(digest, s, Scan(top.path, top.dir)), rest + Pushed(top.path, top.dir, Listed(top.dir));
      && (after.Some? ==> Owes(digest, root, after, pushed)) && (after.None? ==> RawCollect(digest, root).None?)
      && |Remaining(pushed)| + |pushed| < |Remaining(rest + [top])| + |rest + [top]|
  {
    Turn(digest, s, top, rest);
    FoldNone(digest, Remaining(rest + Pushed(top.path, top.dir, Listed(top.dir))));
  }

  lemma OwesAtFirst(digest: Digest, root: Folder)
    ensures Owes(digest, root, START, [Pending([], root)])
  {
    RemainingTop([], Pending([], root));
    assert [] + [Pending([], root)] == [Pending([], root)] && RawListing([], root) + [] == RawListing([], root);
  }

  /** The stack loop visits the whole listing, in its order, and terminates. */
  method CollectRegularTree(digest: Digest, root: Folder) returns (r: Option<Collected>)
    ensures r == RawCollect(digest, root)
  {
    var stack := [Pending([], root)];
    r := START;
    OwesAtFirst(digest, root);
    while stack != [] && r.Some?
      invariant r.Some? ==> Owes(digest, root, r, stack)
      invariant r.None? ==> RawCollect(digest, root).None?
      decreases r.Some?, if r.Some? then |Remaining(stack)| + |stack| else 0
    {
      var top, rest := stack[|stack| - 1], stack[..|stack| - 1];
      assert stack == rest + [top];
      OwesAfter(digest, root, r, top, rest);
      r, stack := ScanDirectory(digest, top, rest, r);
    }
  }
}

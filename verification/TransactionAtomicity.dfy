/** What a finished `applyCandidateFiles` call promises, whatever faults and outsiders did. */
module TransactionAtomicity {
  import opened Wrappers
  import opened Unicode
  import opened RepositoryTree
  import opened Transaction
  import opened TransactionCommit
  import opened TransactionRollback
  import opened TransactionApply

  // Success

  /** The expected tree with every changed file as it is in the proposed tree. */
  function Target(expected: Tree, proposed: Tree, files: seq<Path>): Tree {
    map p | p in expected.Keys + proposed.Keys && (if p in files then p in proposed else p in expected)
      :: if p in files then proposed[p] else expected[p]
  }

  lemma {:induction false} OverlaidAt(v: View, overlays: seq<(Bytes, Option<Record>)>, key: Bytes)
    requires forall i, j :: 0 <= i < j < |overlays| ==> overlays[i].0 != overlays[j].0
    ensures forall i :: 0 <= i < |overlays| && overlays[i].0 == key ==> InView(Overlaid(v, overlays), key) == overlays[i].1
    ensures (forall i :: 0 <= i < |overlays| ==> overlays[i].0 != key) ==> InView(Overlaid(v, overlays), key) == InView(v, key)
    decreases |overlays|
  {
    if overlays != [] {
      var (k, r) := overlays[0];
      OverlaidAt(if r.Some? then v[k := r.value] else v - {k}, overlays[1..], key);
      assert forall i :: 0 < i < |overlays| ==> overlays[i] == overlays[1..][i - 1];
    }
  }

  /** Changed files that passed `safeRepositoryPath`: each has a key of its own. */
  predicate PlainFiles(files: seq<Path>) {
    && (forall i :: 0 <= i < |files| ==> files[i] != [] && PosixPath(files[i]) && PlainPath(files[i]))
    && forall i, j :: 0 <= i < j < |files| ==> files[i] != files[j]
  }

  lemma SafeIsPlain(t: Tree, file: Path)
    requires Safe(t, file) && NamedPath(file)
    ensures file != [] && PosixPath(file) && PlainPath(file)
  {
    assert forall i :: 0 <= i < |file| ==> SafeName(file[i]);
  }

  lemma FileKeys(files: seq<Path>, i: nat, j: nat)
    requires PlainFiles(files) && i < |files| && j < |files| && Key(files[i]) == Key(files[j])
    ensures i == j
  {
    KeyInjective(files[i], files[j]);
  }

  /** The intended view: a changed file's key shows its proposed record, any other key what the
      expected tree shows. */
  lemma IntendedAt(w: World, n: nat, expected: Tree, proposed: Tree, files: seq<Path>, key: Bytes)
    requires PlainFiles(files)
    ensures forall i :: 0 <= i < |files| && Key(files[i]) == key ==>
      InView(Intended(w, n, expected, proposed, files), key) == RecordAt(w.hash, proposed, files[i])
    ensures (forall i :: 0 <= i < |files| ==> Key(files[i]) != key) ==>
      InView(Intended(w, n, expected, proposed, files), key) == InView(w.walk(n, expected), key)
  {
    var overlays := FileOverlays(w.hash, proposed, files);
    forall i, j | 0 <= i < j < |overlays| ensures overlays[i].0 != overlays[j].0 {
      if Key(files[i]) == Key(files[j]) { FileKeys(files, i, j); }
    }
    OverlaidAt(w.walk(n, expected), overlays, key);
    assert forall i :: 0 <= i < |files| ==> overlays[i] == (Key(files[i]), RecordAt(w.hash, proposed, files[i]));
  }

  ghost predicate Collide(hash: Hash, x: Bytes, y: Bytes) { x != y && hash(x) == hash(y) }

  ghost predicate ContentsCollide(hash: Hash, a: Tree, b: Tree, p: Path) {
    p in a && p in b && Collide(hash, Contents(a[p]), Contents(b[p]))
  }

  /** Two of the byte strings that this call hashed collide: the streams of the last check, or the
      contents of one path. */
  ghost predicate CollisionSeen(w: World, t: Tree, expected: Tree, proposed: Tree, files: seq<Path>, n: nat, m: nat) {
    || Collide(w.hash, w.stream(n, w.walk(n, t)), w.stream(m, Intended(w, m, expected, proposed, files)))
    || exists p :: (p in files || Shown(t, p)) && ContentsCollide(w.hash, t, Target(expected, proposed, files), p)
  }

  ghost predicate LinksReadAlike(a: Tree, b: Tree, p: Path) { p in a && p in b && SameReading(a[p], b[p]) }

  lemma SameRecord(hash: Hash, a: Tree, b: Tree, p: Path)
    requires RecordAt(hash, a, p) == RecordAt(hash, b, p)
    ensures Get(a, p) == Get(b, p) || LinksReadAlike(a, b, p) || ContentsCollide(hash, a, b, p)
  {
    if p in a && p in b { RecordBinds(hash, a[p], b[p]); }
  }

  /** The target's paths that count: changed files, and what is not ignored. */
  predicate Listed(target: Tree, files: seq<Path>, p: Path) { p in target && (p in files || !Ignored(p)) }

  /** Nothing in the tree, and no changed file, has the key of another path of the target. */
  ghost predicate TwinFree(t: Tree, target: Tree, files: seq<Path>) {
    forall x, y :: (Shown(t, x) || x in files) && Listed(target, files, y) && Key(x) == Key(y) ==> x == y
  }

  lemma AcceptedPlain(w: World, expected: Tree, proposed: Tree, t: Tree, first: nat, files: seq<Path>, n: nat, m: nat)
    requires TextList(files, first) && Accepted(w, expected, proposed, t, first, files, n, m)
    ensures PlainFiles(files)
  {
    forall i | 0 <= i < |files| ensures files[i] != [] && PosixPath(files[i]) && PlainPath(files[i]) {
      assert FileApplied(w.hash, proposed, t, files[i]);
      SafeIsPlain(t, files[i]);
    }
  }

  lemma ViewsReadable(w: World, n: nat, expected: Tree, proposed: Tree, files: seq<Path>)
    requires Walks(w) && PlainFiles(files)
    requires forall i :: 0 <= i < |files| ==> Readable(files[i])
    ensures ReadableView(Intended(w, n, expected, proposed, files))
  {
    WalkReadable(w, n, expected);
    forall key | key in Intended(w, n, expected, proposed, files) ensures DecodeUtf8(key).Some? {
      IntendedAt(w, n, expected, proposed, files, key);
      if i :| 0 <= i < |files| && Key(files[i]) == key { KeyDecodes(files[i]); }
    }
  }

  lemma WalkReadable(w: World, n: nat, t: Tree)
    requires Walks(w)
    ensures ReadableView(w.walk(n, t))
  {
    forall key | key in w.walk(n, t) ensures DecodeUtf8(key).Some? {
      assert Walked(w.hash, t, w.walk(n, t)) && HasKey(t, key);
      var p :| ShownAs(t, p, key);
      KeyDecodes(p);
    }
  }

  /** Without a collision, a successful call's tree shows exactly the intended view, whatever
      outsiders made of the names and links that it is read through. */
  lemma AppliedView(w: World, expected: Tree, proposed: Tree, t: Tree, first: nat, files: seq<Path>, n: nat, m: nat)
    requires FaithfulStream(w) && Walks(w) && TextList(files, first)
    requires Accepted(w, expected, proposed, t, first, files, n, m)
    requires !CollisionSeen(w, t, expected, proposed, files, n, m)
    ensures w.walk(n, t) == Intended(w, m, expected, proposed, files) && PlainFiles(files)
  {
    AcceptedPlain(w, expected, proposed, t, first, files, n, m);
    WalkReadable(w, n, t);
    ViewsReadable(w, m, expected, proposed, files);
  }

  /** Every key of the intended view is that of a path of the target, with its record. */
  lemma IntendedShows(w: World, n: nat, expected: Tree, proposed: Tree, files: seq<Path>, key: Bytes) returns (y: Path)
    requires Walks(w) && PlainFiles(files) && key in Intended(w, n, expected, proposed, files)
    ensures
      var target := Target(expected, proposed, files);
      Listed(target, files, y) && Key(y) == key
      && Intended(w, n, expected, proposed, files)[key] == RecordOf(w.hash, target[y])
  {
    IntendedAt(w, n, expected, proposed, files, key);
    if i :| 0 <= i < |files| && Key(files[i]) == key {
      y := files[i];
    } else {
      assert Walked(w.hash, expected, w.walk(n, expected)) && KeyShows(w.hash, expected, key, w.walk(n, expected)[key]);
      y :| ShownAs(expected, y, key) && RecordOf(w.hash, expected[y]) == w.walk(n, expected)[key];
    }
  }

  /** A path of the target that has no twin among the files is shown in the intended view. */
  lemma IntendedHas(w: World, n: nat, expected: Tree, proposed: Tree, files: seq<Path>, p: Path)
    requires Walks(w) && PlainFiles(files) && Listed(Target(expected, proposed, files), files, p) && Readable(p)
    requires forall x :: x in files && Key(x) == Key(p) ==> x == p
    ensures Key(p) in Intended(w, n, expected, proposed, files)
  {
    IntendedAt(w, n, expected, proposed, files, Key(p));
    if p in files {
      var i :| 0 <= i < |files| && files[i] == p;
    } else {
      assert forall i :: 0 <= i < |files| ==> files[i] in files;
      assert ShownAs(expected, p, Key(p)) && Walked(w.hash, expected, w.walk(n, expected)) && HasKey(expected, Key(p));
    }
  }

  /** Nothing that counts in the target is a name or a link that something else is read as. */
  ghost predicate LegibleTarget(target: Tree, files: seq<Path>) {
    forall p :: Listed(target, files, p) ==> LegiblePath(p) && LegibleNode(target[p])
  }

  lemma LegibleReadable(p: Path)
    requires LegiblePath(p)
    ensures Readable(p)
  {
  }

  lemma MarkedIsIllegible(d: Path)
    requires d != [] && d[|d| - 1].Plain? && HasMark(d[|d| - 1].text)
    ensures !LegiblePath(d)
  {
    assert !Legible(NameText(d[|d| - 1]));
  }

  /** Then the tree has no name that is read as another: the walk would show it. */
  lemma NothingIllegible(w: World, expected: Tree, proposed: Tree, t: Tree, first: nat, files: seq<Path>, n: nat, m: nat, p: Path)
    requires FaithfulStream(w) && Walks(w) && TextList(files, first) && WellFormed(t) && Named(t, first)
    requires Accepted(w, expected, proposed, t, first, files, n, m) && !CollisionSeen(w, t, expected, proposed, files, n, m)
    requires TwinFree(t, Target(expected, proposed, files), files) && LegibleTarget(Target(expected, proposed, files), files)
    requires p in t && !Ignored(p)
    ensures LegiblePath(p)
  {
    if !LegiblePath(p) {
      var d := IllegibleShows(t, p);
      AppliedView(w, expected, proposed, t, first, files, n, m);
      assert Walked(w.hash, t, w.walk(n, t)) && ShownAs(t, d, Key(d)) && HasKey(t, Key(d));
      var y := IntendedShows(w, m, expected, proposed, files, Key(d));
      MarkedIsIllegible(d);
      assert false;
    }
  }

  /** Without twins and over a legible target, a successful call leaves exactly the target tree,
      and no name of its own. */
  lemma ExactWithoutTwins(w: World, expected: Tree, proposed: Tree, t: Tree, first: nat, files: seq<Path>, n: nat, m: nat, p: Path)
    requires FaithfulStream(w) && Walks(w) && TextList(files, first) && WellFormed(t) && Named(t, first)
    requires Accepted(w, expected, proposed, t, first, files, n, m) && !CollisionSeen(w, t, expected, proposed, files, n, m)
    requires TwinFree(t, Target(expected, proposed, files), files) && LegibleTarget(Target(expected, proposed, files), files)
    ensures p in files || !Ignored(p) ==> Get(t, p) == Get(Target(expected, proposed, files), p)
    ensures Own(p, first) ==> p !in t
    ensures p in files && Ignored(p) ==> p !in proposed
  {
    var target := Target(expected, proposed, files);
    AppliedView(w, expected, proposed, t, first, files, n, m);
    assert Walked(w.hash, t, w.walk(n, t));
    if Listed(target, files, p) {
      LegibleReadable(p);
      IntendedHas(w, m, expected, proposed, files, p);
      assert HasKey(t, Key(p));
      var x :| ShownAs(t, x, Key(p));
      assert x == p;
    }
    if p in files {
      FileExact(w, expected, proposed, t, first, files, n, m, p);
    } else if p in t && !Ignored(p) {
      NothingIllegible(w, expected, proposed, t, first, files, n, m, p);
      LegibleReadable(p);
      ShownExact(w, expected, proposed, t, first, files, n, m, p);
    }
  }

  lemma FileExact(w: World, expected: Tree, proposed: Tree, t: Tree, first: nat, files: seq<Path>, n: nat, m: nat, p: Path)
    requires Accepted(w, expected, proposed, t, first, files, n, m) && !CollisionSeen(w, t, expected, proposed, files, n, m)
    requires p in files
    ensures Get(t, p) == Get(Target(expected, proposed, files), p)
  {
    var i :| 0 <= i < |files| && files[i] == p;
    assert FileApplied(w.hash, proposed, t, files[i]);
    SameRecord(w.hash, t, Target(expected, proposed, files), p);
  }

  lemma ShownExact(w: World, expected: Tree, proposed: Tree, t: Tree, first: nat, files: seq<Path>, n: nat, m: nat, p: Path)
    requires FaithfulStream(w) && Walks(w) && TextList(files, first)
    requires Accepted(w, expected, proposed, t, first, files, n, m) && !CollisionSeen(w, t, expected, proposed, files, n, m)
    requires TwinFree(t, Target(expected, proposed, files), files) && LegibleTarget(Target(expected, proposed, files), files)
    requires Shown(t, p)
    ensures Get(t, p) == Get(Target(expected, proposed, files), p)
  {
    var target := Target(expected, proposed, files);
    AppliedView(w, expected, proposed, t, first, files, n, m);
    assert Walked(w.hash, t, w.walk(n, t)) && ShownAs(t, p, Key(p)) && HasKey(t, Key(p));
    var y := IntendedShows(w, m, expected, proposed, files, Key(p));
    assert y == p;
    WalkedAt(w.hash, t, w.walk(n, t), p);
    SameRecord(w.hash, t, target, p);
    if LinksReadAlike(t, target, p) { LegibleAlone(t[p].target, target[p].target); }
  }

  // What outsiders may do

  ghost predicate Outside(t: Tree, first: nat, ok: Path -> bool) { forall p :: p in t && !Own(p, first) ==> ok(p) }

  ghost predicate HooksKeep(w: World, first: nat, ok: Path -> bool) {
    forall n, t :: WellFormed(t) && Outside(t, first, ok) ==> WellFormed(w.hook(n, t).0) && Outside(w.hook(n, t).0, first, ok)
  }

  /** What outsiders keep of the names in the tree, a run keeps. */
  lemma {:induction false} RunKeeps(w: World, expected: Tree, proposed: Tree, start: Tree, first: nat, files: seq<Path>,
                                    log: seq<Turn>, k: nat, ok: Path -> bool)
    requires WellFormed(start) && Outside(start, first, ok) && HooksKeep(w, first, ok)
    requires Commits(w, expected, proposed, start, first, files, log, k)
    requires forall i :: 0 <= i < |files| && Safe(expected, files[i]) ==> ok(files[i])
    ensures WellFormed(Final(start, log)) && Outside(Final(start, log), first, ok)
    decreases |log|
  {
    if log != [] {
      var n := |log| - 1;
      RunKeeps(w, expected, proposed, start, first, files, log[..n], n, ok);
      var turn := log[n];
      assert WellFormed(turn.seen) && Outside(turn.seen, first, ok);
      forall p | p in turn.left && !Own(p, first) ensures ok(p) {
        if k == n + 1 && p != files[n] { assert Get(turn.left, p) == Get(turn.seen, p); }
      }
    }
  }

  lemma StagedKeeps(base: Tree, staged: Tree, first: nat, ok: Path -> bool)
    requires SameOutside(base, staged, first) && Outside(base, first, ok)
    ensures Outside(staged, first, ok)
  {
    forall p | p in staged && !Own(p, first) ensures ok(p) { assert Get(base, p) == Get(staged, p); }
  }

  lemma TargetPlain(w: World, expected: Tree, proposed: Tree, t: Tree, first: nat, files: seq<Path>, n: nat, m: nat)
    requires TextList(files, first) && Accepted(w, expected, proposed, t, first, files, n, m)
    requires WellFormed(expected) && PlainTree(expected) && WellFormed(t) && PlainTree(t)
    ensures TwinFree(t, Target(expected, proposed, files), files)
  {
    AcceptedPlain(w, expected, proposed, t, first, files, n, m);
    var target := Target(expected, proposed, files);
    forall x, y | (Shown(t, x) || x in files) && Listed(target, files, y) && Key(x) == Key(y) ensures x == y {
      assert forall z :: z in files ==> z != [] && PosixPath(z) && PlainPath(z);
      KeyInjective(x, y);
    }
  }

  /** A successful call, whose run ended over this tree. */
  ghost predicate Succeeded(w: World, base: Tree, expected: Tree, proposed: Tree, first: nat, files: seq<Path>, run: Run) {
    && FaithfulStream(w) && Walks(w) && TextList(files, first) && Reached(w, base, expected, proposed, first, files, run)
    && Accepted(w, expected, proposed, run.last, first, files, run.checked, run.planned)
    && !CollisionSeen(w, run.last, expected, proposed, files, run.checked, run.planned)
  }

  /** If the expected and the starting tree hold no name with a backslash, outsiders make none, and
      the target is legible, a successful call leaves exactly the target tree. */
  lemma AppliedExactly(w: World, base: Tree, expected: Tree, proposed: Tree, first: nat, files: seq<Path>, run: Run, p: Path)
    requires Succeeded(w, base, expected, proposed, first, files, run)
    requires WellFormed(expected) && PlainTree(expected) && Outside(base, first, PlainPath) && HooksKeep(w, first, PlainPath)
    requires LegibleTarget(Target(expected, proposed, files), files)
    ensures p in files || !Ignored(p) ==> Get(run.last, p) == Get(Target(expected, proposed, files), p)
    ensures Own(p, first) ==> p !in run.last
    ensures p in files && Ignored(p) ==> p !in proposed
  {
    StagedKeeps(base, run.staged, first, PlainPath);
    forall i | 0 <= i < |files| && Safe(expected, files[i]) ensures PlainPath(files[i]) { SafeIsPlain(expected, files[i]); }
    RunKeeps(w, expected, proposed, run.staged, first, files, run.log, run.k, PlainPath);
    TargetPlain(w, expected, proposed, run.last, first, files, run.checked, run.planned);
    ExactWithoutTwins(w, expected, proposed, run.last, first, files, run.checked, run.planned, p);
  }

  /** Every path of the target that counts is one plain name in the root. */
  ghost predicate FlatTarget(expected: Tree, proposed: Tree, files: seq<Path>) {
    forall p :: Listed(Target(expected, proposed, files), files, p) ==> |p| == 1 && PosixPath(p) && PlainPath(p)
  }

  /** And if besides the target has no directory with something in it, a successful call leaves
      exactly the target tree whatever names outsiders make. */
  lemma FlatExactly(w: World, base: Tree, expected: Tree, proposed: Tree, first: nat, files: seq<Path>, run: Run, p: Path)
    requires Succeeded(w, base, expected, proposed, first, files, run)
    requires Named(base, first) && HooksRespectStaging(w, first)
    requires FlatTarget(expected, proposed, files) && LegibleTarget(Target(expected, proposed, files), files)
    ensures p in files || !Ignored(p) ==> Get(run.last, p) == Get(Target(expected, proposed, files), p)
    ensures Own(p, first) ==> p !in run.last
    ensures p in files && Ignored(p) ==> p !in proposed
  {
    StagedKeeps(base, run.staged, first, NamedPath);
    assert forall t :: Outside(t, first, NamedPath) ==> Named(t, first);
    assert HooksKeep(w, first, NamedPath);
    RunKeeps(w, expected, proposed, run.staged, first, files, run.log, run.k, NamedPath);
    FlatTwinFree(w, expected, proposed, run.last, first, files, run.checked, run.planned);
    ExactWithoutTwins(w, expected, proposed, run.last, first, files, run.checked, run.planned, p);
  }

  lemma FlatTwinFree(w: World, expected: Tree, proposed: Tree, t: Tree, first: nat, files: seq<Path>, n: nat, m: nat)
    requires TextList(files, first) && Accepted(w, expected, proposed, t, first, files, n, m)
    requires Named(t, first) && WellFormed(t) && FlatTarget(expected, proposed, files)
    ensures TwinFree(t, Target(expected, proposed, files), files)
  {
    AcceptedPlain(w, expected, proposed, t, first, files, n, m);
    assert forall z :: z in files ==> z != [] && NamedPath(z);
    forall x, y | (Shown(t, x) || x in files) && Listed(Target(expected, proposed, files), files, y) && Key(x) == Key(y)
      ensures x == y {
      NoOtherKey(y, x);
    }
  }

  // Failure

  /** The tree outsiders left at the last hook that ran. */
  function LastSeen(run: Run): Tree {
    if run.log == [] then run.staged else run.log[|run.log| - 1].seen
  }

  /** How many files were committed before that hook. */
  function CommittedBefore(run: Run): nat {
    if run.log == [] then 0 else |run.log| - 1
  }

  /** Whether a file committed earlier still was as committed after the last hook. */
  ghost predicate StillOurs(hash: Hash, proposed: Tree, files: seq<Path>, run: Run, p: Path) {
    Among(files, CommittedBefore(run), p) && FileApplied(hash, proposed, LastSeen(run), p)
  }

  /** Ours is judged by the record: the file is the one proposed, or its contents collide. */
  lemma OursIsProposed(hash: Hash, proposed: Tree, files: seq<Path>, run: Run, p: Path)
    requires StillOurs(hash, proposed, files, run, p)
    ensures Get(LastSeen(run), p) == Get(proposed, p) || ContentsCollide(hash, LastSeen(run), proposed, p)
  {
    SameRecord(hash, LastSeen(run), proposed, p);
  }

  // The items that the rollback restores, in terms of the run.
  lemma ChosenMeans(w: World, base: Tree, expected: Tree, proposed: Tree, first: nat, files: seq<Path>, run: Run, p: Path)
    requires Reached(w, base, expected, proposed, first, files, run)
    ensures Chosen(w.hash, run.last, run.items, 0, p) <==>
      Among(files, run.k, p) && FileApplied(w.hash, proposed, run.last, p)
  {
    if Among(files, run.k, p) {
      var i :| 0 <= i < run.k && i < |files| && files[i] == p;
      assert run.items[i].path == p;
    }
  }

  // The last turn changed its own file only, from the expected to the proposed state.
  lemma LastTurn(w: World, base: Tree, expected: Tree, proposed: Tree, first: nat, files: seq<Path>, run: Run, p: Path)
    requires Reached(w, base, expected, proposed, first, files, run) && !Own(p, first)
    requires FileList(files, first)
    ensures SameDirs(LastSeen(run), run.last)
    ensures CommittedBefore(run) <= run.k <= CommittedBefore(run) + 1
    ensures Among(files, run.k, p) && !Among(files, CommittedBefore(run), p) ==>
      && ExpectedState(LastSeen(run), expected, p) && Get(run.last, p) == Get(proposed, p)
      && FileApplied(w.hash, proposed, run.last, p)
    ensures Among(files, run.k, p) <== Among(files, CommittedBefore(run), p)
    ensures !Among(files, run.k, p) || Among(files, CommittedBefore(run), p) ==> Get(run.last, p) == Get(LastSeen(run), p)
  {
    if run.log != [] {
      var n := |run.log| - 1;
      AmongStep(files, n, p);
      if run.k == n + 1 {
        SafeIffSafe(LastSeen(run), run.last, files[n]);
        assert run.items[n].installed;
        assert !Among(files, n, files[n]);
      }
    }
  }

  /** After a failed call, even one whose rollback also failed, a file is as the last hook left
      it; or it was committed in the last turn; or it still was ours and now is as expected. */
  lemma NothingClobbered(w: World, base: Tree, expected: Tree, proposed: Tree, t: Tree, first: nat, next: nat,
                         files: seq<Path>, run: Run, faultless: bool, p: Path)
    requires FileList(files, first) && !Own(p, first)
    requires Reached(w, base, expected, proposed, first, files, run)
    requires Undoing(w.hash, faultless, run.last, expected, t, first, next, run.items, 0, 0)
    ensures
      || Get(t, p) == Get(LastSeen(run), p)
      || (StillOurs(w.hash, proposed, files, run, p) && Get(t, p) == Get(expected, p))
      || (Among(files, run.k, p) && !Among(files, CommittedBefore(run), p)
          && ExpectedState(LastSeen(run), expected, p) && Get(t, p) == Get(proposed, p))
    ensures StillOurs(w.hash, proposed, files, run, p) ==>
      Get(LastSeen(run), p) == Get(proposed, p) || ContentsCollide(w.hash, LastSeen(run), proposed, p)
  {
    if StillOurs(w.hash, proposed, files, run, p) { OursIsProposed(w.hash, proposed, files, run, p); }
    LastTurn(w, base, expected, proposed, first, files, run, p);
    ChosenMeans(w, base, expected, proposed, first, files, run, p);
    SafeIffSafe(LastSeen(run), run.last, p);
  }

  /** A rollback without faults restores every committed file that still was ours, leaves every
      other path as outsiders left it, and removes every name of its own. */
  lemma RolledBackExactly(w: World, base: Tree, expected: Tree, proposed: Tree, t: Tree, first: nat, next: nat,
                          files: seq<Path>, run: Run, p: Path)
    requires FileList(files, first)
    requires Reached(w, base, expected, proposed, first, files, run)
    requires Undoing(w.hash, true, run.last, expected, t, first, next, run.items, 0, 0)
    ensures !Own(p, first) ==>
      Get(t, p) == if StillOurs(w.hash, proposed, files, run, p) then Get(expected, p) else Get(LastSeen(run), p)
    ensures Own(p, first) ==> p !in t
    ensures StillOurs(w.hash, proposed, files, run, p) ==>
      Get(LastSeen(run), p) == Get(proposed, p) || ContentsCollide(w.hash, LastSeen(run), proposed, p)
  {
    if StillOurs(w.hash, proposed, files, run, p) { OursIsProposed(w.hash, proposed, files, run, p); }
    if !Own(p, first) {
      LastTurn(w, base, expected, proposed, first, files, run, p);
      ChosenMeans(w, base, expected, proposed, first, files, run, p);
      SafeIffSafe(LastSeen(run), run.last, p);
    }
  }

  // Nobody else edits

  /** A spared file that was committed still is ours, over a file that was as expected. */
  lemma {:induction false} SparedCommits(w: World, expected: Tree, proposed: Tree, start: Tree, first: nat,
                                        files: seq<Path>, log: seq<Turn>, k: nat, p: Path)
    requires Spares(w, p) && FileList(files, first) && !Own(p, first)
    requires Commits(w, expected, proposed, start, first, files, log, k) && Among(files, k, p)
    ensures Safe(Final(start, log), p) && Get(start, p) == Get(expected, p)
    decreases |log|
  {
    var n := |log| - 1;
    SparedRun(w, expected, proposed, start, first, files, log[..n], n, p);
    AmongStep(files, n, p);
    if Among(files, n, p) {
      SparedCommits(w, expected, proposed, start, first, files, log[..n], n, p);
    }
    SafeIffSafe(log[n].seen, log[n].left, p);
  }

  /** If nobody else edits and the rollback meets no fault, a failed call changes nothing at all. */
  lemma FailureChangesNothing(w: World, base: Tree, expected: Tree, proposed: Tree, t: Tree, first: nat, next: nat,
                              files: seq<Path>, run: Run)
    requires Quiet(w) && FileList(files, first)
    requires forall p :: p in base ==> !Own(p, first)
    requires Reached(w, base, expected, proposed, first, files, run)
    requires Undoing(w.hash, true, run.last, expected, t, first, next, run.items, 0, 0)
    ensures t == base
  {
    forall p ensures Get(t, p) == Get(base, p) {
      RolledBackExactly(w, base, expected, proposed, t, first, next, files, run, p);
      if !Own(p, first) { QuietRestores(w, base, expected, proposed, first, files, run, p); }
    }
    assert forall p :: p in t <==> Get(t, p).Some?;
    assert forall p :: p in base <==> Get(base, p).Some?;
  }

  lemma QuietRestores(w: World, base: Tree, expected: Tree, proposed: Tree, first: nat, files: seq<Path>, run: Run, p: Path)
    requires Quiet(w) && FileList(files, first) && !Own(p, first)
    requires Reached(w, base, expected, proposed, first, files, run)
    ensures Get(base, p) == if StillOurs(w.hash, proposed, files, run, p) then Get(expected, p) else Get(LastSeen(run), p)
  {
    if run.log != [] {
      var n := |run.log| - 1;
      SparedRun(w, expected, proposed, run.staged, first, files, run.log[..n], n, p);
      if Among(files, n, p) {
        SparedCommits(w, expected, proposed, run.staged, first, files, run.log[..n], n, p);
        var i :| 0 <= i < n && i < |files| && files[i] == p;
        assert run.items[i].installed;
      }
    }
  }
}

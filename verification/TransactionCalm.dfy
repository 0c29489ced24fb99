/** When an undisturbed `applyCandidateFiles` call succeeds. */
module TransactionCalm {
  import opened Wrappers
  import opened Unicode
  import opened RepositoryTree
  import opened Transaction
  import opened TransactionCommit
  import opened TransactionApply
  import opened TransactionAtomicity

  /** A name that a changed file may have. */
  predicate PathPart(text: Bytes) {
    && text != Ascii("") && text != Ascii(".") && text != Ascii("..")
    && forall i :: 0 <= i < |text| ==> text[i] !in {0x2f, 0x5c, 0}
  }

  predicate DirectoryIn(t: Tree, p: Path) { p in t && t[p].Dir? }

  /** What lets one changed file be applied: its directories exist on all three sides, at any depth,
      the starting tree has the expected file or nothing there, and the proposed tree has a file
      there or there is one to delete. */
  predicate Applicable(base: Tree, expected: Tree, proposed: Tree, file: Path) {
    && file != [] && (forall i :: 0 <= i < |file| ==> file[i].Plain? ==> PathPart(file[i].text))
    && (forall k :: 0 < k < |file| ==>
          DirectoryIn(base, file[..k]) && DirectoryIn(expected, file[..k]) && DirectoryIn(proposed, file[..k]))
    && (if file in base then base[file].File? && file in expected && expected[file] == base[file] else file !in expected)
    && (if file in proposed then proposed[file].File? else file in base)
  }

  lemma PathPartIsSafe(text: Bytes)
    ensures PathPart(text) <==> SafeName(Plain(text))
  {
    assert Ascii("") == [] && Ascii(".") == [0x2e] && Ascii("..") == [0x2e, 0x2e];
  }

  predicate AllApplicable(base: Tree, expected: Tree, proposed: Tree, files: seq<Path>) {
    forall i :: 0 <= i < |files| ==> Applicable(base, expected, proposed, files[i])
  }

  /** The same in terms of what staging, and the commit after it, check. */
  predicate AllChecked(base: Tree, expected: Tree, proposed: Tree, files: seq<Path>) {
    AllStageable(base, expected, proposed, files) && forall i :: 0 <= i < |files| ==> files[i] in proposed || files[i] in base
  }

  lemma ApplicableChecks(base: Tree, expected: Tree, proposed: Tree, file: Path)
    ensures Applicable(base, expected, proposed, file) <==>
      Stageable(base, expected, proposed, file) && (file in proposed || file in base)
  {
    forall i | 0 <= i < |file| && file[i].Plain? ensures PathPart(file[i].text) <==> SafeName(file[i]) {
      PathPartIsSafe(file[i].text);
    }
    if Stageable(base, expected, proposed, file) {
      assert forall i :: 0 <= i < |file| ==> SafeName(file[i]);
    }
    assert file in base <==> Get(base, file).Some?;
    assert file in expected <==> Get(expected, file).Some?;
  }

  lemma AllApplicableChecks(base: Tree, expected: Tree, proposed: Tree, files: seq<Path>)
    ensures AllApplicable(base, expected, proposed, files) <==> AllChecked(base, expected, proposed, files)
  {
    forall i | 0 <= i < |files|
      ensures Applicable(base, expected, proposed, files[i]) <==>
        Stageable(base, expected, proposed, files[i]) && (files[i] in proposed || files[i] in base) {
      ApplicableChecks(base, expected, proposed, files[i]);
    }
  }

  /** Each key of the walk belongs to one entry, and no entry has the key of a changed file but
      the file itself. */
  ghost predicate Unshadowed(t: Tree, files: seq<Path>) {
    && (forall x, y :: Shown(t, x) && Shown(t, y) && Key(x) == Key(y) ==> x == y)
    && forall x, y :: Shown(t, x) && y in files && Key(x) == Key(y) ==> x == y
  }

  // What an undisturbed run leaves

  lemma CheckedMeansCommittable(base: Tree, staged: Tree, expected: Tree, proposed: Tree, first: nat, file: Path)
    requires SameOutside(base, staged, first) && SameDirs(base, staged) && !Own(file, first)
    ensures Stageable(base, expected, proposed, file) && (file in proposed || file in base) ==>
      Committable(staged, expected, proposed, file)
    ensures Committable(staged, expected, proposed, file) ==> file in proposed || file in base
  {
    StageableAlike(base, staged, first, expected, proposed, file);
    assert Get(base, file) == Get(staged, file);
  }

  // Every file was committed: a spared one is in place, and no stage is left.
  lemma InPlace(w: World, base: Tree, expected: Tree, proposed: Tree, first: nat, files: seq<Path>, run: Run, i: nat)
    requires TextList(files, first) && Reached(w, base, expected, proposed, first, files, run)
    requires run.k == |files| == |run.items| && i < |files| && Spares(w, files[i])
    ensures FileApplied(w.hash, proposed, run.last, files[i])
  {
    assert Among(files, run.k, files[i]);
    assert run.items[i].installed;
    SparedRun(w, expected, proposed, run.staged, first, files, run.log, run.k, files[i]);
    SparedCommits(w, expected, proposed, run.staged, first, files, run.log, run.k, files[i]);
    assert files[i] in run.last <==> Get(run.last, files[i]).Some?;
    assert files[i] in proposed <==> Get(proposed, files[i]).Some?;
  }

  lemma NoStageLeft(w: World, base: Tree, expected: Tree, proposed: Tree, first: nat, files: seq<Path>, run: Run)
    requires Reached(w, base, expected, proposed, first, files, run) && Tracked(run.last, first, run.items)
    requires run.k == |files| == |run.items|
    ensures forall p :: p in run.last ==> !Own(p, first)
  {
    assert forall i, p :: 0 <= i < |run.items| ==> !HoldsStage(run.items[i], p);
  }

  /** At the end of a complete run, a path that outsiders spare is as in the starting tree with
      every changed file as proposed. */
  lemma SparedEnd(w: World, base: Tree, expected: Tree, proposed: Tree, first: nat, files: seq<Path>, run: Run, p: Path)
    requires SparesPath(w, p) && TextList(files, first) && Reached(w, base, expected, proposed, first, files, run)
    requires Tracked(run.last, first, run.items) && run.k == |files| == |run.items|
    requires forall q :: q in base ==> !Own(q, first)
    ensures Get(run.last, p) == Get(Target(base, proposed, files), p)
  {
    NoStageLeft(w, base, expected, proposed, first, files, run);
    if Own(p, first) {
      assert p !in files && p !in base && p !in run.last;
    } else {
      SparedRun(w, expected, proposed, run.staged, first, files, run.log, run.k, p);
      assert Among(files, run.k, p) <==> p in files;
    }
  }

  // What the walk of that tree shows

  ghost predicate FilesOk(proposed: Tree, files: seq<Path>) {
    && PlainFiles(files) && (forall i :: 0 <= i < |files| ==> Readable(files[i]))
    && forall i :: 0 <= i < |files| && Ignored(files[i]) ==> files[i] !in proposed
  }

  lemma OtherFile(files: seq<Path>, x: Path, y: Path)
    requires PlainFiles(files) && x in files && y in files && Key(x) == Key(y)
    ensures x == y
  {
    var i :| 0 <= i < |files| && files[i] == x;
    var j :| 0 <= j < |files| && files[j] == y;
    FileKeys(files, i, j);
  }

  lemma EndUnshadowed(base: Tree, proposed: Tree, files: seq<Path>)
    requires FilesOk(proposed, files) && Unshadowed(base, files)
    ensures Unshadowed(Target(base, proposed, files), files)
  {
    var end := Target(base, proposed, files);
    forall x, y | Shown(end, x) && (Shown(end, y) || y in files) && Key(x) == Key(y) ensures x == y {
      if x in files && y in files { OtherFile(files, x, y); }
    }
  }

  /** The walk of a tree with one entry for each key. */
  lemma UnshadowedWalk(w: World, n: nat, t: Tree, files: seq<Path>, p: Path)
    requires Walks(w) && Unshadowed(t, files) && Shown(t, p)
    ensures InView(w.walk(n, t), Key(p)) == Some(RecordOf(w.hash, t[p]))
  {
    assert Walked(w.hash, t, w.walk(n, t));
    WalkedAt(w.hash, t, w.walk(n, t), p);
  }

  lemma AbsentWalk(w: World, n: nat, t: Tree, key: Bytes)
    requires Walks(w) && !HasKey(t, key)
    ensures InView(w.walk(n, t), key) == None
  {
    assert Walked(w.hash, t, w.walk(n, t));
  }

  lemma EndShowsFile(w: World, n: nat, base: Tree, expected: Tree, proposed: Tree, files: seq<Path>, i: nat)
    requires Walks(w) && FilesOk(proposed, files) && Unshadowed(base, files) && i < |files|
    ensures InView(w.walk(n, Target(base, proposed, files)), Key(files[i])) == RecordAt(w.hash, proposed, files[i])
  {
    var end, f := Target(base, proposed, files), files[i];
    EndUnshadowed(base, proposed, files);
    if f in proposed {
      UnshadowedWalk(w, n, end, files, f);
    } else {
      assert f in files;
      assert forall x :: ShownAs(end, x, Key(f)) ==> x == f;
      AbsentWalk(w, n, end, Key(f));
    }
  }

  lemma EndShowsOther(w: World, n: nat, base: Tree, proposed: Tree, files: seq<Path>, key: Bytes)
    requires Walks(w) && FilesOk(proposed, files) && Unshadowed(base, files)
    requires forall i :: 0 <= i < |files| ==> Key(files[i]) != key
    ensures InView(w.walk(n, Target(base, proposed, files)), key) == InView(w.walk(n, base), key)
  {
    var end := Target(base, proposed, files);
    EndUnshadowed(base, proposed, files);
    assert forall x :: x in files ==> Key(x) != key;
    if x :| ShownAs(base, x, key) {
      assert x in end && end[x] == base[x];
      UnshadowedWalk(w, n, base, files, x);
      UnshadowedWalk(w, n, end, files, x);
    } else {
      forall x | ShownAs(end, x, key) ensures false { assert ShownAs(base, x, key); }
      AbsentWalk(w, n, base, key);
      AbsentWalk(w, n, end, key);
    }
  }

  /** When the starting tree is walked like the expected one, the tree that an undisturbed run
      leaves is walked as intended. */
  lemma EndAsIntended(w: World, base: Tree, expected: Tree, proposed: Tree, files: seq<Path>)
    requires Walks(w) && FilesOk(proposed, files) && Unshadowed(base, files) && w.walk(0, base) == w.walk(0, expected)
    ensures w.walk(0, Target(base, proposed, files)) == Intended(w, 0, expected, proposed, files)
  {
    var walked, intended := w.walk(0, Target(base, proposed, files)), Intended(w, 0, expected, proposed, files);
    forall key ensures InView(walked, key) == InView(intended, key) {
      IntendedAt(w, 0, expected, proposed, files, key);
      if i :| 0 <= i < |files| && Key(files[i]) == key {
        EndShowsFile(w, 0, base, expected, proposed, files, i);
      } else {
        EndShowsOther(w, 0, base, proposed, files, key);
      }
    }
    SameViews(walked, intended);
  }

  // Nothing interferes

  /** What is assumed of the trees before a call: they are walked alike, and each changed file has
      a key of its own. */
  ghost predicate Prepared(w: World, base: Tree, expected: Tree, proposed: Tree, first: nat, files: seq<Path>) {
    && Walks(w) && StableStream(w) && TextList(files, first) && WellFormed(base) && (forall q :: q in base ==> !Own(q, first))
    && w.walk(0, base) == w.walk(0, expected) && Walkable(base) && Walkable(expected) && Unshadowed(base, files)
    && forall i :: 0 <= i < |files| && Ignored(files[i]) ==> files[i] !in proposed
  }

  /** And what a call then goes through. */
  ghost predicate Sound(w: World, base: Tree, expected: Tree, proposed: Tree, first: nat, files: seq<Path>, run: Run) {
    && Prepared(w, base, expected, proposed, first, files)
    && Reached(w, base, expected, proposed, first, files, run) && Tracked(run.last, first, run.items)
    && (MayCommit(w, base, expected, proposed, files, run) ==> run.k == |run.items| == |files|)
  }

  lemma CommittedPlain(w: World, base: Tree, expected: Tree, proposed: Tree, first: nat, files: seq<Path>, run: Run)
    requires AllSpared(w, files) && TextList(files, first) && Reached(w, base, expected, proposed, first, files, run)
    requires run.k == |files| == |run.items|
    ensures PlainFiles(files)
    ensures forall i :: 0 <= i < |files| ==> Committable(run.staged, expected, proposed, files[i])
  {
    forall i | 0 <= i < |files|
      ensures Committable(run.staged, expected, proposed, files[i])
      ensures files[i] != [] && PosixPath(files[i]) && PlainPath(files[i]) {
      WasCommittable(w, expected, proposed, run.staged, first, files, run.log, run.k, i);
      SafeIsPlain(expected, files[i]);
    }
  }

  lemma AllInPlace(w: World, base: Tree, expected: Tree, proposed: Tree, first: nat, files: seq<Path>, run: Run)
    requires AllSpared(w, files) && TextList(files, first) && Reached(w, base, expected, proposed, first, files, run)
    requires run.k == |files| == |run.items|
    ensures PlainFiles(files)
    ensures forall i :: 0 <= i < |files| ==> Committable(run.staged, expected, proposed, files[i])
    ensures forall i :: 0 <= i < |files| ==> FileApplied(w.hash, proposed, run.last, files[i])
  {
    CommittedPlain(w, base, expected, proposed, first, files, run);
    forall i | 0 <= i < |files| ensures FileApplied(w.hash, proposed, run.last, files[i]) {
      InPlace(w, base, expected, proposed, first, files, run, i);
    }
  }

  lemma QuietSpares(w: World, files: seq<Path>)
    requires Quiet(w)
    ensures AllSpared(w, files)
  {
    forall i | 0 <= i < |files| ensures Spares(w, files[i]) {}
  }

  lemma EndsIff(w: World, expected: Tree, proposed: Tree, t: Tree, files: seq<Path>)
    requires w.walk(0, t) == Intended(w, 0, expected, proposed, files)
    requires forall i :: 0 <= i < |files| ==> FileApplied(w.hash, proposed, t, files[i])
    ensures EndsAsIntended(w, expected, proposed, t, files) <==> Walkable(t)
  {
  }

  lemma CalmEnd(w: World, base: Tree, expected: Tree, proposed: Tree, first: nat, files: seq<Path>, run: Run)
    requires Quiet(w) && Sound(w, base, expected, proposed, first, files, run) && run.k == |files| == |run.items|
    ensures run.last == Target(base, proposed, files)
    ensures EndsAsIntended(w, expected, proposed, run.last, files) <==> Walkable(run.last)
    ensures forall i :: 0 <= i < |files| ==> Committable(run.staged, expected, proposed, files[i])
  {
    QuietSpares(w, files);
    AllInPlace(w, base, expected, proposed, first, files, run);
    CalmTree(w, base, expected, proposed, first, files, run);
    EndAsIntended(w, base, expected, proposed, files);
    EndsIff(w, expected, proposed, run.last, files);
  }

  lemma CalmTree(w: World, base: Tree, expected: Tree, proposed: Tree, first: nat, files: seq<Path>, run: Run)
    requires Quiet(w) && TextList(files, first) && Reached(w, base, expected, proposed, first, files, run)
    requires Tracked(run.last, first, run.items) && run.k == |files| == |run.items|
    requires forall q :: q in base ==> !Own(q, first)
    ensures run.last == Target(base, proposed, files)
  {
    var end := Target(base, proposed, files);
    forall p ensures Get(run.last, p) == Get(end, p) { SparedEnd(w, base, expected, proposed, first, files, run, p); }
    SameTrees(run.last, end);
  }

  lemma SameTrees(a: Tree, b: Tree)
    requires forall p :: Get(a, p) == Get(b, p)
    ensures a == b
  {
    assert forall p :: p in a <==> Get(a, p).Some?;
    assert forall p :: p in b <==> Get(b, p).Some?;
  }

  lemma AllCommittableMeans(base: Tree, expected: Tree, proposed: Tree, first: nat, files: seq<Path>, staged: Tree)
    requires SameOutside(base, staged, first) && SameDirs(base, staged) && TextList(files, first)
    ensures AllChecked(base, expected, proposed, files) ==> AllCommittable(staged, expected, proposed, files)
    ensures AllCommittable(staged, expected, proposed, files) ==> forall i :: 0 <= i < |files| ==> files[i] in proposed || files[i] in base
  {
    forall i | 0 <= i < |files|
      ensures AllChecked(base, expected, proposed, files) ==> Committable(staged, expected, proposed, files[i])
      ensures Committable(staged, expected, proposed, files[i]) ==> files[i] in proposed || files[i] in base {
      CheckedMeansCommittable(base, staged, expected, proposed, first, files[i]);
    }
  }

  lemma CalmChecks(w: World, base: Tree, expected: Tree, proposed: Tree, first: nat, files: seq<Path>, run: Run)
    requires Quiet(w) && Smooth(w) && Sound(w, base, expected, proposed, first, files, run)
    ensures Decides(w, base, expected, proposed, files, run) <==>
      AllChecked(base, expected, proposed, files) && Walkable(Target(base, proposed, files))
  {
    QuietSpares(w, files);
    AllCommittableMeans(base, expected, proposed, first, files, run.staged);
    if run.k == |files| == |run.items| { CalmEnd(w, base, expected, proposed, first, files, run); }
  }

  /** When nothing fails and nobody interferes, no changed file is shadowed and no proposed one is
      below an ignored directory, the call succeeds exactly when every changed file, at whatever depth,
      is applicable and the tree that results can be walked. */
  lemma CalmApplies(w: World, base: Tree, expected: Tree, proposed: Tree, first: nat, files: seq<Path>, run: Run)
    requires Quiet(w) && Smooth(w) && Sound(w, base, expected, proposed, first, files, run)
    ensures Decides(w, base, expected, proposed, files, run) <==>
      AllApplicable(base, expected, proposed, files) && Walkable(Target(base, proposed, files))
  {
    CalmChecks(w, base, expected, proposed, first, files, run);
    AllApplicableChecks(base, expected, proposed, files);
  }
}

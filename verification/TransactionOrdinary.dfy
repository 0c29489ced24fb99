/** `applyCandidateFiles` as its caller sees it, undisturbed and over trees with ordinary names. */
module TransactionOrdinary {
  import opened Wrappers
  import opened Unicode
  import opened GitPath
  import opened Spelling
  import opened RepositoryTree
  import opened Transaction
  import opened TransactionCommit
  import opened TransactionRollback
  import opened TransactionApply
  import opened TransactionAtomicity
  import opened TransactionCalm
  import opened TransactionTwins

  lemma OrdinaryUnshadowed(t: Tree, files: seq<Path>)
    requires WellFormed(t) && OrdinaryTree(t)
    requires forall i :: 0 <= i < |files| ==> files[i] != [] && PosixPath(files[i]) && PlainPath(files[i])
    ensures Unshadowed(t, files)
  {
    forall x, y | Shown(t, x) && (Shown(t, y) || y in files) && Key(x) == Key(y) ensures x == y {
      KeyInjective(x, y);
    }
  }

  /** Every listed name is there as it was read. */
  lemma OrdinaryWalkable(t: Tree)
    requires WellFormed(t) && OrdinaryTree(t)
    ensures Walkable(t)
  {
    forall p | p in t && Visited(t, p) ensures Decoded(p) in t { OrdinaryIsPlain(p); }
  }

  /** The starting tree is the expected one where walks look, and nothing is applied below what they
      skip. */
  ghost predicate Planned(base: Tree, expected: Tree, proposed: Tree, files: seq<Path>) {
    && WellFormed(base) && WellFormed(expected) && OrdinaryTree(base) && OrdinaryTree(expected)
    && (forall p :: !SkippedPath(p) ==> Get(base, p) == Get(expected, p))
    && (forall i, j :: 0 <= i < j < |files| ==> files[i] != files[j])
    && (forall i, k :: 0 <= i < |files| && 0 <= k < |files[i]| ==>
          files[i][k].Plain? && DecodeUtf8(files[i][k].text).Some?)
    && forall i :: 0 <= i < |files| && SkippedPath(files[i]) ==> files[i] !in proposed
  }

  /** No step fails, nobody interferes, and walks and streams do not depend on their time. */
  ghost predicate Calm(w: World) {
    && Walks(w) && StableStream(w) && (forall n, t :: w.hook(n, t) == (t, false))
    && forall n :: !w.fault(n) && !w.rollbackFault(n)
  }

  lemma CalmIsQuiet(w: World, first: nat)
    requires Calm(w)
    ensures Quiet(w) && Smooth(w) && Steady(w) && Faultless(w) && HooksRespectStaging(w, first)
  {
  }

  lemma WalkedSame(w: World, base: Tree, expected: Tree, proposed: Tree, files: seq<Path>)
    requires Walks(w) && Planned(base, expected, proposed, files)
    ensures w.walk(0, base) == w.walk(0, expected)
  {
    OrdinaryUnshadowed(expected, []);
    OrdinaryUnshadowed(base, []);
    forall p ensures Shown(base, p) <==> Shown(expected, p) {
      SkippedIsIgnored(p);
      assert p in base <==> Get(base, p).Some?;
      assert p in expected <==> Get(expected, p).Some?;
    }
    forall x | Shown(expected, x) ensures x in base && RecordOf(w.hash, base[x]) == RecordOf(w.hash, expected[x]) {
      SkippedIsIgnored(x);
      assert Get(base, x) == Get(expected, x);
    }
    SameShown(w, base, expected, []);
  }

  lemma PlannedIsPrepared(w: World, base: Tree, expected: Tree, proposed: Tree, first: nat, files: seq<Path>)
    requires Calm(w) && Planned(base, expected, proposed, files)
    requires forall i :: 0 <= i < |files| ==> files[i] != [] && PosixPath(files[i]) && PlainPath(files[i])
    ensures Prepared(w, base, expected, proposed, first, files)
  {
    WalkedSame(w, base, expected, proposed, files);
    OrdinaryUnshadowed(base, files);
    OrdinaryWalkable(base);
    OrdinaryWalkable(expected);
    forall i | 0 <= i < |files| ensures Ignored(files[i]) ==> files[i] !in proposed { SkippedIsIgnored(files[i]); }
    forall p | Own(p, first) ensures p !in base { OwnIsNotPlain(p, first); }
    PlannedTexts(base, expected, proposed, first, files);
  }

  lemma OwnIsNotPlain(p: Path, first: nat)
    requires Own(p, first)
    ensures !NamedPath(p) && !OrdinaryPath(p)
  {
    assert !p[|p| - 1].Plain?;
  }

  lemma PlannedTexts(base: Tree, expected: Tree, proposed: Tree, first: nat, files: seq<Path>)
    requires Planned(base, expected, proposed, files)
    ensures TextList(files, first)
  {
    forall i | 0 <= i < |files| ensures NamedPath(files[i]) && Readable(files[i]) && !Own(files[i], first) {
      assert forall k :: 0 <= k < |files[i]| ==> files[i][k].Plain? && DecodeUtf8(files[i][k].text).Some?;
      if Own(files[i], first) { OwnIsNotPlain(files[i], first); }
    }
  }

  /** The tree with every changed file as proposed. */
  predicate AppliedOver(base: Tree, t: Tree, proposed: Tree, files: seq<Path>, p: Path) {
    Get(t, p) == if p in files then Get(proposed, p) else Get(base, p)
  }

  lemma EndIsOrdinary(base: Tree, expected: Tree, proposed: Tree, files: seq<Path>)
    requires Planned(base, expected, proposed, files) && AllApplicable(base, expected, proposed, files)
    ensures Walkable(Target(base, proposed, files))
  {
    EndIsTree(base, expected, proposed, files);
    var end := Target(base, proposed, files);
    forall p: Path | p in end ensures OrdinaryPath(p) {
      if p in files {
        var i :| 0 <= i < |files| && files[i] == p;
        assert Applicable(base, expected, proposed, files[i]);
        assert forall k :: 0 <= k < |p| ==> p[k].Plain? && DecodeUtf8(p[k].text).Some?;
        assert forall k :: 0 <= k < |p| ==> PathPart(p[k].text);
      }
    }
    OrdinaryWalkable(end);
  }

  /** Whether the call succeeds, from what its caller can see. */
  lemma OrdinaryDecides(w: World, base: Tree, expected: Tree, proposed: Tree, first: nat, files: seq<Path>, run: Run)
    requires Calm(w) && Planned(base, expected, proposed, files)
    requires Reached(w, base, expected, proposed, first, files, run) && Tracked(run.last, first, run.items)
    requires MayCommit(w, base, expected, proposed, files, run) ==> run.k == |run.items| == |files|
    ensures Decides(w, base, expected, proposed, files, run) <==> AllApplicable(base, expected, proposed, files)
    ensures AllApplicable(base, expected, proposed, files) ==> run.last == Target(base, proposed, files)
  {
    CalmIsQuiet(w, first);
    AllApplicableChecks(base, expected, proposed, files);
    if AllStageable(base, expected, proposed, files) {
      forall i | 0 <= i < |files| ensures files[i] != [] && PosixPath(files[i]) && PlainPath(files[i]) {
        assert Stageable(base, expected, proposed, files[i]);
        PlannedTexts(base, expected, proposed, first, files);
        SafeIsPlain(base, files[i]);
      }
      PlannedIsPrepared(w, base, expected, proposed, first, files);
      CalmApplies(w, base, expected, proposed, first, files, run);
      if AllApplicable(base, expected, proposed, files) {
        EndIsOrdinary(base, expected, proposed, files);
        CalmTree(w, base, expected, proposed, first, files, run);
      }
    }
  }

  /** Undisturbed, the call succeeds exactly when every changed file is applicable, at whatever depth.
      It then leaves each as proposed and everything else as it was; otherwise nothing changes. */
  method ApplyOrdinary(repo: Repository, w: World, expected: Tree, proposed: Tree, files: seq<Path>) returns (ok: bool)
    requires Calm(w) && Planned(repo.tree, expected, proposed, files)
    modifies repo
    ensures ok <==> forall i :: 0 <= i < |files| ==> Applicable(old(repo.tree), expected, proposed, files[i])
    ensures ok ==> forall p :: AppliedOver(old(repo.tree), repo.tree, proposed, files, p)
    ensures !ok ==> repo.tree == old(repo.tree)
  {
    ghost var base, first := repo.tree, repo.nextId;
    CalmIsQuiet(w, first);
    PlannedTexts(base, expected, proposed, first, files);
    forall p | p in base ensures !Own(p, first) { if Own(p, first) { OwnIsNotPlain(p, first); } }
    ghost var run;
    ok, run := ApplyCandidateFiles(repo, w, expected, proposed, files);
    OrdinaryDecides(w, base, expected, proposed, first, files, run);
    if !ok { FailureChangesNothing(w, base, expected, proposed, repo.tree, first, repo.nextId, files, run); }
  }
}

/** `applyCandidateFiles`: all of the proposed files, or none of them. */
module TransactionApply {
  import opened Wrappers
  import opened Unicode
  import opened RepositoryTree
  import opened Transaction
  import opened TransactionCommit
  import opened TransactionRollback

  /** What one call went through: the tree once its files were staged, its commit turns,
      how many of them committed, its items and tree when the forward part ended, and the steps
      at which the intended and the final tree were hashed. */
  datatype Run = Run(staged: Tree, log: seq<Turn>, k: nat, items: seq<Item>, last: Tree, planned: nat, checked: nat)

  ghost predicate Reached(w: World, base: Tree, expected: Tree, proposed: Tree, first: nat, files: seq<Path>, run: Run) {
    && SameOutside(base, run.staged, first) && SameDirs(base, run.staged) && WellFormed(run.staged)
    && Commits(w, expected, proposed, run.staged, first, files, run.log, run.k) && run.last == Final(run.staged, run.log)
    && run.k <= |run.items| <= |files|
    && forall i :: 0 <= i < |run.items| ==>
         && run.items[i].path == files[i] && (run.items[i].installed <==> i < run.k)
         && (i < run.k ==> run.items[i].candidate == RecordAt(w.hash, proposed, files[i]))
         && (i < run.k ==> files[i] in proposed ==> proposed[files[i]].File?)
  }

  /** What the rollback needs of the tree and the items. */
  ghost predicate Recoverable(expected: Tree, t: Tree, first: nat, next: nat, items: seq<Item>) {
    && first <= next && Separate(first, next, items) && Undoable(expected, items)
    && WellFormed(t) && DrawnBelow(t, first, next) && Tracked(t, first, items)
  }

  function Overlays(items: seq<Item>): seq<(Bytes, Option<Record>)> {
    seq(|items|, i requires 0 <= i < |items| => (Key(items[i].path), items[i].candidate))
  }

  function FileOverlays(hash: Hash, proposed: Tree, files: seq<Path>): seq<(Bytes, Option<Record>)> {
    seq(|files|, i requires 0 <= i < |files| => (Key(files[i]), RecordAt(hash, proposed, files[i])))
  }

  /** What a successful call promises: the walk of the expected tree, with every changed file as
      proposed. */
  function Intended(w: World, n: nat, expected: Tree, proposed: Tree, files: seq<Path>): View {
    Overlaid(w.walk(n, expected), FileOverlays(w.hash, proposed, files))
  }

  /** The walk of the tree at step n and that of what was intended at step m had one digest. */
  predicate SameDigest(w: World, t: Tree, expected: Tree, proposed: Tree, files: seq<Path>, n: nat, m: nat) {
    w.hash(w.stream(n, w.walk(n, t))) == w.hash(w.stream(m, Intended(w, m, expected, proposed, files)))
  }

  predicate FileApplied(hash: Hash, proposed: Tree, t: Tree, file: Path) {
    Safe(t, file) && CandidateState(hash, t, RecordAt(hash, proposed, file), file)
  }

  /** What the last checks of a successful call establish. */
  ghost predicate Accepted(w: World, expected: Tree, proposed: Tree, t: Tree, first: nat, files: seq<Path>, n: nat, m: nat) {
    && SameDigest(w, t, expected, proposed, files, n, m) && Walkable(t) && Walkable(expected)
    && (forall i :: 0 <= i < |files| ==> FileApplied(w.hash, proposed, t, files[i]))
    && forall p :: p in t ==> !Own(p, first)
  }

  /** Walks and streams do not depend on when they are taken. */
  ghost predicate StableStream(w: World) {
    (forall n, m, t :: w.walk(n, t) == w.walk(m, t)) && forall n, m, v :: w.stream(n, v) == w.stream(m, v)
  }

  ghost predicate Steady(w: World) { NoFaults(w) && StableStream(w) }

  predicate DigestsEqual(w: World, u: View, v: View) { w.hash(w.stream(0, u)) == w.hash(w.stream(0, v)) }

  /** `repositoryTreeDigest`; a listed name that is not there as it was read fails it. */
  method Digest(repo: Repository, w: World, t: Tree, overlays: seq<(Bytes, Option<Record>)>)
    returns (ok: bool, digest: Bytes, ghost at: nat)
    modifies repo`steps
    ensures digest == w.hash(w.stream(at, Overlaid(w.walk(at, t), overlays)))
    ensures ok ==> Walkable(t)
    ensures NoFaults(w) && Walkable(t) ==> ok
  {
    at := repo.steps;
    digest := w.hash(w.stream(repo.steps, Overlaid(w.walk(repo.steps, t), overlays)));
    var unread := repo.Tick(w.fault);
    ok := !unread && Walkable(t);
  }

  lemma StagingReached(w: World, base: Tree, expected: Tree, proposed: Tree, t: Tree, first: nat, next: nat,
                       files: seq<Path>, items: seq<Item>, planned: nat, checked: nat)
    requires first <= next && Staging(base, t, first, next, files, items)
    ensures Recoverable(expected, t, first, next, items)
    ensures Reached(w, base, expected, proposed, first, files, Run(t, [], 0, items, t, planned, checked))
    ensures |items| == |files| && AllReady(w.hash, t, expected, proposed, items) ==>
      Committing(w.hash, expected, proposed, t, first, next, items, 0)
  {
  }

  lemma RunningReached(w: World, base: Tree, expected: Tree, proposed: Tree, start: Tree, t: Tree, first: nat, next: nat,
                       files: seq<Path>, items: seq<Item>, log: seq<Turn>, k: nat, planned: nat, checked: nat)
    requires first <= next && SameOutside(base, start, first) && SameDirs(base, start) && WellFormed(start)
    requires Running(w, expected, proposed, start, t, first, next, files, items, log, k)
    ensures Recoverable(expected, t, first, next, items)
    ensures Reached(w, base, expected, proposed, first, files, Run(start, log, k, items, t, planned, checked))
  {
  }

  /** The plan still fits the repository: equal digests, and every changed file can be staged. */
  predicate PlanHolds(w: World, base: Tree, expected: Tree, proposed: Tree, files: seq<Path>) {
    && DigestsEqual(w, w.walk(0, base), w.walk(0, expected)) && Walkable(base) && Walkable(expected)
    && AllStageable(base, expected, proposed, files)
  }

  // Staging itself changes no original.
  lemma StagedUnchanged(base: Tree, t: Tree, expected: Tree, proposed: Tree, first: nat, next: nat, files: seq<Path>,
                        items: seq<Item>)
    requires Staging(base, t, first, next, files, items) && |items| == |files| && FileList(files, first)
    requires AllStageable(base, expected, proposed, files)
    ensures forall i :: 0 <= i < |items| ==> Unchanged(t, expected, items[i].path)
  {
    forall i | 0 <= i < |items| ensures Unchanged(t, expected, items[i].path) {
      assert Stageable(base, expected, proposed, files[i]);
      StageableAlike(base, t, first, expected, proposed, files[i]);
    }
  }

  /** Digest check, staging, intended digest, recheck. */
  method Prepare(repo: Repository, w: World, expected: Tree, proposed: Tree, files: seq<Path>)
    returns (ok: bool, items: seq<Item>, intended: Bytes, ghost planned: nat)
    requires WellFormed(repo.tree) && FileList(files, repo.nextId)
    requires forall p :: p in repo.tree ==> !Own(p, repo.nextId)
    modifies repo
    ensures old(repo.nextId) <= repo.nextId
    ensures Staging(old(repo.tree), repo.tree, old(repo.nextId), repo.nextId, files, items)
    ensures ok ==> |items| == |files|
    ensures ok ==> AllReady(w.hash, repo.tree, expected, proposed, items)
    ensures ok ==> Walkable(expected)
    ensures ok ==> intended == w.hash(w.stream(planned, Overlaid(w.walk(planned, expected), Overlays(items))))
    ensures ok ==> AllStageable(old(repo.tree), expected, proposed, files)
    ensures Steady(w) ==> (ok <==> PlanHolds(w, old(repo.tree), expected, proposed, files))
  {
    ghost var base, first := repo.tree, repo.nextId;
    items, intended := [], [];
    ghost var at;
    ok, intended, at := Digest(repo, w, repo.tree, []);
    var walked, planDigest;
    walked, planDigest, planned := Digest(repo, w, expected, []);
    ok := ok && walked && intended == planDigest;
    if ok {
      ok, items := StageAll(repo, w, expected, proposed, files);
    }
    if ok {
      StagedUnchanged(base, repo.tree, expected, proposed, first, repo.nextId, files, items);
      ok, intended, planned := Digest(repo, w, expected, Overlays(items));
      var rechecked := RecheckAll(repo, w, expected, items);
      ok := ok && rechecked;
    }
  }

  // The items of a finished run overlay what was proposed.
  lemma OverlaysAgree(w: World, expected: Tree, proposed: Tree, t: Tree, first: nat, next: nat, files: seq<Path>,
                      items: seq<Item>)
    requires |items| == |files|
    requires forall i :: 0 <= i < |files| ==> items[i].path == files[i]
    requires forall i :: 0 <= i < |files| ==> items[i].candidate == RecordAt(w.hash, proposed, items[i].path)
    ensures Overlays(items) == FileOverlays(w.hash, proposed, files)
  {
  }

  lemma AllInstalled(w: World, expected: Tree, proposed: Tree, start: Tree, t: Tree, first: nat, next: nat,
                     files: seq<Path>, items: seq<Item>, log: seq<Turn>, k: nat)
    requires Running(w, expected, proposed, start, t, first, next, files, items, log, k) && k == |items|
    ensures Overlays(items) == FileOverlays(w.hash, proposed, files)
    ensures forall p :: p in t ==> !Own(p, first)
  {
    assert forall i, p :: 0 <= i < |items| ==> !HoldsStage(items[i], p);
  }

  /** The last checks: every candidate in place, and the digest of the intended tree. */
  predicate EndsAsIntended(w: World, expected: Tree, proposed: Tree, t: Tree, files: seq<Path>) {
    && (forall i :: 0 <= i < |files| ==> FileApplied(w.hash, proposed, t, files[i]))
    && Walkable(t) && DigestsEqual(w, w.walk(0, t), Intended(w, 0, expected, proposed, files))
  }

  /** The checks after the last commit. */
  method CheckEnd(repo: Repository, w: World, items: seq<Item>, intended: Bytes,
                  ghost expected: Tree, ghost proposed: Tree, ghost files: seq<Path>, ghost planned: nat)
    returns (ok: bool, ghost checked: nat)
    requires |items| == |files|
    requires forall i :: 0 <= i < |files| ==>
      items[i].path == files[i] && items[i].candidate == RecordAt(w.hash, proposed, files[i])
    requires intended == w.hash(w.stream(planned, Intended(w, planned, expected, proposed, files)))
    modifies repo`steps
    ensures ok ==> SameDigest(w, repo.tree, expected, proposed, files, checked, planned) && Walkable(repo.tree)
    ensures ok ==> forall i :: 0 <= i < |files| ==> FileApplied(w.hash, proposed, repo.tree, files[i])
    ensures Steady(w) ==> (ok <==> EndsAsIntended(w, expected, proposed, repo.tree, files))
  {
    assert forall i :: 0 <= i < |files| ==> (ItemApplied(w.hash, repo.tree, items[i]) <==> FileApplied(w.hash, proposed, repo.tree, files[i]));
    ok := VerifyAll(repo, w, items);
    var walked, applied;
    walked, applied, checked := Digest(repo, w, repo.tree, []);
    ok := ok && walked && applied == intended;
  }

  /** Commit, then check every candidate and the whole tree. */
  method CommitAndVerify(repo: Repository, w: World, expected: Tree, proposed: Tree, prepared: seq<Item>, intended: Bytes,
                         ghost files: seq<Path>, ghost first: nat, ghost planned: nat)
    returns (ok: bool, items: seq<Item>, ghost log: seq<Turn>, ghost k: nat, ghost checked: nat)
    requires HooksRespectStaging(w, first) && FileList(files, first)
    requires Committing(w.hash, expected, proposed, repo.tree, first, repo.nextId, prepared, 0)
    requires |prepared| == |files| && forall i :: 0 <= i < |files| ==> prepared[i].path == files[i]
    requires Walkable(expected)
    requires intended == w.hash(w.stream(planned, Overlaid(w.walk(planned, expected), Overlays(prepared))))
    modifies repo`tree, repo`steps
    ensures Running(w, expected, proposed, old(repo.tree), repo.tree, first, repo.nextId, files, items, log, k)
    ensures ok ==> Accepted(w, expected, proposed, repo.tree, first, files, checked, planned)
    ensures Steady(w) ==> (ok <==> k == |files| && EndsAsIntended(w, expected, proposed, repo.tree, files))
    ensures Smooth(w) && AllSpared(w, files) && AllCommittable(old(repo.tree), expected, proposed, files) ==> k == |files|
  {
    OverlaysAgree(w, expected, proposed, repo.tree, first, repo.nextId, files, prepared);
    assert Overlaid(w.walk(planned, expected), Overlays(prepared)) == Intended(w, planned, expected, proposed, files);
    checked := 0;
    ok, items, log, k := CommitAll(repo, w, expected, proposed, prepared, files, first);
    if ok {
      AllInstalled(w, expected, proposed, old(repo.tree), repo.tree, first, repo.nextId, files, items, log, k);
      ok, checked := CheckEnd(repo, w, items, intended, expected, proposed, files, planned);
    }
  }

  /** When no step fails, what decides success. */
  predicate Decides(w: World, base: Tree, expected: Tree, proposed: Tree, files: seq<Path>, run: Run) {
    PlanHolds(w, base, expected, proposed, files) && run.k == |files| == |run.items|
    && EndsAsIntended(w, expected, proposed, run.last, files)
  }

  /** Nothing stands in the way of the commits. */
  ghost predicate MayCommit(w: World, base: Tree, expected: Tree, proposed: Tree, files: seq<Path>, run: Run) {
    && Smooth(w) && AllSpared(w, files) && StableStream(w) && PlanHolds(w, base, expected, proposed, files)
    && AllCommittable(run.staged, expected, proposed, files)
  }

  /** Applies the changed files, or restores what it committed. */
  method ApplyCandidateFiles(repo: Repository, w: World, expected: Tree, proposed: Tree, files: seq<Path>)
    returns (ok: bool, ghost run: Run)
    requires WellFormed(repo.tree) && FileList(files, repo.nextId)
    requires forall p :: p in repo.tree ==> !Own(p, repo.nextId)
    requires HooksRespectStaging(w, repo.nextId)
    modifies repo
    ensures Reached(w, old(repo.tree), expected, proposed, old(repo.nextId), files, run)
    ensures ok ==> run.last == repo.tree
    ensures ok ==>
      Accepted(w, expected, proposed, repo.tree, old(repo.nextId), files, run.checked, run.planned)
    ensures !ok ==> Undoing(w.hash, Faultless(w), run.last, expected, repo.tree, old(repo.nextId), repo.nextId, run.items, 0, 0)
    ensures Tracked(run.last, old(repo.nextId), run.items)
    ensures Steady(w) ==> (ok <==> Decides(w, old(repo.tree), expected, proposed, files, run))
    ensures MayCommit(w, old(repo.tree), expected, proposed, files, run) ==> run.k == |run.items| == |files|
  {
    ghost var base, first := repo.tree, repo.nextId;
    var items, intended;
    ghost var planned;
    ok, items, intended, planned := Prepare(repo, w, expected, proposed, files);
    StagingReached(w, base, expected, proposed, repo.tree, first, repo.nextId, files, items, planned, 0);
    run := Run(repo.tree, [], 0, items, repo.tree, planned, 0);
    if ok {
      ghost var start, log, k, checked := repo.tree, [], 0, 0;
      ok, items, log, k, checked := CommitAndVerify(repo, w, expected, proposed, items, intended, files, first, planned);
      RunningReached(w, base, expected, proposed, start, repo.tree, first, repo.nextId, files, items, log, k, planned, checked);
      run := Run(start, log, k, items, repo.tree, planned, checked);
    }
    if !ok {
      RollBackAll(repo, w, expected, items, first);
    }
  }
}

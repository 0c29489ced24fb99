/** An edit at the first hook that no check of `applyCandidateFiles` sees. */
module TransactionSlips {
  import opened Wrappers
  import opened RepositoryTree
  import opened Transaction
  import opened TransactionCommit
  import opened TransactionApply
  import opened TransactionAtomicity
  import opened TransactionCalm

  /** An outsider writes one entry, and may take another one away. */
  datatype Edit = Edit(at: Path, node: Node, gone: Option<Path>)

  /** The entry fits where it is written: its directory exists, and a directory stays one. */
  predicate CanEdit(t: Tree, e: Edit) {
    && e.at != [] && ParentsOk(t, e.at) && (e.at in t ==> t[e.at].Dir? == e.node.Dir?)
    && (e.gone.Some? ==> e.gone.value in t && !t[e.gone.value].Dir? && e.gone.value != e.at)
  }

  function Edited(t: Tree, e: Edit): Tree {
    (if e.gone.Some? then t - {e.gone.value} else t)[e.at := e.node]
  }

  function EditHook(e: Edit, n: nat, t: Tree): (Tree, bool) {
    (if n == 0 && CanEdit(t, e) then Edited(t, e) else t, false)
  }

  ghost predicate SlipsIn(w: World, e: Edit) { forall n, t :: w.hook(n, t) == EditHook(e, n, t) }

  lemma EditedWellFormed(t: Tree, e: Edit)
    requires WellFormed(t) && CanEdit(t, e) && PosixPath(e.at)
    ensures WellFormed(Edited(t, e))
  {
    var t' := Edited(t, e);
    forall q | q in t' ensures ParentsOk(t', q) {
      forall k | 0 < k < |q| ensures q[..k] in t' && t'[q[..k]].Dir? {
        assert q[..k] in t && t[q[..k]].Dir?;
      }
    }
  }

  /** Such outsiders keep to the rules. */
  lemma EditRespects(w: World, first: nat, e: Edit)
    requires SlipsIn(w, e) && PosixPath(e.at) && NamedPath(e.at) && (e.gone.Some? ==> NamedPath(e.gone.value))
    ensures HooksRespectStaging(w, first)
    ensures PlainPath(e.at) ==> HooksKeep(w, first, PlainPath)
  {
    forall n: nat, t: Tree | WellFormed(t) ensures WellFormed(w.hook(n, t).0) {
      if CanEdit(t, e) { EditedWellFormed(t, e); }
    }
  }

  /** They leave every path alone but their own. */
  lemma EditSpares(w: World, e: Edit, x: Path)
    requires SlipsIn(w, e) && x != e.at && e.gone != Some(x)
    ensures SparesPath(w, x)
  {
  }

  /** The edit is at no changed file and above none. */
  predicate Aside(files: seq<Path>, e: Edit) {
    forall i :: 0 <= i < |files| ==>
      && files[i] != e.at && e.gone != Some(files[i])
      && forall k :: 0 < k < |files[i]| ==> files[i][..k] != e.at && e.gone != Some(files[i][..k])
  }

  lemma EditSparesFiles(w: World, files: seq<Path>, e: Edit)
    requires SlipsIn(w, e) && Aside(files, e)
    ensures AllSpared(w, files)
  {
    forall i | 0 <= i < |files| ensures Spares(w, files[i]) {
      var f := files[i];
      EditSpares(w, e, f);
      forall n: nat, t: Tree, k | 0 < k < |f| ensures DirAt(t, f[..k]) <==> DirAt(w.hook(n, t).0, f[..k]) {
        assert w.hook(n, t) == EditHook(e, n, t) && f[..k] != e.at && e.gone != Some(f[..k]);
      }
    }
  }

  /** Once it is made, the edit stays. */
  lemma {:induction false} EditStays(w: World, expected: Tree, proposed: Tree, start: Tree, first: nat, files: seq<Path>,
                                     log: seq<Turn>, k: nat, e: Edit)
    requires SlipsIn(w, e) && Commits(w, expected, proposed, start, first, files, log, k) && log != [] && CanEdit(start, e)
    requires Aside(files, e) && !Own(e.at, first) && (e.gone.Some? ==> !Own(e.gone.value, first))
    ensures Get(Final(start, log), e.at) == Some(e.node)
    ensures e.gone.Some? ==> e.gone.value !in Final(start, log)
    decreases |log|
  {
    var n := |log| - 1;
    var turn := log[n];
    assert turn.seen == EditHook(e, n, turn.given).0;
    if n > 0 {
      EditStays(w, expected, proposed, start, first, files, log[..n], n, e);
    }
    assert Get(turn.seen, e.at) == Some(e.node) && Get(turn.left, e.at) == Get(turn.seen, e.at);
    if e.gone.Some? {
      assert Get(turn.seen, e.gone.value) == None && Get(turn.left, e.gone.value) == Get(turn.seen, e.gone.value);
    }
  }

  /** An edit beside the changed files that the walk of the final tree does not show. */
  ghost predicate Unseen(w: World, base: Tree, proposed: Tree, files: seq<Path>, e: Edit) {
    var end := Target(base, proposed, files);
    && CanEdit(base, e) && Aside(files, e) && PosixPath(e.at) && NamedPath(e.at) && (e.gone.Some? ==> NamedPath(e.gone.value))
    && Walkable(Edited(end, e)) && w.walk(0, Edited(end, e)) == w.walk(0, end)
  }

  /** A call that would succeed undisturbed, in a world where nothing but the edit happens. */
  ghost predicate SlipCall(w: World, base: Tree, expected: Tree, proposed: Tree, files: seq<Path>, e: Edit) {
    && Smooth(w) && SlipsIn(w, e) && Unseen(w, base, proposed, files, e) && files != []
    && AllApplicable(base, expected, proposed, files)
  }

  lemma SlipRuns(w: World, base: Tree, expected: Tree, proposed: Tree, first: nat, files: seq<Path>, run: Run, e: Edit)
    requires Sound(w, base, expected, proposed, first, files, run) && SlipCall(w, base, expected, proposed, files, e)
    ensures AllSpared(w, files) && AllStageable(base, expected, proposed, files)
    ensures run.k == |run.items| == |files|
  {
    EditSparesFiles(w, files, e);
    AllCommittableMeans(base, expected, proposed, first, files, run.staged);
    AllApplicableChecks(base, expected, proposed, files);
    assert MayCommit(w, base, expected, proposed, files, run);
  }

  lemma CanEditStaged(base: Tree, staged: Tree, first: nat, e: Edit)
    requires SameOutside(base, staged, first) && SameDirs(base, staged) && CanEdit(base, e) && NamedPath(e.at)
    requires e.gone.Some? ==> NamedPath(e.gone.value)
    ensures CanEdit(staged, e)
  {
    assert Get(base, e.at) == Get(staged, e.at);
    assert e.at in base <==> Get(base, e.at).Some?;
    assert e.at in staged <==> Get(staged, e.at).Some?;
    if e.gone.Some? { assert Get(base, e.gone.value) == Get(staged, e.gone.value); }
  }

  lemma SlipTree(w: World, base: Tree, expected: Tree, proposed: Tree, first: nat, files: seq<Path>, run: Run, e: Edit)
    requires Sound(w, base, expected, proposed, first, files, run) && SlipCall(w, base, expected, proposed, files, e)
    ensures run.last == Edited(Target(base, proposed, files), e)
  {
    SlipRuns(w, base, expected, proposed, first, files, run, e);
    EditedEnd(w, base, expected, proposed, first, files, run, e);
  }

  lemma EditedEnd(w: World, base: Tree, expected: Tree, proposed: Tree, first: nat, files: seq<Path>, run: Run, e: Edit)
    requires SlipsIn(w, e) && CanEdit(base, e) && Aside(files, e) && NamedPath(e.at) && (e.gone.Some? ==> NamedPath(e.gone.value))
    requires TextList(files, first) && Reached(w, base, expected, proposed, first, files, run)
    requires Tracked(run.last, first, run.items) && run.k == |files| == |run.items| && files != []
    requires forall q :: q in base ==> !Own(q, first)
    ensures run.last == Edited(Target(base, proposed, files), e)
  {
    CanEditStaged(base, run.staged, first, e);
    EditStays(w, expected, proposed, run.staged, first, files, run.log, run.k, e);
    var end := Edited(Target(base, proposed, files), e);
    forall x ensures Get(run.last, x) == Get(end, x) {
      if x != e.at && e.gone != Some(x) {
        EditSpares(w, e, x);
        SparedEnd(w, base, expected, proposed, first, files, run, x);
        assert Get(end, x) == Get(Target(base, proposed, files), x);
      }
    }
    SameTrees(run.last, end);
  }

  /** Such a call succeeds, and leaves the edit. */
  lemma SlipSucceeds(w: World, base: Tree, expected: Tree, proposed: Tree, first: nat, files: seq<Path>, run: Run, e: Edit)
    requires Sound(w, base, expected, proposed, first, files, run) && SlipCall(w, base, expected, proposed, files, e)
    ensures HooksRespectStaging(w, first) && (PlainPath(e.at) ==> HooksKeep(w, first, PlainPath))
    ensures Decides(w, base, expected, proposed, files, run)
    ensures run.last == Edited(Target(base, proposed, files), e)
  {
    EditRespects(w, first, e);
    SlipRuns(w, base, expected, proposed, first, files, run, e);
    SlipTree(w, base, expected, proposed, first, files, run, e);
    AllInPlace(w, base, expected, proposed, first, files, run);
    EndAsIntended(w, base, expected, proposed, files);
  }

  /** The program itself, in that world. */
  method ApplyUnderEdit(repo: Repository, w: World, expected: Tree, proposed: Tree, files: seq<Path>, ghost e: Edit)
    returns (ok: bool)
    requires Prepared(w, repo.tree, expected, proposed, repo.nextId, files)
    requires SlipCall(w, repo.tree, expected, proposed, files, e)
    modifies repo
    ensures ok && repo.tree == Edited(Target(old(repo.tree), proposed, files), e) && Get(repo.tree, e.at) == Some(e.node)
  {
    ghost var base, first := repo.tree, repo.nextId;
    EditRespects(w, first, e);
    ghost var run;
    ok, run := ApplyCandidateFiles(repo, w, expected, proposed, files);
    SlipSucceeds(w, base, expected, proposed, first, files, run, e);
  }
}

/** The commit loop of `applyCandidateFiles` and the checks around it. */
module TransactionCommit {
  import opened Wrappers
  import opened Unicode
  import opened RepositoryTree
  import opened Transaction

  /** One turn of the commit loop: the tree its hook was given, the tree outsiders then left,
      and the tree the turn left. */
  datatype Turn = Turn(given: Tree, seen: Tree, left: Tree)

  /** What the commit of one file asks of the tree it sees. */
  predicate Committable(t: Tree, expected: Tree, proposed: Tree, path: Path) {
    Safe(t, path) && Safe(expected, path) && ExpectedState(t, expected, path) && (path in proposed || path in t)
  }

  /** A turn that commits `path` over the expected state it saw. */
  ghost predicate Committed(expected: Tree, proposed: Tree, path: Path, first: nat, turn: Turn) {
    && Committable(turn.seen, expected, proposed, path) && SameDirs(turn.seen, turn.left) && WellFormed(turn.left)
    && Installed(turn.seen, turn.left, expected, proposed, path, first)
  }

  function Final(start: Tree, log: seq<Turn>): Tree {
    if log == [] then start else log[|log| - 1].left
  }

  /** A whole run: k turns commit their file in order, each hook being given what the turn
      before it left; one more turn may have stopped the loop. */
  ghost predicate Commits(w: World, expected: Tree, proposed: Tree, start: Tree, first: nat,
                          files: seq<Path>, log: seq<Turn>, k: nat)
    decreases |log|
  {
    if log == [] then k == 0
    else
      var n, turn := |log| - 1, log[|log| - 1];
      && n < |files| && Commits(w, expected, proposed, start, first, files, log[..n], n)
      && turn.given == Final(start, log[..n]) && turn.seen == w.hook(n, turn.given).0
      && ((k == n && turn.left == turn.seen) || (k == n + 1 && Committed(expected, proposed, files[n], first, turn)))
  }

  /** Nobody else edits. */
  ghost predicate Quiet(w: World) { forall n, t :: w.hook(n, t).0 == t }

  predicate DirAt(t: Tree, p: Path) { p in t && t[p].Dir? }

  /** The ancestors of p are directories in both trees or in neither. */
  predicate AncestorsAlike(a: Tree, b: Tree, p: Path) {
    forall k :: 0 < k < |p| ==> (DirAt(a, p[..k]) <==> DirAt(b, p[..k]))
  }

  lemma SafeAlike(a: Tree, b: Tree, p: Path)
    requires AncestorsAlike(a, b, p)
    ensures Safe(a, p) <==> Safe(b, p)
  {
    assert forall k :: 0 < k < |p| ==> (DirAt(a, p[..k]) <==> p[..k] in a && a[p[..k]].Dir?);
    assert forall k :: 0 < k < |p| ==> (DirAt(b, p[..k]) <==> p[..k] in b && b[p[..k]].Dir?);
  }

  /** Whatever outsiders do, they leave this path alone. */
  ghost predicate SparesPath(w: World, p: Path) { forall n, t :: Get(w.hook(n, t).0, p) == Get(t, p) }

  /** And the directories above it. */
  ghost predicate Spares(w: World, p: Path) {
    SparesPath(w, p) && forall n, t :: AncestorsAlike(t, w.hook(n, t).0, p)
  }

  ghost predicate AllSpared(w: World, files: seq<Path>) { forall i :: 0 <= i < |files| ==> Spares(w, files[i]) }

  /** Nothing fails and no hook throws. */
  ghost predicate Smooth(w: World) { NoFaults(w) && forall n, t :: !w.hook(n, t).1 }

  lemma InstallCommits(hash: Hash, expected: Tree, proposed: Tree, seen: Tree, t: Tree, first: nat, next: nat,
                       items: seq<Item>, j: nat)
    requires Committing(hash, expected, proposed, seen, first, next, items, j) && j < |items| && WellFormed(t)
    requires Safe(seen, items[j].path) && Safe(expected, items[j].path) && ExpectedState(seen, expected, items[j].path)
    requires items[j].staged.None? ==> items[j].path in seen
    requires t == (if items[j].staged.Some? then (seen - {items[j].staged.value})[items[j].path := seen[items[j].staged.value]]
                   else seen - {items[j].path})
    ensures Committing(hash, expected, proposed, t, first, next, items[j := items[j].(installed := true)], j + 1)
    ensures Committed(expected, proposed, items[j].path, first, Turn(seen, seen, t))
  {
    assert Ready(hash, seen, expected, proposed, items[j]);
    InstallKeeps(hash, expected, proposed, seen, t, first, next, items, j);
  }

  /** Rename the stage over the destination, or unlink a deleted file. */
  method Install(repo: Repository, w: World, expected: Tree, proposed: Tree, items: seq<Item>, j: nat, ghost first: nat)
    returns (ok: bool, after: seq<Item>)
    requires j < |items|
    requires Committing(w.hash, expected, proposed, repo.tree, first, repo.nextId, items, j)
    requires Safe(repo.tree, items[j].path) && Safe(expected, items[j].path)
    requires ExpectedState(repo.tree, expected, items[j].path)
    modifies repo`tree, repo`steps
    ensures NoFaults(w) && (items[j].path in proposed || items[j].path in old(repo.tree)) ==> ok
    ensures after == if ok then items[j := items[j].(installed := true)] else items
    ensures Committing(w.hash, expected, proposed, repo.tree, first, repo.nextId, after, if ok then j + 1 else j)
    ensures !ok ==> repo.tree == old(repo.tree)
    ensures ok ==> Committed(expected, proposed, items[j].path, first, Turn(old(repo.tree), old(repo.tree), repo.tree))
  {
    after := items;
    var path := items[j].path;
    ghost var seen := repo.tree;
    if items[j].staged.Some? {
      ok := repo.Step(Renamed(repo.tree, items[j].staged.value, path), w.fault);
      if ok { RenameKeeps(seen, items[j].staged.value, path); }
    } else {
      ok := repo.Step(Unlinked(repo.tree, path), w.fault);
      if ok { UnlinkKeeps(seen, path); }
    }
    if ok {
      InstallCommits(w.hash, expected, proposed, seen, repo.tree, first, repo.nextId, items, j);
      after := items[j := items[j].(installed := true)];
    }
  }

  /** One turn: the hook, the recheck of this destination, the commit. */
  method CommitOne(repo: Repository, w: World, expected: Tree, proposed: Tree, items: seq<Item>, j: nat, ghost first: nat)
    returns (ok: bool, after: seq<Item>, ghost seen: Tree)
    requires j < |items| && HooksRespectStaging(w, first)
    requires Committing(w.hash, expected, proposed, repo.tree, first, repo.nextId, items, j)
    modifies repo`tree, repo`steps
    ensures seen == w.hook(j, old(repo.tree)).0
    ensures after == if ok then items[j := items[j].(installed := true)] else items
    ensures Committing(w.hash, expected, proposed, repo.tree, first, repo.nextId, after, if ok then j + 1 else j)
    ensures !ok ==> repo.tree == seen
    ensures Smooth(w) && Spares(w, items[j].path) && Committable(old(repo.tree), expected, proposed, items[j].path) ==> ok
    ensures ok ==> Committed(expected, proposed, items[j].path, first, Turn(old(repo.tree), seen, repo.tree))
  {
    HookKeeps(w, j, expected, proposed, repo.tree, first, repo.nextId, items, j);
    var (edited, threw) := w.hook(j, repo.tree);
    repo.tree := edited;
    seen := edited;
    ok, after := false, items;
    if Spares(w, items[j].path) {
      SafeAlike(old(repo.tree), edited, items[j].path);
      assert Get(edited, items[j].path) == Get(old(repo.tree), items[j].path);
    }
    if !threw {
      var unread := repo.Tick(w.fault);
      var path := items[j].path;
      if !unread && Safe(repo.tree, path) && Safe(expected, path) && ExpectedState(repo.tree, expected, path) {
        ok, after := Install(repo, w, expected, proposed, items, j, first);
      }
    }
  }

  lemma ExtendRun(w: World, expected: Tree, proposed: Tree, start: Tree, first: nat, files: seq<Path>,
                  log: seq<Turn>, turn: Turn, ok: bool)
    requires Commits(w, expected, proposed, start, first, files, log, |log|) && |log| < |files|
    requires turn.given == Final(start, log) && turn.seen == w.hook(|log|, turn.given).0
    requires if ok then Committed(expected, proposed, files[|log|], first, turn) else turn.left == turn.seen
    ensures Commits(w, expected, proposed, start, first, files, log + [turn], if ok then |log| + 1 else |log|)
  {
    assert (log + [turn])[..|log|] == log;
  }

  // Paths nobody else touches

  predicate Among(files: seq<Path>, k: nat, p: Path) {
    exists i :: 0 <= i < k && i < |files| && files[i] == p
  }

  /** A path that outsiders spare is as proposed once it is committed, and as it was until then. */
  lemma {:induction false} SparedRun(w: World, expected: Tree, proposed: Tree, start: Tree, first: nat, files: seq<Path>,
                                    log: seq<Turn>, k: nat, p: Path)
    requires SparesPath(w, p) && Commits(w, expected, proposed, start, first, files, log, k) && !Own(p, first)
    ensures Get(Final(start, log), p) == if Among(files, k, p) then Get(proposed, p) else Get(start, p)
    decreases |log|
  {
    if log != [] {
      var n := |log| - 1;
      SparedRun(w, expected, proposed, start, first, files, log[..n], n, p);
      AmongStep(files, n, p);
    }
  }

  lemma AmongStep(files: seq<Path>, n: nat, p: Path)
    requires n < |files|
    ensures Among(files, n + 1, p) <==> Among(files, n, p) || files[n] == p
  {
  }

  /** Commits make and remove no directory, so its ancestors stay what they were. */
  lemma {:induction false} SparedAncestors(w: World, expected: Tree, proposed: Tree, start: Tree, first: nat,
                                           files: seq<Path>, log: seq<Turn>, k: nat, p: Path)
    requires Spares(w, p) && Commits(w, expected, proposed, start, first, files, log, k)
    ensures AncestorsAlike(start, Final(start, log), p)
    decreases |log|
  {
    if log != [] {
      var n := |log| - 1;
      SparedAncestors(w, expected, proposed, start, first, files, log[..n], n, p);
      assert AncestorsAlike(log[n].given, log[n].seen, p);
      assert AncestorsAlike(log[n].seen, log[n].left, p);
    }
  }

  /** A spared file not yet committed can be committed now exactly when it could at the start. */
  lemma StillCommittable(w: World, expected: Tree, proposed: Tree, start: Tree, first: nat, files: seq<Path>,
                         log: seq<Turn>, k: nat, p: Path)
    requires Spares(w, p) && Commits(w, expected, proposed, start, first, files, log, k) && !Own(p, first) && !Among(files, k, p)
    ensures Committable(start, expected, proposed, p) <==> Committable(Final(start, log), expected, proposed, p)
  {
    SparedRun(w, expected, proposed, start, first, files, log, k, p);
    SparedAncestors(w, expected, proposed, start, first, files, log, k, p);
    SafeAlike(start, Final(start, log), p);
    assert p in start <==> Get(start, p).Some?;
    assert p in Final(start, log) <==> Get(Final(start, log), p).Some?;
  }

  /** A spared file that was committed could be committed at the start. */
  lemma {:induction false} WasCommittable(w: World, expected: Tree, proposed: Tree, start: Tree, first: nat,
                                          files: seq<Path>, log: seq<Turn>, k: nat, i: nat)
    requires i < k <= |files| && Spares(w, files[i]) && Commits(w, expected, proposed, start, first, files, log, k)
    requires FileList(files, first)
    ensures Committable(start, expected, proposed, files[i])
    decreases |log|
  {
    var n := |log| - 1;
    if i < n {
      WasCommittable(w, expected, proposed, start, first, files, log[..n], n, i);
    } else {
      var given := Final(start, log[..n]);
      assert AncestorsAlike(given, log[n].seen, files[n]) && Get(log[n].seen, files[n]) == Get(given, files[n]);
      SafeAlike(given, log[n].seen, files[n]);
      assert files[n] in given <==> Get(given, files[n]).Some?;
      assert files[n] in log[n].seen <==> Get(log[n].seen, files[n]).Some?;
      assert Committable(given, expected, proposed, files[n]);
      StillCommittable(w, expected, proposed, start, first, files, log[..n], n, files[i]);
    }
  }

  predicate AllCommittable(t: Tree, expected: Tree, proposed: Tree, files: seq<Path>) {
    forall i :: 0 <= i < |files| ==> Committable(t, expected, proposed, files[i])
  }

  /** What holds between turns. */
  ghost predicate Running(w: World, expected: Tree, proposed: Tree, start: Tree, t: Tree, first: nat, next: nat,
                          files: seq<Path>, items: seq<Item>, log: seq<Turn>, k: nat) {
    && Committing(w.hash, expected, proposed, t, first, next, items, k)
    && |items| == |files| && (forall i :: 0 <= i < |files| ==> items[i].path == files[i])
    && Commits(w, expected, proposed, start, first, files, log, k)
    && t == Final(start, log)
  }

  lemma TurnCommittable(w: World, expected: Tree, proposed: Tree, start: Tree, t: Tree, first: nat, next: nat,
                        files: seq<Path>, items: seq<Item>, log: seq<Turn>, index: nat)
    requires Running(w, expected, proposed, start, t, first, next, files, items, log, index)
    requires index == |log| < |items| && FileList(files, first)
    ensures items[index].path == files[index]
    ensures Spares(w, files[index]) ==>
      (Committable(start, expected, proposed, files[index]) <==> Committable(t, expected, proposed, files[index]))
  {
    if Spares(w, files[index]) {
      assert !Among(files, index, files[index]);
      StillCommittable(w, expected, proposed, start, first, files, log, index, files[index]);
    }
  }

  lemma RunningNext(w: World, expected: Tree, proposed: Tree, start: Tree, given: Tree, t: Tree, first: nat, next: nat,
                    files: seq<Path>, items: seq<Item>, after: seq<Item>, log: seq<Turn>, turn: Turn, ok: bool)
    requires Running(w, expected, proposed, start, given, first, next, files, items, log, |log|) && |log| < |items|
    requires after == if ok then items[|log| := items[|log|].(installed := true)] else items
    requires Committing(w.hash, expected, proposed, t, first, next, after, if ok then |log| + 1 else |log|)
    requires turn.given == given && turn.left == t && turn.seen == w.hook(|log|, given).0
    requires if ok then Committed(expected, proposed, items[|log|].path, first, turn) else turn.left == turn.seen
    ensures Running(w, expected, proposed, start, t, first, next, files, after, log + [turn], if ok then |log| + 1 else |log|)
  {
    ExtendRun(w, expected, proposed, start, first, files, log, turn, ok);
  }

  /** A logged turn. */
  method TakeTurn(repo: Repository, w: World, expected: Tree, proposed: Tree, items: seq<Item>, index: nat,
                  ghost start: Tree, ghost first: nat, ghost files: seq<Path>, ghost log: seq<Turn>)
    returns (ok: bool, after: seq<Item>, ghost log': seq<Turn>)
    requires index == |log| < |items| && HooksRespectStaging(w, first) && FileList(files, first)
    requires Running(w, expected, proposed, start, repo.tree, first, repo.nextId, files, items, log, index)
    modifies repo`tree, repo`steps
    ensures |log'| == index + 1
    ensures Smooth(w) && Spares(w, files[index]) && Committable(start, expected, proposed, files[index]) ==> ok
    ensures Running(w, expected, proposed, start, repo.tree, first, repo.nextId, files, after, log', if ok then index + 1 else index)
  {
    ghost var given, seen := repo.tree, repo.tree;
    TurnCommittable(w, expected, proposed, start, repo.tree, first, repo.nextId, files, items, log, index);
    ok, after, seen := CommitOne(repo, w, expected, proposed, items, index, first);
    RunningNext(w, expected, proposed, start, given, repo.tree, first, repo.nextId, files, items, after, log,
                Turn(given, seen, repo.tree), ok);
    log' := log + [Turn(given, seen, repo.tree)];
  }

  /** The commit loop: stops at the first hook, recheck or step that fails. */
  method CommitAll(repo: Repository, w: World, expected: Tree, proposed: Tree, prepared: seq<Item>,
                   ghost files: seq<Path>, ghost first: nat)
    returns (ok: bool, items: seq<Item>, ghost log: seq<Turn>, ghost k: nat)
    requires HooksRespectStaging(w, first) && FileList(files, first)
    requires Committing(w.hash, expected, proposed, repo.tree, first, repo.nextId, prepared, 0)
    requires |prepared| == |files| && forall i :: 0 <= i < |files| ==> prepared[i].path == files[i]
    modifies repo`tree, repo`steps
    ensures Running(w, expected, proposed, old(repo.tree), repo.tree, first, repo.nextId, files, items, log, k)
    ensures ok <==> k == |items|
    ensures Smooth(w) && AllSpared(w, files) && AllCommittable(old(repo.tree), expected, proposed, files) ==> ok
  {
    ghost var start := repo.tree;
    items, log, k, ok := prepared, [], 0, true;
    var index := 0;
    while ok && index < |items|
      invariant |items| == |files| && index <= |files| && (if ok then k == index == |log| else k < |files|)
      invariant Smooth(w) && AllSpared(w, files) && AllCommittable(start, expected, proposed, files) ==> ok
      invariant Running(w, expected, proposed, start, repo.tree, first, repo.nextId, files, items, log, k)
      decreases |files| - index
    {
      ok, items, log := TakeTurn(repo, w, expected, proposed, items, index, start, first, files, log);
      k := if ok then index + 1 else index;
      index := index + 1;
    }
  }

  predicate Unchanged(t: Tree, expected: Tree, path: Path) {
    Safe(t, path) && Safe(expected, path) && ExpectedState(t, expected, path)
  }

  /** The check of every original before the first commit. */
  method RecheckAll(repo: Repository, w: World, expected: Tree, items: seq<Item>) returns (ok: bool)
    modifies repo`steps
    ensures ok ==> forall i :: 0 <= i < |items| ==> Unchanged(repo.tree, expected, items[i].path)
    ensures NoFaults(w) && (forall i :: 0 <= i < |items| ==> Unchanged(repo.tree, expected, items[i].path)) ==> ok
  {
    ok := true;
    var i := 0;
    while ok && i < |items|
      invariant 0 <= i <= |items|
      invariant ok ==> forall j :: 0 <= j < i ==> Unchanged(repo.tree, expected, items[j].path)
      invariant NoFaults(w) && (forall j :: 0 <= j < |items| ==> Unchanged(repo.tree, expected, items[j].path)) ==> ok
      decreases |items| - i
    {
      var unread := repo.Tick(w.fault);
      ok := !unread && Safe(repo.tree, items[i].path) && Safe(expected, items[i].path)
        && ExpectedState(repo.tree, expected, items[i].path);
      i := i + 1;
    }
  }

  predicate ItemApplied(hash: Hash, t: Tree, item: Item) {
    Safe(t, item.path) && CandidateState(hash, t, item.candidate, item.path)
  }

  /** The check of every candidate after the last commit. */
  method VerifyAll(repo: Repository, w: World, items: seq<Item>) returns (ok: bool)
    modifies repo`steps
    ensures ok ==> forall i :: 0 <= i < |items| ==> ItemApplied(w.hash, repo.tree, items[i])
    ensures NoFaults(w) && (forall i :: 0 <= i < |items| ==> ItemApplied(w.hash, repo.tree, items[i])) ==> ok
  {
    ok := true;
    var i := 0;
    while ok && i < |items|
      invariant 0 <= i <= |items|
      invariant ok ==> forall j :: 0 <= j < i ==> ItemApplied(w.hash, repo.tree, items[j])
      invariant NoFaults(w) && (forall j :: 0 <= j < |items| ==> ItemApplied(w.hash, repo.tree, items[j])) ==> ok
      decreases |items| - i
    {
      var unread := repo.Tick(w.fault);
      ok := !unread && Safe(repo.tree, items[i].path)
        && CandidateState(w.hash, repo.tree, items[i].candidate, items[i].path);
      i := i + 1;
    }
  }
}

/** `applyCandidateFiles`: stage, recheck, commit file by file, verify, roll back in reverse. */
module Transaction {
  import opened Wrappers
  import opened Unicode
  import opened RepositoryTree

  /** What the transaction does not control. A fault makes one filesystem step fail
      without effect; the hook is whatever outsiders do at a `beforeCommit` point, and
      may itself throw. `walk` is the Map that a tree digest fills and `stream` the bytes it
      hashes of it; both may depend on when they are taken, as directory order and collation
      ties do. */
  datatype World = World(
    hash: Hash,
    walk: (nat, Tree) -> View,
    stream: (nat, View) -> Bytes,
    fault: nat -> bool,
    rollbackFault: nat -> bool,
    hook: (nat, Tree) -> (Tree, bool))

  ghost predicate Walks(w: World) { forall n, t :: Walked(w.hash, t, w.walk(n, t)) }

  predicate ReadableView(v: View) { forall key :: key in v ==> DecodeUtf8(key).Some? }

  /** Equal streams come from equal views: PipelineStream proves it of the program's streams. */
  ghost predicate FaithfulStream(w: World) {
    forall n, m, u, v :: ReadableView(u) && ReadableView(v) && w.stream(n, u) == w.stream(m, v) ==> u == v
  }

  /** A staging or rollback name drawn since `first`. */
  predicate Own(p: Path, first: nat) {
    p != [] && !p[|p| - 1].Plain? && p[|p| - 1].id >= first
  }

  /** Only this transaction draws its names. */
  ghost predicate Named(t: Tree, first: nat) { forall p :: p in t && !Own(p, first) ==> NamedPath(p) }

  /** Outsiders leave a well-formed tree, do not touch this transaction's staging paths and draw
      no names of its kind. */
  ghost predicate HooksRespectStaging(w: World, first: nat) {
    forall n, t :: WellFormed(t) ==>
      && WellFormed(w.hook(n, t).0) && (Named(t, first) ==> Named(w.hook(n, t).0, first))
      && forall p :: Own(p, first) ==> Get(w.hook(n, t).0, p) == Get(t, p)
  }

  class Repository {
    var tree: Tree
    var nextId: nat
    var steps: nat

    /** `randomUUID()`. */
    method Draw() returns (id: nat)
      modifies this`nextId
      ensures id == old(nextId) && nextId == id + 1
    {
      id := nextId;
      nextId := nextId + 1;
    }

    /** Whether the next step faults. */
    method Tick(fault: nat -> bool) returns (bad: bool)
      modifies this`steps
      ensures bad == fault(old(steps)) && steps == old(steps) + 1
    {
      bad := fault(steps);
      steps := steps + 1;
    }

    /** One mutating step: its effect, or nothing at all. */
    method Step(after: Option<Tree>, fault: nat -> bool) returns (ok: bool)
      modifies this`tree, this`steps
      ensures ok <==> after.Some? && !fault(old(steps))
      ensures tree == if ok then after.value else old(tree)
      ensures steps == old(steps) + 1
    {
      var bad := Tick(fault);
      ok := after.Some? && !bad;
      if ok { tree := after.value; }
    }
  }

  /** `PreparedCandidateFile`. */
  datatype Item = Item(
    path: Path,
    staged: Option<Path>,
    stagedCreated: bool,
    candidate: Option<Record>,
    expectedExists: bool,
    installed: bool)

  function RecordAt(hash: Hash, t: Tree, p: Path): Option<Record> {
    if p in t then Some(RecordOf(hash, t[p])) else None
  }

  /** `assertExpectedFileState` passes: both absent, or two files of one mode and one content. */
  predicate ExpectedState(t: Tree, expected: Tree, p: Path) {
    Get(t, p) == Get(expected, p) && (p in t ==> t[p].File?)
  }

  /** `assertCandidateFileState` passes. */
  predicate CandidateState(hash: Hash, t: Tree, candidate: Option<Record>, p: Path) {
    RecordAt(hash, t, p) == candidate && (candidate.Some? ==> candidate.value.kind == FileKind)
  }

  /** Every name of ours in the tree was drawn before `next`, for a file. */
  ghost predicate DrawnBelow(t: Tree, first: nat, next: nat) {
    forall p :: p in t && Own(p, first) ==> LastId(p) < next && t[p].File?
  }

  predicate HoldsStage(item: Item, p: Path) {
    item.staged == Some(p) && item.stagedCreated && !item.installed
  }

  /** Names of ours in the tree are stages that items still hold. */
  ghost predicate Tracked(t: Tree, first: nat, items: seq<Item>) {
    forall p :: p in t && Own(p, first) ==> exists i :: 0 <= i < |items| && HoldsStage(items[i], p)
  }

  /** The items use distinct paths of the repository and distinct stages of ours. */
  ghost predicate Separate(first: nat, next: nat, items: seq<Item>) {
    && (forall i :: 0 <= i < |items| ==> !Own(items[i].path, first))
    && (forall i, j :: 0 <= i < j < |items| ==> items[i].path != items[j].path)
    && (forall i :: 0 <= i < |items| && items[i].staged.Some? ==>
          Own(items[i].staged.value, first) && LastId(items[i].staged.value) < next)
    && (forall i, j :: 0 <= i < j < |items| && items[i].staged.Some? && items[j].staged.Some? ==>
          items[i].staged.value != items[j].staged.value)
  }

  function LastId(p: Path): nat {
    if p == [] || p[|p| - 1].Plain? then 0 else p[|p| - 1].id
  }

  ghost predicate SameOutside(a: Tree, b: Tree, first: nat) {
    forall p :: !Own(p, first) ==> Get(a, p) == Get(b, p)
  }

  // Staging

  /** A fully staged item: its candidate is the record of the file waiting at the stage. */
  ghost predicate Ready(hash: Hash, t: Tree, expected: Tree, proposed: Tree, item: Item) {
    && item.expectedExists == (item.path in expected)
    && !item.installed
    && item.staged.Some? == (item.path in proposed)
    && item.stagedCreated == item.staged.Some?
    && item.candidate == RecordAt(hash, proposed, item.path)
    && (item.staged.Some? ==>
          proposed[item.path].File? && Get(t, item.staged.value) == Some(proposed[item.path]))
  }

  ghost predicate AllReady(hash: Hash, t: Tree, expected: Tree, proposed: Tree, items: seq<Item>) {
    forall i :: 0 <= i < |items| ==> Ready(hash, t, expected, proposed, items[i])
  }

  /** What holds between the steps of staging. */
  ghost predicate Staging(base: Tree, t: Tree, first: nat, next: nat, files: seq<Path>, items: seq<Item>) {
    && WellFormed(t) && SameOutside(base, t, first) && SameDirs(base, t)
    && DrawnBelow(t, first, next) && Tracked(t, first, items) && Separate(first, next, items)
    && |items| <= |files| && forall i :: 0 <= i < |items| ==> items[i].path == files[i] && !items[i].installed
  }

  /** The stage path of one file: a fresh name beside it. */
  function StagePath(file: Path, id: nat): (p: Path)
    requires file != []
    ensures p != [] && p[|p| - 1].Stage? && p[|p| - 1].id == id
  {
    file[..|file| - 1] + [Stage(NameText(file[|file| - 1]), id)]
  }

  lemma PushItem(base: Tree, t: Tree, first: nat, next: nat, next': nat, files: seq<Path>, items: seq<Item>, item: Item)
    requires Staging(base, t, first, next, files, items) && next <= next'
    requires |items| < |files| && item.path == files[|items|] && !Own(item.path, first) && !item.installed
    requires forall i :: 0 <= i < |items| ==> files[i] != item.path
    requires item.staged.Some? ==> Own(item.staged.value, first) && next <= LastId(item.staged.value) < next'
    ensures Staging(base, t, first, next', files, items + [item])
  {
    var all := items + [item];
    assert forall i :: 0 <= i < |items| ==> all[i] == items[i];
    forall p | p in t && Own(p, first) ensures exists i :: 0 <= i < |all| && HoldsStage(all[i], p) {
      var i :| 0 <= i < |items| && HoldsStage(items[i], p);
      assert HoldsStage(all[i], p);
    }
  }

  // Writing the stage the last item holds changes nothing else.
  lemma WriteStage(base: Tree, t: Tree, t': Tree, first: nat, next: nat, files: seq<Path>, items: seq<Item>, item: Item)
    requires Staging(base, t, first, next, files, items + [item])
    requires item.staged.Some? && item.stagedCreated && WellFormed(t')
    requires t'.Keys == t.Keys + {item.staged.value}
    requires forall p :: p in t && p != item.staged.value ==> t'[p] == t[p]
    requires t'[item.staged.value].File?
    ensures Staging(base, t', first, next, files, items + [item])
    ensures forall i :: 0 <= i < |items| && items[i].staged.Some? ==>
      Get(t', items[i].staged.value) == Get(t, items[i].staged.value)
  {
    var all := items + [item];
    assert all[|items|] == item && HoldsStage(item, item.staged.value);
    assert forall i :: 0 <= i < |items| ==> all[i] == items[i];
  }

  // Items differ only in bookkeeping that no stage depends on.
  lemma RetrackItem(base: Tree, t: Tree, first: nat, next: nat, files: seq<Path>, items: seq<Item>, a: Item, b: Item)
    requires Staging(base, t, first, next, files, items + [a])
    requires b.path == a.path && b.staged == a.staged && b.installed == a.installed
    requires a.stagedCreated ==> b.stagedCreated
    ensures Staging(base, t, first, next, files, items + [b])
  {
    var x, y := items + [a], items + [b];
    assert forall i :: 0 <= i < |items| ==> x[i] == items[i] && y[i] == items[i];
    assert forall i :: 0 <= i < |y| ==>
      y[i].path == x[i].path && y[i].staged == x[i].staged && y[i].installed == x[i].installed;
    forall p | p in t && Own(p, first) ensures exists i :: 0 <= i < |y| && HoldsStage(y[i], p) {
      var i :| 0 <= i < |x| && HoldsStage(x[i], p);
      assert HoldsStage(y[i], p);
    }
  }

  // One write to the stage of the last item, with its bookkeeping.
  lemma StageWritten(hash: Hash, expected: Tree, proposed: Tree, base: Tree, t: Tree, t': Tree, first: nat, next: nat,
                     files: seq<Path>, items: seq<Item>, a: Item, b: Item)
    requires Staging(base, t, first, next, files, items + [a]) && WellFormed(t')
    requires b.path == a.path && b.staged == a.staged && b.installed == a.installed
    requires b.stagedCreated && b.staged.Some?
    requires b.staged.value in t' && t'[b.staged.value].File? && t' == t[b.staged.value := t'[b.staged.value]]
    requires AllReady(hash, t, expected, proposed, items)
    ensures Staging(base, t', first, next, files, items + [b])
    ensures AllReady(hash, t', expected, proposed, items)
  {
    RetrackItem(base, t, first, next, files, items, a, b);
    WriteStage(base, t, t', first, next, files, items, b);
    forall i | 0 <= i < |items| && items[i].staged.Some? ensures items[i].staged.value != b.staged.value {
      assert (items + [b])[i] == items[i] && (items + [b])[|items|] == b;
    }
  }

  ghost predicate NoFaults(w: World) { forall n :: !w.fault(n) }

  /** What staging asks of one changed file. */
  predicate Stageable(t: Tree, expected: Tree, proposed: Tree, file: Path) {
    && Safe(t, file) && Safe(expected, file) && Safe(proposed, file) && ExpectedState(t, expected, file)
    && (file in proposed ==> proposed[file].File?)
  }

  lemma StageableAlike(a: Tree, b: Tree, first: nat, expected: Tree, proposed: Tree, file: Path)
    requires SameDirs(a, b) && SameOutside(a, b, first) && !Own(file, first)
    ensures Stageable(a, expected, proposed, file) <==> Stageable(b, expected, proposed, file)
  {
    SafeIffSafe(a, b, file);
    assert Get(a, file) == Get(b, file);
  }

  /** The stage is free, in a directory that exists. */
  predicate StageFree(t: Tree, stage: Path) { stage != [] && stage !in t && PosixPath(stage) && ParentsOk(t, stage) }

  lemma FreshStage(t: Tree, first: nat, next: nat, file: Path)
    requires DrawnBelow(t, first, next) && first <= next && Safe(t, file)
    ensures StageFree(t, StagePath(file, next))
  {
    var stage := StagePath(file, next);
    assert forall k :: 0 <= k < |file| ==> stage[..k] == file[..k];
    assert forall i :: 0 <= i < |file| - 1 ==> stage[i] == file[i] && SafeName(file[i]);
    assert Own(stage, first) && LastId(stage) == next;
  }

  /** Copies the proposed file to its stage, restores its mode and records it. */
  method FillStage(repo: Repository, w: World, expected: Tree, proposed: Tree, pushed: Item,
                   items: seq<Item>, ghost files: seq<Path>, ghost base: Tree, ghost first: nat)
    returns (ok: bool, item: Item)
    requires Staging(base, repo.tree, first, repo.nextId, files, items + [pushed])
    requires pushed.staged.Some? && !pushed.stagedCreated && !pushed.installed
    requires pushed.path in proposed && proposed[pushed.path].File? && pushed.expectedExists == (pushed.path in expected)
    requires StageFree(repo.tree, pushed.staged.value)
    requires AllReady(w.hash, repo.tree, expected, proposed, items)
    modifies repo`tree, repo`steps
    ensures NoFaults(w) ==> ok
    ensures Staging(base, repo.tree, first, repo.nextId, files, items + [item])
    ensures ok ==> AllReady(w.hash, repo.tree, expected, proposed, items)
    ensures ok ==> item.path == pushed.path && Ready(w.hash, repo.tree, expected, proposed, item)
  {
    item, ok := pushed, false;
    var stage, source := pushed.staged.value, proposed[pushed.path];
    var copyMode: Mode := *;
    ghost var t0 := repo.tree;
    var copied := repo.Step(Copied(repo.tree, stage, copyMode, source.bytes), w.fault);
    if copied {
      CopyKeeps(t0, stage, copyMode, source.bytes);
      item := item.(stagedCreated := true);
      StageWritten(w.hash, expected, proposed, base, t0, repo.tree, first, repo.nextId, files, items, pushed, item);
      ghost var t1 := repo.tree;
      var moded := repo.Step(Chmodded(repo.tree, stage, source.mode), w.fault);
      if moded {
        ChmodKeeps(t1, stage, source.mode);
        StageWritten(w.hash, expected, proposed, base, t1, repo.tree, first, repo.nextId, files, items, item, item);
        var unread := repo.Tick(w.fault);
        if !unread {
          ghost var bare := item;
          item, ok := item.(candidate := RecordAt(w.hash, repo.tree, stage)), true;
          RetrackItem(base, repo.tree, first, repo.nextId, files, items, bare, item);
        }
      }
    }
  }

  method StageFile(repo: Repository, w: World, expected: Tree, proposed: Tree, file: Path,
                   items: seq<Item>, ghost files: seq<Path>, ghost base: Tree, ghost first: nat)
    returns (ok: bool, prepared: seq<Item>)
    requires |items| < |files| && files[|items|] == file && !Own(file, first) && first <= repo.nextId
    requires forall i :: 0 <= i < |items| ==> files[i] != file
    requires Staging(base, repo.tree, first, repo.nextId, files, items)
    requires AllReady(w.hash, repo.tree, expected, proposed, items)
    modifies repo
    ensures first <= repo.nextId
    ensures Staging(base, repo.tree, first, repo.nextId, files, prepared)
    ensures ok ==> |prepared| == |items| + 1 && Stageable(base, expected, proposed, file)
    ensures NoFaults(w) && Stageable(base, expected, proposed, file) ==> ok
    ensures ok ==> AllReady(w.hash, repo.tree, expected, proposed, prepared)
  {
    prepared, ok := items, false;
    StageableAlike(base, repo.tree, first, expected, proposed, file);
    var unread := repo.Tick(w.fault);
    if !unread && Safe(repo.tree, file) && Safe(expected, file) && Safe(proposed, file)
      && ExpectedState(repo.tree, expected, file) {
      ghost var next := repo.nextId;
      FreshStage(repo.tree, first, next, file);
      var suffix := repo.Draw();
      var staged := if file in proposed then Some(StagePath(file, suffix)) else None;
      var item := Item(file, staged, false, None, file in expected, false);
      PushItem(base, repo.tree, first, next, repo.nextId, files, items, item);
      if staged.None? {
        ok := true;
      } else if proposed[file].File? {
        ok, item := FillStage(repo, w, expected, proposed, item, items, files, base, first);
      }
      prepared := items + [item];
    }
  }

  /** `[...new Set(changedFiles)].sort()`: distinct files, none of them a name of ours. */
  ghost predicate FileList(files: seq<Path>, first: nat) {
    && (forall i, j :: 0 <= i < j < |files| ==> files[i] != files[j])
    && (forall i :: 0 <= i < |files| ==> !Own(files[i], first))
  }

  /** Files are given as well-formed texts. */
  ghost predicate TextList(files: seq<Path>, first: nat) {
    FileList(files, first) && forall i :: 0 <= i < |files| ==> NamedPath(files[i]) && Readable(files[i])
  }

  predicate AllStageable(t: Tree, expected: Tree, proposed: Tree, files: seq<Path>) {
    forall i :: 0 <= i < |files| ==> Stageable(t, expected, proposed, files[i])
  }

  lemma StageableMore(t: Tree, expected: Tree, proposed: Tree, files: seq<Path>, i: nat)
    requires i < |files| && AllStageable(t, expected, proposed, files[..i]) && Stageable(t, expected, proposed, files[i])
    ensures AllStageable(t, expected, proposed, files[..i + 1])
  {
    assert forall j :: 0 <= j < i ==> files[..i + 1][j] == files[..i][j];
  }

  lemma NothingStaged(base: Tree, first: nat, files: seq<Path>)
    requires WellFormed(base) && forall p :: p in base ==> !Own(p, first)
    ensures Staging(base, base, first, first, files, [])
  {
  }

  method StageAll(repo: Repository, w: World, expected: Tree, proposed: Tree, files: seq<Path>)
    returns (ok: bool, prepared: seq<Item>)
    requires WellFormed(repo.tree) && FileList(files, repo.nextId)
    requires forall p :: p in repo.tree ==> !Own(p, repo.nextId)
    modifies repo
    ensures old(repo.nextId) <= repo.nextId
    ensures Staging(old(repo.tree), repo.tree, old(repo.nextId), repo.nextId, files, prepared)
    ensures ok ==> |prepared| == |files|
    ensures ok ==> AllReady(w.hash, repo.tree, expected, proposed, prepared)
    ensures ok ==> AllStageable(old(repo.tree), expected, proposed, files)
    ensures NoFaults(w) && AllStageable(old(repo.tree), expected, proposed, files) ==> ok
  {
    ghost var base, first := repo.tree, repo.nextId;
    prepared, ok := [], true;
    NothingStaged(base, first, files);
    var index := 0;
    while ok && index < |files|
      invariant 0 <= index <= |files| && first <= repo.nextId
      invariant Staging(base, repo.tree, first, repo.nextId, files, prepared)
      invariant ok ==> |prepared| == index && AllStageable(base, expected, proposed, files[..index])
      invariant NoFaults(w) && AllStageable(base, expected, proposed, files) ==> ok
      invariant ok ==> AllReady(w.hash, repo.tree, expected, proposed, prepared)
      decreases |files| - index
    {
      ok, prepared := StageFile(repo, w, expected, proposed, files[index], prepared, files, base, first);
      if ok { StageableMore(base, expected, proposed, files, index); }
      index := index + 1;
    }
    assert files[..|files|] == files;
  }

  // Commit

  /** What an item keeps of its preparation once its stage may be gone. */
  ghost predicate Consistent(hash: Hash, expected: Tree, proposed: Tree, item: Item) {
    && item.expectedExists == (item.path in expected)
    && item.staged.Some? == (item.path in proposed)
    && item.stagedCreated == item.staged.Some?
    && item.candidate == RecordAt(hash, proposed, item.path)
    && (item.path in proposed ==> proposed[item.path].File?)
    && (item.installed && item.path in expected ==> expected[item.path].File?)
  }

  /** What holds between commits: the first k items are installed, the rest are ready. */
  ghost predicate Committing(hash: Hash, expected: Tree, proposed: Tree, t: Tree, first: nat, next: nat,
                             items: seq<Item>, k: nat) {
    && WellFormed(t) && DrawnBelow(t, first, next) && Tracked(t, first, items) && Separate(first, next, items)
    && k <= |items|
    && (forall i :: 0 <= i < |items| ==>
          Consistent(hash, expected, proposed, items[i]) && (items[i].installed <==> i < k))
    && (forall i :: k <= i < |items| ==> Ready(hash, t, expected, proposed, items[i]))
  }

  lemma HookKeeps(w: World, n: nat, expected: Tree, proposed: Tree, t: Tree, first: nat, next: nat,
                  items: seq<Item>, k: nat)
    requires HooksRespectStaging(w, first) && Committing(w.hash, expected, proposed, t, first, next, items, k)
    ensures Committing(w.hash, expected, proposed, w.hook(n, t).0, first, next, items, k)
  {
    var t' := w.hook(n, t).0;
    forall p | p in t' && Own(p, first)
      ensures p in t && t'[p] == t[p] {
      assert Get(t', p) == Get(t, p);
    }
    forall i | k <= i < |items| ensures Ready(w.hash, t', expected, proposed, items[i]) {
      if items[i].staged.Some? {
        assert Get(t', items[i].staged.value) == Get(t, items[i].staged.value);
      }
    }
  }

  /** One commit: the destination had its expected state and now has its proposed one. */
  ghost predicate Installed(seen: Tree, t: Tree, expected: Tree, proposed: Tree, path: Path, first: nat) {
    && ExpectedState(seen, expected, path)
    && Get(t, path) == Get(proposed, path)
    && forall p :: !Own(p, first) && p != path ==> Get(t, p) == Get(seen, p)
  }

  lemma InstallKeeps(hash: Hash, expected: Tree, proposed: Tree, seen: Tree, t: Tree, first: nat, next: nat,
                     items: seq<Item>, k: nat)
    requires Committing(hash, expected, proposed, seen, first, next, items, k) && k < |items|
    requires ExpectedState(seen, expected, items[k].path)
    requires WellFormed(t)
    requires t == (if items[k].staged.Some? then (seen - {items[k].staged.value})[items[k].path := seen[items[k].staged.value]]
                   else seen - {items[k].path})
    ensures Committing(hash, expected, proposed, t, first, next, items[k := items[k].(installed := true)], k + 1)
    ensures Installed(seen, t, expected, proposed, items[k].path, first)
  {
    var after := items[k := items[k].(installed := true)];
    assert Ready(hash, seen, expected, proposed, items[k]);
    forall p | p in t && Own(p, first) ensures exists i :: 0 <= i < |after| && HoldsStage(after[i], p) {
      assert p in seen;
      var i :| 0 <= i < |items| && HoldsStage(items[i], p);
      assert HoldsStage(after[i], p);
    }
    forall i | k + 1 <= i < |after| ensures Ready(hash, t, expected, proposed, after[i]) {
      assert Ready(hash, seen, expected, proposed, items[i]);
    }
  }
}

/** The reverse rollback of `applyCandidateFiles` and `restoreExpectedFile`. */
module TransactionRollback {
  import opened Wrappers
  import opened Unicode
  import opened RepositoryTree
  import opened Transaction

  /** The names of ours in `b` were already in `a`, with the same node. */
  predicate NoNewNames(a: Tree, b: Tree, first: nat) {
    forall p :: p in b && Own(p, first) ==> p in a && b[p] == a[p]
  }

  predicate OldNamesKept(a: Tree, b: Tree, first: nat) {
    forall p :: p in a && Own(p, first) ==> p in b && b[p] == a[p]
  }

  ghost predicate Faultless(w: World) { forall n :: !w.rollbackFault(n) }

  /** A restore touches one path; without faults it succeeds and leaves no rollback file. */
  ghost predicate Restored(a: Tree, b: Tree, expected: Tree, p: Path, first: nat, next: nat, faultless: bool) {
    && WellFormed(b) && SameDirs(a, b) && DrawnBelow(b, first, next) && OldNamesKept(a, b, first)
    && (forall q :: !Own(q, first) && q != p ==> Get(b, q) == Get(a, q))
    && (Get(b, p) == Get(expected, p) || Get(b, p) == Get(a, p))
    && (faultless ==> Get(b, p) == Get(expected, p) && NoNewNames(a, b, first))
  }

  function RollbackPath(file: Path, id: nat): (p: Path)
    requires file != []
    ensures |p| == |file| && p[|p| - 1].Rollback? && p[|p| - 1].id == id
    ensures forall k :: 0 <= k < |file| ==> p[..k] == file[..k]
  {
    file[..|file| - 1] + [Rollback(NameText(file[|file| - 1]), id)]
  }

  /** What holds while the rollback file exists: nothing else has changed. */
  ghost predicate Copying(a: Tree, b: Tree, rollback: Path) {
    rollback !in a && b.Keys == a.Keys + {rollback} && b[rollback].File? && forall p :: p in a ==> b[p] == a[p]
  }

  lemma CopyingKeeps(a: Tree, b: Tree, rollback: Path, first: nat, next: nat)
    requires WellFormed(a) && DrawnBelow(a, first, next) && Copying(a, b, rollback) && WellFormed(b)
    requires Own(rollback, first) && LastId(rollback) == next
    ensures DrawnBelow(b, first, next + 1) && SameDirs(a, b) && OldNamesKept(a, b, first)
    ensures forall q :: !Own(q, first) ==> Get(b, q) == Get(a, q)
  {
  }

  // The rollback file moves over the destination.
  lemma RenamedRestores(a: Tree, b: Tree, expected: Tree, p: Path, rollback: Path, first: nat, next: nat)
    requires WellFormed(a) && DrawnBelow(a, first, next) && Copying(a, b, rollback) && WellFormed(b)
    requires !Own(p, first) && Own(rollback, first) && LastId(rollback) == next
    requires p in expected && b[rollback] == expected[p] && Renamed(b, rollback, p).Some?
    requires p in a ==> !a[p].Dir?
    ensures Restored(a, Renamed(b, rollback, p).value, expected, p, first, next + 1, true)
  {
    RenameKeeps(b, rollback, p);
    CopyingKeeps(a, b, rollback, first, next);
    var c := Renamed(b, rollback, p).value;
    assert forall q :: q != p && q != rollback ==> Get(c, q) == Get(b, q);
    assert forall q :: q != rollback ==> Get(b, q) == Get(a, q);
  }

  // The leftover is removed and everything is as before.
  lemma LeftoverRemoved(a: Tree, b: Tree, rollback: Path)
    requires Copying(a, b, rollback)
    ensures Unlinked(b, rollback) == Some(a)
  {
    assert b - {rollback} == a;
  }

  lemma Unrestored(a: Tree, b: Tree, expected: Tree, p: Path, rollback: Path, first: nat, next: nat)
    requires WellFormed(a) && DrawnBelow(a, first, next) && Copying(a, b, rollback) && WellFormed(b)
    requires !Own(p, first) && Own(rollback, first) && LastId(rollback) == next
    ensures Restored(a, b, expected, p, first, next + 1, false)
  {
    CopyingKeeps(a, b, rollback, first, next);
  }

  /** `restoreExpectedFile` for a file that existed: copy beside it, restore the mode, rename over. */
  method RestoreFile(repo: Repository, w: World, expected: Tree, file: Path, ghost first: nat)
    requires WellFormed(repo.tree) && DrawnBelow(repo.tree, first, repo.nextId) && first <= repo.nextId
    requires !Own(file, first) && Safe(repo.tree, file) && (file in repo.tree ==> !repo.tree[file].Dir?)
    requires file in expected && expected[file].File?
    modifies repo
    ensures repo.nextId == old(repo.nextId) + 1
    ensures Restored(old(repo.tree), repo.tree, expected, file, first, repo.nextId, Faultless(w))
  {
    var suffix := repo.Draw();
    var rollback := RollbackPath(file, suffix);
    ghost var a := repo.tree;
    assert rollback !in a;
    assert ParentsOk(a, rollback);
    assert PosixPath(rollback) by {
      assert forall i :: 0 <= i < |file| - 1 ==> rollback[i] == file[i] && SafeName(file[i]);
    }
    var copyMode: Mode := *;
    var source := expected[file];
    var created := repo.Step(Copied(repo.tree, rollback, copyMode, source.bytes), w.rollbackFault);
    if created {
      CopyKeeps(a, rollback, copyMode, source.bytes);
      FinishRestore(repo, w, expected, file, rollback, a, first);
    }
  }

  /** The steps after the copy, and the `finally` block. */
  method FinishRestore(repo: Repository, w: World, expected: Tree, file: Path, rollback: Path, ghost a: Tree, ghost first: nat)
    requires WellFormed(a) && DrawnBelow(a, first, LastId(rollback)) && repo.nextId == LastId(rollback) + 1
    requires Own(rollback, first) && !Own(file, first) && Safe(a, file) && (file in a ==> !a[file].Dir?)
    requires file in expected && expected[file].File?
    requires WellFormed(repo.tree) && Copying(a, repo.tree, rollback) && repo.tree[rollback].bytes == expected[file].bytes
    modifies repo`tree, repo`steps
    ensures Restored(a, repo.tree, expected, file, first, repo.nextId, Faultless(w))
  {
    ghost var b, next := repo.tree, LastId(rollback);
    var moded := repo.Step(Chmodded(repo.tree, rollback, expected[file].mode), w.rollbackFault);
    ghost var c := repo.tree;
    if moded { ChmodKeeps(b, rollback, expected[file].mode); }
    assert Copying(a, c, rollback);
    CopyingKeeps(a, c, rollback, first, next);
    SafeIffSafe(a, c, file);
    var moved := false;
    if moded { moved := repo.Step(Renamed(repo.tree, rollback, file), w.rollbackFault); }
    if moved {
      RenamedRestores(a, c, expected, file, rollback, first, next);
    } else {
      Unrestored(a, c, expected, file, rollback, first, next);
    }
    if rollback in repo.tree {
      LeftoverRemoved(a, c, rollback);
      var removed := repo.Step(Unlinked(repo.tree, rollback), w.rollbackFault);
    }
  }

  /** `restoreExpectedFile`. */
  method Restore(repo: Repository, w: World, expected: Tree, item: Item, ghost first: nat)
    requires WellFormed(repo.tree) && DrawnBelow(repo.tree, first, repo.nextId) && first <= repo.nextId
    requires !Own(item.path, first) && Safe(repo.tree, item.path)
    requires item.path in repo.tree ==> !repo.tree[item.path].Dir?
    requires item.expectedExists == (item.path in expected) && (item.path in expected ==> expected[item.path].File?)
    modifies repo
    ensures old(repo.nextId) <= repo.nextId
    ensures Restored(old(repo.tree), repo.tree, expected, item.path, first, repo.nextId, Faultless(w))
  {
    ghost var a := repo.tree;
    if item.expectedExists {
      RestoreFile(repo, w, expected, item.path, first);
    } else if item.path in repo.tree {
      var removed := repo.Step(Unlinked(repo.tree, item.path), w.rollbackFault);
      if removed { UnlinkKeeps(a, item.path); }
    }
  }

  // The reverse loop. `last` is the tree the rollback starts from.

  /** The rollback will restore this item: it was installed, and nobody has edited it since. */
  predicate Restorable(hash: Hash, last: Tree, item: Item) {
    item.installed && Safe(last, item.path) && CandidateState(hash, last, item.candidate, item.path)
  }

  predicate Chosen(hash: Hash, last: Tree, items: seq<Item>, from: nat, p: Path) {
    exists j :: from <= j < |items| && items[j].path == p && Restorable(hash, last, items[j])
  }

  /** An installed item remembers its expected file. */
  ghost predicate Undoable(expected: Tree, items: seq<Item>) {
    forall i :: 0 <= i < |items| && items[i].installed ==>
      items[i].expectedExists == (items[i].path in expected)
      && (items[i].path in expected ==> expected[items[i].path].File?)
  }

  /** Items from `from` on are rolled back, and stages from `held` on are cleaned up. */
  ghost predicate Undoing(hash: Hash, faultless: bool, last: Tree, expected: Tree, t: Tree, first: nat, next: nat,
                          items: seq<Item>, from: nat, held: nat) {
    && from <= held <= |items|
    && WellFormed(t) && DrawnBelow(t, first, next) && SameDirs(last, t)
    && (forall p :: !Own(p, first) ==>
          Get(t, p) == Get(last, p) || (Chosen(hash, last, items, from, p) && Get(t, p) == Get(expected, p)))
    && (faultless ==> forall p :: !Own(p, first) && Chosen(hash, last, items, from, p) ==> Get(t, p) == Get(expected, p))
    && (faultless ==> forall p :: p in t && Own(p, first) ==> exists j :: 0 <= j < held && HoldsStage(items[j], p))
  }

  lemma ChosenStep(hash: Hash, last: Tree, items: seq<Item>, i: nat, p: Path)
    requires i < |items|
    ensures Chosen(hash, last, items, i, p) <==>
      Chosen(hash, last, items, i + 1, p) || (items[i].path == p && Restorable(hash, last, items[i]))
  {
  }

  // An item still to be rolled back is as the rollback found it.
  lemma Untouched(hash: Hash, faultless: bool, last: Tree, expected: Tree, t: Tree, first: nat, next: nat,
                  items: seq<Item>, i: nat)
    requires Undoing(hash, faultless, last, expected, t, first, next, items, i + 1, i + 1) && Separate(first, next, items)
    ensures Get(t, items[i].path) == Get(last, items[i].path)
    ensures Safe(t, items[i].path) && CandidateState(hash, t, items[i].candidate, items[i].path) && items[i].installed
      <==> Restorable(hash, last, items[i])
  {
    SafeIffSafe(last, t, items[i].path);
    assert !Chosen(hash, last, items, i + 1, items[i].path);
    assert RecordAt(hash, t, items[i].path) == RecordAt(hash, last, items[i].path);
  }

  lemma UndoRestored(hash: Hash, faultless: bool, last: Tree, expected: Tree, a: Tree, b: Tree, first: nat,
                     next: nat, next': nat, items: seq<Item>, i: nat)
    requires Undoing(hash, faultless, last, expected, a, first, next, items, i + 1, i + 1) && Separate(first, next, items)
    requires Restorable(hash, last, items[i])
    requires Restored(a, b, expected, items[i].path, first, next', faultless)
    ensures Undoing(hash, faultless, last, expected, b, first, next', items, i, i + 1)
  {
    Untouched(hash, faultless, last, expected, a, first, next, items, i);
    forall p | !Own(p, first)
      ensures Get(b, p) == Get(last, p) || (Chosen(hash, last, items, i, p) && Get(b, p) == Get(expected, p))
      ensures faultless && Chosen(hash, last, items, i, p) ==> Get(b, p) == Get(expected, p) {
      ChosenStep(hash, last, items, i, p);
    }
  }

  lemma UndoSkipped(hash: Hash, faultless: bool, last: Tree, expected: Tree, t: Tree, first: nat, next: nat,
                    items: seq<Item>, i: nat)
    requires Undoing(hash, faultless, last, expected, t, first, next, items, i + 1, i + 1)
    requires faultless ==> !Restorable(hash, last, items[i])
    ensures Undoing(hash, faultless, last, expected, t, first, next, items, i, i + 1)
  {
    forall p | !Own(p, first)
      ensures Get(t, p) == Get(last, p) || (Chosen(hash, last, items, i, p) && Get(t, p) == Get(expected, p))
      ensures faultless && Chosen(hash, last, items, i, p) ==> Get(t, p) == Get(expected, p) {
      ChosenStep(hash, last, items, i, p);
    }
  }

  // The stage is gone: it never was there, or it was just unlinked, or a fault kept it.
  lemma UndoCleaned(hash: Hash, faultless: bool, last: Tree, expected: Tree, a: Tree, b: Tree, first: nat, next: nat,
                    items: seq<Item>, i: nat)
    requires Undoing(hash, faultless, last, expected, a, first, next, items, i, i + 1) && Separate(first, next, items)
    requires WellFormed(b)
    requires b == a || (items[i].staged.Some? && items[i].staged.value in a && b == a - {items[i].staged.value})
    requires faultless && items[i].staged.Some? && items[i].stagedCreated ==> items[i].staged.value !in b
    ensures Undoing(hash, faultless, last, expected, b, first, next, items, i, i)
  {
    assert forall p :: !Own(p, first) ==> Get(b, p) == Get(a, p);
    forall p | faultless && p in b && Own(p, first) ensures exists j :: 0 <= j < i && HoldsStage(items[j], p) {
      var j :| 0 <= j < i + 1 && HoldsStage(items[j], p);
    }
  }

  /** One turn of the rollback loop. */
  method RollBackOne(repo: Repository, w: World, expected: Tree, items: seq<Item>, i: nat, ghost last: Tree, ghost first: nat)
    requires i < |items| && first <= repo.nextId && Separate(first, repo.nextId, items) && Undoable(expected, items)
    requires Undoing(w.hash, Faultless(w), last, expected, repo.tree, first, repo.nextId, items, i + 1, i + 1)
    modifies repo
    ensures old(repo.nextId) <= repo.nextId
    ensures Undoing(w.hash, Faultless(w), last, expected, repo.tree, first, repo.nextId, items, i, i + 1)
  {
    var item := items[i];
    ghost var a, next := repo.tree, repo.nextId;
    Untouched(w.hash, Faultless(w), last, expected, a, first, next, items, i);
    var unread := repo.Tick(w.rollbackFault);
    if item.installed && !unread && Safe(repo.tree, item.path)
      && CandidateState(w.hash, repo.tree, item.candidate, item.path) {
      Restore(repo, w, expected, item, first);
      UndoRestored(w.hash, Faultless(w), last, expected, a, repo.tree, first, next, repo.nextId, items, i);
    } else {
      UndoSkipped(w.hash, Faultless(w), last, expected, a, first, next, items, i);
    }
  }

  method CleanUpOne(repo: Repository, w: World, ghost expected: Tree, items: seq<Item>, i: nat, ghost last: Tree, ghost first: nat)
    requires i < |items| && Separate(first, repo.nextId, items)
    requires Undoing(w.hash, Faultless(w), last, expected, repo.tree, first, repo.nextId, items, i, i + 1)
    modifies repo`tree, repo`steps
    ensures Undoing(w.hash, Faultless(w), last, expected, repo.tree, first, repo.nextId, items, i, i)
  {
    var item := items[i];
    ghost var a := repo.tree;
    var unread := repo.Tick(w.rollbackFault);
    if item.stagedCreated && item.staged.Some? && !unread && item.staged.value in repo.tree {
      var removed := repo.Step(Unlinked(repo.tree, item.staged.value), w.rollbackFault);
      if removed { UnlinkKeeps(a, item.staged.value); }
    }
    UndoCleaned(w.hash, Faultless(w), last, expected, a, repo.tree, first, repo.nextId, items, i);
  }

  /** The rollback: every item, last first. */
  method RollBackAll(repo: Repository, w: World, expected: Tree, items: seq<Item>, ghost first: nat)
    requires first <= repo.nextId && Separate(first, repo.nextId, items) && Undoable(expected, items)
    requires WellFormed(repo.tree) && DrawnBelow(repo.tree, first, repo.nextId) && Tracked(repo.tree, first, items)
    modifies repo
    ensures Undoing(w.hash, Faultless(w), old(repo.tree), expected, repo.tree, first, repo.nextId, items, 0, 0)
  {
    ghost var last := repo.tree;
    var i := |items|;
    while i > 0
      invariant 0 <= i <= |items| && first <= repo.nextId && Separate(first, repo.nextId, items)
      invariant Undoing(w.hash, Faultless(w), last, expected, repo.tree, first, repo.nextId, items, i, i)
    {
      i := i - 1;
      RollBackOne(repo, w, expected, items, i, last, first);
      CleanUpOne(repo, w, expected, items, i, last, first);
    }
  }
}

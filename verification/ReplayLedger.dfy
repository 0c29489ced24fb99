/** The owner-authorization replay ledger and its external anchor (client.ts, repo.ts, auth.ts).

    Processes interleave step by step and may stop anywhere. Between any two steps outsiders
    may put another file at the database path: a new one with any contents, or an earlier one. */
module ReplayLedger {
  import opened Wrappers

  /** A device and inode number. No file system reuses one here. */
  type Inode = nat

  /** The unique columns of a consumption; terms stands for the bindings that are only stored. */
  datatype Consumption = Consumption(
    authorizationId: string, envelopeId: string, envelopeDigest: string, nonceDigest: string,
    terms: string, expiresAt: int)

  datatype Stored = Stored(row: Consumption, consumedAt: int)

  datatype Anchor = Anchor(storeId: string, databasePath: string, databaseInode: Inode, initializedAt: int, nonce: string)

  /** The kept anchor file: its own inode, and the document that its digest covers. */
  datatype AnchorFile = AnchorFile(inode: Inode, document: Anchor)

  /** The singleton row of owner_authorization_store_identity. */
  datatype Identity = Identity(
    storeId: string, databasePath: string, inode: Inode, anchorInode: Inode, anchorDigest: string, initializedAt: int)

  datatype Database = Database(identity: Option<Identity>, ledger: seq<Stored>, campaigns: seq<string>)

  /** What every process is configured with, and how an anchor document is hashed. */
  datatype Config = Config(storeId: string, databasePath: string, digest: Anchor -> string)

  datatype Disk = Disk(files: map<Inode, Database>, current: Inode, anchor: Option<AnchorFile>)

  // Checks

  /** `assertExactStoreIdentity`. */
  predicate Matches(config: Config, stored: Identity, inode: Inode, anchor: AnchorFile) {
    && stored.storeId == config.storeId && stored.databasePath == config.databasePath && stored.inode == inode
    && stored.anchorInode == anchor.inode && stored.anchorDigest == config.digest(anchor.document)
    && anchor.document.storeId == config.storeId && anchor.document.databasePath == config.databasePath
    && anchor.document.databaseInode == inode && anchor.document.initializedAt == stored.initializedAt
  }

  /** `assertStableOpenFileIdentity`: the open file still is the one at the path. */
  predicate Stable(disk: Disk, handle: Inode) { disk.current == handle && handle in disk.files }

  /** `assertInitializedOwnerAuthorizationStore` passes for a connection to this file. */
  predicate Accepts(config: Config, disk: Disk, handle: Inode) {
    && Stable(disk, handle) && disk.files[handle].identity.Some? && disk.anchor.Some?
    && Matches(config, disk.files[handle].identity.value, handle, disk.anchor.value)
  }

  predicate SameKey(a: Consumption, b: Consumption) {
    a.authorizationId == b.authorizationId || a.envelopeId == b.envelopeId
    || a.envelopeDigest == b.envelopeDigest || a.nonceDigest == b.nonceDigest
  }

  /** A unique column of the table already holds one of the row's values. */
  predicate Conflicts(ledger: seq<Stored>, row: Consumption) {
    exists i :: 0 <= i < |ledger| && SameKey(ledger[i].row, row)
  }

  // Processes

  datatype Task = Initialize | Publish(row: Consumption) | Reset

  datatype Process =
    | Closed(task: Task)
    | Opened(task: Task, inode: Inode)
    | Anchored(inode: Inode, document: Anchor)
    | Identified(inode: Inode)
    | Checked(inode: Inode, row: Consumption, consumedAt: int)
    | Inserted(inode: Inode, stored: Stored)
    | Consumed(inode: Inode, stored: Stored)
    | Marked(inode: Inode, stored: Stored)
    | Minted(inode: Inode, stored: Stored)
    | Finished(inode: Inode)
    | Refused

  /** What the world supplies: a clock sample, random names, and whether the grant, the registry
      and GitHub still agree. */
  datatype Input = Input(now: int, nonce: string, anchorInode: Inode, agreed: bool)

  function WithFile(disk: Disk, inode: Inode, db: Database): Disk {
    disk.(files := disk.files[inode := db])
  }

  /** `initializeOwnerAuthorizationStore` up to the anchor. */
  function InitializeStep(config: Config, disk: Disk, handle: Inode, input: Input): (Disk, Process) {
    if !Stable(disk, handle) then (disk, Refused)
    else if disk.files[handle].identity.Some? then
      (disk, if Accepts(config, disk, handle) then Identified(handle) else Refused)
    else if disk.anchor.Some? then (disk, Refused)
    else
      var document := Anchor(config.storeId, config.databasePath, handle, input.now, input.nonce);
      (disk.(anchor := Some(AnchorFile(input.anchorInode, document))), Anchored(handle, document))
  }

  /** The commit of the identity row. */
  function IdentifyStep(config: Config, disk: Disk, handle: Inode, document: Anchor): (Disk, Process) {
    if handle !in disk.files || disk.anchor.None? then (disk, Refused)
    else
      var identity := Identity(config.storeId, config.databasePath, handle, disk.anchor.value.inode,
                               config.digest(disk.anchor.value.document), document.initializedAt);
      if disk.files[handle].identity.Some? || !Matches(config, identity, handle, disk.anchor.value) then (disk, Refused)
      else (WithFile(disk, handle, disk.files[handle].(identity := Some(identity))), Identified(handle))
  }

  /** The insert and commit of a consumption, into the open file wherever it now is. */
  function InsertStep(disk: Disk, handle: Inode, row: Consumption, consumedAt: int): (Disk, Process) {
    if handle !in disk.files || Conflicts(disk.files[handle].ledger, row) then (disk, Refused)
    else
      var stored := Stored(row, consumedAt);
      (WithFile(disk, handle, disk.files[handle].(ledger := disk.files[handle].ledger + [stored])), Inserted(handle, stored))
  }

  /** One step of one process. */
  function Step(config: Config, disk: Disk, p: Process, input: Input): (Disk, Process) {
    match p
    case Closed(task) => (disk, Opened(task, disk.current))
    case Opened(Initialize, inode) => InitializeStep(config, disk, inode, input)
    case Opened(Publish(row), inode) =>
      (disk, if input.agreed && Accepts(config, disk, inode) && row.expiresAt > input.now
             then Checked(inode, row, input.now) else Refused)
    case Opened(Reset, inode) =>
      if inode !in disk.files then (disk, Refused)
      else (WithFile(disk, inode, disk.files[inode].(campaigns := [])), Finished(inode))
    case Anchored(inode, document) => IdentifyStep(config, disk, inode, document)
    case Identified(inode) => (disk, if Accepts(config, disk, inode) then Finished(inode) else Refused)
    case Checked(inode, row, consumedAt) => InsertStep(disk, inode, row, consumedAt)
    case Inserted(inode, stored) =>
      (disk, if Accepts(config, disk, inode) && stored in disk.files[inode].ledger && stored.row.expiresAt > input.now
             then Consumed(inode, stored) else Refused)
    case Consumed(inode, stored) =>
      (disk, if input.agreed && stored.consumedAt < stored.row.expiresAt && input.now < stored.row.expiresAt
             then Marked(inode, stored) else Refused)
    case Marked(inode, stored) =>
      (disk, if input.agreed && input.now < stored.row.expiresAt then Minted(inode, stored) else Refused)
    case Minted(_, _) => (disk, p)
    case Finished(_) => (disk, p)
    case Refused => (disk, p)
  }

  datatype Event = Act(process: nat, input: Input) | Replace(inode: Inode, contents: Database)

  datatype System = System(disk: Disk, processes: seq<Process>)

  /** A file swapped in is an earlier file as it was left, or a new one with any contents. */
  function Replaced(disk: Disk, inode: Inode, contents: Database): Disk {
    (if inode in disk.files then disk else WithFile(disk, inode, contents)).(current := inode)
  }

  function Apply(config: Config, sys: System, e: Event): System {
    match e
    case Replace(inode, contents) => sys.(disk := Replaced(sys.disk, inode, contents))
    case Act(i, input) =>
      if i >= |sys.processes| then sys
      else
        var (disk, p) := Step(config, sys.disk, sys.processes[i], input);
        System(disk, sys.processes[i := p])
  }

  function Run(config: Config, sys: System, events: seq<Event>): System
    decreases |events|
  {
    if events == [] then sys else Run(config, Apply(config, sys, events[0]), events[1..])
  }

  /** No process has started. The files may hold anything, and an anchor may have been made. */
  predicate Initial(sys: System) { forall i :: 0 <= i < |sys.processes| ==> sys.processes[i].Closed? }

  // What every step keeps

  /** The anchor stays once made, ledgers only grow, and an identity row stays. */
  predicate Kept(a: Disk, b: Disk) {
    && (a.anchor.Some? ==> b.anchor == a.anchor)
    && forall f :: f in a.files ==>
         && f in b.files && a.files[f].ledger <= b.files[f].ledger
         && (a.files[f].identity.Some? ==> b.files[f].identity == a.files[f].identity)
  }

  lemma KeptTransitive(a: Disk, b: Disk, c: Disk)
    requires Kept(a, b) && Kept(b, c)
    ensures Kept(a, c)
  {
  }

  lemma StepKept(config: Config, disk: Disk, p: Process, input: Input)
    ensures Kept(disk, Step(config, disk, p, input).0)
  {
  }

  lemma ApplyKept(config: Config, sys: System, e: Event)
    ensures Kept(sys.disk, Apply(config, sys, e).disk)
  {
    if e.Act? && e.process < |sys.processes| {
      StepKept(config, sys.disk, sys.processes[e.process], e.input);
    }
  }

  lemma {:induction false} RunKept(config: Config, sys: System, events: seq<Event>)
    ensures Kept(sys.disk, Run(config, sys, events).disk)
    decreases |events|
  {
    if events != [] {
      ApplyKept(config, sys, events[0]);
      RunKept(config, Apply(config, sys, events[0]), events[1..]);
      KeptTransitive(sys.disk, Apply(config, sys, events[0]).disk, Run(config, sys, events).disk);
    }
  }

  /** The stored consumption of a process past its insert. */
  predicate HasInserted(p: Process) { p.Inserted? || HasConsumed(p) }
  predicate HasConsumed(p: Process) { p.Consumed? || p.Marked? || p.Minted? }

  /** Inserted rows are in the file they went to; consumed ones in the anchored file. */
  ghost predicate ProcessOk(disk: Disk, p: Process) {
    && (HasInserted(p) ==> p.inode in disk.files && p.stored in disk.files[p.inode].ledger)
    && (HasConsumed(p) ==> disk.anchor.Some? && disk.anchor.value.document.databaseInode == p.inode)
  }

  /** Two processes that inserted into one file used different keys. */
  ghost predicate Apart(p: Process, q: Process) {
    HasInserted(p) && HasInserted(q) && p.inode == q.inode ==> !SameKey(p.stored.row, q.stored.row)
  }

  ghost predicate Inv(sys: System) {
    && (forall i :: 0 <= i < |sys.processes| ==> ProcessOk(sys.disk, sys.processes[i]))
    && forall i, j :: 0 <= i < j < |sys.processes| ==> Apart(sys.processes[i], sys.processes[j])
  }

  lemma ProcessKept(a: Disk, b: Disk, p: Process)
    requires Kept(a, b) && ProcessOk(a, p)
    ensures ProcessOk(b, p)
  {
  }

  lemma StepOk(config: Config, disk: Disk, p: Process, input: Input)
    requires ProcessOk(disk, p)
    ensures ProcessOk(Step(config, disk, p, input).0, Step(config, disk, p, input).1)
  {
    StepKept(config, disk, p, input);
  }

  // A step that inserts uses keys that no other process inserted into that file.
  lemma StepApart(config: Config, disk: Disk, p: Process, q: Process, input: Input)
    requires ProcessOk(disk, q) && Apart(p, q)
    ensures Apart(Step(config, disk, p, input).1, q)
  {
  }

  lemma ApartSymmetric(p: Process, q: Process)
    ensures Apart(p, q) <==> Apart(q, p)
  {
  }

  lemma ApplyInv(config: Config, sys: System, e: Event)
    requires Inv(sys)
    ensures Inv(Apply(config, sys, e))
  {
    var next := Apply(config, sys, e);
    ApplyKept(config, sys, e);
    forall i | 0 <= i < |next.processes| ensures ProcessOk(next.disk, next.processes[i]) {
      ProcessKept(sys.disk, next.disk, sys.processes[i]);
      if e.Act? && i == e.process { StepOk(config, sys.disk, sys.processes[i], e.input); }
    }
    forall i, j | 0 <= i < j < |next.processes| ensures Apart(next.processes[i], next.processes[j]) {
      if e.Act? && i == e.process { StepApart(config, sys.disk, sys.processes[i], sys.processes[j], e.input); }
      if e.Act? && j == e.process {
        ApartSymmetric(sys.processes[i], sys.processes[j]);
        StepApart(config, sys.disk, sys.processes[j], sys.processes[i], e.input);
        ApartSymmetric(next.processes[i], next.processes[j]);
      }
    }
  }

  lemma {:induction false} RunInv(config: Config, sys: System, events: seq<Event>)
    requires Inv(sys)
    ensures Inv(Run(config, sys, events))
    decreases |events|
  {
    if events != [] {
      ApplyInv(config, sys, events[0]);
      RunInv(config, Apply(config, sys, events[0]), events[1..]);
    }
  }

  /** A row was inserted only where no row of an earlier time had one of its keys. */
  ghost predicate Fresh(start: Disk, p: Process) {
    HasInserted(p) && p.inode in start.files ==> !Conflicts(start.files[p.inode].ledger, p.stored.row)
  }

  lemma ConflictsStay(a: seq<Stored>, b: seq<Stored>, row: Consumption)
    requires a <= b && Conflicts(a, row)
    ensures Conflicts(b, row)
  {
    var i :| 0 <= i < |a| && SameKey(a[i].row, row);
    assert b[i] == a[i];
  }

  lemma StepFresh(config: Config, start: Disk, disk: Disk, p: Process, input: Input)
    requires Kept(start, disk) && Fresh(start, p)
    ensures Fresh(start, Step(config, disk, p, input).1)
  {
    if p.Checked? && p.inode in start.files && Conflicts(start.files[p.inode].ledger, p.row) {
      ConflictsStay(start.files[p.inode].ledger, disk.files[p.inode].ledger, p.row);
    }
  }

  lemma {:induction false} RunFresh(config: Config, start: Disk, sys: System, events: seq<Event>)
    requires Kept(start, sys.disk) && forall i :: 0 <= i < |sys.processes| ==> Fresh(start, sys.processes[i])
    ensures forall i :: 0 <= i < |Run(config, sys, events).processes| ==> Fresh(start, Run(config, sys, events).processes[i])
    decreases |events|
  {
    if events != [] {
      var e, next := events[0], Apply(config, sys, events[0]);
      ApplyKept(config, sys, e);
      KeptTransitive(start, sys.disk, next.disk);
      forall i | 0 <= i < |next.processes| ensures Fresh(start, next.processes[i]) {
        if e.Act? && i == e.process { StepFresh(config, start, sys.disk, sys.processes[i], e.input); }
      }
      RunFresh(config, start, next, events[1..]);
    }
  }

  // The promises

  /** At most one file is ever accepted as the ledger, however often files are swapped. */
  lemma OneLedger(config: Config, sys: System, events: seq<Event>, a: Inode, b: Inode)
    requires Accepts(config, sys.disk, a) && Accepts(config, Run(config, sys, events).disk, b)
    ensures a == b
  {
    RunKept(config, sys, events);
  }

  /** No authorization id, envelope id, envelope digest or nonce digest is consumed by two
      processes, and so no authorization mints two write tokens. */
  lemma OneUse(config: Config, init: System, events: seq<Event>, i: nat, j: nat)
    requires Initial(init) && i < j < |Run(config, init, events).processes|
    ensures
      var p, q := Run(config, init, events).processes[i], Run(config, init, events).processes[j];
      HasConsumed(p) && HasConsumed(q) ==> p.inode == q.inode && !SameKey(p.stored.row, q.stored.row)
  {
    RunInv(config, init, events);
    var end := Run(config, init, events);
    assert Apart(end.processes[i], end.processes[j]);
    assert ProcessOk(end.disk, end.processes[i]) && ProcessOk(end.disk, end.processes[j]);
  }

  /** Nor is a key consumed that the ledger held before the run, whoever anchored it and when. */
  lemma SpentStaysSpent(config: Config, init: System, events: seq<Event>, i: nat, k: nat)
    requires Initial(init) && i < |Run(config, init, events).processes|
    ensures
      var p := Run(config, init, events).processes[i];
      HasConsumed(p) && p.inode in init.disk.files && k < |init.disk.files[p.inode].ledger| ==>
        !SameKey(init.disk.files[p.inode].ledger[k].row, p.stored.row)
  {
    RunFresh(config, init.disk, init, events);
    assert Fresh(init.disk, Run(config, init, events).processes[i]);
  }

  /** A consumption stays in the accepted file for the rest of every run, whatever resets,
      crashes and swaps follow. */
  lemma ConsumptionStays(config: Config, sys: System, events: seq<Event>, i: nat)
    requires Inv(sys) && i < |sys.processes| && HasConsumed(sys.processes[i])
    ensures
      var p, disk := sys.processes[i], Run(config, sys, events).disk;
      p.inode in disk.files && p.stored in disk.files[p.inode].ledger && disk.anchor == sys.disk.anchor
  {
    RunKept(config, sys, events);
    assert ProcessOk(sys.disk, sys.processes[i]);
  }

  /** One anchor fits one identity row: a file with any other is refused. */
  lemma IdentityDetermined(config: Config, disk: Disk, f: Inode, other: Identity)
    requires Accepts(config, disk, f)
    ensures Accepts(config, WithFile(disk, f, disk.files[f].(identity := Some(other))), f) <==>
      disk.files[f].identity == Some(other)
  {
    if disk.files[f].identity == Some(other) {
      assert WithFile(disk, f, disk.files[f].(identity := Some(other))) == disk by {
        assert disk.files[f := disk.files[f]] == disk.files;
      }
    }
  }

  /** And one identity row fits anchors of one file, time and digest: any other is refused. */
  lemma AnchorDetermined(config: Config, disk: Disk, f: Inode, other: AnchorFile)
    requires Accepts(config, disk, f)
    ensures Accepts(config, disk.(anchor := Some(other)), f) <==>
      var x, y := disk.anchor.value, other;
      && x.inode == y.inode && config.digest(x.document) == config.digest(y.document)
      && y.document == x.document.(nonce := y.document.nonce)
  {
  }

  /** Nor is a store accepted under another store id or database path. */
  lemma ConfigDetermined(config: Config, other: Config, disk: Disk, f: Inode)
    requires Accepts(config, disk, f) && Accepts(other, disk, f)
    ensures other.storeId == config.storeId && other.databasePath == config.databasePath
  {
  }

  // An interrupted initialization

  /** The anchor was made for a file that holds no identity row, and nobody is about to write it. */
  ghost predicate Orphaned(sys: System) {
    && sys.disk.anchor.Some?
    && (var f := sys.disk.anchor.value.document.databaseInode;
        f in sys.disk.files && sys.disk.files[f].identity.None?)
    && forall i :: 0 <= i < |sys.processes| ==> !sys.processes[i].Anchored?
  }

  lemma OrphanStep(config: Config, sys: System, e: Event)
    requires Orphaned(sys)
    ensures Orphaned(Apply(config, sys, e))
  {
  }

  /** A crash between anchor and identity row blocks the store for good: no file is accepted again. */
  lemma {:induction false} OrphanBlocks(config: Config, sys: System, events: seq<Event>, f: Inode)
    requires Orphaned(sys)
    ensures !Accepts(config, Run(config, sys, events).disk, f)
    decreases |events|
  {
    if events != [] {
      OrphanStep(config, sys, events[0]);
      OrphanBlocks(config, Apply(config, sys, events[0]), events[1..], f);
    }
  }

  // Undisturbed processes

  /** The steps of one process, alone, one for each answer of the world. */
  function Alone(config: Config, disk: Disk, p: Process, inputs: seq<Input>): (Disk, Process)
    decreases |inputs|
  {
    if inputs == [] then (disk, p)
    else
      var (after, q) := Step(config, disk, p, inputs[0]);
      Alone(config, after, q, inputs[1..])
  }

  lemma AloneStep(config: Config, disk: Disk, p: Process, after: Disk, q: Process, inputs: seq<Input>)
    requires inputs != [] && Step(config, disk, p, inputs[0]) == (after, q)
    ensures Alone(config, disk, p, inputs) == Alone(config, after, q, inputs[1..])
  {
  }

  lemma {:induction false} StaysEnded(config: Config, disk: Disk, p: Process, inputs: seq<Input>)
    requires p.Refused? || p.Finished? || p.Minted?
    ensures Alone(config, disk, p, inputs) == (disk, p)
    decreases |inputs|
  {
    if inputs != [] { StaysEnded(config, disk, p, inputs[1..]); }
  }

  /** An initialization leaves the file at the path as the accepted ledger when it was that already
      or when neither its row nor an anchor is there; otherwise it is refused and changes nothing. */
  lemma InitializeSucceeds(config: Config, disk: Disk, inputs: seq<Input>)
    requires disk.current in disk.files && |inputs| == 4
    ensures
      var (after, p) := Alone(config, disk, Closed(Initialize), inputs);
      var f, empty := disk.current, disk.files[disk.current].identity.None? && disk.anchor.None?;
      && p == (if empty || Accepts(config, disk, f) then Finished(f) else Refused)
      && (empty ==> Accepts(config, after, f) && after.anchor.value.document.nonce == inputs[1].nonce
                    && after.files[f] == disk.files[f].(identity := after.files[f].identity))
      && (!empty ==> after == disk)
  {
    var f := disk.current;
    AloneStep(config, disk, Closed(Initialize), disk, Opened(Initialize, f), inputs);
    var rest := inputs[1..];
    if disk.files[f].identity.Some? || disk.anchor.Some? {
      var q := Step(config, disk, Opened(Initialize, f), rest[0]).1;
      AloneStep(config, disk, Opened(Initialize, f), disk, q, rest);
      if q.Identified? {
        AloneStep(config, disk, q, disk, Finished(f), rest[1..]);
        StaysEnded(config, disk, Finished(f), rest[1..][1..]);
      } else {
        StaysEnded(config, disk, Refused, rest[1..]);
      }
    } else {
      var document := Anchor(config.storeId, config.databasePath, f, rest[0].now, rest[0].nonce);
      var anchored := disk.(anchor := Some(AnchorFile(rest[0].anchorInode, document)));
      var identity := Identity(config.storeId, config.databasePath, f, rest[0].anchorInode, config.digest(document), rest[0].now);
      var identified := WithFile(anchored, f, disk.files[f].(identity := Some(identity)));
      AloneStep(config, disk, Opened(Initialize, f), anchored, Anchored(f, document), rest);
      AloneStep(config, anchored, Anchored(f, document), identified, Identified(f), rest[1..]);
      AloneStep(config, identified, Identified(f), identified, Finished(f), rest[1..][1..]);
    }
  }

  /** A publication is reserved by an accepted ledger with no row of its keys, while it is agreed and
      not expired. */
  predicate Reservable(config: Config, disk: Disk, row: Consumption, input: Input) {
    && Accepts(config, disk, disk.current) && !Conflicts(disk.files[disk.current].ledger, row)
    && input.agreed && input.now < row.expiresAt
  }

  /** The row is written once when it can be reserved, and never otherwise; its token is minted when the
      authorization is neither expired nor disputed up to the mint, and refused otherwise. */
  lemma PublishSucceeds(config: Config, disk: Disk, row: Consumption, inputs: seq<Input>)
    requires disk.current in disk.files && |inputs| == 6
    ensures
      var stored, db := Stored(row, inputs[1].now), disk.files[disk.current];
      var (after, p) := Alone(config, disk, Closed(Publish(row)), inputs);
      var reserved := Reservable(config, disk, row, inputs[1]);
      && after == (if reserved then WithFile(disk, disk.current, db.(ledger := db.ledger + [stored])) else disk)
      && p == (if reserved && inputs[4].agreed && inputs[5].agreed
                  && (forall k :: 3 <= k < 6 ==> inputs[k].now < row.expiresAt)
               then Minted(disk.current, stored) else Refused)
  {
    var f, stored := disk.current, Stored(row, inputs[1].now);
    AloneStep(config, disk, Closed(Publish(row)), disk, Opened(Publish(row), f), inputs);
    var rest := inputs[1..];
    var q := Step(config, disk, Opened(Publish(row), f), rest[0]).1;
    AloneStep(config, disk, Opened(Publish(row), f), disk, q, rest);
    if q == Refused {
      StaysEnded(config, disk, Refused, rest[1..]);
    } else if Conflicts(disk.files[f].ledger, row) {
      AloneStep(config, disk, q, disk, Refused, rest[1..]);
      StaysEnded(config, disk, Refused, rest[1..][1..]);
    } else {
      var after := WithFile(disk, f, disk.files[f].(ledger := disk.files[f].ledger + [stored]));
      AloneStep(config, disk, q, after, Inserted(f, stored), rest[1..]);
      assert after.files[f].ledger[|disk.files[f].ledger|] == stored;
      AfterInsert(config, after, f, stored, inputs[3..]);
      assert rest[1..][1..] == inputs[3..];
    }
  }

  // From the readback of the row to the mint.
  lemma AfterInsert(config: Config, disk: Disk, f: Inode, stored: Stored, inputs: seq<Input>)
    requires |inputs| == 3 && Accepts(config, disk, f) && stored in disk.files[f].ledger
    requires stored.consumedAt < stored.row.expiresAt
    ensures
      var (after, p) := Alone(config, disk, Inserted(f, stored), inputs);
      && after == disk
      && p == (if inputs[1].agreed && inputs[2].agreed
                  && (forall k :: 0 <= k < 3 ==> inputs[k].now < stored.row.expiresAt)
               then Minted(f, stored) else Refused)
  {
    var expiry := stored.row.expiresAt;
    if inputs[0].now >= expiry {
      AloneStep(config, disk, Inserted(f, stored), disk, Refused, inputs);
      StaysEnded(config, disk, Refused, inputs[1..]);
    } else {
      AloneStep(config, disk, Inserted(f, stored), disk, Consumed(f, stored), inputs);
      if !inputs[1].agreed || inputs[1].now >= expiry {
        AloneStep(config, disk, Consumed(f, stored), disk, Refused, inputs[1..]);
        StaysEnded(config, disk, Refused, inputs[1..][1..]);
      } else {
        AloneStep(config, disk, Consumed(f, stored), disk, Marked(f, stored), inputs[1..]);
        var q := if inputs[2].agreed && inputs[2].now < expiry then Minted(f, stored) else Refused;
        AloneStep(config, disk, Marked(f, stored), disk, q, inputs[2..]);
        assert inputs[1..][1..] == inputs[2..];
      }
    }
  }

  /** A reset empties the campaigns of the file it opened and nothing else. */
  lemma ResetKeeps(config: Config, disk: Disk, inputs: seq<Input>)
    requires disk.current in disk.files && |inputs| == 2
    ensures
      var (after, p) := Alone(config, disk, Closed(Reset), inputs);
      && p == Finished(disk.current)
      && after == disk.(files := disk.files[disk.current := disk.files[disk.current].(campaigns := [])])
  {
    AloneStep(config, disk, Closed(Reset), disk, Opened(Reset, disk.current), inputs);
  }
}

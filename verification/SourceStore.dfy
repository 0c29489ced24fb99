/** Write-once publication of job sources by atomic rename (runner-job-source-store.ts).

    Any number of puts run at once, one file-system operation at a time; each may stop
    anywhere, as a crash does. */
module SourceStore {
  import opened Wrappers
  import opened Unicode

  const MAX_JOB_SOURCE_BYTES := 8388608

  /** Directories of the store: unpublished stages, and one entry per job. */
  datatype Name = Pending(id: string) | Entry(jobId: string)

  /** A directory is empty or holds `source.bundle`, perhaps partly written. */
  type Directory = Option<Bytes>

  type Disk = map<Name, Directory>

  datatype Put = Put(jobId: string, bytes: Bytes)

  datatype Process =
    | Start(put: Put)
    | Looking(put: Put)
    | Making(put: Put)
    | Creating(put: Put, id: string)
    | Writing(put: Put, id: string, written: nat)
    | Checking(put: Put, id: string)
    | Renaming(put: Put, id: string)
    | Reading(put: Put, id: string, published: bool)
    | Confirming(put: Put, id: string, published: bool)
    | Unlinking(put: Put, id: string, stored: bool)
    | Removing(put: Put, id: string, stored: bool)
    | Stored(put: Put)
    | Rejected

  /** What the world supplies: whether the custody and capacity checks pass, whether this operation
      fails, a random name, and how many more bytes one write takes. */
  datatype Input = Input(checks: bool, fault: bool, id: string, more: nat)

  /** The end of a put: a stage that was not published is removed. */
  function Ending(put: Put, id: string, published: bool, stored: bool): Process {
    if !published then Unlinking(put, id, stored) else if stored then Stored(put) else Rejected
  }

  /** `rename()` of a directory: it replaces nothing but an empty directory. */
  function Renamed(disk: Disk, id: string, jobId: string): Option<Disk> {
    if Pending(id) !in disk || (Entry(jobId) in disk && disk[Entry(jobId)].Some?) then None
    else Some((disk - {Pending(id)})[Entry(jobId) := disk[Pending(id)]])
  }

  /** One file-system operation of one put. */
  function Step(disk: Disk, p: Process, input: Input): (Disk, Process) {
    match p
    case Start(put) =>
      (disk, if 0 < |put.bytes| <= MAX_JOB_SOURCE_BYTES && input.checks then Looking(put) else Rejected)
    case Looking(put) =>
      if Entry(put.jobId) in disk then
        (disk, if disk[Entry(put.jobId)] == Some(put.bytes) && input.checks then Stored(put) else Rejected)
      else (disk, if input.checks then Making(put) else Rejected)
    case Making(put) =>
      if input.fault || Pending(input.id) in disk then (disk, Rejected)
      else (disk[Pending(input.id) := None], Creating(put, input.id))
    case Creating(put, id) =>
      if input.fault then (disk, Unlinking(put, id, false)) else (disk[Pending(id) := Some([])], Writing(put, id, 0))
    case Writing(put, id, written) =>
      if input.fault then (disk, Unlinking(put, id, false))
      else if written == |put.bytes| then (disk, Checking(put, id))
      else
        var now := if written + input.more < |put.bytes| then written + input.more else |put.bytes|;
        (disk[Pending(id) := Some(put.bytes[..now])], Writing(put, id, now))
    case Checking(put, id) => (disk, if input.checks then Renaming(put, id) else Unlinking(put, id, false))
    case Renaming(put, id) =>
      if input.fault then (disk, Unlinking(put, id, false))
      else
        var renamed := Renamed(disk, id, put.jobId);
        if renamed.None? then (disk, Reading(put, id, false)) else (renamed.value, Reading(put, id, true))
    case Reading(put, id, published) =>
      (disk, if !input.fault && Entry(put.jobId) in disk && disk[Entry(put.jobId)] == Some(put.bytes)
             then Confirming(put, id, published) else Ending(put, id, published, false))
    case Confirming(put, id, published) => (disk, Ending(put, id, published, input.checks))
    case Unlinking(put, id, stored) =>
      if input.fault || Pending(id) !in disk then (disk, Rejected) else (disk[Pending(id) := None], Removing(put, id, stored))
    case Removing(put, id, stored) =>
      if input.fault || Pending(id) !in disk || disk[Pending(id)].Some? then (disk, Rejected)
      else (disk - {Pending(id)}, if stored then Stored(put) else Rejected)
    case Stored(_) => (disk, p)
    case Rejected => (disk, p)
  }

  datatype System = System(disk: Disk, processes: seq<Process>)

  datatype Event = Act(process: nat, input: Input)

  function Apply(sys: System, e: Event): System {
    if e.process >= |sys.processes| then sys
    else
      var (disk, p) := Step(sys.disk, sys.processes[e.process], e.input);
      System(disk, sys.processes[e.process := p])
  }

  function Run(sys: System, events: seq<Event>): System
    decreases |events|
  {
    if events == [] then sys else Run(Apply(sys, events[0]), events[1..])
  }

  /** An entry as a finished put leaves it. */
  predicate EntryOk(directory: Directory) { directory.Some? && 0 < |directory.value| <= MAX_JOB_SOURCE_BYTES }

  /** A store of earlier entries, perhaps with stages of crashed puts, and puts that have not started. */
  predicate Initial(sys: System) {
    && (forall n :: n in sys.disk && n.Entry? ==> EntryOk(sys.disk[n]))
    && forall i :: 0 <= i < |sys.processes| ==> sys.processes[i].Start?
  }

  /** The puts of a system: those its processes run, and those that left the earlier entries. */
  function Puts(sys: System): set<Put> {
    (set i | 0 <= i < |sys.processes| && !sys.processes[i].Rejected? :: sys.processes[i].put)
      + (set n | n in sys.disk && n.Entry? && sys.disk[n].Some? :: Put.Put(n.jobId, sys.disk[n].value))
  }

  // What every operation keeps

  /** The stage a process still owns. */
  function Stage(p: Process): Option<string> {
    match p
    case Creating(_, id) => Some(id)
    case Writing(_, id, _) => Some(id)
    case Checking(_, id) => Some(id)
    case Renaming(_, id) => Some(id)
    case Reading(_, id, published) => if published then None else Some(id)
    case Confirming(_, id, published) => if published then None else Some(id)
    case Unlinking(_, id, _) => Some(id)
    case Removing(_, id, _) => Some(id)
    case _ => None
  }

  /** The argument of a process that still is at work or has succeeded. */
  function Argument(p: Process): Option<Put> { if p.Rejected? then None else Some(p.put) }

  predicate Complete(disk: Disk, put: Put) { Entry(put.jobId) in disk && disk[Entry(put.jobId)] == Some(put.bytes) }

  predicate ProcessOk(disk: Disk, p: Process) {
    && (Stage(p).Some? ==> Pending(Stage(p).value) in disk)
    && (!p.Start? && !p.Rejected? ==> 0 < |p.put.bytes| <= MAX_JOB_SOURCE_BYTES)
    && (p.Writing? ==> p.written <= |p.put.bytes| && disk[Pending(p.id)] == Some(p.put.bytes[..p.written]))
    && (p.Checking? || p.Renaming? ==> disk[Pending(p.id)] == Some(p.put.bytes))
    && (p.Confirming? || p.Stored? || ((p.Unlinking? || p.Removing?) && p.stored) ==> Complete(disk, p.put))
  }

  predicate SeparateStages(p: Process, q: Process) { Stage(p).Some? && Stage(q).Some? ==> Stage(p) != Stage(q) }

  predicate WholeArgument(put: Put, job: string, directory: Directory) {
    put.jobId == job && directory == Some(put.bytes) && 0 < |put.bytes| <= MAX_JOB_SOURCE_BYTES
  }

  /** Every visible entry holds the whole argument of some put. */
  ghost predicate VisibleComplete(disk: Disk, puts: set<Put>) {
    forall job :: Entry(job) in disk ==> exists put :: put in puts && WholeArgument(put, job, disk[Entry(job)])
  }

  ghost predicate Inv(sys: System, puts: set<Put>) {
    && (forall i :: 0 <= i < |sys.processes| ==> ProcessOk(sys.disk, sys.processes[i]))
    && (forall i, j :: 0 <= i < j < |sys.processes| ==> SeparateStages(sys.processes[i], sys.processes[j]))
    && (forall i :: 0 <= i < |sys.processes| && Argument(sys.processes[i]).Some? ==> Argument(sys.processes[i]).value in puts)
    && VisibleComplete(sys.disk, puts)
  }

  /** Nothing that is published changes, and nobody's stage but this process's own does. */
  ghost predicate Frame(a: Disk, b: Disk, own: Option<string>, made: Option<string>) {
    && (forall job :: Entry(job) in a ==> Entry(job) in b && b[Entry(job)] == a[Entry(job)])
    && (forall id :: Some(id) != own && Some(id) != made ==>
          (Pending(id) in b <==> Pending(id) in a) && (Pending(id) in a ==> b[Pending(id)] == a[Pending(id)]))
    && (made.Some? && made != own ==> Pending(made.value) !in a)
  }

  lemma StepFrames(disk: Disk, p: Process, input: Input, puts: set<Put>)
    requires ProcessOk(disk, p) && VisibleComplete(disk, puts)
    ensures Frame(disk, Step(disk, p, input).0, Stage(p), Stage(Step(disk, p, input).1))
  {
    if p.Renaming? && !input.fault { assert Entry(p.put.jobId) in disk ==> disk[Entry(p.put.jobId)].Some?; }
  }

  lemma StepOk(disk: Disk, p: Process, input: Input, puts: set<Put>)
    requires ProcessOk(disk, p) && VisibleComplete(disk, puts)
    ensures ProcessOk(Step(disk, p, input).0, Step(disk, p, input).1)
  {
    if p.Writing? && p.written == |p.put.bytes| { assert p.put.bytes[..p.written] == p.put.bytes; }
  }

  lemma StepVisible(disk: Disk, p: Process, input: Input, puts: set<Put>)
    requires ProcessOk(disk, p) && VisibleComplete(disk, puts) && (Argument(p).Some? ==> Argument(p).value in puts)
    ensures VisibleComplete(Step(disk, p, input).0, puts)
    ensures Argument(Step(disk, p, input).1).Some? ==> Argument(Step(disk, p, input).1) == Argument(p)
  {
    var after := Step(disk, p, input).0;
    forall job | Entry(job) in after
      ensures exists put :: put in puts && WholeArgument(put, job, after[Entry(job)]) {
      if Entry(job) in disk && after[Entry(job)] == disk[Entry(job)] {
      } else {
        assert p.Renaming? && p.put in puts && WholeArgument(p.put, job, after[Entry(job)]);
      }
    }
  }

  lemma OtherKept(a: Disk, b: Disk, own: Option<string>, made: Option<string>, q: Process)
    requires Frame(a, b, own, made) && ProcessOk(a, q)
    requires Stage(q).Some? ==> Stage(q) != own
    ensures ProcessOk(b, q) && (Stage(q).Some? ==> Stage(q) != made)
  {
  }

  lemma ApplyInv(sys: System, e: Event, puts: set<Put>)
    requires Inv(sys, puts)
    ensures Inv(Apply(sys, e), puts)
    ensures forall job :: Entry(job) in sys.disk ==>
      Entry(job) in Apply(sys, e).disk && Apply(sys, e).disk[Entry(job)] == sys.disk[Entry(job)]
  {
    if e.process < |sys.processes| {
      var p, next := sys.processes[e.process], Apply(sys, e);
      var after := next.processes[e.process];
      StepFrames(sys.disk, p, e.input, puts);
      StepOk(sys.disk, p, e.input, puts);
      StepVisible(sys.disk, p, e.input, puts);
      forall i | 0 <= i < |next.processes| && i != e.process
        ensures ProcessOk(next.disk, next.processes[i])
        ensures SeparateStages(next.processes[i], after) && SeparateStages(after, next.processes[i]) {
        assert SeparateStages(p, sys.processes[i]) || SeparateStages(sys.processes[i], p);
        OtherKept(sys.disk, next.disk, Stage(p), Stage(after), sys.processes[i]);
      }
    }
  }

  /** Over any run of interleaved puts and crashes, the invariant holds and no visible entry
      ever changes or disappears. */
  lemma {:induction false} WriteOnce(sys: System, events: seq<Event>, puts: set<Put>)
    requires Inv(sys, puts)
    ensures Inv(Run(sys, events), puts)
    ensures forall job :: Entry(job) in sys.disk ==>
      Entry(job) in Run(sys, events).disk && Run(sys, events).disk[Entry(job)] == sys.disk[Entry(job)]
    decreases |events|
  {
    if events != [] {
      ApplyInv(sys, events[0], puts);
      WriteOnce(Apply(sys, events[0]), events[1..], puts);
    }
  }

  lemma InitialInv(sys: System)
    requires Initial(sys)
    ensures Inv(sys, Puts(sys))
  {
    forall job | Entry(job) in sys.disk
      ensures exists put :: put in Puts(sys) && WholeArgument(put, job, sys.disk[Entry(job)]) {
      var n := Entry(job);
      assert n.Entry? && EntryOk(sys.disk[n]);
      assert WholeArgument(Put.Put(n.jobId, sys.disk[n].value), job, sys.disk[Entry(job)]);
    }
  }

  /** A put that returns has stored exactly its argument, and every entry, whoever published it,
      is the whole argument of a put. Earlier entries stay as they were. */
  lemma StoredIsComplete(init: System, events: seq<Event>, i: nat)
    requires Initial(init) && i < |Run(init, events).processes|
    ensures Run(init, events).processes[i].Stored? ==> Complete(Run(init, events).disk, Run(init, events).processes[i].put)
    ensures VisibleComplete(Run(init, events).disk, Puts(init))
    ensures forall n :: n in init.disk && n.Entry? ==> n in Run(init, events).disk && Run(init, events).disk[n] == init.disk[n]
  {
    InitialInv(init);
    WriteOnce(init, events, Puts(init));
    forall n | n in init.disk && n.Entry? ensures n in Run(init, events).disk && Run(init, events).disk[n] == init.disk[n] {
      assert n == Entry(n.jobId);
    }
    assert ProcessOk(Run(init, events).disk, Run(init, events).processes[i]);
  }

  /** Two puts for one job with different bytes never both succeed. */
  lemma OneWinner(init: System, events: seq<Event>, i: nat, j: nat)
    requires Initial(init) && i < |Run(init, events).processes| && j < |Run(init, events).processes|
    ensures
      var p, q := Run(init, events).processes[i], Run(init, events).processes[j];
      p.Stored? && q.Stored? && p.put.jobId == q.put.jobId ==> p.put.bytes == q.put.bytes
  {
    StoredIsComplete(init, events, i);
    StoredIsComplete(init, events, j);
  }

  // Undisturbed puts

  /** n operations of one put, alone and with the same answers from the world. */
  function Alone(disk: Disk, p: Process, input: Input, n: nat): (Disk, Process)
    decreases n
  {
    if n == 0 then (disk, p)
    else
      var (after, q) := Step(disk, p, input);
      Alone(after, q, input, n - 1)
  }

  lemma AloneStep(disk: Disk, p: Process, after: Disk, q: Process, input: Input, n: nat)
    requires n > 0 && Step(disk, p, input) == (after, q)
    ensures Alone(disk, p, input, n) == Alone(after, q, input, n - 1)
  {
  }

  lemma {:induction false} StaysStored(disk: Disk, put: Put, input: Input, n: nat)
    ensures Alone(disk, Stored(put), input, n) == (disk, Stored(put))
    decreases n
  {
    if n > 0 { StaysStored(disk, put, input, n - 1); }
  }

  // Writes may be short, but each takes a byte at least.
  lemma {:induction false} WritesAll(disk: Disk, put: Put, input: Input, written: nat, extra: nat)
    requires put.bytes != [] && Entry(put.jobId) !in disk && Pending(input.id) !in disk
    requires input.checks && !input.fault && input.more > 0 && written <= |put.bytes|
    ensures Alone(disk[Pending(input.id) := Some(put.bytes[..written])], Writing(put, input.id, written), input, |put.bytes| - written + 5 + extra)
      == (disk[Entry(put.jobId) := Some(put.bytes)], Stored(put))
    decreases |put.bytes| - written
  {
    var id, n := input.id, |put.bytes| - written + 5 + extra;
    var now := disk[Pending(id) := Some(put.bytes[..written])];
    if written == |put.bytes| {
      assert put.bytes[..written] == put.bytes;
      AloneStep(now, Writing(put, id, written), now, Checking(put, id), input, n);
      PublishSucceeds(disk, put, input, extra);
    } else {
      var next := if written + input.more < |put.bytes| then written + input.more else |put.bytes|;
      var after := disk[Pending(id) := Some(put.bytes[..next])];
      assert now[Pending(id) := Some(put.bytes[..next])] == after;
      AloneStep(now, Writing(put, id, written), after, Writing(put, id, next), input, n);
      WritesAll(disk, put, input, next, extra + (next - written - 1));
    }
  }

  /** A put that meets no fault publishes a new entry, however short its writes, and leaves nothing else. */
  lemma PutSucceeds(disk: Disk, put: Put, input: Input)
    requires 0 < |put.bytes| <= 8388608 && Entry(put.jobId) !in disk && Pending(input.id) !in disk
    requires input.checks && !input.fault && input.more > 0
    ensures Alone(disk, Start(put), input, |put.bytes| + 9) == (disk[Entry(put.jobId) := Some(put.bytes)], Stored(put))
  {
    var id, n := input.id, |put.bytes| + 9;
    var made, created := disk[Pending(id) := None], disk[Pending(id) := Some(put.bytes[..0])];
    AloneStep(disk, Start(put), disk, Looking(put), input, n);
    AloneStep(disk, Looking(put), disk, Making(put), input, n - 1);
    AloneStep(disk, Making(put), made, Creating(put, id), input, n - 2);
    assert made[Pending(id) := Some([])] == created;
    AloneStep(made, Creating(put, id), created, Writing(put, id, 0), input, n - 3);
    WritesAll(disk, put, input, 0, 0);
  }

  lemma PublishSucceeds(disk: Disk, put: Put, input: Input, extra: nat)
    requires |put.bytes| > 0 && Entry(put.jobId) !in disk && Pending(input.id) !in disk && input.checks && !input.fault
    ensures Alone(disk[Pending(input.id) := Some(put.bytes)], Checking(put, input.id), input, 4 + extra)
      == (disk[Entry(put.jobId) := Some(put.bytes)], Stored(put))
  {
    var id, entry := input.id, Entry(put.jobId);
    var written, done := disk[Pending(id) := Some(put.bytes)], disk[entry := Some(put.bytes)];
    AloneStep(written, Checking(put, id), written, Renaming(put, id), input, 4 + extra);
    assert (written - {Pending(id)})[entry := Some(put.bytes)] == done;
    AloneStep(written, Renaming(put, id), done, Reading(put, id, true), input, 3 + extra);
    AloneStep(done, Reading(put, id, true), done, Confirming(put, id, true), input, 2 + extra);
    AloneStep(done, Confirming(put, id, true), done, Stored(put), input, 1 + extra);
    StaysStored(done, put, input, extra);
  }

  /** A put of an entry that is there succeeds exactly when the bytes are the same, and changes nothing. */
  lemma PutAgain(disk: Disk, put: Put, input: Input)
    requires 0 < |put.bytes| <= 8388608 && Entry(put.jobId) in disk && input.checks
    ensures Alone(disk, Start(put), input, 2) ==
      (disk, if disk[Entry(put.jobId)] == Some(put.bytes) then Stored(put) else Rejected)
  {
    AloneStep(disk, Start(put), disk, Looking(put), input, 2);
    AloneStep(disk, Looking(put), disk, if disk[Entry(put.jobId)] == Some(put.bytes) then Stored(put) else Rejected, input, 1);
  }

  /** A put of nothing, or of too much, is refused at once. */
  lemma PutRefused(disk: Disk, put: Put, input: Input)
    requires put.bytes == [] || |put.bytes| > 8388608
    ensures Alone(disk, Start(put), input, 1) == (disk, Rejected)
  {
    AloneStep(disk, Start(put), disk, Rejected, input, 1);
  }

  lemma Cleans(disk: Disk, put: Put, id: string, stored: bool, input: Input)
    requires Pending(id) in disk && !input.fault
    ensures Alone(disk, Unlinking(put, id, stored), input, 2) == (disk - {Pending(id)}, if stored then Stored(put) else Rejected)
  {
    var emptied := disk[Pending(id) := None];
    assert emptied - {Pending(id)} == disk - {Pending(id)};
    AloneStep(disk, Unlinking(put, id, stored), emptied, Removing(put, id, stored), input, 2);
    AloneStep(emptied, Removing(put, id, stored), disk - {Pending(id)}, if stored then Stored(put) else Rejected, input, 1);
  }

  /** The file-system operation or check of this step fails before anything is published. */
  predicate Spoiled(p: Process, input: Input) {
    match p
    case Checking(_, _) => !input.checks
    case Confirming(_, _, published) => !published && !input.checks
    case Reading(_, _, published) => !published && input.fault
    case _ => (p.Creating? || p.Writing? || p.Renaming?) && input.fault
  }

  /** A put spoiled at any step is refused, and its stage is removed. */
  lemma SpoiledCleans(disk: Disk, p: Process, spoil: Input, input: Input)
    requires Spoiled(p, spoil) && Pending(p.id) in disk && !input.fault
    ensures
      var (after, q) := Step(disk, p, spoil);
      Alone(after, q, input, 2) == (disk - {Pending(p.id)}, Rejected)
  {
    Cleans(disk, p.put, p.id, false, input);
  }

  /** A put that finds another entry published while it was staging removes its stage, and succeeds
      exactly when that entry holds the same bytes. */
  lemma LosingPut(disk: Disk, put: Put, id: string, input: Input)
    requires Pending(id) in disk && Entry(put.jobId) in disk && disk[Entry(put.jobId)].Some? && input.checks && !input.fault
    ensures Alone(disk, Renaming(put, id), input, 5) ==
      (disk - {Pending(id)}, if disk[Entry(put.jobId)] == Some(put.bytes) then Stored(put) else Rejected)
  {
    AloneStep(disk, Renaming(put, id), disk, Reading(put, id, false), input, 5);
    if disk[Entry(put.jobId)] == Some(put.bytes) {
      AloneStep(disk, Reading(put, id, false), disk, Confirming(put, id, false), input, 4);
      AloneStep(disk, Confirming(put, id, false), disk, Unlinking(put, id, true), input, 3);
      Cleans(disk, put, id, true, input);
    } else {
      var clean := disk - {Pending(id)};
      AloneStep(disk, Reading(put, id, false), disk, Unlinking(put, id, false), input, 4);
      assert Alone(disk, Unlinking(put, id, false), input, 3) == Alone(clean, Rejected, input, 1) by {
        var emptied := disk[Pending(id) := None];
        assert emptied - {Pending(id)} == clean;
        AloneStep(disk, Unlinking(put, id, false), emptied, Removing(put, id, false), input, 3);
        AloneStep(emptied, Removing(put, id, false), clean, Rejected, input, 2);
      }
      AloneStep(clean, Rejected, clean, Rejected, input, 1);
    }
  }

  /** The read loop of `readEntry`: reads may be short, and one of nothing fails. */
  method ReadEntry(file: Bytes, size: nat, count: (nat, nat) -> nat) returns (bytes: Option<Bytes>)
    requires size <= |file|
    requires forall offset, room :: count(offset, room) <= room
    ensures bytes.Some? ==> bytes.value == file[..size]
    ensures (forall offset: nat, room: nat :: room > 0 ==> count(offset, room) > 0) ==> bytes.Some?
  {
    var buffer: Bytes := [];
    while |buffer| < size
      invariant |buffer| <= size && buffer == file[..|buffer|]
    {
      var n := count(|buffer|, size - |buffer|);
      if n == 0 { return None; }
      buffer := buffer + file[|buffer|..|buffer| + n];
    }
    return Some(buffer);
  }
}

/** Clients racing through prepare, review and evidence over the shared store.

    One step of a client is one store transaction together with the local work up to its next
    one. Processes crash by taking no further step; a retry is another client. */
module JobProtocol {
  import opened Wrappers
  import opened JobRecord
  import opened JobStore

  datatype Task =
    | Prepare(intent: Intent)
    | Review(key: Key, jobId: string, output: string, completedAt: int)
    | Acquire(key: Key, jobId: string)

  /** Where a client is, and the records it has seen or built. */
  datatype Client =
    | Start(task: Task)
    | PrepareRead(intent: Intent)
    | PrepareCheckExisting(intent: Intent, existing: Record)
    | PrepareCheckCandidate(intent: Intent, candidate: Record)
    | PrepareInsert(intent: Intent, candidate: Record)
    | PrepareReadback(intent: Intent, candidate: Record, inserted: bool)
    | PrepareCheckWinner(intent: Intent, winner: Record)
    | ReviewRead(task: Task, startedAt: Sample)
    | ReviewCheckExisting(task: Task, previous: Record)
    | ReviewCheckNext(task: Task, previous: Record, next: Record)
    | ReviewSwap(task: Task, previous: Record, next: Record)
    | ReviewReadback(task: Task, previous: Record, next: Record, committed: bool)
    | ReviewCheckActual(task: Task, actual: Record)
    | AcquireRead(task: Task, startedAt: Sample)
    | AcquireWait(task: Task, snapshot: Record)
    | AcquireReread(task: Task, snapshot: Record)
    | AcquireSwap(task: Task, snapshot: Record, candidate: Record)
    | AcquireReadback(task: Task, snapshot: Record, candidate: Record, committed: bool)
    | AcquireCheck(task: Task, snapshot: Record, actual: Record)
    | Done(task: Task, record: Record)
    | Failed(code: Code)
    | EvidenceFailed

  /** What the world supplies to one step: three clock samples, a random job id, the answer of
      the evidence client. */
  datatype Input = Input(first: Sample, second: Sample, third: Sample, jobId: string, identity: Option<Identity>)

  datatype Service = Service(rules: Rules, shape: Shape, storeId: string)

  function KeyOfBase(b: Base): Key { (b.campaignId, b.runId) }

  /** `recordToStoredRow`. */
  function RowOf(rules: Rules, r: Record): Row {
    Row(r.base.campaignId, r.base.runId, r.base.plan.jobId, RevisionOf(r),
        rules.intentDigest(IntentOf(r.base)), rules.recordDigest(r), rules.encode(r))
  }

  /** `validateStoredJob`. */
  function Validated(v: Service, row: Row): Result<Record, Code> {
    var r := v.rules.decode(row.canonicalRecord);
    if r.None? || row != RowOf(v.rules, r.value) then Err(StoreCorrupt)
    else if r.value.base.storeId != v.storeId then Err(StoreMismatch)
    else Ok(r.value)
  }

  /** Read and validate one row; None is a missing row. */
  function ReadRecord(v: Service, s: Store, k: Key): Result<Option<Record>, Code> {
    match Read(v.shape, s, k)
    case Err(code) => Err(code)
    case Ok(None) => Ok(None)
    case Ok(Some(row)) =>
      match Validated(v, row)
      case Err(code) => Err(code)
      case Ok(r) => Ok(Some(r))
  }

  function Observed(s: Store, now: Sample, client: Client): (Store, Client) {
    match ObserveTime(s, now)
    case Err(code) => (s, Failed(code))
    case Ok(t) => (t, client)
  }

  predicate ValidTime(now: Sample) { now.Some? && IsTimestamp(now.value) }

  /** `checkRunnerJobCurrent`: observe one sample durably, then judge the record by a later one. */
  function Check(s: Store, record: Record, input: Input, client: Client): (Store, Client) {
    if !ValidTime(input.first) then (s, Failed(InputInvalid))
    else
      match ObserveTime(s, input.first)
      case Err(code) => (s, Failed(code))
      case Ok(t) =>
        if !ValidTime(input.second) then (t, Failed(InputInvalid))
        else if input.second.value < input.first.value then (t, Failed(ClockRollback))
        else if !Current(record, input.second) then (t, Failed(NotCurrent(record, input.second).value))
        else (t, client)
  }

  // prepareRunnerJobWithSource

  function AfterPrepareRead(v: Service, intent: Intent, found: Result<Option<Record>, Code>, input: Input): Client {
    match found
    case Err(code) => Failed(code)
    case Ok(Some(existing)) =>
      if !LifetimeOk(existing.base.plan.createdAt, intent.expiresAt) then Failed(InputInvalid)
      else if intent != IntentOf(existing.base) then Failed(JobConflict)
      else PrepareCheckExisting(intent, existing)
    case Ok(None) =>
      if !ValidTime(input.first) || !LifetimeOk(input.first.value, intent.expiresAt) then Failed(InputInvalid)
      else if !v.rules.bound(intent.source, intent.subject) then Failed(InputInvalid)
      else
        var plan := Plan(input.jobId, input.first.value, intent.expiresAt, intent.subject);
        var candidate := Prepared(Base(v.storeId, intent.campaignId, intent.runId, intent.source, plan));
        if v.rules.fits(candidate) then PrepareCheckCandidate(intent, candidate) else Failed(InputInvalid)
  }

  function AfterPrepareReadback(intent: Intent, inserted: bool, found: Result<Option<Record>, Code>): Client {
    match found
    case Err(code) => Failed(code)
    case Ok(None) => Failed(StoreCorrupt)
    case Ok(Some(winner)) =>
      if !inserted && intent != IntentOf(winner.base) then Failed(JobConflict)
      else PrepareCheckWinner(intent, winner)
  }

  // recordRunnerJobReview

  function AfterReviewRead(v: Service, task: Task, startedAt: Sample, found: Result<Option<Record>, Code>): Client
    requires task.Review?
  {
    match found
    case Err(code) => Failed(code)
    case Ok(None) => Failed(JobMissing)
    case Ok(Some(previous)) =>
      if previous.base.plan.jobId != task.jobId then Failed(JobConflict)
      else if !Current(previous, startedAt) then Failed(NotCurrent(previous, startedAt).value)
      else if task.completedAt < previous.base.plan.createdAt || task.completedAt > startedAt.value then Failed(InputInvalid)
      else
        var review := MakeReview(v.rules, previous.base, task.output, task.completedAt, startedAt);
        if review.None? then Failed(InputInvalid)
        else if !previous.Prepared? then
          if previous.review != review.value then Failed(JobConflict) else ReviewCheckExisting(task, previous)
        else
          match AppendReview(v.rules, previous, task.output, task.completedAt, startedAt)
          case Err(code) => Failed(code)
          case Ok(next) => ReviewCheckNext(task, previous, next)
  }

  function AfterReviewReadback(v: Service, task: Task, previous: Record, next: Record, committed: bool,
                               found: Result<Option<Record>, Code>): Client
    requires next.Reviewed?
  {
    match found
    case Err(code) => Failed(code)
    case Ok(None) => Failed(StoreCorrupt)
    case Ok(Some(actual)) =>
      if committed && v.rules.encode(actual) != v.rules.encode(next)
        && !(actual.Retained? && actual.base == next.base && actual.review == next.review) then Failed(StoreCorrupt)
      else if !committed && (actual.base != previous.base || actual.Prepared? || actual.review != next.review) then
        Failed(JobConflict)
      else ReviewCheckActual(task, actual)
  }

  // acquireRunnerJobEvidence

  function Inspected(task: Task, found: Result<Option<Record>, Code>): Result<Record, Code>
    requires task.Acquire?
  {
    match found
    case Err(code) => Err(code)
    case Ok(None) => Err(JobMissing)
    case Ok(Some(r)) => if r.base.plan.jobId != task.jobId then Err(JobConflict) else Ok(r)
  }

  function AfterAcquireRead(task: Task, startedAt: Sample, found: Result<Option<Record>, Code>): Client
    requires task.Acquire?
  {
    match Inspected(task, found)
    case Err(code) => Failed(code)
    case Ok(snapshot) =>
      if !Current(snapshot, startedAt) then Failed(NotCurrent(snapshot, startedAt).value)
      else if snapshot.Prepared? then Failed(JobConflict)
      else AcquireWait(task, snapshot)
  }

  /** The evidence client has answered and the time was observed. */
  function AfterAnswer(v: Service, task: Task, snapshot: Record, input: Input): Client {
    if input.identity.None? then EvidenceFailed
    else if !Current(snapshot, input.second) then Failed(NotCurrent(snapshot, input.second).value)
    else
      match AppendIdentity(v.rules, snapshot, input.identity.value, input.third)
      case Err(code) => Failed(code)
      case Ok(candidate) => if snapshot.Retained? then AcquireReread(task, candidate) else AcquireSwap(task, snapshot, candidate)
  }

  function AfterAcquireReadback(v: Service, task: Task, snapshot: Record, candidate: Record, committed: bool,
                                found: Result<Option<Record>, Code>): Client {
    match found
    case Err(code) => Failed(code)
    case Ok(None) => Failed(StoreCorrupt)
    case Ok(Some(actual)) =>
      if v.rules.encode(actual) != v.rules.encode(candidate) then Failed(if committed then StoreCorrupt else JobConflict)
      else AcquireCheck(task, snapshot, actual)
  }

  function AfterReread(v: Service, task: Task, snapshot: Record, found: Result<Option<Record>, Code>): Client
    requires task.Acquire?
  {
    match Inspected(task, found)
    case Err(code) => Failed(code)
    case Ok(actual) =>
      if v.rules.encode(actual) != v.rules.encode(snapshot) then Failed(JobConflict) else AcquireCheck(task, snapshot, actual)
  }

  /** The last observation of an acquisition; its first sample is not otherwise checked. */
  function Finish(s: Store, snapshot: Record, actual: Record, input: Input, client: Client): (Store, Client) {
    match ObserveTime(s, input.first)
    case Err(code) => (s, Failed(code))
    case Ok(t) =>
      if input.second.Some? && input.second.value < input.first.value then (t, Failed(ClockRollback))
      else if !Current(snapshot, input.second) then (t, Failed(NotCurrent(snapshot, input.second).value))
      else if !Current(actual, input.second) then (t, Failed(NotCurrent(actual, input.second).value))
      else (t, client)
  }

  // Steps

  function Swapped(v: Service, s: Store, previous: Record, next: Record): Result<(bool, Store), Code> {
    CompareAndSwap(v.shape, s, RowOf(v.rules, previous), RowOf(v.rules, next))
  }

  /** A client's program is that of its task. */
  predicate TaskOk(c: Client) {
    match c
    case ReviewRead(task, _) => task.Review?
    case ReviewCheckExisting(task, _) => task.Review?
    case ReviewCheckNext(task, _, next) => task.Review? && next.Reviewed?
    case ReviewSwap(task, _, next) => task.Review? && next.Reviewed?
    case ReviewReadback(task, _, next, _) => task.Review? && next.Reviewed?
    case ReviewCheckActual(task, _) => task.Review?
    case AcquireRead(task, _) => task.Acquire?
    case AcquireWait(task, _) => task.Acquire?
    case AcquireReread(task, _) => task.Acquire?
    case AcquireSwap(task, _, _) => task.Acquire?
    case AcquireReadback(task, _, _, _) => task.Acquire?
    case AcquireCheck(task, _, _) => task.Acquire?
    case _ => true
  }

  /** One transaction of one client. */
  function Step(v: Service, s: Store, c: Client, input: Input): (Store, Client)
    requires TaskOk(c)
  {
    match c
    case Start(task) =>
      (match task
       case Prepare(intent) => if ValidTime(input.first) then Observed(s, input.first, PrepareRead(intent)) else (s, Failed(InputInvalid))
       case Review(_, _, _, _) =>
         if ValidTime(input.first) then Observed(s, input.first, ReviewRead(task, input.first)) else (s, Failed(InputInvalid))
       case Acquire(_, _) => Observed(s, input.first, AcquireRead(task, input.first)))
    case PrepareRead(intent) => (s, AfterPrepareRead(v, intent, ReadRecord(v, s, (intent.campaignId, intent.runId)), input))
    case PrepareCheckExisting(intent, existing) => Check(s, existing, input, Done(Prepare(intent), existing))
    case PrepareCheckCandidate(intent, candidate) => Check(s, candidate, input, PrepareInsert(intent, candidate))
    case PrepareInsert(intent, candidate) =>
      (match Insert(v.shape, s, RowOf(v.rules, candidate))
       case Err(code) => (s, Failed(code))
       case Ok((inserted, t)) => (t, PrepareReadback(intent, candidate, inserted)))
    case PrepareReadback(intent, candidate, inserted) =>
      (s, AfterPrepareReadback(intent, inserted, ReadRecord(v, s, KeyOfBase(candidate.base))))
    case PrepareCheckWinner(intent, winner) => Check(s, winner, input, Done(Prepare(intent), winner))
    case ReviewRead(task, startedAt) => (s, AfterReviewRead(v, task, startedAt, ReadRecord(v, s, task.key)))
    case ReviewCheckExisting(task, previous) => Check(s, previous, input, Done(task, previous))
    case ReviewCheckNext(task, previous, next) => Check(s, next, input, ReviewSwap(task, previous, next))
    case ReviewSwap(task, previous, next) =>
      (match Swapped(v, s, previous, next)
       case Err(code) => (s, Failed(code))
       case Ok((committed, t)) => (t, ReviewReadback(task, previous, next, committed)))
    case ReviewReadback(task, previous, next, committed) =>
      (s, AfterReviewReadback(v, task, previous, next, committed, ReadRecord(v, s, KeyOfBase(previous.base))))
    case ReviewCheckActual(task, actual) => Check(s, actual, input, Done(task, actual))
    case AcquireRead(task, startedAt) => (s, AfterAcquireRead(task, startedAt, ReadRecord(v, s, task.key)))
    case AcquireWait(task, snapshot) => Observed(s, input.first, AfterAnswer(v, task, snapshot, input))
    case AcquireReread(task, snapshot) => (s, AfterReread(v, task, snapshot, ReadRecord(v, s, task.key)))
    case AcquireSwap(task, snapshot, candidate) =>
      (match Swapped(v, s, snapshot, candidate)
       case Err(code) => (s, Failed(code))
       case Ok((committed, t)) => (t, AcquireReadback(task, snapshot, candidate, committed)))
    case AcquireReadback(task, snapshot, candidate, committed) =>
      (s, AfterAcquireReadback(v, task, snapshot, candidate, committed, ReadRecord(v, s, KeyOfBase(candidate.base))))
    case AcquireCheck(task, snapshot, actual) => Finish(s, snapshot, actual, input, Done(task, actual))
    case Done(_, _) => (s, c)
    case Failed(_) => (s, c)
    case EvidenceFailed => (s, c)
  }

  // Runs

  datatype System = System(store: Store, clients: seq<Client>)

  datatype Event = Event(client: nat, input: Input)

  function Apply(v: Service, sys: System, e: Event): System {
    if e.client >= |sys.clients| || !TaskOk(sys.clients[e.client]) then sys
    else
      var (t, c) := Step(v, sys.store, sys.clients[e.client], e.input);
      System(t, sys.clients[e.client := c])
  }

  /** The system after any sequence of steps. */
  function Run(v: Service, sys: System, events: seq<Event>): System
    decreases |events|
  {
    if events == [] then sys else Run(v, Apply(v, sys, events[0]), events[1..])
  }

  /** An initialized store, and any number of clients with any tasks. */
  ghost predicate Initial(sys: System) {
    sys.store == Store(map[], 0) && forall i :: 0 <= i < |sys.clients| ==> sys.clients[i].Start?
  }
}

/** Clients that come again: what a task ends with when the store already holds its job. */
module JobRepeats {
  import opened Wrappers
  import opened JobRecord
  import opened JobStore
  import opened JobProtocol
  import opened JobAgreement
  import opened JobProgress

  /** The record has begun at this time. */
  predicate Begun(r: Record, t: int) { r.base.plan.createdAt <= t && (!r.Prepared? ==> r.review.completedAt <= t) }

  /** The clock advances from inside the record's window to before its limits. */
  predicate Lasts(s: Store, r: Record, inputs: seq<Input>, until: int) {
    |inputs| > 0 && Advances(s, inputs, until) && Begun(r, inputs[0].first.value) && NoLater(r, until)
  }

  lemma LastsCurrent(s: Store, r: Record, inputs: seq<Input>, until: int, k: nat)
    requires Lasts(s, r, inputs, until) && k < |inputs|
    ensures Ticks(inputs[k], s.wallHighWater, until)
    ensures Current(r, inputs[k].first) && Current(r, inputs[k].second)
    ensures IsTimestamp(inputs[k].third.value) ==> Current(r, inputs[k].third)
  {
    if k > 0 { assert inputs[0].third.value <= inputs[k].first.value; }
    assert Ticks(inputs[0], s.wallHighWater, until);
    CurrentExactly(r, inputs[k].first);
    CurrentExactly(r, inputs[k].second);
    CurrentExactly(r, inputs[k].third);
  }

  /** A client that has failed stays so. */
  lemma {:induction false} AloneFailed(v: Service, s: Store, code: Code, inputs: seq<Input>, k: nat)
    requires k <= |inputs|
    ensures Alone(v, s, Failed(code), inputs, k) == (s, Failed(code))
    decreases |inputs| - k
  {
    if k < |inputs| { AloneFailed(v, s, code, inputs, k + 1); }
  }

  /** The first step of every task observes the time. */
  lemma Starts(v: Service, s: Store, task: Task, inputs: seq<Input>, until: int)
    requires |inputs| > 1 && Advances(s, inputs, until)
    ensures
      var next := match task
        case Prepare(intent) => PrepareRead(intent)
        case Review(_, _, _, _) => ReviewRead(task, inputs[0].first)
        case Acquire(_, _) => AcquireRead(task, inputs[0].first);
      Alone(v, s, Start(task), inputs, 0) == Alone(v, Clocked(s, inputs[0].first.value), next, inputs, 1)
  {
    assert Ticks(inputs[0], s.wallHighWater, until);
  }

  lemma LaterTicks(s: Store, inputs: seq<Input>, until: int, j: nat, k: nat)
    requires Advances(s, inputs, until) && j < k < |inputs|
    ensures Ticks(inputs[k], inputs[j].first.value, until)
  {
    assert Ticks(inputs[j], s.wallHighWater, until) && Ticks(inputs[k], s.wallHighWater, until);
  }

  // Preparing again

  lemma PrepareReads(v: Service, s: Store, intent: Intent, r: Record, input: Input)
    requires ReadRecord(v, s, (intent.campaignId, intent.runId)) == Ok(Some(r))
    requires KeyOfBase(r.base) == (intent.campaignId, intent.runId)
    ensures Step(v, s, PrepareRead(intent), input) == (s,
      if !LifetimeOk(r.base.plan.createdAt, intent.expiresAt) then Failed(InputInvalid)
      else if r.base.source == intent.source && r.base.plan.subject == intent.subject && r.base.plan.expiresAt == intent.expiresAt
      then PrepareCheckExisting(intent, r) else Failed(JobConflict))
  {
  }

  /** A preparation of a job that is already stored, at whatever revision, returns it when it asks for
      the same source, subject and expiry, and conflicts when it does not; the store keeps its rows. */
  lemma PrepareRepeats(v: Service, s: Store, intent: Intent, r: Record, inputs: seq<Input>, until: int)
    requires Lawful(v.rules) && Genuine(v, s) && |inputs| == 3 && Lasts(s, r, inputs, until)
    requires RecordAt(v, s, (intent.campaignId, intent.runId)) == Some(r)
    requires 60000 <= intent.expiresAt - r.base.plan.createdAt <= 900000 && intent.expiresAt <= 8640000000000000
    ensures Alone(v, s, Start(Prepare(intent)), inputs, 0).0.rows == s.rows
    ensures Alone(v, s, Start(Prepare(intent)), inputs, 0).1 ==
      if r.base.source == intent.source && r.base.plan.subject == intent.subject && r.base.plan.expiresAt == intent.expiresAt
      then Done(Prepare(intent), r) else Failed(JobConflict)
  {
    var t, k := Clocked(s, inputs[0].first.value), (intent.campaignId, intent.runId);
    Starts(v, s, Prepare(intent), inputs, until);
    LastsCurrent(s, r, inputs, until, 0);
    LastsCurrent(s, r, inputs, until, 2);
    LaterTicks(s, inputs, until, 0, 2);
    TimeGenuine(v, s, inputs[0].first);
    ReadGenuine(v, t, k);
    PrepareReads(v, t, intent, r, inputs[1]);
    var next := Step(v, t, PrepareRead(intent), inputs[1]).1;
    AloneStep(v, t, PrepareRead(intent), t, next, inputs, 1);
    if next.Failed? {
      AloneFailed(v, t, JobConflict, inputs, 2);
    } else {
      CheckPasses(t, r, inputs[2], until, Done(Prepare(intent), r));
      AloneStep(v, t, next, Clocked(t, inputs[2].first.value), Done(Prepare(intent), r), inputs, 2);
    }
  }

  // Reviewing again

  lemma ReviewReadsAgain(v: Service, s: Store, task: Task, r: Record, input: Input, now: Sample)
    requires task.Review? && ReadRecord(v, s, task.key) == Ok(Some(r)) && r.base.plan.jobId == task.jobId
    requires !r.Prepared? && Valid(v.rules, r) && Current(r, now)
    requires r.base.plan.createdAt <= task.completedAt <= now.value < task.completedAt + 600000
    ensures Step(v, s, ReviewRead(task, now), input) == (s,
      if r.review.output == task.output && r.review.completedAt == task.completedAt
      then ReviewCheckExisting(task, r) else Failed(JobConflict))
  {
    assert MakeReview(v.rules, r.base, task.output, task.completedAt, now) == Some(ContextOf(r.base, task.output, task.completedAt));
  }

  /** A review of a job that is already reviewed returns it when it is the same review, and conflicts
      when it is not; the store keeps its rows. */
  lemma ReviewRepeats(v: Service, s: Store, task: Task, r: Record, inputs: seq<Input>, until: int)
    requires Lawful(v.rules) && Genuine(v, s) && |inputs| == 3 && Lasts(s, r, inputs, until) && task.Review?
    requires RecordAt(v, s, task.key) == Some(r) && !r.Prepared? && r.base.plan.jobId == task.jobId
    requires r.base.plan.createdAt <= task.completedAt <= inputs[0].first.value < task.completedAt + 600000
    ensures Alone(v, s, Start(task), inputs, 0).0.rows == s.rows
    ensures Alone(v, s, Start(task), inputs, 0).1 ==
      if r.review.output == task.output && r.review.completedAt == task.completedAt then Done(task, r) else Failed(JobConflict)
  {
    var t := Clocked(s, inputs[0].first.value);
    Starts(v, s, task, inputs, until);
    LastsCurrent(s, r, inputs, until, 0);
    LastsCurrent(s, r, inputs, until, 2);
    LaterTicks(s, inputs, until, 0, 2);
    TimeGenuine(v, s, inputs[0].first);
    ReadGenuine(v, t, task.key);
    ReviewReadsAgain(v, t, task, r, inputs[1], inputs[0].first);
    var next := Step(v, t, ReviewRead(task, inputs[0].first), inputs[1]).1;
    AloneStep(v, t, ReviewRead(task, inputs[0].first), t, next, inputs, 1);
    if next.Failed? {
      AloneFailed(v, t, JobConflict, inputs, 2);
    } else {
      CheckPasses(t, r, inputs[2], until, Done(task, r));
      AloneStep(v, t, next, Clocked(t, inputs[2].first.value), Done(task, r), inputs, 2);
    }
  }

  // Acquiring again

  lemma AcquireReads(v: Service, s: Store, task: Task, r: Record, input: Input, now: Sample)
    requires task.Acquire? && ReadRecord(v, s, task.key) == Ok(Some(r)) && r.base.plan.jobId == task.jobId && Current(r, now)
    ensures Step(v, s, AcquireRead(task, now), input) == (s, if r.Prepared? then Failed(JobConflict) else AcquireWait(task, r))
  {
  }

  lemma AnsweredAgain(v: Service, s: Store, task: Task, r: Record, input: Input, until: int)
    requires task.Acquire? && r.Retained? && Valid(v.rules, r) && Ticks(input, s.wallHighWater, until) && input.identity.Some?
    requires Current(r, input.second) && Current(r, input.third)
    ensures Step(v, s, AcquireWait(task, r), input) == (Clocked(s, input.first.value),
      if input.identity.value == r.identity then AcquireReread(task, r) else Failed(JobConflict))
  {
    CurrentExactly(r, input.third);
  }

  /** An acquisition for a job that already has its identity returns it when the evidence client
      answers the same identity again, and conflicts when it answers another. */
  lemma AcquireRepeats(v: Service, s: Store, task: Task, r: Record, inputs: seq<Input>, until: int)
    requires Lawful(v.rules) && Genuine(v, s) && |inputs| == 5 && Lasts(s, r, inputs, until) && task.Acquire?
    requires RecordAt(v, s, task.key) == Some(r) && r.Retained? && r.base.plan.jobId == task.jobId
    requires inputs[2].identity.Some?
    ensures Alone(v, s, Start(task), inputs, 0).0.rows == s.rows
    ensures Alone(v, s, Start(task), inputs, 0).1 ==
      if inputs[2].identity.value == r.identity then Done(task, r) else Failed(JobConflict)
  {
    var t := Clocked(s, inputs[0].first.value);
    var u := Clocked(t, inputs[2].first.value);
    Starts(v, s, task, inputs, until);
    LastsCurrent(s, r, inputs, until, 0);
    LastsCurrent(s, r, inputs, until, 2);
    LaterTicks(s, inputs, until, 0, 2);
    TimeGenuine(v, s, inputs[0].first);
    ReadGenuine(v, t, task.key);
    AcquireReads(v, t, task, r, inputs[1], inputs[0].first);
    AloneStep(v, t, AcquireRead(task, inputs[0].first), t, AcquireWait(task, r), inputs, 1);
    CurrentExactly(r, inputs[2].second);
    CurrentExactly(r, inputs[2].third);
    AnsweredAgain(v, t, task, r, inputs[2], until);
    var next := Step(v, t, AcquireWait(task, r), inputs[2]).1;
    AloneStep(v, t, AcquireWait(task, r), u, next, inputs, 2);
    if next.Failed? {
      AloneFailed(v, u, JobConflict, inputs, 3);
    } else {
      AcquireEndsAgain(v, u, task, r, inputs, until, s);
    }
  }

  lemma RereadsGenuine(v: Service, s: Store, u: Store, task: Task, r: Record, before: Input, input: Input)
    requires Lawful(v.rules) && Genuine(v, s) && task.Acquire? && before.first.Some? && 0 <= before.first.value
    requires s.wallHighWater <= before.first.value && u == Clocked(s, before.first.value)
    requires RecordAt(v, s, task.key) == Some(r) && r.base.plan.jobId == task.jobId
    ensures Step(v, u, AcquireReread(task, r), input) == (u, AcquireCheck(task, r, r))
  {
    TimeGenuine(v, s, before.first);
    ReadGenuine(v, u, task.key);
  }

  lemma AcquireEndsAgain(v: Service, u: Store, task: Task, r: Record, inputs: seq<Input>, until: int, s: Store)
    requires Lawful(v.rules) && Genuine(v, s) && |inputs| == 5 && Lasts(s, r, inputs, until) && task.Acquire?
    requires u == Clocked(s, inputs[2].first.value) && RecordAt(v, s, task.key) == Some(r) && r.base.plan.jobId == task.jobId
    ensures Alone(v, u, AcquireReread(task, r), inputs, 3) == (Clocked(u, inputs[4].first.value), Done(task, r))
  {
    LastsCurrent(s, r, inputs, until, 2);
    LastsCurrent(s, r, inputs, until, 4);
    LaterTicks(s, inputs, until, 2, 4);
    RereadsGenuine(v, s, u, task, r, inputs[2], inputs[3]);
    AloneStep(v, u, AcquireReread(task, r), u, AcquireCheck(task, r, r), inputs, 3);
    AloneStep(v, u, AcquireCheck(task, r, r), Clocked(u, inputs[4].first.value), Done(task, r), inputs, 4);
  }

  // What is refused

  lemma ReadsNothing(v: Service, s: Store, c: Client, task: Task, now: Sample, input: Input)
    requires (task.Review? && c == ReviewRead(task, now)) || (task.Acquire? && c == AcquireRead(task, now))
    requires ReadRecord(v, s, task.key) == Ok(RecordAt(v, s, task.key))
    ensures
      var found, after := RecordAt(v, s, task.key), Step(v, s, c, input);
      && after.0 == s
      && (found.None? ==> after.1 == Failed(JobMissing))
      && (found.Some? && found.value.base.plan.jobId != task.jobId ==> after.1 == Failed(JobConflict))
  {
  }

  lemma ReadAlone(v: Service, s: Store, task: Task, inputs: seq<Input>, until: int)
    requires Lawful(v.rules) && Genuine(v, s) && |inputs| == 2 && Advances(s, inputs, until) && !task.Prepare?
    ensures
      var t := Clocked(s, inputs[0].first.value);
      var c := if task.Review? then ReviewRead(task, inputs[0].first) else AcquireRead(task, inputs[0].first);
      && ReadRecord(v, t, task.key) == Ok(RecordAt(v, t, task.key)) && RecordAt(v, t, task.key) == RecordAt(v, s, task.key)
      && (TaskOk(Step(v, t, c, inputs[1]).1) ==> Alone(v, s, Start(task), inputs, 0) == Step(v, t, c, inputs[1]))
  {
    var t := Clocked(s, inputs[0].first.value);
    var c := if task.Review? then ReviewRead(task, inputs[0].first) else AcquireRead(task, inputs[0].first);
    Starts(v, s, task, inputs, until);
    assert Ticks(inputs[0], s.wallHighWater, until);
    TimeGenuine(v, s, inputs[0].first);
    ReadGenuine(v, t, task.key);
    var (u, next) := Step(v, t, c, inputs[1]);
    if TaskOk(next) { AloneStep(v, t, c, u, next, inputs, 1); }
  }

  /** A review or an acquisition needs a stored job with the id it names. */
  lemma NothingToExtend(v: Service, s: Store, task: Task, inputs: seq<Input>, until: int)
    requires Lawful(v.rules) && Genuine(v, s) && |inputs| == 2 && Advances(s, inputs, until) && !task.Prepare?
    requires RecordAt(v, s, task.key).Some? ==> RecordAt(v, s, task.key).value.base.plan.jobId != task.jobId
    ensures Alone(v, s, Start(task), inputs, 0).0.rows == s.rows
    ensures Alone(v, s, Start(task), inputs, 0).1 ==
      Failed(if RecordAt(v, s, task.key).None? then JobMissing else JobConflict)
  {
    var t := Clocked(s, inputs[0].first.value);
    var c := if task.Review? then ReviewRead(task, inputs[0].first) else AcquireRead(task, inputs[0].first);
    ReadAlone(v, s, task, inputs, until);
    ReadsNothing(v, t, c, task, inputs[0].first, inputs[1]);
  }

  /** And an acquisition one that has been reviewed. */
  lemma NothingReviewed(v: Service, s: Store, task: Task, r: Record, inputs: seq<Input>, until: int)
    requires Lawful(v.rules) && Genuine(v, s) && |inputs| == 2 && Lasts(s, r, inputs, until) && task.Acquire?
    requires RecordAt(v, s, task.key) == Some(r) && r.Prepared? && r.base.plan.jobId == task.jobId
    ensures Alone(v, s, Start(task), inputs, 0).0.rows == s.rows
    ensures Alone(v, s, Start(task), inputs, 0).1 == Failed(JobConflict)
  {
    var t := Clocked(s, inputs[0].first.value);
    ReadAlone(v, s, task, inputs, until);
    LastsCurrent(s, r, inputs, until, 0);
    AcquireReads(v, t, task, r, inputs[1], inputs[0].first);
  }
}

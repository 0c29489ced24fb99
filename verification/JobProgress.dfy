/** Uncontested clients succeed: what a prepare, a review and an acquisition do when nobody else
    steps in and the clock advances inside the record's validity. */
module JobProgress {
  import opened Wrappers
  import opened JobRecord
  import opened JobStore
  import opened JobProtocol
  import opened JobAgreement

  /** The steps of one client, alone, from the kth answer of the world on. */
  function Alone(v: Service, s: Store, c: Client, inputs: seq<Input>, k: nat): (Store, Client)
    requires TaskOk(c) && k <= |inputs|
    decreases |inputs| - k
  {
    if k == |inputs| then (s, c)
    else
      var (t, d) := Step(v, s, c, inputs[k]);
      if TaskOk(d) then Alone(v, t, d, inputs, k + 1) else (t, d)
  }

  lemma AloneStep(v: Service, s: Store, c: Client, t: Store, d: Client, inputs: seq<Input>, k: nat)
    requires TaskOk(c) && TaskOk(d) && k < |inputs| && Step(v, s, c, inputs[k]) == (t, d)
    ensures Alone(v, s, c, inputs, k) == Alone(v, t, d, inputs, k + 1)
  {
  }

  /** The samples of one step never go back, and lie between two times. */
  predicate Ticks(input: Input, from: int, until: int) {
    && input.first.Some? && input.second.Some? && input.third.Some?
    && IsTimestamp(input.first.value) && IsTimestamp(input.second.value)
    && from <= input.first.value <= input.second.value <= input.third.value < until
  }

  /** The clock never goes back over the whole run, starts no earlier than any time the store has
      observed, and stays before `until`. */
  predicate Advances(s: Store, inputs: seq<Input>, until: int) {
    && (forall k :: 0 <= k < |inputs| ==> Ticks(inputs[k], s.wallHighWater, until))
    && forall j, k :: 0 <= j < k < |inputs| ==> inputs[j].third.value <= inputs[k].first.value
  }

  function Clocked(s: Store, now: int): Store { s.(wallHighWater := now) }

  function WithRecord(v: Service, s: Store, r: Record): Store {
    s.(rows := s.rows[KeyOfBase(r.base) := RowOf(v.rules, r)])
  }

  lemma CheckPasses(s: Store, r: Record, input: Input, until: int, c: Client)
    requires Ticks(input, s.wallHighWater, until) && Current(r, input.second)
    ensures Check(s, r, input, c) == (Clocked(s, input.first.value), c)
  {
  }

  /** The time is no later than any limit of the record. */
  predicate NoLater(r: Record, until: int) {
    && until <= r.base.plan.expiresAt && (!r.Prepared? ==> until <= r.review.completedAt + 600000)
    && (r.Retained? ==> until <= r.identity.expiresAt)
  }

  /** A record that was current earlier is current until one of its limits. */
  lemma StaysCurrent(r: Record, earlier: int, now: Sample, until: int)
    requires InWindow(r, earlier) && now.Some? && IsTimestamp(now.value) && earlier <= now.value < until && NoLater(r, until)
    ensures Current(r, now)
  {
    CurrentExactly(r, now);
  }

  /** The store has a well-shaped row for the record, within the byte bound. */
  predicate Storable(v: Service, r: Record) {
    v.shape(RowOf(v.rules, r)) && 1 <= |v.rules.encode(r)| <= 262144
  }

  // Prepare

  function NewRecord(v: Service, intent: Intent, jobId: string, now: int): Record {
    Prepared(Base(v.storeId, intent.campaignId, intent.runId, intent.source, Plan(jobId, now, intent.expiresAt, intent.subject)))
  }

  /** The row is well shaped, its key and job id are new, and there is room. */
  ghost predicate Room(v: Service, s: Store, r: Record) {
    && Storable(v, r) && (r.base.campaignId, r.base.runId) !in s.rows && |s.rows| < 100
    && forall k :: k in s.rows ==> s.rows[k].jobId != r.base.plan.jobId
  }

  lemma PrepareInserts(v: Service, s: Store, intent: Intent, inputs: seq<Input>, r: Record)
    requires Lawful(v.rules) && Genuine(v, s) && |inputs| == 6 && Advances(s, inputs, intent.expiresAt)
    requires LifetimeOk(inputs[1].first.value, intent.expiresAt) && Valid(v.rules, r)
    requires r == NewRecord(v, intent, inputs[1].jobId, inputs[1].first.value) && Room(v, s, r)
    ensures Alone(v, s, PrepareRead(intent), inputs, 1)
      == Alone(v, WithRecord(v, Clocked(s, inputs[2].first.value), r), PrepareReadback(intent, r, true), inputs, 4)
  {
    var t := Clocked(s, inputs[2].first.value);
    ReadGenuine(v, s, KeyOfBase(r.base));
    AloneStep(v, s, PrepareRead(intent), s, PrepareCheckCandidate(intent, r), inputs, 1);
    assert Ticks(inputs[2], s.wallHighWater, intent.expiresAt);
    CheckPasses(s, r, inputs[2], intent.expiresAt, PrepareInsert(intent, r));
    AloneStep(v, s, PrepareCheckCandidate(intent, r), t, PrepareInsert(intent, r), inputs, 2);
    assert !JobIdTaken(t, RowOf(v.rules, r).jobId);
    AloneStep(v, t, PrepareInsert(intent, r), WithRecord(v, t, r), PrepareReadback(intent, r, true), inputs, 3);
  }

  lemma PrepareEnds(v: Service, u: Store, intent: Intent, inputs: seq<Input>, r: Record)
    requires |inputs| == 6 && Ticks(inputs[5], u.wallHighWater, intent.expiresAt) && Current(r, inputs[5].second)
    requires ReadRecord(v, u, KeyOfBase(r.base)) == Ok(Some(r))
    ensures Alone(v, u, PrepareReadback(intent, r, true), inputs, 4)
      == (Clocked(u, inputs[5].first.value), Done(Prepare(intent), r))
  {
    AloneStep(v, u, PrepareReadback(intent, r, true), u, PrepareCheckWinner(intent, r), inputs, 4);
    CheckPasses(u, r, inputs[5], intent.expiresAt, Done(Prepare(intent), r));
    AloneStep(v, u, PrepareCheckWinner(intent, r), Clocked(u, inputs[5].first.value), Done(Prepare(intent), r), inputs, 5);
  }

  /** A first preparation, under any clock that advances before the expiry asked for, stores and
      returns a record created at its own sample for exactly what was asked. */
  lemma PrepareSucceeds(v: Service, s: Store, intent: Intent, inputs: seq<Input>)
    requires Lawful(v.rules) && Genuine(v, s) && |inputs| == 6 && Advances(s, inputs, intent.expiresAt)
    requires 60000 <= intent.expiresAt - inputs[1].first.value <= 900000 && intent.expiresAt <= 8640000000000000
    requires v.rules.bound(intent.source, intent.subject)
    requires v.rules.fits(NewRecord(v, intent, inputs[1].jobId, inputs[1].first.value))
    requires Room(v, s, NewRecord(v, intent, inputs[1].jobId, inputs[1].first.value))
    ensures
      var r := NewRecord(v, intent, inputs[1].jobId, inputs[1].first.value);
      Alone(v, s, Start(Prepare(intent)), inputs, 0)
        == (WithRecord(v, Clocked(s, inputs[5].first.value), r), Done(Prepare(intent), r))
  {
    var r, t := NewRecord(v, intent, inputs[1].jobId, inputs[1].first.value), Clocked(s, inputs[0].first.value);
    assert Ticks(inputs[0], s.wallHighWater, intent.expiresAt) && Ticks(inputs[5], s.wallHighWater, intent.expiresAt);
    assert Advances(t, inputs[1..], intent.expiresAt);
    TimeGenuine(v, s, inputs[0].first);
    AloneStep(v, s, Start(Prepare(intent)), t, PrepareRead(intent), inputs, 0);
    assert !JobIdTaken(t, RowOf(v.rules, r).jobId);
    PrepareInserts(v, t, intent, inputs, r);
    var u := Clocked(t, inputs[2].first.value);
    InsertGenuine(v, u, r);
    ReadGenuine(v, WithRecord(v, u, r), KeyOfBase(r.base));
    RowDecodes(v, r);
    PrepareEnds(v, WithRecord(v, u, r), intent, inputs, r);
  }

  // Review and acquire: the stored record is extended by exactly one field

  /** The store holds this record, and its successor's row is well shaped. */
  ghost predicate Holds(v: Service, s: Store, r: Record, next: Record) {
    && Genuine(v, s) && RecordAt(v, s, KeyOfBase(r.base)) == Some(r) && RowOk(v.shape, RowOf(v.rules, next))
    && Valid(v.rules, next) && Extends(r, next) && RevisionOf(next) == RevisionOf(r) + 1
  }

  lemma SwapSucceeds(v: Service, s: Store, r: Record, next: Record)
    requires Lawful(v.rules) && Holds(v, s, r, next)
    ensures Swapped(v, s, r, next) == Ok((true, WithRecord(v, s, next)))
    ensures Genuine(v, WithRecord(v, s, next))
    ensures ReadRecord(v, WithRecord(v, s, next), KeyOfBase(r.base)) == Ok(Some(next))
  {
    var k := KeyOfBase(r.base);
    ReadGenuine(v, s, k);
    assert GenuineRow(v, k, s.rows[k]) && s.rows[k] == RowOf(v.rules, r);
    RowDecodes(v, r);
    SwapGenuine(v, s, r, next);
    RowDecodes(v, next);
    ReadGenuine(v, WithRecord(v, s, next), k);
  }

  lemma ReviewReads(v: Service, s: Store, task: Task, r: Record, input: Input, now: Sample, next: Record)
    requires task.Review? && r.Prepared? && ReadRecord(v, s, task.key) == Ok(Some(r)) && r.base.plan.jobId == task.jobId
    requires AppendReview(v.rules, r, task.output, task.completedAt, now) == Ok(next)
    ensures Step(v, s, ReviewRead(task, now), input) == (s, ReviewCheckNext(task, r, next))
  {
  }

  lemma ReviewEnds(v: Service, s: Store, task: Task, r: Record, next: Record, inputs: seq<Input>, until: int)
    requires task.Review? && next.Reviewed? && ReadRecord(v, s, KeyOfBase(r.base)) == Ok(Some(next))
    requires |inputs| == 6 && Ticks(inputs[5], s.wallHighWater, until) && Current(next, inputs[5].second)
    ensures Alone(v, s, ReviewReadback(task, r, next, true), inputs, 4) == (Clocked(s, inputs[5].first.value), Done(task, next))
  {
    AloneStep(v, s, ReviewReadback(task, r, next, true), s, ReviewCheckActual(task, next), inputs, 4);
    CheckPasses(s, next, inputs[5], until, Done(task, next));
    AloneStep(v, s, ReviewCheckActual(task, next), Clocked(s, inputs[5].first.value), Done(task, next), inputs, 5);
  }

  lemma ReviewStores(v: Service, s: Store, task: Task, r: Record, next: Record, inputs: seq<Input>, until: int)
    requires |inputs| == 6 && Ticks(inputs[2], s.wallHighWater, until) && Current(next, inputs[2].second)
    requires Lawful(v.rules) && Holds(v, Clocked(s, inputs[2].first.value), r, next) && task.Review? && next.Reviewed?
    ensures Alone(v, s, ReviewCheckNext(task, r, next), inputs, 2)
      == Alone(v, WithRecord(v, Clocked(s, inputs[2].first.value), next), ReviewReadback(task, r, next, true), inputs, 4)
  {
    var t := Clocked(s, inputs[2].first.value);
    SwapSucceeds(v, t, r, next);
    CheckPasses(s, next, inputs[2], until, ReviewSwap(task, r, next));
    AloneStep(v, s, ReviewCheckNext(task, r, next), t, ReviewSwap(task, r, next), inputs, 2);
    AloneStep(v, t, ReviewSwap(task, r, next), WithRecord(v, t, next), ReviewReadback(task, r, next, true), inputs, 3);
  }

  /** A first review of a prepared job, completed after it was created, under any clock that advances
      before the reviewed job expires, stores and returns exactly the review that was asked for. */
  lemma ReviewSucceeds(v: Service, s: Store, task: Task, r: Record, inputs: seq<Input>, until: int)
    requires Lawful(v.rules) && Genuine(v, s) && task.Review? && r.Prepared?
    requires |inputs| == 6 && Advances(s, inputs, until)
    requires RecordAt(v, s, task.key) == Some(r) && r.base.plan.jobId == task.jobId
    requires r.base.plan.createdAt <= task.completedAt <= inputs[0].first.value
    requires until <= r.base.plan.expiresAt && until <= task.completedAt + 600000
    requires
      var next := Reviewed(r.base, ContextOf(r.base, task.output, task.completedAt));
      v.rules.fits(next) && Storable(v, next)
    ensures
      var next := Reviewed(r.base, ContextOf(r.base, task.output, task.completedAt));
      Alone(v, s, Start(task), inputs, 0) == (WithRecord(v, Clocked(s, inputs[5].first.value), next), Done(task, next))
  {
    var next, t := Reviewed(r.base, ContextOf(r.base, task.output, task.completedAt)), Clocked(s, inputs[0].first.value);
    var u := Clocked(t, inputs[2].first.value);
    forall k | 0 <= k < 6 ensures Ticks(inputs[k], s.wallHighWater, until) {}
    TimeGenuine(v, s, inputs[0].first);
    ReadGenuine(v, t, task.key);
    ReviewExactly(v.rules, r, task.output, task.completedAt, inputs[0].first, next);
    ReviewAppends(v.rules, r, task.output, task.completedAt, inputs[0].first);
    StaysCurrent(next, inputs[0].first.value, inputs[2].second, until);
    StaysCurrent(next, inputs[0].first.value, inputs[5].second, until);
    AloneStep(v, s, Start(task), t, ReviewRead(task, inputs[0].first), inputs, 0);
    ReviewReads(v, t, task, r, inputs[1], inputs[0].first, next);
    AloneStep(v, t, ReviewRead(task, inputs[0].first), t, ReviewCheckNext(task, r, next), inputs, 1);
    TimeGenuine(v, t, inputs[2].first);
    SwapSucceeds(v, u, r, next);
    ReviewStores(v, t, task, r, next, inputs, until);
    ReviewEnds(v, WithRecord(v, u, next), task, r, next, inputs, until);
  }

  lemma AcquireStores(v: Service, s: Store, task: Task, r: Record, next: Record, inputs: seq<Input>, until: int)
    requires Lawful(v.rules) && Genuine(v, s) && task.Acquire? && r.Reviewed? && |inputs| == 6
    requires Ticks(inputs[2], s.wallHighWater, until) && inputs[2].identity.Some? && Current(r, inputs[2].second)
    requires AppendIdentity(v.rules, r, inputs[2].identity.value, inputs[2].third) == Ok(next)
    requires Holds(v, Clocked(s, inputs[2].first.value), r, next)
    ensures Alone(v, s, AcquireWait(task, r), inputs, 2)
      == Alone(v, WithRecord(v, Clocked(s, inputs[2].first.value), next), AcquireReadback(task, r, next, true), inputs, 4)
  {
    var t := Clocked(s, inputs[2].first.value);
    SwapSucceeds(v, t, r, next);
    AloneStep(v, s, AcquireWait(task, r), t, AcquireSwap(task, r, next), inputs, 2);
    AloneStep(v, t, AcquireSwap(task, r, next), WithRecord(v, t, next), AcquireReadback(task, r, next, true), inputs, 3);
  }

  lemma AcquireEnds(v: Service, s: Store, task: Task, r: Record, next: Record, inputs: seq<Input>, until: int)
    requires task.Acquire? && ReadRecord(v, s, KeyOfBase(next.base)) == Ok(Some(next)) && Extends(r, next)
    requires |inputs| == 6 && Ticks(inputs[5], s.wallHighWater, until) && Current(next, inputs[5].second)
    ensures Alone(v, s, AcquireReadback(task, r, next, true), inputs, 4) == (Clocked(s, inputs[5].first.value), Done(task, next))
  {
    CurrentBackwards(r, next, inputs[5].second);
    AloneStep(v, s, AcquireReadback(task, r, next, true), s, AcquireCheck(task, r, next), inputs, 4);
    AloneStep(v, s, AcquireCheck(task, r, next), Clocked(s, inputs[5].first.value), Done(task, next), inputs, 5);
  }

  /** The identity is that of this job, plan and review, and expires no later than either. */
  predicate IdentityOf(rules: Rules, r: Record, identity: Identity)
    requires !r.Prepared?
  {
    && identity.jobId == r.base.plan.jobId && identity.planDigest == rules.planDigest(r.base.plan)
    && identity.contextDigest == rules.contextDigest(r.review) && identity.expiresAt <= 8640000000000000
    && identity.expiresAt <= r.base.plan.expiresAt && identity.expiresAt <= r.review.completedAt + 600000
  }

  lemma AcquireBegins(v: Service, s: Store, task: Task, r: Record, inputs: seq<Input>, until: int)
    requires Lawful(v.rules) && Genuine(v, s) && task.Acquire? && r.Reviewed? && |inputs| == 6 && Advances(s, inputs, until)
    requires RecordAt(v, s, task.key) == Some(r) && r.base.plan.jobId == task.jobId && Valid(v.rules, r)
    requires r.review.completedAt <= inputs[0].first.value && until <= ExpiryOf(r)
    ensures
      var t := Clocked(s, inputs[0].first.value);
      Genuine(v, t) && Alone(v, s, Start(task), inputs, 0) == Alone(v, t, AcquireWait(task, r), inputs, 2)
  {
    var t := Clocked(s, inputs[0].first.value);
    assert Ticks(inputs[0], s.wallHighWater, until);
    TimeGenuine(v, s, inputs[0].first);
    ReadGenuine(v, t, task.key);
    CurrentExactly(r, inputs[0].first);
    AloneStep(v, s, Start(task), t, AcquireRead(task, inputs[0].first), inputs, 0);
    AloneStep(v, t, AcquireRead(task, inputs[0].first), t, AcquireWait(task, r), inputs, 1);
  }

  /** A first acquisition of a reviewed, current job, under any clock that advances before the
      identity expires, stores and returns exactly the verified identity. */
  lemma AcquireSucceeds(v: Service, s: Store, task: Task, r: Record, inputs: seq<Input>)
    requires Lawful(v.rules) && Genuine(v, s) && task.Acquire? && r.Reviewed? && |inputs| == 6 && inputs[2].identity.Some?
    requires Advances(s, inputs, inputs[2].identity.value.expiresAt)
    requires RecordAt(v, s, task.key) == Some(r) && r.base.plan.jobId == task.jobId
    requires r.review.completedAt <= inputs[0].first.value
    requires IdentityOf(v.rules, r, inputs[2].identity.value)
    requires
      var next := Retained(r.base, r.review, inputs[2].identity.value);
      v.rules.fits(next) && Storable(v, next)
    ensures
      var next := Retained(r.base, r.review, inputs[2].identity.value);
      Alone(v, s, Start(task), inputs, 0) == (WithRecord(v, Clocked(s, inputs[5].first.value), next), Done(task, next))
  {
    var next, t := Retained(r.base, r.review, inputs[2].identity.value), Clocked(s, inputs[0].first.value);
    var u, until := Clocked(t, inputs[2].first.value), inputs[2].identity.value.expiresAt;
    forall k | 0 <= k < 6 ensures Ticks(inputs[k], s.wallHighWater, until) {}
    AcquireBegins(v, s, task, r, inputs, until);
    IdentityExactly(v.rules, r, inputs[2].identity.value, inputs[2].third, next);
    IdentityAppends(v.rules, r, inputs[2].identity.value, inputs[2].third);
    StaysCurrent(r, inputs[0].first.value, inputs[2].second, until);
    StaysCurrent(next, inputs[2].third.value, inputs[5].second, until);
    TimeGenuine(v, t, inputs[2].first);
    SwapSucceeds(v, u, r, next);
    AcquireStores(v, t, task, r, next, inputs, until);
    AcquireEnds(v, WithRecord(v, u, next), task, r, next, inputs, until);
  }
}

/** What every interleaving of job clients keeps. */
module JobAgreement {
  import opened Wrappers
  import opened JobRecord
  import opened JobStore
  import opened JobProtocol

  // The store

  function RecordAt(v: Service, s: Store, k: Key): Option<Record> {
    if k in s.rows then v.rules.decode(s.rows[k].canonicalRecord) else None
  }

  /** A row that `recordToStoredRow` made from a valid record of this store. */
  ghost predicate GenuineRow(v: Service, k: Key, row: Row) {
    var r := v.rules.decode(row.canonicalRecord);
    r.Some? && row == RowOf(v.rules, r.value) && r.value.base.storeId == v.storeId && KeyOfBase(r.value.base) == k
  }

  ghost predicate RowsGenuine(v: Service, s: Store) {
    forall k :: k in s.rows ==> GenuineRow(v, k, s.rows[k])
  }

  ghost predicate Genuine(v: Service, s: Store) { Sound(v.shape, s) && RowsGenuine(v, s) }

  /** The store holds this record or one that extends it. */
  predicate Below(v: Service, s: Store, r: Record) {
    var now := RecordAt(v, s, KeyOfBase(r.base));
    now.Some? && Extends(r, now.value)
  }

  /** Records are never lost, prepared fields, reviews and identities never change, and the
      observed time never decreases. */
  ghost predicate Evolves(v: Service, s: Store, t: Store) {
    && s.wallHighWater <= t.wallHighWater
    && forall k :: k in s.rows ==>
         RecordAt(v, s, k).Some? && RecordAt(v, t, k).Some? && Extends(RecordAt(v, s, k).value, RecordAt(v, t, k).value)
  }

  lemma EvolvesTransitive(v: Service, s: Store, t: Store, u: Store)
    requires Evolves(v, s, t) && Evolves(v, t, u)
    ensures Evolves(v, s, u)
  {
    forall k | k in s.rows ensures k in t.rows && Extends(RecordAt(v, s, k).value, RecordAt(v, u, k).value) {
      ExtendsTransitive(RecordAt(v, s, k).value, RecordAt(v, t, k).value, RecordAt(v, u, k).value);
    }
  }

  lemma BelowKept(v: Service, s: Store, t: Store, r: Record)
    requires Evolves(v, s, t) && Below(v, s, r)
    ensures Below(v, t, r)
  {
    var k := KeyOfBase(r.base);
    ExtendsTransitive(r, RecordAt(v, s, k).value, RecordAt(v, t, k).value);
  }

  lemma Still(v: Service, s: Store)
    requires Genuine(v, s)
    ensures Evolves(v, s, s)
  {
  }

  lemma TimeGenuine(v: Service, s: Store, now: Sample)
    requires Genuine(v, s) && ObserveTime(s, now).Ok?
    ensures Genuine(v, ObserveTime(s, now).value) && Evolves(v, s, ObserveTime(s, now).value)
    ensures ObserveTime(s, now).value.rows == s.rows
  {
  }

  lemma RowDecodes(v: Service, r: Record)
    requires Lawful(v.rules) && Valid(v.rules, r)
    ensures v.rules.decode(RowOf(v.rules, r).canonicalRecord) == Some(r)
  {
  }

  // Storing a record over nothing, or over one that it extends.
  lemma PutGenuine(v: Service, s: Store, t: Store, r: Record)
    requires Lawful(v.rules) && RowsGenuine(v, s) && Valid(v.rules, r) && r.base.storeId == v.storeId
    requires t == s.(rows := s.rows[KeyOfBase(r.base) := RowOf(v.rules, r)])
    requires KeyOfBase(r.base) in s.rows ==> Extends(RecordAt(v, s, KeyOfBase(r.base)).value, r)
    ensures RowsGenuine(v, t) && Evolves(v, s, t) && Below(v, t, r)
  {
    RowDecodes(v, r);
    var k, row := KeyOfBase(r.base), RowOf(v.rules, r);
    assert GenuineRow(v, k, row);
    assert RecordAt(v, t, k) == Some(r);
    forall k' | k' in s.rows && k' != k ensures RecordAt(v, t, k') == RecordAt(v, s, k') && RecordAt(v, s, k').Some? {
      assert GenuineRow(v, k', s.rows[k']);
    }
  }

  lemma InsertGenuine(v: Service, s: Store, r: Record)
    requires Lawful(v.rules) && Genuine(v, s) && Valid(v.rules, r) && r.base.storeId == v.storeId
    requires Insert(v.shape, s, RowOf(v.rules, r)).Ok?
    ensures
      var (inserted, t) := Insert(v.shape, s, RowOf(v.rules, r)).value;
      && Genuine(v, t) && Evolves(v, s, t) && KeyOfBase(r.base) in t.rows && (inserted ==> Below(v, t, r))
  {
    Still(v, s);
    InsertKeeps(v.shape, s, RowOf(v.rules, r));
    var (inserted, t) := Insert(v.shape, s, RowOf(v.rules, r)).value;
    assert KeyOf(RowOf(v.rules, r)) == KeyOfBase(r.base);
    if inserted { PutGenuine(v, s, t, r); }
  }

  predicate Refused(v: Service, s: Store, previous: Record) {
    var now := RecordAt(v, s, KeyOfBase(previous.base));
    now.Some? && now.value != previous
  }

  lemma SwapGenuine(v: Service, s: Store, previous: Record, next: Record)
    requires Lawful(v.rules) && Genuine(v, s) && Valid(v.rules, previous) && Valid(v.rules, next)
    requires Extends(previous, next) && next.base.storeId == v.storeId
    requires Swapped(v, s, previous, next).Ok?
    ensures
      var (committed, t) := Swapped(v, s, previous, next).value;
      && Genuine(v, t) && Evolves(v, s, t) && KeyOfBase(previous.base) in t.rows
      && (if committed then Below(v, t, next) else t == s && Refused(v, s, previous))
  {
    Still(v, s);
    RowDecodes(v, previous);
    SwapKeeps(v.shape, s, RowOf(v.rules, previous), RowOf(v.rules, next));
    var (committed, t) := Swapped(v, s, previous, next).value;
    var k := KeyOfBase(previous.base);
    assert KeyOf(RowOf(v.rules, previous)) == k && KeyOf(RowOf(v.rules, next)) == k;
    assert GenuineRow(v, k, s.rows[k]);
    if committed { PutGenuine(v, s, t, next); }
  }

  /** Over genuine rows, a read never reports corruption. */
  lemma ReadGenuine(v: Service, s: Store, k: Key)
    requires Lawful(v.rules) && Genuine(v, s)
    ensures ReadRecord(v, s, k) == Ok(RecordAt(v, s, k))
    ensures RecordAt(v, s, k).Some? <==> k in s.rows
    ensures RecordAt(v, s, k).Some? ==>
      Valid(v.rules, RecordAt(v, s, k).value) && Below(v, s, RecordAt(v, s, k).value)
      && KeyOfBase(RecordAt(v, s, k).value.base) == k && RecordAt(v, s, k).value.base.storeId == v.storeId
  {
    if k in s.rows { assert GenuineRow(v, k, s.rows[k]); }
  }

  // The clients

  /** A record that holds the review this task asked for. */
  predicate HoldsReview(task: Task, r: Record) {
    && task.Review? && !r.Prepared? && r.base.plan.jobId == task.jobId && KeyOfBase(r.base) == task.key
    && r.review.output == task.output && r.review.completedAt == task.completedAt
  }

  predicate ForAcquire(task: Task, r: Record) {
    task.Acquire? && r.base.plan.jobId == task.jobId && KeyOfBase(r.base) == task.key
  }

  predicate Answers(task: Task, r: Record) {
    match task
    case Prepare(intent) => IntentOf(r.base) == intent
    case Review(_, _, _, _) => HoldsReview(task, r)
    case Acquire(_, _) => ForAcquire(task, r) && r.Retained?
  }

  predicate Candidate(v: Service, intent: Intent, r: Record) {
    Valid(v.rules, r) && r.Prepared? && IntentOf(r.base) == intent && r.base.storeId == v.storeId
  }

  /** An append that a client is about to store: next is previous with one more field. */
  predicate Append(v: Service, s: Store, previous: Record, next: Record) {
    && Below(v, s, previous) && Valid(v.rules, previous) && Valid(v.rules, next) && Extends(previous, next)
    && next.base.storeId == v.storeId
  }

  predicate PrepareOk(v: Service, s: Store, c: Client) {
    match c
    case PrepareCheckExisting(intent, existing) => Below(v, s, existing) && IntentOf(existing.base) == intent
    case PrepareCheckCandidate(intent, candidate) => Candidate(v, intent, candidate)
    case PrepareInsert(intent, candidate) => Candidate(v, intent, candidate)
    case PrepareReadback(intent, candidate, inserted) =>
      Candidate(v, intent, candidate) && KeyOfBase(candidate.base) in s.rows && (inserted ==> Below(v, s, candidate))
    case PrepareCheckWinner(intent, winner) => Below(v, s, winner) && IntentOf(winner.base) == intent
    case _ => true
  }

  /** A review that lost its swap: the row has moved past the record it read. */
  predicate Lost(v: Service, s: Store, previous: Record) {
    Below(v, s, previous) && !RecordAt(v, s, KeyOfBase(previous.base)).value.Prepared?
  }

  predicate ReviewOk(v: Service, s: Store, c: Client)
    requires TaskOk(c)
  {
    match c
    case ReviewCheckExisting(task, previous) => Below(v, s, previous) && HoldsReview(task, previous)
    case ReviewCheckNext(task, previous, next) => Append(v, s, previous, next) && previous.Prepared? && HoldsReview(task, next)
    case ReviewSwap(task, previous, next) => Append(v, s, previous, next) && previous.Prepared? && HoldsReview(task, next)
    case ReviewReadback(task, previous, next, committed) =>
      HoldsReview(task, next) && previous.base == next.base && if committed then Below(v, s, next) else Lost(v, s, previous)
    case ReviewCheckActual(task, actual) => Below(v, s, actual) && HoldsReview(task, actual)
    case _ => true
  }

  predicate AcquireOk(v: Service, s: Store, c: Client) {
    match c
    case AcquireWait(task, snapshot) =>
      Append(v, s, snapshot, snapshot) && !snapshot.Prepared? && ForAcquire(task, snapshot)
    case AcquireReread(task, snapshot) =>
      Append(v, s, snapshot, snapshot) && snapshot.Retained? && ForAcquire(task, snapshot)
    case AcquireSwap(task, snapshot, candidate) =>
      Append(v, s, snapshot, candidate) && candidate.Retained? && ForAcquire(task, candidate)
    case AcquireReadback(task, snapshot, candidate, committed) =>
      && Valid(v.rules, candidate) && candidate.Retained? && ForAcquire(task, candidate)
      && KeyOfBase(candidate.base) in s.rows && (committed ==> Below(v, s, candidate))
    case AcquireCheck(task, snapshot, actual) => Below(v, s, actual) && actual.Retained? && ForAcquire(task, actual)
    case _ => true
  }

  ghost predicate ClientOk(v: Service, s: Store, c: Client) {
    && TaskOk(c) && PrepareOk(v, s, c) && ReviewOk(v, s, c) && AcquireOk(v, s, c)
    && (c.Done? ==> Below(v, s, c.record) && Answers(c.task, c.record))
    && (c.Failed? ==> c.code != StoreCorrupt && c.code != StoreMismatch)
  }

  lemma ClientKept(v: Service, s: Store, t: Store, c: Client)
    requires Evolves(v, s, t) && ClientOk(v, s, c)
    ensures ClientOk(v, t, c)
  {
    forall r | Below(v, s, r) ensures Below(v, t, r) { BelowKept(v, s, t, r); }
  }

  /** What one step keeps. */
  ghost predicate Kept(v: Service, s: Store, after: (Store, Client)) {
    Genuine(v, after.0) && Evolves(v, s, after.0) && ClientOk(v, after.0, after.1)
  }

  /** A step that only observes the time: it ends as `c`, or fails. */
  predicate Timed(s: Store, now: Sample, c: Client, after: (Store, Client)) {
    && (after.0 == s || (ObserveTime(s, now).Ok? && after.0 == ObserveTime(s, now).value))
    && (after.1 == c || (after.1.Failed? && after.1.code != StoreCorrupt && after.1.code != StoreMismatch))
  }

  lemma CheckTimed(s: Store, r: Record, input: Input, c: Client)
    ensures Timed(s, input.first, c, Check(s, r, input, c))
    ensures !c.Failed? && Check(s, r, input, c).1 == c ==> Proper(s, r, input)
  {
  }

  lemma FinishTimed(s: Store, snapshot: Record, actual: Record, input: Input, c: Client)
    ensures Timed(s, input.first, c, Finish(s, snapshot, actual, input, c))
    ensures !c.Failed? && Finish(s, snapshot, actual, input, c).1 == c ==> Proper(s, actual, input)
  {
  }

  /** The samples of a step that ended well: none before any observed time, the last one inside
      the record's validity. */
  predicate Proper(s: Store, r: Record, input: Input) {
    && Current(r, input.second)
    && input.first.Some? && input.second.Some? && s.wallHighWater <= input.first.value <= input.second.value
  }

  lemma TimedKeeps(v: Service, s: Store, now: Sample, c: Client, after: (Store, Client))
    requires Genuine(v, s) && ClientOk(v, s, c) && Timed(s, now, c, after)
    ensures Kept(v, s, after)
  {
    Still(v, s);
    if after.0 != s { TimeGenuine(v, s, now); }
    ClientKept(v, s, after.0, c);
  }

  lemma CheckKeeps(v: Service, s: Store, r: Record, input: Input, c: Client)
    requires Genuine(v, s) && ClientOk(v, s, c)
    ensures Kept(v, s, Check(s, r, input, c))
  {
    CheckTimed(s, r, input, c);
    TimedKeeps(v, s, input.first, c, Check(s, r, input, c));
  }

  lemma ObservedKeeps(v: Service, s: Store, now: Sample, c: Client)
    requires Genuine(v, s) && ClientOk(v, s, c)
    ensures Kept(v, s, Observed(s, now, c))
  {
    TimedKeeps(v, s, now, c, Observed(s, now, c));
  }

  lemma ReadKept(v: Service, s: Store, c: Client)
    requires Genuine(v, s) && ClientOk(v, s, c)
    ensures Kept(v, s, (s, c))
  {
    Still(v, s);
  }

  // Each store transaction of each program

  lemma PrepareReadKeeps(v: Service, s: Store, intent: Intent, input: Input)
    requires Lawful(v.rules) && Genuine(v, s)
    ensures Kept(v, s, Step(v, s, PrepareRead(intent), input))
  {
    Still(v, s);
    ReadGenuine(v, s, (intent.campaignId, intent.runId));
  }

  lemma PrepareInsertStep(v: Service, s: Store, intent: Intent, candidate: Record, input: Input)
    ensures Step(v, s, PrepareInsert(intent, candidate), input) ==
      match Insert(v.shape, s, RowOf(v.rules, candidate))
      case Err(code) => (s, Failed(code))
      case Ok(outcome) => (outcome.1, PrepareReadback(intent, candidate, outcome.0))
  {
  }

  lemma PrepareInsertOk(v: Service, t: Store, intent: Intent, candidate: Record, inserted: bool)
    requires Candidate(v, intent, candidate) && KeyOfBase(candidate.base) in t.rows && (inserted ==> Below(v, t, candidate))
    ensures ClientOk(v, t, PrepareReadback(intent, candidate, inserted))
  {
  }

  lemma PrepareInsertKeeps(v: Service, s: Store, intent: Intent, candidate: Record, input: Input)
    requires Lawful(v.rules) && Genuine(v, s) && Candidate(v, intent, candidate)
    ensures Kept(v, s, Step(v, s, PrepareInsert(intent, candidate), input))
  {
    Still(v, s);
    PrepareInsertStep(v, s, intent, candidate, input);
    var outcome := Insert(v.shape, s, RowOf(v.rules, candidate));
    if outcome.Ok? {
      InsertGenuine(v, s, candidate);
      PrepareInsertOk(v, outcome.value.1, intent, candidate, outcome.value.0);
    }
  }

  lemma PrepareReadbackKeeps(v: Service, s: Store, c: Client, input: Input)
    requires Lawful(v.rules) && Genuine(v, s) && c.PrepareReadback? && ClientOk(v, s, c)
    ensures Kept(v, s, Step(v, s, c, input))
  {
    Still(v, s);
    ReadGenuine(v, s, KeyOfBase(c.candidate.base));
  }

  lemma ReviewReadOk(v: Service, s: Store, task: Task, startedAt: Sample, previous: Record)
    requires task.Review? && Below(v, s, previous) && Valid(v.rules, previous) && previous.base.storeId == v.storeId
    requires KeyOfBase(previous.base) == task.key
    ensures ClientOk(v, s, AfterReviewRead(v, task, startedAt, Ok(Some(previous))))
  {
    if AppendReview(v.rules, previous, task.output, task.completedAt, startedAt).Ok? {
      ReviewAppends(v.rules, previous, task.output, task.completedAt, startedAt);
    }
  }

  lemma ReviewReadKeeps(v: Service, s: Store, task: Task, startedAt: Sample, input: Input)
    requires Lawful(v.rules) && Genuine(v, s) && task.Review?
    ensures Kept(v, s, Step(v, s, ReviewRead(task, startedAt), input))
  {
    Still(v, s);
    ReadGenuine(v, s, task.key);
    var found := RecordAt(v, s, task.key);
    if found.Some? { ReviewReadOk(v, s, task, startedAt, found.value); }
  }

  lemma ReviewSwapKeeps(v: Service, s: Store, task: Task, previous: Record, next: Record, input: Input)
    requires Lawful(v.rules) && Genuine(v, s) && ClientOk(v, s, ReviewSwap(task, previous, next))
    ensures Kept(v, s, Step(v, s, ReviewSwap(task, previous, next), input))
  {
    Still(v, s);
    if Swapped(v, s, previous, next).Ok? { SwapGenuine(v, s, previous, next); }
  }

  lemma SameText(v: Service, a: Record, b: Record)
    requires Lawful(v.rules) && Valid(v.rules, a) && Valid(v.rules, b)
    ensures v.rules.encode(a) == v.rules.encode(b) ==> a == b
  {
    RowDecodes(v, a);
    RowDecodes(v, b);
  }

  lemma ReviewReadbackKeeps(v: Service, s: Store, c: Client, input: Input)
    requires Lawful(v.rules) && Genuine(v, s) && c.ReviewReadback? && ClientOk(v, s, c)
    ensures Kept(v, s, Step(v, s, c, input))
  {
    Still(v, s);
    ReadGenuine(v, s, KeyOfBase(c.previous.base));
  }

  lemma AcquireReadOk(v: Service, s: Store, task: Task, startedAt: Sample, found: Option<Record>)
    requires task.Acquire?
    requires found.Some? ==> Below(v, s, found.value) && Valid(v.rules, found.value)
    requires found.Some? ==> found.value.base.storeId == v.storeId && KeyOfBase(found.value.base) == task.key
    ensures ClientOk(v, s, AfterAcquireRead(task, startedAt, Ok(found)))
  {
  }

  lemma AcquireReadStep(v: Service, s: Store, task: Task, startedAt: Sample, input: Input)
    requires task.Acquire?
    ensures Step(v, s, AcquireRead(task, startedAt), input) ==
      (s, AfterAcquireRead(task, startedAt, ReadRecord(v, s, task.key)))
  {
  }

  lemma AcquireReadKeeps(v: Service, s: Store, task: Task, startedAt: Sample, input: Input)
    requires Lawful(v.rules) && Genuine(v, s) && task.Acquire?
    ensures Kept(v, s, Step(v, s, AcquireRead(task, startedAt), input))
  {
    ReadGenuine(v, s, task.key);
    AcquireReadOk(v, s, task, startedAt, RecordAt(v, s, task.key));
    AcquireReadStep(v, s, task, startedAt, input);
    ReadKept(v, s, AfterAcquireRead(task, startedAt, Ok(RecordAt(v, s, task.key))));
  }

  lemma RereadKeeps(v: Service, s: Store, task: Task, snapshot: Record, input: Input)
    requires Lawful(v.rules) && Genuine(v, s) && ClientOk(v, s, AcquireReread(task, snapshot))
    ensures Kept(v, s, Step(v, s, AcquireReread(task, snapshot), input))
  {
    Still(v, s);
    ReadGenuine(v, s, task.key);
    SameText(v, RecordAt(v, s, task.key).value, snapshot);
  }

  lemma AcquireSwapOk(v: Service, t: Store, task: Task, snapshot: Record, candidate: Record, committed: bool)
    requires Valid(v.rules, candidate) && candidate.Retained? && ForAcquire(task, candidate)
    requires KeyOfBase(candidate.base) in t.rows && (committed ==> Below(v, t, candidate))
    ensures ClientOk(v, t, AcquireReadback(task, snapshot, candidate, committed))
  {
  }

  lemma AcquireSwapStep(v: Service, s: Store, task: Task, snapshot: Record, candidate: Record, input: Input)
    requires task.Acquire? && Swapped(v, s, snapshot, candidate).Ok?
    ensures
      var outcome := Swapped(v, s, snapshot, candidate).value;
      Step(v, s, AcquireSwap(task, snapshot, candidate), input) ==
        (outcome.1, AcquireReadback(task, snapshot, candidate, outcome.0))
  {
  }

  lemma AcquireSwapKeeps(v: Service, s: Store, task: Task, snapshot: Record, candidate: Record, input: Input)
    requires Lawful(v.rules) && Genuine(v, s) && ClientOk(v, s, AcquireSwap(task, snapshot, candidate))
    ensures Kept(v, s, Step(v, s, AcquireSwap(task, snapshot, candidate), input))
  {
    Still(v, s);
    var outcome := Swapped(v, s, snapshot, candidate);
    if outcome.Ok? {
      SwapGenuine(v, s, snapshot, candidate);
      AcquireSwapOk(v, outcome.value.1, task, snapshot, candidate, outcome.value.0);
      AcquireSwapStep(v, s, task, snapshot, candidate, input);
    }
  }

  lemma AcquireReadbackKeeps(v: Service, s: Store, c: Client, input: Input)
    requires Lawful(v.rules) && Genuine(v, s) && c.AcquireReadback? && ClientOk(v, s, c)
    ensures Kept(v, s, Step(v, s, c, input))
  {
    Still(v, s);
    ReadGenuine(v, s, KeyOfBase(c.candidate.base));
    SameText(v, RecordAt(v, s, KeyOfBase(c.candidate.base)).value, c.candidate);
  }

  lemma AnswerOk(v: Service, s: Store, task: Task, snapshot: Record, input: Input)
    requires ClientOk(v, s, AcquireWait(task, snapshot))
    ensures ClientOk(v, s, AfterAnswer(v, task, snapshot, input))
  {
    if input.identity.Some? && AppendIdentity(v.rules, snapshot, input.identity.value, input.third).Ok? {
      IdentityAppends(v.rules, snapshot, input.identity.value, input.third);
    }
  }

  lemma FinishKeeps(v: Service, s: Store, task: Task, snapshot: Record, actual: Record, input: Input)
    requires Genuine(v, s) && ClientOk(v, s, AcquireCheck(task, snapshot, actual))
    ensures Kept(v, s, Finish(s, snapshot, actual, input, Done(task, actual)))
  {
    FinishTimed(s, snapshot, actual, input, Done(task, actual));
    TimedKeeps(v, s, input.first, Done(task, actual), Finish(s, snapshot, actual, input, Done(task, actual)));
  }

  predicate Preparing(c: Client) {
    c.PrepareRead? || c.PrepareCheckExisting? || c.PrepareCheckCandidate? || c.PrepareInsert?
    || c.PrepareReadback? || c.PrepareCheckWinner?
  }

  predicate Reviewing(c: Client) {
    c.ReviewRead? || c.ReviewCheckExisting? || c.ReviewCheckNext? || c.ReviewSwap? || c.ReviewReadback? || c.ReviewCheckActual?
  }

  lemma PreparingKeeps(v: Service, s: Store, c: Client, input: Input)
    requires Lawful(v.rules) && Genuine(v, s) && Preparing(c) && ClientOk(v, s, c)
    ensures Kept(v, s, Step(v, s, c, input))
  {
    match c
    case PrepareRead(intent) => PrepareReadKeeps(v, s, intent, input);
    case PrepareCheckExisting(intent, existing) => CheckKeeps(v, s, existing, input, Done(Prepare(intent), existing));
    case PrepareCheckCandidate(intent, candidate) => CheckKeeps(v, s, candidate, input, PrepareInsert(intent, candidate));
    case PrepareInsert(intent, candidate) => PrepareInsertKeeps(v, s, intent, candidate, input);
    case PrepareReadback(_, _, _) => PrepareReadbackKeeps(v, s, c, input);
    case PrepareCheckWinner(intent, winner) => CheckKeeps(v, s, winner, input, Done(Prepare(intent), winner));
  }

  lemma ReviewingKeeps(v: Service, s: Store, c: Client, input: Input)
    requires Lawful(v.rules) && Genuine(v, s) && Reviewing(c) && ClientOk(v, s, c)
    ensures Kept(v, s, Step(v, s, c, input))
  {
    match c
    case ReviewRead(task, startedAt) => ReviewReadKeeps(v, s, task, startedAt, input);
    case ReviewCheckExisting(task, previous) => CheckKeeps(v, s, previous, input, Done(task, previous));
    case ReviewCheckNext(task, previous, next) => CheckKeeps(v, s, next, input, ReviewSwap(task, previous, next));
    case ReviewSwap(task, previous, next) => ReviewSwapKeeps(v, s, task, previous, next, input);
    case ReviewReadback(_, _, _, _) => ReviewReadbackKeeps(v, s, c, input);
    case ReviewCheckActual(task, actual) => CheckKeeps(v, s, actual, input, Done(task, actual));
  }

  lemma AcquiringKeeps(v: Service, s: Store, c: Client, input: Input)
    requires Lawful(v.rules) && Genuine(v, s) && !Preparing(c) && !Reviewing(c) && !c.Start? && ClientOk(v, s, c)
    ensures Kept(v, s, Step(v, s, c, input))
  {
    match c
    case AcquireRead(task, startedAt) => AcquireReadKeeps(v, s, task, startedAt, input);
    case AcquireWait(task, snapshot) =>
      AnswerOk(v, s, task, snapshot, input);
      ObservedKeeps(v, s, input.first, AfterAnswer(v, task, snapshot, input));
    case AcquireReread(task, snapshot) => RereadKeeps(v, s, task, snapshot, input);
    case AcquireSwap(task, snapshot, candidate) => AcquireSwapKeeps(v, s, task, snapshot, candidate, input);
    case AcquireReadback(_, _, _, _) => AcquireReadbackKeeps(v, s, c, input);
    case AcquireCheck(task, snapshot, actual) => FinishKeeps(v, s, task, snapshot, actual, input);
    case _ => Still(v, s);
  }

  lemma StartKeeps(v: Service, s: Store, task: Task, input: Input)
    requires Genuine(v, s)
    ensures Kept(v, s, Step(v, s, Start(task), input))
  {
    Still(v, s);
    match task
    case Prepare(intent) => ObservedKeeps(v, s, input.first, PrepareRead(intent));
    case Review(_, _, _, _) => ObservedKeeps(v, s, input.first, ReviewRead(task, input.first));
    case Acquire(_, _) => ObservedKeeps(v, s, input.first, AcquireRead(task, input.first));
  }

  /** Every step of every client keeps the store genuine and evolving, and its own place justified. */
  lemma StepKeeps(v: Service, s: Store, c: Client, input: Input)
    requires Lawful(v.rules) && Genuine(v, s) && ClientOk(v, s, c)
    ensures Kept(v, s, Step(v, s, c, input))
  {
    if c.Start? {
      StartKeeps(v, s, c.task, input);
    } else if Preparing(c) {
      PreparingKeeps(v, s, c, input);
    } else if Reviewing(c) {
      ReviewingKeeps(v, s, c, input);
    } else {
      AcquiringKeeps(v, s, c, input);
    }
  }

  // Runs

  ghost predicate Inv(v: Service, sys: System) {
    Lawful(v.rules) && Genuine(v, sys.store) && forall i :: 0 <= i < |sys.clients| ==> ClientOk(v, sys.store, sys.clients[i])
  }

  lemma ApplyKeeps(v: Service, sys: System, e: Event)
    requires Inv(v, sys)
    ensures Inv(v, Apply(v, sys, e)) && Evolves(v, sys.store, Apply(v, sys, e).store)
  {
    if e.client < |sys.clients| {
      StepKeeps(v, sys.store, sys.clients[e.client], e.input);
      var next := Apply(v, sys, e);
      forall i | 0 <= i < |next.clients| ensures ClientOk(v, next.store, next.clients[i]) {
        if i != e.client { ClientKept(v, sys.store, next.store, sys.clients[i]); }
      }
    } else {
      Still(v, sys.store);
    }
  }

  lemma InitialInv(v: Service, sys: System)
    requires Lawful(v.rules) && Initial(sys)
    ensures Inv(v, sys)
  {
  }

  lemma {:induction false} RunInv(v: Service, sys: System, events: seq<Event>)
    requires Inv(v, sys)
    ensures Inv(v, Run(v, sys, events))
    decreases |events|
  {
    if events != [] {
      ApplyKeeps(v, sys, events[0]);
      RunInv(v, Apply(v, sys, events[0]), events[1..]);
    }
  }

  /** Over a whole run no stored field ever changes once set, and the observed time never decreases. */
  lemma {:induction false} RunEvolves(v: Service, sys: System, events: seq<Event>)
    requires Inv(v, sys)
    ensures Evolves(v, sys.store, Run(v, sys, events).store)
    decreases |events|
  {
    if events == [] {
      Still(v, sys.store);
    } else {
      ApplyKeeps(v, sys, events[0]);
      RunEvolves(v, Apply(v, sys, events[0]), events[1..]);
      EvolvesTransitive(v, sys.store, Apply(v, sys, events[0]).store, Run(v, sys, events).store);
    }
  }

  /** Successful clients of one campaign run agree: on job, plan, source and intent always, on the
      review once both returned one, on the identity once both returned one. */
  lemma Agreement(v: Service, init: System, events: seq<Event>, i: nat, j: nat)
    requires Lawful(v.rules) && Initial(init)
    requires i < |Run(v, init, events).clients| && j < |Run(v, init, events).clients|
    ensures
      var a, b := Run(v, init, events).clients[i], Run(v, init, events).clients[j];
      a.Done? && b.Done? && KeyOfBase(a.record.base) == KeyOfBase(b.record.base) ==>
        && a.record.base == b.record.base
        && (!a.record.Prepared? && !b.record.Prepared? ==> a.record.review == b.record.review)
        && (a.record.Retained? && b.record.Retained? ==> a.record == b.record)
        && Answers(a.task, a.record)
  {
    InitialInv(v, init);
    RunInv(v, init, events);
    var end := Run(v, init, events);
    assert ClientOk(v, end.store, end.clients[i]) && ClientOk(v, end.store, end.clients[j]);
  }

  /** No genuine client ever reports a corrupt or foreign store. */
  lemma NeverCorrupt(v: Service, init: System, events: seq<Event>, i: nat)
    requires Lawful(v.rules) && Initial(init) && i < |Run(v, init, events).clients|
    ensures Run(v, init, events).clients[i] != Failed(StoreCorrupt)
    ensures Run(v, init, events).clients[i] != Failed(StoreMismatch)
  {
    InitialInv(v, init);
    RunInv(v, init, events);
    var end := Run(v, init, events);
    assert ClientOk(v, end.store, end.clients[i]);
  }

  /** A reviewer that loses the swap goes on exactly when the winner stored the same review. */
  lemma LosingReviewer(v: Service, sys: System, i: nat, input: Input)
    requires Inv(v, sys) && i < |sys.clients| && sys.clients[i].ReviewReadback? && !sys.clients[i].committed
    ensures
      var c := sys.clients[i];
      var winner := RecordAt(v, sys.store, KeyOfBase(c.previous.base));
      && winner.Some? && !winner.value.Prepared?
      && Step(v, sys.store, c, input) ==
           (sys.store, if winner.value.review == c.next.review then ReviewCheckActual(c.task, winner.value) else Failed(JobConflict))
  {
    var c := sys.clients[i];
    assert ClientOk(v, sys.store, c);
    ReadGenuine(v, sys.store, KeyOfBase(c.previous.base));
  }

  /** A preparer that finds another job inserted goes on exactly when that asks for the same source,
      subject and expiry. */
  lemma LosingPreparer(v: Service, sys: System, i: nat, input: Input)
    requires Inv(v, sys) && i < |sys.clients| && sys.clients[i].PrepareReadback? && !sys.clients[i].inserted
    ensures
      var c := sys.clients[i];
      var winner := RecordAt(v, sys.store, KeyOfBase(c.candidate.base));
      && winner.Some?
      && Step(v, sys.store, c, input) == (sys.store,
           if winner.value.base.source == c.intent.source && winner.value.base.plan.subject == c.intent.subject
             && winner.value.base.plan.expiresAt == c.intent.expiresAt
           then PrepareCheckWinner(c.intent, winner.value) else Failed(JobConflict))
  {
    var c := sys.clients[i];
    assert ClientOk(v, sys.store, c);
    ReadGenuine(v, sys.store, KeyOfBase(c.candidate.base));
  }

  /** One whose insert went through always goes on. */
  lemma WinningPreparer(v: Service, sys: System, i: nat, input: Input)
    requires Inv(v, sys) && i < |sys.clients| && sys.clients[i].PrepareReadback? && sys.clients[i].inserted
    ensures
      var c := sys.clients[i];
      var stored := RecordAt(v, sys.store, KeyOfBase(c.candidate.base));
      stored.Some? && stored.value.base == c.candidate.base
      && Step(v, sys.store, c, input) == (sys.store, PrepareCheckWinner(c.intent, stored.value))
  {
    var c := sys.clients[i];
    assert ClientOk(v, sys.store, c);
    ReadGenuine(v, sys.store, KeyOfBase(c.candidate.base));
  }

  /** An acquirer goes on exactly when what is stored is its candidate, which is always so when its
      swap went through. */
  lemma AcquirerReads(v: Service, sys: System, i: nat, input: Input)
    requires Inv(v, sys) && i < |sys.clients| && sys.clients[i].AcquireReadback?
    ensures
      var c := sys.clients[i];
      var stored := RecordAt(v, sys.store, KeyOfBase(c.candidate.base));
      && stored.Some? && (c.committed ==> stored.value == c.candidate)
      && Step(v, sys.store, c, input) ==
           (sys.store, if stored.value == c.candidate then AcquireCheck(c.task, c.snapshot, stored.value) else Failed(JobConflict))
  {
    var c := sys.clients[i];
    assert ClientOk(v, sys.store, c);
    var k := KeyOfBase(c.candidate.base);
    ReadGenuine(v, sys.store, k);
    RowDecodes(v, c.candidate);
    RowDecodes(v, RecordAt(v, sys.store, k).value);
  }

  /** A reacquirer always finds the record that it read. */
  lemma ReacquirerReads(v: Service, sys: System, i: nat, input: Input)
    requires Inv(v, sys) && i < |sys.clients| && sys.clients[i].AcquireReread?
    ensures
      var c := sys.clients[i];
      Step(v, sys.store, c, input) == (sys.store, AcquireCheck(c.task, c.snapshot, c.snapshot))
  {
    var c := sys.clients[i];
    assert ClientOk(v, sys.store, c);
    ReadGenuine(v, sys.store, c.task.key);
  }

  /** A client that succeeds does so in a step before which its record was already stored, and in
      which it took a sample, no earlier than any time ever observed, that lies inside the
      record's validity. */
  lemma ReturnsCurrent(v: Service, sys: System, i: nat, input: Input)
    requires Inv(v, sys) && i < |sys.clients| && !sys.clients[i].Done?
    requires Step(v, sys.store, sys.clients[i], input).1.Done?
    ensures
      var record := Step(v, sys.store, sys.clients[i], input).1.record;
      && Below(v, sys.store, record) && Proper(sys.store, record, input)
      && input.second.Some? && InWindow(record, input.second.value)
  {
    assert ClientOk(v, sys.store, sys.clients[i]);
    LastStep(v, sys.store, sys.clients[i], input);
    CurrentExactly(Step(v, sys.store, sys.clients[i], input).1.record, input.second);
  }

  // The steps that end well are the last checks.
  lemma LastStep(v: Service, s: Store, c: Client, input: Input)
    requires ClientOk(v, s, c) && !c.Done? && Step(v, s, c, input).1.Done?
    ensures Below(v, s, Step(v, s, c, input).1.record) && Proper(s, Step(v, s, c, input).1.record, input)
  {
    match c
    case PrepareCheckExisting(intent, existing) => CheckTimed(s, existing, input, Done(Prepare(intent), existing));
    case PrepareCheckWinner(intent, winner) => CheckTimed(s, winner, input, Done(Prepare(intent), winner));
    case ReviewCheckExisting(task, previous) => CheckTimed(s, previous, input, Done(task, previous));
    case ReviewCheckActual(task, actual) => CheckTimed(s, actual, input, Done(task, actual));
    case AcquireCheck(task, snapshot, actual) => FinishTimed(s, snapshot, actual, input, Done(task, actual));
    case PrepareCheckCandidate(intent, candidate) => CheckTimed(s, candidate, input, PrepareInsert(intent, candidate));
    case ReviewCheckNext(task, previous, next) => CheckTimed(s, next, input, ReviewSwap(task, previous, next));
    case _ =>
  }
}

/** One evidence acquisition over its deadline (runner-evidence-core.ts). */
module EvidenceAcquire {
  import opened Wrappers
  import opened JobRecord
  import opened EvidenceDeadline

  /** The first wall limit, from the first reading on. */
  const BUDGET_WALL_MS := 10000

  datatype Failure =
    | Expired | ContextInvalid | IdentityChanged | TrustUnavailable | EvidenceUnavailable | EvidenceInvalid

  /** A selected signing key: its trust digest and how long it is trusted. */
  datatype Key = Key(trustDigest: string, validUntil: int)

  /** What the two dependencies answer, and whether the timer fires while they are awaited. */
  datatype Answers = Answers(
    firstKey: Option<Key>, envelope: Option<string>, freshKey: Option<Key>,
    firstLate: bool, envelopeLate: bool, freshLate: bool)

  /** `verifyPublicationRunnerAttestation` at a wall time: the digests it retains. */
  type Verifier = (string, Review, Key, int) -> Option<string>

  /** The injected clock, one reading after another. */
  class Clock {
    const at: nat -> Reading
    var looks: nat

    constructor (at: nat -> Reading)
      ensures this.at == at && looks == 0
    {
      this.at, looks := at, 0;
    }

    method Look() returns (r: Reading)
      modifies this`looks
      ensures r == at(old(looks)) && looks == old(looks) + 1
    {
      r := at(looks);
      looks := looks + 1;
    }
  }

  /** The timeline of a context as `validateRunnerEvidenceContext` wants it; an expired one is told apart. */
  predicate ContextTimely(c: Review, now: int) {
    && IsTimestamp(now) && IsTimestamp(c.completedAt)
    && c.plan.createdAt <= c.completedAt <= now && c.plan.createdAt <= now
  }

  predicate ContextCurrent(c: Review, now: int) {
    ContextTimely(c, now) && now < c.plan.expiresAt && now < c.completedAt + REVIEW_TTL_MS
  }

  /** The latest moment the identity of this context and key may be used. */
  function Expiry(c: Review, key: Key): int {
    Min(Min(c.completedAt + REVIEW_TTL_MS, c.plan.expiresAt), key.validUntil)
  }

  /** The expiry is the earliest of ten minutes after the preview, the plan's end and the key's end. */
  predicate ExpiresFirst(expiry: int, c: Review, key: Key) {
    && expiry <= c.completedAt + 600000 && expiry <= c.plan.expiresAt && expiry <= key.validUntil
    && (expiry == c.completedAt + 600000 || expiry == c.plan.expiresAt || expiry == key.validUntil)
  }

  /** The identity of this context under this key, with this evidence. */
  predicate IdentityFor(rules: Rules, c: Review, key: Key, evidence: string, identity: Identity) {
    && identity.jobId == c.plan.jobId && identity.planDigest == rules.planDigest(c.plan)
    && identity.contextDigest == rules.contextDigest(c) && identity.evidence == evidence
    && ExpiresFirst(identity.expiresAt, c, key)
  }

  /** The identity is determined by this. */
  lemma IdentityIs(rules: Rules, c: Review, key: Key, evidence: string, identity: Identity)
    ensures IdentityFor(rules, c, key, evidence, identity) <==> identity == NewIdentity(rules, c, key, evidence)
  {
  }

  /** No operation reopens a deadline, moves its time back or its expiry further away. */
  twostate predicate Onward(d: Deadline, clock: Clock)
    reads d, clock
  {
    && d.Valid() && d.closed == old(d.closed)
    && old(d.lastWall) <= d.lastWall && old(clock.looks) <= clock.looks
    && d.wallExpiry <= old(d.wallExpiry)
  }

  /** The deadline is live and the clock's last reading was its last check. */
  predicate JustChecked(d: Deadline, clock: Clock)
    reads d, clock
  {
    && d.Valid() && d.Live() && clock.looks > 0
    && clock.at(clock.looks - 1).wall == Some(d.lastWall) && clock.at(clock.looks - 1).monotonic == Some(d.lastMonotonic)
  }

  predicate Usable(r: Reading) { r.wall.Some? && r.monotonic.Some? }

  /** The clock runs forward, on the wall from lo to hi and never past the monotonic end. */
  ghost predicate Runs(clock: Clock, lo: int, hi: int, end: real) {
    && (forall n: nat :: Usable(clock.at(n)) && lo <= clock.at(n).wall.value <= hi && clock.at(n).monotonic.value <= end)
    && forall m: nat, n: nat :: m <= n ==>
         clock.at(m).wall.value <= clock.at(n).wall.value && clock.at(m).monotonic.value <= clock.at(n).monotonic.value
  }

  /** The deadline is live and outlasts the run of the clock. */
  ghost predicate Going(d: Deadline, clock: Clock, lo: int, hi: int, end: real)
    reads d, clock
  {
    JustChecked(d, clock) && Runs(clock, lo, hi, end) && hi < d.wallExpiry && end < d.monotonicEnd
  }

  /** All moments of the run lie on one side of the limit. */
  predicate Apart(limit: int, lo: int, hi: int) { hi < limit || limit <= lo }

  method CheckNow(d: Deadline, clock: Clock, ghost lo: int, ghost hi: int, ghost end: real) returns (now: Option<int>)
    requires d.Valid()
    modifies d, clock
    ensures Onward(d, clock) && d.wallExpiry == old(d.wallExpiry)
    ensures now.Some? ==> JustChecked(d, clock) && now.value == d.lastWall
    ensures old(Going(d, clock, lo, hi, end)) ==> now.Some? && Going(d, clock, lo, hi, end)
  {
    var r := clock.Look();
    now := d.Check(r);
  }

  method CapAt(d: Deadline, clock: Clock, expiry: int, ghost lo: int, ghost hi: int, ghost end: real) returns (ok: bool)
    requires d.Valid()
    modifies d, clock
    ensures Onward(d, clock) && d.wallExpiry <= expiry
    ensures ok ==> JustChecked(d, clock)
    ensures old(Going(d, clock, lo, hi, end)) && hi < expiry ==> ok && Going(d, clock, lo, hi, end)
    ensures old(Going(d, clock, lo, hi, end)) && expiry <= lo ==> !ok
  {
    var r := clock.Look();
    ok := d.Cap(Some(expiry), r);
  }

  /** `run`, as DeadlineRun executes it: a check before, one when the operation starts and one
      when its value arrives. */
  method RunOperation<T>(d: Deadline, clock: Clock, answer: Option<T>, late: bool, ghost lo: int, ghost hi: int, ghost end: real)
    returns (r: Option<T>)
    requires d.Valid()
    modifies d, clock
    ensures Onward(d, clock) && d.wallExpiry == old(d.wallExpiry)
    ensures r.Some? ==> JustChecked(d, clock) && r == answer && !late
    ensures old(Going(d, clock, lo, hi, end)) && !late ==> Going(d, clock, lo, hi, end) && r == answer
    ensures old(Going(d, clock, lo, hi, end)) && late ==> r.None? && d.aborted
  {
    r := None;
    var before := CheckNow(d, clock, lo, hi, end);
    if before.None? { return; }
    var starting := CheckNow(d, clock, lo, hi, end);
    if starting.None? { return; }
    if late {
      d.Fire();
      return;
    }
    var arrived := CheckNow(d, clock, lo, hi, end);
    if arrived.Some? { r := answer; }
  }

  /** Everything a successful acquisition was bounded by. */
  ghost predicate FreshAt(c: Review, identity: Identity, firstKey: Key, freshKey: Key, retained: Option<Identity>,
                          first: Reading, start: Reading, last: Reading) {
    && first.wall.Some? && last.wall.Some? && last.wall.value < first.wall.value + 10000
    && start.wall.Some? && start.monotonic.Some? && last.monotonic.Some?
    && start.wall.value <= last.wall.value && last.monotonic.value < start.monotonic.value + 10000.0
    && ExpiresFirst(identity.expiresAt, c, freshKey) && last.wall.value < identity.expiresAt
    && c.plan.createdAt <= c.completedAt <= last.wall.value
    && last.wall.value < firstKey.validUntil
    && (retained.Some? ==> identity == retained.value)
  }

  /** What is wrong with an awaited key at this moment. */
  function KeyRefusal(key: Option<Key>, late: bool, now: int): Option<Failure> {
    if late then Some(Expired)
    else if key.None? then Some(TrustUnavailable)
    else if now >= key.value.validUntil then Some(Expired)
    else None
  }

  /** What is wrong with the answers at this moment: the first key, then the envelope, then the fresh key,
      which must be trusted alike. */
  function AnswersRefusal(a: Answers, now: int): Option<Failure> {
    if KeyRefusal(a.firstKey, a.firstLate, now).Some? then KeyRefusal(a.firstKey, a.firstLate, now)
    else if a.envelopeLate then Some(Expired)
    else if a.envelope.None? then Some(EvidenceUnavailable)
    else if KeyRefusal(a.freshKey, a.freshLate, now).Some? then KeyRefusal(a.freshKey, a.freshLate, now)
    else if a.freshKey.value.trustDigest != a.firstKey.value.trustDigest then Some(TrustUnavailable)
    else None
  }

  predicate KeysApart(a: Answers, lo: int, hi: int) {
    && (a.firstKey.Some? ==> Apart(a.firstKey.value.validUntil, lo, hi))
    && (a.freshKey.Some? ==> Apart(a.freshKey.value.validUntil, lo, hi))
  }

  /** The result is this failure, or a success if there is none. */
  predicate Refuses<T>(r: Result<T, Failure>, refusal: Option<Failure>) {
    if refusal.Some? then r == Err(refusal.value) else r.Ok?
  }

  /** The awaited part: both keys and the envelope, each budgeted, each key capping the deadline. */
  method Gather(d: Deadline, clock: Clock, a: Answers, ghost lo: int, ghost hi: int, ghost end: real)
    returns (r: Result<(Key, string, Key), Failure>)
    requires d.Valid()
    modifies d, clock
    ensures Onward(d, clock)
    ensures r.Ok? ==> JustChecked(d, clock)
    ensures r.Ok? ==> a.firstKey == Some(r.value.0) && a.envelope == Some(r.value.1) && a.freshKey == Some(r.value.2)
    ensures r.Ok? ==> r.value.0.trustDigest == r.value.2.trustDigest
    ensures r.Ok? ==> d.wallExpiry <= r.value.0.validUntil && d.wallExpiry <= r.value.2.validUntil
    ensures old(Going(d, clock, lo, hi, end)) && KeysApart(a, lo, hi) && r.Ok? ==> Going(d, clock, lo, hi, end)
    ensures old(Going(d, clock, lo, hi, end)) && KeysApart(a, lo, hi) ==> Refuses(r, AnswersRefusal(a, lo))
  {
    r := Err(TrustUnavailable);
    var firstKey := RunOperation(d, clock, a.firstKey, a.firstLate, lo, hi, end);
    if firstKey.None? { return Err(if d.aborted then Expired else TrustUnavailable); }
    var capped := CapAt(d, clock, firstKey.value.validUntil, lo, hi, end);
    if !capped { return Err(Expired); }
    var envelope := RunOperation(d, clock, a.envelope, a.envelopeLate, lo, hi, end);
    if envelope.None? { return Err(if d.aborted then Expired else EvidenceUnavailable); }
    var freshKey := RunOperation(d, clock, a.freshKey, a.freshLate, lo, hi, end);
    if freshKey.None? { return Err(if d.aborted then Expired else TrustUnavailable); }
    capped := CapAt(d, clock, freshKey.value.validUntil, lo, hi, end);
    if !capped { return Err(Expired); }
    if freshKey.value.trustDigest == firstKey.value.trustDigest {
      r := Ok((firstKey.value, envelope.value, freshKey.value));
    }
  }

  /** The identity that a verification yields. */
  function NewIdentity(rules: Rules, c: Review, key: Key, evidence: string): Identity {
    Identity(c.plan.jobId, rules.planDigest(c.plan), rules.contextDigest(c), Expiry(c, key), evidence)
  }

  /** The attestation was verified at some time between two checks of the deadline. */
  ghost predicate VerifiedBetween(verify: Verifier, envelope: string, c: Review, key: Key, evidence: string, from: int, until: int) {
    exists now :: from <= now <= until && verify(envelope, c, key, now) == Some(evidence)
  }

  /** What is wrong with the attestation at this moment: it does not verify, or not to the retained identity. */
  function EvidenceRefusal(rules: Rules, c: Review, retained: Option<Identity>, verify: Verifier, envelope: string, key: Key,
                           now: int): Option<Failure> {
    var evidence := verify(envelope, c, key, now);
    if evidence.None? then Some(EvidenceInvalid)
    else if retained.Some? && !IdentityFor(rules, c, key, evidence.value, retained.value) then Some(IdentityChanged)
    else None
  }

  /** The preview was completed after the plan was made, and before this moment. */
  predicate Sound(c: Review, now: int) {
    0 < c.completedAt && c.plan.createdAt <= c.completedAt <= now <= 8640000000000000
  }

  /** And neither the plan nor the preview has run out. */
  predicate Timely(c: Review, now: int) { Sound(c, now) && now < c.plan.expiresAt && now < c.completedAt + 600000 }

  /** The verifier gives one answer over the run. */
  ghost predicate Constant(verify: Verifier, envelope: string, c: Review, key: Key, lo: int, hi: int) {
    forall now :: lo <= now <= hi ==> verify(envelope, c, key, now) == verify(envelope, c, key, lo)
  }

  /** The synchronous end: verify, revalidate the context, compare and check once more. */
  method Conclude(rules: Rules, d: Deadline, clock: Clock, c: Review, retained: Option<Identity>, verify: Verifier,
                  firstKey: Key, envelope: string, freshKey: Key, ghost lo: int, ghost hi: int, ghost end: real)
    returns (r: Result<Identity, Failure>)
    requires d.Valid()
    modifies d, clock
    ensures Onward(d, clock) && d.wallExpiry == old(d.wallExpiry)
    ensures r.Ok? ==> JustChecked(d, clock) && (retained.Some? ==> r.value == retained.value)
    ensures r.Ok? ==> IdentityFor(rules, c, freshKey, r.value.evidence, r.value)
    ensures r.Ok? ==> c.plan.createdAt <= c.completedAt <= d.lastWall
    ensures r.Ok? ==> VerifiedBetween(verify, envelope, c, freshKey, r.value.evidence, old(d.lastWall), d.lastWall)
    ensures old(Going(d, clock, lo, hi, end)) && Timely(c, lo) && Timely(c, hi) && Constant(verify, envelope, c, freshKey, lo, hi) ==>
      Refuses(r, EvidenceRefusal(rules, c, retained, verify, envelope, freshKey, lo))
  {
    r := Err(Expired);
    var now := CheckNow(d, clock, lo, hi, end);
    if now.None? { return; }
    var verified := verify(envelope, c, freshKey, now.value);
    if verified.None? { return Err(EvidenceInvalid); }
    now := CheckNow(d, clock, lo, hi, end);
    if now.None? || !ContextCurrent(c, now.value) { return; }
    var identity := NewIdentity(rules, c, freshKey, verified.value);
    IdentityIs(rules, c, freshKey, verified.value, identity);
    if retained.Some? { IdentityIs(rules, c, freshKey, verified.value, retained.value); }
    if retained.Some? && retained.value != identity { return Err(IdentityChanged); }
    now := CheckNow(d, clock, lo, hi, end);
    if now.Some? { r := Ok(identity); }
  }

  /** What is wrong with the retained identity at this moment. */
  function RetainedRefusal(rules: Rules, c: Review, retained: Option<Identity>, now: int): Option<Failure> {
    if retained.None? then None
    else if now >= retained.value.expiresAt then Some(Expired)
    else if retained.value.contextDigest != rules.contextDigest(c) || retained.value.jobId != c.plan.jobId
      || retained.value.planDigest != rules.planDigest(c.plan) then Some(IdentityChanged)
    else None
  }

  /** Why an acquisition is refused at this moment; None if everything is in order. */
  function Refusal(rules: Rules, c: Review, retained: Option<Identity>, a: Answers, verify: Verifier, now: int): Option<Failure> {
    if !Sound(c, now) then Some(ContextInvalid)
    else if !Timely(c, now) then Some(Expired)
    else if RetainedRefusal(rules, c, retained, now).Some? then RetainedRefusal(rules, c, retained, now)
    else if AnswersRefusal(a, now).Some? then AnswersRefusal(a, now)
    else EvidenceRefusal(rules, c, retained, verify, a.envelope.value, a.freshKey.value, now)
  }

  /** No limit is reached and no answer of the verifier changes while the clock runs from lo to hi. */
  ghost predicate Unbroken(c: Review, retained: Option<Identity>, a: Answers, verify: Verifier, lo: int, hi: int) {
    && Apart(c.completedAt, lo, hi) && Apart(c.plan.expiresAt, lo, hi) && Apart(c.completedAt + 600000, lo, hi)
    && Apart(8640000000000001, lo, hi) && (retained.Some? ==> Apart(retained.value.expiresAt, lo, hi)) && KeysApart(a, lo, hi)
    && (a.envelope.Some? && a.freshKey.Some? ==> Constant(verify, a.envelope.value, c, a.freshKey.value, lo, hi))
  }

  /** The clock runs forward for less than ten seconds from here on. */
  ghost predicate WithinBudget(clock: Clock, from: nat, lo: int, hi: int, end: real) {
    && Runs(clock, lo, hi, end)
    && hi < clock.at(from).wall.value + 10000 && end < clock.at(from + 1).monotonic.value + 10000.0
  }

  /** The deadline of one acquisition: ten seconds from here on, on both clocks. */
  method Open(clock: Clock, ghost lo: int, ghost hi: int, ghost end: real) returns (d: Deadline)
    modifies clock
    ensures fresh(d) && d.Valid() && !d.closed && clock.looks == old(clock.looks) + 2
    ensures !d.aborted ==>
      && clock.at(old(clock.looks)).wall.Some? && d.wallExpiry == clock.at(old(clock.looks)).wall.value + 10000
      && JustChecked(d, clock) && d.monotonicEnd == d.lastMonotonic + 10000.0
    ensures WithinBudget(clock, old(clock.looks), lo, hi, end) ==> Going(d, clock, lo, hi, end)
  {
    var first := clock.Look();
    var start := clock.Look();
    d := new Deadline(start, if first.wall.Some? then Some(first.wall.value + BUDGET_WALL_MS) else None);
  }

  /** `acquire`. A success was checked last at a reading inside every limit ever applied, less than
      ten monotonic seconds after the start, with the identity's expiry still ahead. */
  method Acquire(rules: Rules, clock: Clock, c: Review, retained: Option<Identity>, a: Answers, verify: Verifier,
                 ghost lo: int, ghost hi: int, ghost end: real)
    returns (r: Result<Identity, Failure>)
    modifies clock
    ensures old(clock.looks) <= clock.looks
    ensures r.Ok? ==> clock.looks > old(clock.looks) + 1 && a.firstKey.Some? && a.freshKey.Some? && a.envelope.Some?
    ensures r.Ok? ==>
      FreshAt(c, r.value, a.firstKey.value, a.freshKey.value, retained,
              clock.at(old(clock.looks)), clock.at(old(clock.looks) + 1), clock.at(clock.looks - 1))
    ensures r.Ok? ==> IdentityFor(rules, c, a.freshKey.value, r.value.evidence, r.value)
    ensures r.Ok? ==>
      VerifiedBetween(verify, a.envelope.value, c, a.freshKey.value, r.value.evidence,
                      clock.at(old(clock.looks) + 1).wall.value, clock.at(clock.looks - 1).wall.value)
    ensures r.Ok? ==> a.firstKey.value.trustDigest == a.freshKey.value.trustDigest
    ensures WithinBudget(clock, old(clock.looks), lo, hi, end) && Unbroken(c, retained, a, verify, lo, hi) ==>
      Refuses(r, Refusal(rules, c, retained, a, verify, lo))
  {
    r := Err(Expired);
    var d := Open(clock, lo, hi, end);
    if !d.aborted {
      r := AcquireWithin(rules, d, clock, c, retained, a, verify, lo, hi, end);
    }
    d.Close();
  }

  /** The part over a live deadline. */
  method AcquireWithin(rules: Rules, d: Deadline, clock: Clock, c: Review, retained: Option<Identity>, a: Answers,
                       verify: Verifier, ghost lo: int, ghost hi: int, ghost end: real)
    returns (r: Result<Identity, Failure>)
    requires d.Valid()
    modifies d, clock
    ensures Onward(d, clock)
    ensures r.Ok? ==> JustChecked(d, clock) && a.firstKey.Some? && a.freshKey.Some? && a.envelope.Some?
    ensures r.Ok? ==> d.lastWall < r.value.expiresAt && d.lastWall < a.firstKey.value.validUntil
    ensures r.Ok? ==> IdentityFor(rules, c, a.freshKey.value, r.value.evidence, r.value)
    ensures r.Ok? ==> (retained.Some? ==> r.value == retained.value) && c.plan.createdAt <= c.completedAt <= d.lastWall
    ensures r.Ok? ==> VerifiedBetween(verify, a.envelope.value, c, a.freshKey.value, r.value.evidence, old(d.lastWall), d.lastWall)
    ensures r.Ok? ==> a.firstKey.value.trustDigest == a.freshKey.value.trustDigest
    ensures old(Going(d, clock, lo, hi, end)) && Unbroken(c, retained, a, verify, lo, hi) ==>
      Refuses(r, Refusal(rules, c, retained, a, verify, lo))
  {
    r := Err(Expired);
    var now := CheckNow(d, clock, lo, hi, end);
    if now.None? { return; }
    if !ContextTimely(c, now.value) { return Err(ContextInvalid); }
    if !ContextCurrent(c, now.value) { return; }
    var capped := CapAt(d, clock, Min(c.completedAt + REVIEW_TTL_MS, c.plan.expiresAt), lo, hi, end);
    if !capped { return; }
    if retained.Some? {
      capped := CapAt(d, clock, retained.value.expiresAt, lo, hi, end);
      if !capped { return; }
      if retained.value.contextDigest != rules.contextDigest(c) || retained.value.jobId != c.plan.jobId
        || retained.value.planDigest != rules.planDigest(c.plan) {
        return Err(IdentityChanged);
      }
    }
    var gathered := Gather(d, clock, a, lo, hi, end);
    if gathered.Err? { return Err(gathered.error); }
    var (firstKey, envelope, freshKey) := gathered.value;
    r := Conclude(rules, d, clock, c, retained, verify, firstKey, envelope, freshKey, lo, hi, end);
  }
}

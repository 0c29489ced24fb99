/** Runner-job records and their pure transitions (runner-job-record-contract.ts). */
module JobRecord {
  import opened Wrappers

  const MAX_TIMESTAMP := 8640000000000000
  const REVIEW_TTL_MS := 600000
  const PLAN_MIN_TTL_MS := 60000
  const PLAN_MAX_TTL_MS := 900000

  /** The failure codes. RecordOversized is an append whose record outgrows the byte bound, which
      the program reports as `store_corrupt` too. */
  datatype Code =
    | InputInvalid | JobMissing | JobConflict | JobExpired | ClockRollback
    | StoreMismatch | StoreCorrupt | StoreFull | StoreUnavailable | RecordOversized

  /** The subject stands for everything else a plan binds: pilot, inputs, image, egress. */
  datatype Plan = Plan(jobId: string, createdAt: int, expiresAt: int, subject: string)

  datatype Base = Base(storeId: string, campaignId: string, runId: string, source: string, plan: Plan)

  /** `RunnerEvidenceContext`. */
  datatype Review = Review(campaignId: string, runId: string, source: string, plan: Plan, output: string, completedAt: int)

  /** `RetainedRunnerEvidenceIdentity`; evidence stands for the digests of the attestation. */
  datatype Identity = Identity(jobId: string, planDigest: string, contextDigest: string, expiresAt: int, evidence: string)

  datatype Record =
    | Prepared(base: Base)
    | Reviewed(base: Base, review: Review)
    | Retained(base: Base, review: Review, identity: Identity)

  /** What a preparation asks for, apart from its time and its random job id. */
  datatype Intent = Intent(campaignId: string, runId: string, source: string, subject: string, expiresAt: int)

  /** The checks and digests this model does not look into, the record codec, and whether the
      canonical text of a record is within MAX_RECORD_BYTES. */
  datatype Rules = Rules(
    planDigest: Plan -> string,
    contextDigest: Review -> string,
    intentDigest: Intent -> string,
    recordDigest: Record -> string,
    bound: (string, string) -> bool,
    fits: Record -> bool,
    encode: Record -> string,
    decode: string -> Option<Record>)

  predicate IsTimestamp(n: int) { 0 < n <= MAX_TIMESTAMP }

  predicate LifetimeOk(createdAt: int, expiresAt: int) {
    IsTimestamp(createdAt) && IsTimestamp(expiresAt) && PLAN_MIN_TTL_MS <= expiresAt - createdAt <= PLAN_MAX_TTL_MS
  }

  function IntentOf(base: Base): Intent {
    Intent(base.campaignId, base.runId, base.source, base.plan.subject, base.plan.expiresAt)
  }

  function RevisionOf(r: Record): int {
    match r
    case Prepared(_) => 1
    case Reviewed(_, _) => 2
    case Retained(_, _, _) => 3
  }

  // The conditions of decodeJobRecord

  predicate ValidBase(rules: Rules, base: Base) {
    LifetimeOk(base.plan.createdAt, base.plan.expiresAt) && rules.bound(base.source, base.plan.subject)
  }

  predicate ReviewBound(base: Base, review: Review) {
    && review.campaignId == base.campaignId && review.runId == base.runId
    && review.source == base.source && review.plan == base.plan
    && IsTimestamp(review.completedAt) && base.plan.createdAt <= review.completedAt < base.plan.expiresAt
  }

  predicate IdentityBound(rules: Rules, base: Base, review: Review, identity: Identity) {
    && identity.jobId == base.plan.jobId && identity.planDigest == rules.planDigest(base.plan)
    && identity.contextDigest == rules.contextDigest(review)
    && IsTimestamp(identity.expiresAt) && identity.expiresAt <= base.plan.expiresAt
    && identity.expiresAt <= review.completedAt + REVIEW_TTL_MS
  }

  predicate Valid(rules: Rules, r: Record) {
    && ValidBase(rules, r.base) && rules.fits(r)
    && (!r.Prepared? ==> ReviewBound(r.base, r.review))
    && (r.Retained? ==> IdentityBound(rules, r.base, r.review, r.identity))
  }

  /** The codec accepts exactly the canonical texts of the valid records within the bound: the property
      CanonicalParser proves of the JSON layer. */
  ghost predicate Lawful(rules: Rules) {
    forall t, r :: rules.decode(t) == Some(r) <==> Valid(rules, r) && rules.encode(r) == t
  }

  // Clock samples: None is a number that is no safe integer.

  type Sample = Option<int>

  function Min(a: int, b: int): int { if a < b then a else b }

  function ExpiryOf(r: Record): int {
    var reviewed := if r.Prepared? then r.base.plan.expiresAt else Min(r.base.plan.expiresAt, r.review.completedAt + REVIEW_TTL_MS);
    if r.Retained? then Min(reviewed, r.identity.expiresAt) else reviewed
  }

  /** `assertJobCurrent`: the error it throws, if any. */
  function NotCurrent(r: Record, now: Sample): Option<Code> {
    if now.None? || !IsTimestamp(now.value) then Some(InputInvalid)
    else if now.value < r.base.plan.createdAt || (!r.Prepared? && now.value < r.review.completedAt) then Some(ClockRollback)
    else if now.value >= ExpiryOf(r) then Some(JobExpired)
    else None
  }

  predicate Current(r: Record, now: Sample) { NotCurrent(r, now).None? }

  /** `validateRunnerEvidenceContext`; every failure becomes input_invalid. */
  function MakeReview(rules: Rules, base: Base, output: string, completedAt: int, now: Sample): Option<Review> {
    if now.None? || !IsTimestamp(now.value) || !IsTimestamp(completedAt) then None
    else if completedAt < base.plan.createdAt || completedAt > now.value || now.value < base.plan.createdAt then None
    else if !rules.bound(base.source, base.plan.subject) then None
    else if now.value >= base.plan.expiresAt || now.value >= completedAt + REVIEW_TTL_MS then None
    else Some(Review(base.campaignId, base.runId, base.source, base.plan, output, completedAt))
  }

  /** The end of `withNextRevision`: the decoder refuses a text over the bound. */
  function Grown(rules: Rules, r: Record): Result<Record, Code> { if rules.fits(r) then Ok(r) else Err(RecordOversized) }

  function AppendReview(rules: Rules, r: Record, output: string, completedAt: int, now: Sample): (result: Result<Record, Code>) {
    if !Current(r, now) then Err(NotCurrent(r, now).value)
    else if r.Retained? then Err(JobConflict)
    else
      var review := MakeReview(rules, r.base, output, completedAt, now);
      if review.None? then Err(InputInvalid)
      else if r.Reviewed? then if r.review == review.value then Ok(r) else Err(JobConflict)
      else Grown(rules, Reviewed(r.base, review.value))
  }

  function AppendIdentity(rules: Rules, r: Record, identity: Identity, now: Sample): (result: Result<Record, Code>) {
    if !Current(r, now) then Err(NotCurrent(r, now).value)
    else if r.Prepared? then Err(JobConflict)
    else if !IdentityBound(rules, r.base, r.review, identity) || identity.expiresAt <= now.value then Err(JobConflict)
    else if r.Retained? then if r.identity == identity then Ok(r) else Err(JobConflict)
    else Grown(rules, Retained(r.base, r.review, identity))
  }

  // When they succeed

  /** The time lies inside every limit of the record. */
  predicate InWindow(r: Record, t: int) {
    && 0 < t <= 8640000000000000 && r.base.plan.createdAt <= t < r.base.plan.expiresAt
    && (!r.Prepared? ==> r.review.completedAt <= t < r.review.completedAt + 600000)
    && (r.Retained? ==> t < r.identity.expiresAt)
  }

  /** Otherwise it is no time at all, or too early, or too late. */
  lemma CurrentExactly(r: Record, now: Sample)
    ensures Current(r, now) <==> now.Some? && InWindow(r, now.value)
    ensures NotCurrent(r, now) == Some(InputInvalid) <==> now.None? || !(0 < now.value <= 8640000000000000)
    ensures NotCurrent(r, now) == Some(ClockRollback) <==>
      && now.Some? && 0 < now.value <= 8640000000000000
      && (now.value < r.base.plan.createdAt || (!r.Prepared? && now.value < r.review.completedAt))
    ensures NotCurrent(r, now).Some? ==> NotCurrent(r, now).value in {InputInvalid, ClockRollback, JobExpired}
  {
  }

  /** The context that is reviewed, with this output. */
  function ContextOf(base: Base, output: string, completedAt: int): Review {
    Review(base.campaignId, base.runId, base.source, base.plan, output, completedAt)
  }

  /** An append stores exactly the review that is asked for, over a valid record inside its window. */
  lemma ReviewExactly(rules: Rules, r: Record, output: string, completedAt: int, now: Sample, next: Record)
    requires ValidBase(rules, r.base)
    ensures AppendReview(rules, r, output, completedAt, now) == Ok(next) <==>
      && now.Some? && InWindow(r, now.value) && !r.Retained?
      && r.base.plan.createdAt <= completedAt <= now.value < completedAt + 600000
      && (if r.Prepared? then next == Reviewed(r.base, ContextOf(r.base, output, completedAt)) && rules.fits(next)
          else next == r && r.review == ContextOf(r.base, output, completedAt))
    ensures now.Some? && InWindow(r, now.value) && AppendReview(rules, r, output, completedAt, now).Err? ==>
      AppendReview(rules, r, output, completedAt, now).error ==
        if r.Retained? then JobConflict
        else if !(r.base.plan.createdAt <= completedAt <= now.value < completedAt + 600000) then InputInvalid
        else if r.Reviewed? then JobConflict
        else RecordOversized
  {
    CurrentExactly(r, now);
  }

  /** And exactly the identity that is given, if it is that of this job and review and unexpired. */
  lemma IdentityExactly(rules: Rules, r: Record, identity: Identity, now: Sample, next: Record)
    ensures AppendIdentity(rules, r, identity, now) == Ok(next) <==>
      && now.Some? && InWindow(r, now.value) && !r.Prepared?
      && identity.jobId == r.base.plan.jobId && identity.planDigest == rules.planDigest(r.base.plan)
      && identity.contextDigest == rules.contextDigest(r.review)
      && now.value < identity.expiresAt <= 8640000000000000
      && identity.expiresAt <= r.base.plan.expiresAt && identity.expiresAt <= r.review.completedAt + 600000
      && (if r.Reviewed? then next == Retained(r.base, r.review, identity) && rules.fits(next)
          else next == r && r.identity == identity)
    ensures now.Some? && InWindow(r, now.value) && AppendIdentity(rules, r, identity, now).Err? ==>
      AppendIdentity(rules, r, identity, now).error in {JobConflict, RecordOversized}
  {
    CurrentExactly(r, now);
  }

  /** b came from a by appending: the prepared fields, the review and the identity never change. */
  predicate Extends(a: Record, b: Record) {
    && a.base == b.base
    && (!a.Prepared? ==> !b.Prepared? && a.review == b.review)
    && (a.Retained? ==> a == b)
  }

  lemma ExtendsTransitive(a: Record, b: Record, c: Record)
    requires Extends(a, b) && Extends(b, c)
    ensures Extends(a, c)
  {
  }

  /** Two records below one record, at the same revision, are the same record. */
  lemma SameRevisionSame(a: Record, b: Record, c: Record)
    requires Extends(a, c) && Extends(b, c) && RevisionOf(a) == RevisionOf(b)
    ensures a == b
  {
  }

  /** A successful append keeps validity, extends the record, and is current at the time it was given. */
  lemma ReviewAppends(rules: Rules, r: Record, output: string, completedAt: int, now: Sample)
    requires Valid(rules, r) && AppendReview(rules, r, output, completedAt, now).Ok?
    ensures
      var next := AppendReview(rules, r, output, completedAt, now).value;
      && Valid(rules, next) && Extends(r, next) && next.Reviewed?
      && next.review.output == output && next.review.completedAt == completedAt
      && (next == r || RevisionOf(next) == RevisionOf(r) + 1)
      && Current(next, now)
  {
  }

  lemma IdentityAppends(rules: Rules, r: Record, identity: Identity, now: Sample)
    requires Valid(rules, r) && AppendIdentity(rules, r, identity, now).Ok?
    ensures
      var next := AppendIdentity(rules, r, identity, now).value;
      && Valid(rules, next) && Extends(r, next) && next.Retained? && next.identity == identity
      && (next == r || RevisionOf(next) == RevisionOf(r) + 1)
      && Current(next, now)
  {
  }

  /** A later record is current only while every earlier one is. */
  lemma CurrentBackwards(a: Record, b: Record, now: Sample)
    requires Extends(a, b) && Current(b, now)
    ensures Current(a, now)
  {
  }
}

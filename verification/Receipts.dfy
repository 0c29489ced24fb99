/** One-shot console receipts (approval.ts): previews are exchanged for at most one approval. */
module Receipts {
  import opened Wrappers

  const TOKEN_TTL_MS := 600000
  const MAX_OWNER_ENVELOPE_BYTES := 65536
  const MAX_TIMESTAMP := 9007199254740991

  datatype Preview = Preview(
    version: int, campaignId: string, manifestDigest: string, repository: string, expiresAt: int)

  datatype Challenge = Challenge(
    campaignId: string, manifestDigest: string, repository: string,
    previewReceiptDigest: string, ownerChallengeDigest: string, expiresAt: int)

  datatype Approval = Approval(
    campaignId: string, manifestDigest: string, repository: string,
    ownerChallengeDigest: string, ownerAuthorizationDigest: string, expiresAt: int)

  /** What tokens authenticate: the payload of each text whose seal is genuine and whose fields are
      well formed. The store is keyed by the digest of the text. */
  datatype Seals = Seals(
    preview: string -> Option<Preview>,
    challenge: string -> Option<Challenge>,
    sha256: string -> string,
    localBindings: (Preview, int) -> bool)

  type Consumed = map<string, int>

  /** What a request is about: the campaign and the manifest it names. */
  datatype Subject = Subject(campaignId: string, manifestDigest: string)

  /** `validateOwnerAuthorizationEnvelope`, counting bytes. */
  predicate EnvelopeOk(envelope: string) { 0 < |envelope| <= MAX_OWNER_ENVELOPE_BYTES }

  predicate IsTimestamp(n: int) { 0 <= n <= MAX_TIMESTAMP }

  function Lesser(a: int, b: int): int { if a < b then a else b }

  /** Entries are dropped once the receipt they stand for has expired. */
  function Pruned(consumed: Consumed, now: int): Consumed {
    map k | k in consumed && consumed[k] > now :: consumed[k]
  }

  /** `verifyPreviewReceipt`: the store afterwards, and the receipt if it is accepted. */
  function VerifyPreview(seals: Seals, m: Consumed, text: string, subject: Subject, now: int): (Consumed, Option<Preview>) {
    var payload := seals.preview(text);
    if payload.None? || Subject(payload.value.campaignId, payload.value.manifestDigest) != subject || !IsTimestamp(now)
      || (payload.value.version == 2 && !seals.localBindings(payload.value, now)) || payload.value.expiresAt <= now
    then (m, None)
    else
      var kept := Pruned(m, now);
      (kept, if seals.sha256(text) in kept then None else payload)
  }

  /** `createOwnerChallengeReceipt`. */
  function CreateChallenge(seals: Seals, m: Consumed, text: string, subject: Subject, digest: string, expiresAt: int, now: int)
    : (Consumed, Option<Challenge>)
  {
    var (kept, preview) := VerifyPreview(seals, m, text, subject, now);
    if preview.None? || preview.value.version != 1 || !IsTimestamp(expiresAt) || expiresAt <= now || expiresAt > preview.value.expiresAt
    then (kept, None)
    else (kept, Some(Challenge(subject.campaignId, subject.manifestDigest, preview.value.repository, seals.sha256(text), digest, expiresAt)))
  }

  /** `verifyOwnerChallengeReceipt`. */
  function VerifyChallenge(seals: Seals, m: Consumed, challengeText: string, text: string, subject: Subject, now: int)
    : (Consumed, Option<Challenge>)
  {
    var payload := seals.challenge(challengeText);
    if payload.None? || Subject(payload.value.campaignId, payload.value.manifestDigest) != subject || !IsTimestamp(now)
      || payload.value.expiresAt <= now
    then (m, None)
    else
      var (kept, preview) := VerifyPreview(seals, m, text, subject, now);
      if preview.None? || preview.value.version != 1 || payload.value.previewReceiptDigest != seals.sha256(text)
        || payload.value.repository != preview.value.repository || payload.value.expiresAt > preview.value.expiresAt
      then (kept, None)
      else (kept, payload)
  }

  /** `prepareOperatorApproval`: the exchange. */
  function PrepareApproval(seals: Seals, m: Consumed, challengeText: string, text: string, envelope: string, subject: Subject, now: int)
    : (Consumed, Option<Approval>)
  {
    var (m1, challenge) := VerifyChallenge(seals, m, challengeText, text, subject, now);
    if challenge.None? then (m1, None)
    else
      var (m2, preview) := VerifyPreview(seals, m1, text, subject, now);
      if preview.None? || !EnvelopeOk(envelope) then (m2, None)
      else
        var c := challenge.value;
        var approval := Approval(c.campaignId, c.manifestDigest, c.repository, c.ownerChallengeDigest,
                                 seals.sha256(envelope), Lesser(c.expiresAt, now + TOKEN_TTL_MS));
        if approval.expiresAt <= now then (m2, None)
        else (m2[seals.sha256(text) := preview.value.expiresAt], Some(approval))
  }

  /** The console process; its map is lost when it restarts. */
  class Console {
    const seals: Seals
    var consumed: Consumed

    constructor (seals: Seals)
      ensures this.seals == seals && consumed == map[]
    {
      this.seals, consumed := seals, map[];
    }

    /** The loop of `assertOneShotUnused`. */
    method Prune(now: int)
      modifies this`consumed
      ensures consumed == Pruned(old(consumed), now)
    {
      var left := consumed.Keys;
      while left != {}
        invariant left <= consumed.Keys <= old(consumed).Keys
        invariant forall k :: k in consumed ==> consumed[k] == old(consumed)[k] && (k !in left ==> consumed[k] > now)
        invariant forall k :: k in old(consumed) && k !in consumed ==> old(consumed)[k] <= now
        decreases |left|
      {
        var k :| k in left;
        left := left - {k};
        if consumed[k] <= now { consumed := consumed - {k}; }
      }
    }

    /** `assertOneShotUnused`: the key of an unused token. */
    method AssertUnused(text: string, now: int) returns (key: Option<string>)
      modifies this`consumed
      ensures consumed == Pruned(old(consumed), now)
      ensures key == if seals.sha256(text) in consumed then None else Some(seals.sha256(text))
    {
      Prune(now);
      key := if seals.sha256(text) in consumed then None else Some(seals.sha256(text));
    }

    method Preview(text: string, subject: Subject, now: int) returns (r: Option<Preview>)
      modifies this`consumed
      ensures (consumed, r) == VerifyPreview(seals, old(consumed), text, subject, now)
    {
      r := seals.preview(text);
      if r.None? || Subject(r.value.campaignId, r.value.manifestDigest) != subject || !IsTimestamp(now) { return None; }
      if r.value.version == 2 && !seals.localBindings(r.value, now) { return None; }
      if r.value.expiresAt <= now { return None; }
      var key := AssertUnused(text, now);
      if key.None? { r := None; }
    }

    method Challenge(challengeText: string, text: string, subject: Subject, now: int) returns (r: Option<Challenge>)
      modifies this`consumed
      ensures (consumed, r) == VerifyChallenge(seals, old(consumed), challengeText, text, subject, now)
    {
      r := seals.challenge(challengeText);
      if r.None? || Subject(r.value.campaignId, r.value.manifestDigest) != subject || !IsTimestamp(now) { return None; }
      if r.value.expiresAt <= now { return None; }
      var preview := Preview(text, subject, now);
      if preview.None? || preview.value.version != 1 { return None; }
      if r.value.previewReceiptDigest != seals.sha256(text) || r.value.repository != preview.value.repository
        || r.value.expiresAt > preview.value.expiresAt {
        return None;
      }
    }

    /** `prepareOperatorApproval`: verify the challenge, verify the preview, then consume it. */
    method Prepare(challengeText: string, text: string, envelope: string, subject: Subject, now: int)
      returns (r: Option<Approval>)
      modifies this`consumed
      ensures (consumed, r) == PrepareApproval(seals, old(consumed), challengeText, text, envelope, subject, now)
    {
      r := None;
      var challenge := Challenge(challengeText, text, subject, now);
      if challenge.None? { return; }
      var preview := Preview(text, subject, now);
      if preview.None? || !EnvelopeOk(envelope) { return; }
      var c := challenge.value;
      var expiresAt := Lesser(c.expiresAt, now + TOKEN_TTL_MS);
      if expiresAt <= now { return; }
      var key := AssertUnused(text, now);
      PruneTwice(old(consumed), now);
      if key.None? { return; }
      consumed := consumed[key.value := preview.value.expiresAt];
      r := Some(Approval(c.campaignId, c.manifestDigest, c.repository, c.ownerChallengeDigest, seals.sha256(envelope), expiresAt));
    }
  }

  lemma PruneTwice(m: Consumed, now: int)
    ensures Pruned(Pruned(m, now), now) == Pruned(m, now)
  {
  }

  // Histories

  datatype Request =
    | Look(text: string, subject: Subject, now: int)
    | Issue(text: string, subject: Subject, digest: string, expiresAt: int, now: int)
    | Confirm(challengeText: string, text: string, subject: Subject, now: int)
    | Exchange(challengeText: string, text: string, envelope: string, subject: Subject, now: int)

  /** The store after a request, and whether it exchanged a preview for an approval. */
  function Apply(seals: Seals, m: Consumed, r: Request): (Consumed, bool) {
    match r
    case Look(text, subject, now) => (VerifyPreview(seals, m, text, subject, now).0, false)
    case Issue(text, subject, digest, expiresAt, now) => (CreateChallenge(seals, m, text, subject, digest, expiresAt, now).0, false)
    case Confirm(challengeText, text, subject, now) => (VerifyChallenge(seals, m, challengeText, text, subject, now).0, false)
    case Exchange(challengeText, text, envelope, subject, now) =>
      var (after, approval) := PrepareApproval(seals, m, challengeText, text, envelope, subject, now);
      (after, approval.Some?)
  }

  /** How often a run of requests exchanges one preview text. */
  function Exchanges(seals: Seals, m: Consumed, requests: seq<Request>, text: string): nat
    decreases |requests|
  {
    if requests == [] then 0
    else
      var (after, exchanged) := Apply(seals, m, requests[0]);
      (if exchanged && requests[0].text == text then 1 else 0) + Exchanges(seals, after, requests[1..], text)
  }

  // What a run has to keep in mind about one preview, which expires at e

  /** A reading at or after e lies between two before it: the clock crosses e and steps back. */
  predicate LapsesAt(e: int, requests: seq<Request>, i: nat, j: nat, k: nat) {
    i < j < k < |requests| && requests[i].now < e <= requests[j].now && requests[k].now < e
  }

  ghost predicate Lapses(e: int, requests: seq<Request>) { exists i, j, k :: LapsesAt(e, requests, i, j, k) }

  /** Once e has been reached the clock stays there. */
  predicate StaysPast(e: int, requests: seq<Request>)
    decreases |requests|
  {
    requests == [] ||
    if requests[0].now >= e then forall r :: r in requests ==> r.now >= e else StaysPast(e, requests[1..])
  }

  lemma {:induction false} AfterFirst(e: int, requests: seq<Request>, n: nat)
    requires n < |requests| && requests[n].now < e && !Lapses(e, requests)
    ensures StaysPast(e, requests[n + 1..])
    decreases |requests| - n
  {
    if n + 1 < |requests| {
      var rest := requests[n + 1..];
      assert rest[1..] == requests[n + 2..];
      if rest[0].now < e {
        AfterFirst(e, requests, n + 1);
      } else {
        forall r | r in rest ensures r.now >= e {
          var k :| 0 <= k < |rest| && rest[k] == r;
          assert !LapsesAt(e, requests, n, n + 1, n + 1 + k);
        }
      }
    }
  }

  /** The store remembers the exchange of this preview. */
  predicate Remembered(seals: Seals, m: Consumed, text: string) {
    seals.preview(text).Some? && seals.sha256(text) in m && m[seals.sha256(text)] == seals.preview(text).value.expiresAt
  }

  /** At this moment the preview is used up: remembered, or expired. */
  predicate Spent(seals: Seals, m: Consumed, text: string, now: int) {
    seals.preview(text).Some? && (seals.preview(text).value.expiresAt <= now || Remembered(seals, m, text))
  }

  lemma PreviewKeeps(seals: Seals, m: Consumed, text: string, other: string, subject: Subject, now: int)
    requires Spent(seals, m, text, now)
    ensures Remembered(seals, m, text) && now < seals.preview(text).value.expiresAt ==>
      Remembered(seals, VerifyPreview(seals, m, other, subject, now).0, text)
    ensures VerifyPreview(seals, m, text, subject, now).1.None?
  {
  }

  /** An exchange is remembered, and happens before the preview expires. */
  lemma ExchangeRemembers(seals: Seals, m: Consumed, r: Request)
    requires Apply(seals, m, r).1
    ensures Remembered(seals, Apply(seals, m, r).0, r.text) && r.now < seals.preview(r.text).value.expiresAt
  {
  }

  /** A request exchanges no preview that is used up, and before the expiry forgets none. */
  lemma ApplyKeeps(seals: Seals, m: Consumed, text: string, r: Request)
    requires Spent(seals, m, text, r.now)
    ensures r.now < seals.preview(text).value.expiresAt ==> Remembered(seals, Apply(seals, m, r).0, text)
    ensures r.text == text ==> !Apply(seals, m, r).1
  {
    PreviewKeeps(seals, m, text, r.text, r.subject, r.now);
    if r.Exchange? {
      var (m1, challenge) := VerifyChallenge(seals, m, r.challengeText, r.text, r.subject, r.now);
      assert Spent(seals, m1, text, r.now);
      PreviewKeeps(seals, m1, text, r.text, r.subject, r.now);
      var (m2, preview) := VerifyPreview(seals, m1, r.text, r.subject, r.now);
      assert preview.Some? ==> seals.sha256(r.text) !in m2;
    }
  }

  lemma {:induction false} ExpiredNever(seals: Seals, m: Consumed, requests: seq<Request>, text: string)
    requires seals.preview(text).Some? && forall r :: r in requests ==> r.now >= seals.preview(text).value.expiresAt
    ensures Exchanges(seals, m, requests, text) == 0
    decreases |requests|
  {
    if requests != [] {
      ApplyKeeps(seals, m, text, requests[0]);
      ExpiredNever(seals, Apply(seals, m, requests[0]).0, requests[1..], text);
    }
  }

  lemma {:induction false} NeverAgain(seals: Seals, m: Consumed, requests: seq<Request>, text: string)
    requires Remembered(seals, m, text) && StaysPast(seals.preview(text).value.expiresAt, requests)
    ensures Exchanges(seals, m, requests, text) == 0
    decreases |requests|
  {
    if requests != [] {
      ApplyKeeps(seals, m, text, requests[0]);
      if requests[0].now >= seals.preview(text).value.expiresAt {
        ExpiredNever(seals, m, requests, text);
      } else {
        NeverAgain(seals, Apply(seals, m, requests[0]).0, requests[1..], text);
      }
    }
  }

  lemma {:induction false} UnknownNever(seals: Seals, m: Consumed, requests: seq<Request>, text: string)
    requires seals.preview(text).None?
    ensures Exchanges(seals, m, requests, text) == 0
    decreases |requests|
  {
    if requests != [] { UnknownNever(seals, Apply(seals, m, requests[0]).0, requests[1..], text); }
  }

  lemma LaterLapses(e: int, requests: seq<Request>)
    requires requests != [] && !Lapses(e, requests)
    ensures !Lapses(e, requests[1..])
  {
    forall i: nat, j: nat, k: nat | LapsesAt(e, requests[1..], i, j, k) ensures false {
      assert LapsesAt(e, requests, i + 1, j + 1, k + 1);
    }
  }

  /** No preview receipt yields two approvals, from any store and through any pruning, unless the
      clock crosses its expiry and steps back before it. */
  lemma {:induction false} AtMostOnce(seals: Seals, m: Consumed, requests: seq<Request>, text: string)
    requires seals.preview(text).Some? ==> !Lapses(seals.preview(text).value.expiresAt, requests)
    ensures Exchanges(seals, m, requests, text) <= 1
    decreases |requests|
  {
    if seals.preview(text).None? {
      UnknownNever(seals, m, requests, text);
    } else if requests != [] {
      var (after, exchanged) := Apply(seals, m, requests[0]);
      if exchanged && requests[0].text == text {
        ExchangeRemembers(seals, m, requests[0]);
        AfterFirst(seals.preview(text).value.expiresAt, requests, 0);
        NeverAgain(seals, after, requests[1..], text);
      } else {
        LaterLapses(seals.preview(text).value.expiresAt, requests);
        AtMostOnce(seals, after, requests[1..], text);
      }
    }
  }

  /** The clock never steps back. */
  predicate Forward(requests: seq<Request>) {
    forall i, j :: 0 <= i < j < |requests| ==> requests[i].now <= requests[j].now
  }

  lemma ForwardNeverLapses(e: int, requests: seq<Request>)
    requires Forward(requests)
    ensures !Lapses(e, requests)
  {
  }

  /** The store before the nth request. */
  function StoreBefore(seals: Seals, m: Consumed, requests: seq<Request>, n: nat): Consumed
    requires n <= |requests|
  {
    if n == 0 then m else Apply(seals, StoreBefore(seals, m, requests, n - 1), requests[n - 1]).0
  }

  /** A request that shows a challenge, and has it accepted. */
  predicate AcceptsChallenge(seals: Seals, m: Consumed, r: Request) {
    match r
    case Confirm(challengeText, text, subject, now) => VerifyChallenge(seals, m, challengeText, text, subject, now).1.Some?
    case Exchange(challengeText, text, envelope, subject, now) =>
      PrepareApproval(seals, m, challengeText, text, envelope, subject, now).1.Some?
    case _ => false
  }

  /** After an exchange, as long as the clock stays before the expiry, it is remembered. */
  lemma {:induction false} RememberedUntil(seals: Seals, m: Consumed, requests: seq<Request>, text: string, i: nat, j: nat)
    requires i < j <= |requests| && requests[i].text == text && Apply(seals, StoreBefore(seals, m, requests, i), requests[i]).1
    requires forall n :: i < n < j ==> requests[n].now < seals.preview(text).value.expiresAt
    requires seals.preview(text).Some?
    ensures Remembered(seals, StoreBefore(seals, m, requests, j), text)
    decreases j
  {
    if j == i + 1 {
      ExchangeRemembers(seals, StoreBefore(seals, m, requests, i), requests[i]);
    } else {
      RememberedUntil(seals, m, requests, text, i, j - 1);
      ApplyKeeps(seals, StoreBefore(seals, m, requests, j - 1), text, requests[j - 1]);
    }
  }

  /** In any run, once a preview has been exchanged every later request with a challenge receipt
      derived from it is refused, unless it shows another preview text of the same digest. */
  lemma SpentChallengeRefused(seals: Seals, m: Consumed, requests: seq<Request>, i: nat, j: nat, text: string)
    requires i < j < |requests| && (requests[j].Confirm? || requests[j].Exchange?)
    requires requests[i].text == text && Apply(seals, StoreBefore(seals, m, requests, i), requests[i]).1
    requires seals.preview(text).Some? ==> !Lapses(seals.preview(text).value.expiresAt, requests)
    requires seals.challenge(requests[j].challengeText).Some?
    requires seals.challenge(requests[j].challengeText).value.previewReceiptDigest == seals.sha256(text)
    requires AcceptsChallenge(seals, StoreBefore(seals, m, requests, j), requests[j])
    ensures requests[j].text != text && seals.sha256(requests[j].text) == seals.sha256(text)
  {
    ExchangeRemembers(seals, StoreBefore(seals, m, requests, i), requests[i]);
    var e, r, store := seals.preview(text).value.expiresAt, requests[j], StoreBefore(seals, m, requests, j);
    if r.now < e {
      forall n | i < n < j ensures requests[n].now < e { assert !LapsesAt(e, requests, i, n, j); }
      RememberedUntil(seals, m, requests, text, i, j);
    }
    PreviewKeeps(seals, store, text, r.text, r.subject, r.now);
  }

  /** An approval expires no later than its challenge, and that no later than its version 1 preview. */
  lemma ExpiryChain(seals: Seals, m: Consumed, challengeText: string, text: string, envelope: string, subject: Subject, now: int)
    requires PrepareApproval(seals, m, challengeText, text, envelope, subject, now).1.Some?
    ensures
      var approval := PrepareApproval(seals, m, challengeText, text, envelope, subject, now).1.value;
      && seals.challenge(challengeText).Some? && seals.preview(text).Some? && seals.preview(text).value.version == 1
      && now < approval.expiresAt <= seals.challenge(challengeText).value.expiresAt <= seals.preview(text).value.expiresAt
      && ApprovalOf(seals, seals.preview(text).value, seals.challenge(challengeText).value, envelope, now, approval)
      && Subject(approval.campaignId, approval.manifestDigest) == subject && 0 < |envelope| <= 65536
  {
  }

  /** The store holds the preview as consumed, and it has not expired. */
  predicate HeldAt(seals: Seals, m: Consumed, text: string, now: int) {
    seals.sha256(text) in m && m[seals.sha256(text)] > now
  }

  /** The preview is about the subject, has not expired and is not held as consumed; its local
      bindings are intact if it is of version 2. */
  predicate Showable(seals: Seals, m: Consumed, text: string, subject: Subject, now: int) {
    && seals.preview(text).Some? && 0 <= now <= 9007199254740991 && !HeldAt(seals, m, text, now)
    && var p := seals.preview(text).value;
       && p.campaignId == subject.campaignId && p.manifestDigest == subject.manifestDigest && now < p.expiresAt
       && (p.version == 2 ==> seals.localBindings(p, now))
  }

  /** And is of version 1, with a challenge that was derived from it and ends no later. */
  predicate Confirmable(seals: Seals, m: Consumed, challengeText: string, text: string, subject: Subject, now: int) {
    && Showable(seals, m, text, subject, now) && seals.challenge(challengeText).Some?
    && var p, c := seals.preview(text).value, seals.challenge(challengeText).value;
       && p.version == 1 && c.previewReceiptDigest == seals.sha256(text) && now < c.expiresAt <= p.expiresAt
       && c.campaignId == subject.campaignId && c.manifestDigest == subject.manifestDigest && c.repository == p.repository
  }

  /** A preview is exchanged exactly when it is shown, in time, with a challenge derived from it and an
      envelope that is neither empty nor too long, and no exchange of it is remembered. It then joins
      the entries that have not expired. */
  lemma UnspentExchanges(seals: Seals, m: Consumed, challengeText: string, text: string, envelope: string, subject: Subject, now: int)
    ensures
      var (after, approval) := PrepareApproval(seals, m, challengeText, text, envelope, subject, now);
      && (approval.Some? <==> Confirmable(seals, m, challengeText, text, subject, now) && 0 < |envelope| <= 65536)
      && (approval.Some? ==>
            var p := seals.preview(text).value;
            && ApprovalOf(seals, p, seals.challenge(challengeText).value, envelope, now, approval.value)
            && forall k :: (k in after <==> k == seals.sha256(text) || (k in m && m[k] > now))
                           && (k in after ==> after[k] == if k == seals.sha256(text) then p.expiresAt else m[k]))
  {
    PruneTwice(m, now);
  }

  /** A challenge is accepted, as it was issued, exactly with the preview it was derived from. */
  lemma UnspentConfirms(seals: Seals, m: Consumed, challengeText: string, text: string, subject: Subject, now: int)
    ensures VerifyChallenge(seals, m, challengeText, text, subject, now).1 ==
      if Confirmable(seals, m, challengeText, text, subject, now) then seals.challenge(challengeText) else None
  {
  }

  /** The approval names the campaign, manifest and repository of the preview, binds the challenged
      digest and the shown envelope, and lasts ten minutes or as long as the challenge, if that is less. */
  predicate ApprovalOf(seals: Seals, p: Preview, c: Challenge, envelope: string, now: int, a: Approval) {
    && a.campaignId == p.campaignId && a.manifestDigest == p.manifestDigest && a.repository == p.repository
    && a.ownerChallengeDigest == c.ownerChallengeDigest && a.ownerAuthorizationDigest == seals.sha256(envelope)
    && a.expiresAt <= now + 600000 && a.expiresAt <= c.expiresAt
    && (a.expiresAt == now + 600000 || a.expiresAt == c.expiresAt)
  }

  /** A preview is accepted exactly when it can be shown. */
  lemma UnspentShown(seals: Seals, m: Consumed, text: string, subject: Subject, now: int)
    ensures VerifyPreview(seals, m, text, subject, now).1 ==
      if Showable(seals, m, text, subject, now) then seals.preview(text) else None
  {
  }

  /** A preview that can be shown gets a challenge, for any digest, exactly when it is of version 1 and
      the challenge is to end later than now and no later than the preview. */
  lemma UnspentIssues(seals: Seals, m: Consumed, text: string, subject: Subject, digest: string, expiresAt: int, now: int)
    requires expiresAt <= 9007199254740991
    ensures CreateChallenge(seals, m, text, subject, digest, expiresAt, now).1 ==
      if Showable(seals, m, text, subject, now) && seals.preview(text).value.version == 1
         && now < expiresAt <= seals.preview(text).value.expiresAt
      then Some(Challenge(subject.campaignId, subject.manifestDigest, seals.preview(text).value.repository,
                          seals.sha256(text), digest, expiresAt))
      else None
  {
  }

  // A lapse of the clock

  /** What is presented at the given times: the exchange at i and k, another preview at j. */
  function Script(exchange: Request, look: Request, idle: Request, times: seq<int>, i: nat, j: nat, k: nat): (r: seq<Request>)
    ensures |r| == |times| && forall n :: 0 <= n < |r| ==> r[n].now == times[n]
  {
    seq(|times|, n requires 0 <= n < |times| =>
      (if n == i || n == k then exchange else if n == j then look else idle).(now := times[n]))
  }

  function ScriptStore(key: string, e: int, i: nat, j: nat, k: nat, n: nat): Consumed {
    if i < n <= j || k < n then map[key := e] else map[]
  }

  /** The tokens that such a run presents. */
  predicate Prepared(seals: Seals, subject: Subject, text: string, challengeText: string, other: string, e: int, later: int) {
    && seals.preview(text) == Some(Preview(1, subject.campaignId, subject.manifestDigest, "r", e))
    && seals.preview(other) == Some(Preview(1, subject.campaignId, subject.manifestDigest, "r", later))
    && seals.challenge(challengeText) == Some(Challenge(subject.campaignId, subject.manifestDigest, "r", seals.sha256(text), "d", e))
  }

  lemma ScriptStep(seals: Seals, subject: Subject, text: string, challengeText: string, other: string, unknown: string,
                   requests: seq<Request>, e: int, later: int, times: seq<int>, i: nat, j: nat, k: nat, n: nat)
    requires Prepared(seals, subject, text, challengeText, other, e, later) && seals.preview(unknown).None?
    requires i < j < k < |times| && times[i] < e <= times[j] < later && times[k] < e && n < |times|
    requires IsTimestamp(times[i]) && IsTimestamp(times[j]) && IsTimestamp(times[k])
    requires requests == Script(Exchange(challengeText, text, "e", subject, 0), Look(other, subject, 0), Look(unknown, subject, 0),
                                times, i, j, k)
    ensures Apply(seals, ScriptStore(seals.sha256(text), e, i, j, k, n), requests[n])
      == (ScriptStore(seals.sha256(text), e, i, j, k, n + 1), n == i || n == k)
  {
    var key := seals.sha256(text);
    assert Pruned(map[], times[n]) == map[];
    if n == i || n == k {
      assert map[][key := e] == map[key := e];
      UnspentExchanges(seals, map[], challengeText, text, "e", subject, times[n]);
    } else if n == j {
      assert Pruned(map[key := e], times[j]) == map[];
    }
  }

  /** Whenever the clock lapses at the expiry of a preview, some requests at exactly these times
      exchange it twice: another request prunes the store while the clock is ahead. */
  lemma LapseReuses(seals: Seals, subject: Subject, text: string, challengeText: string, other: string, unknown: string,
                    e: int, later: int, times: seq<int>, i: nat, j: nat, k: nat) returns (requests: seq<Request>)
    requires Prepared(seals, subject, text, challengeText, other, e, later) && seals.preview(unknown).None?
    requires i < j < k < |times| && times[i] < e <= times[j] < later && times[k] < e
    requires IsTimestamp(times[i]) && IsTimestamp(times[j]) && IsTimestamp(times[k])
    ensures |requests| == |times| && forall n :: 0 <= n < |times| ==> requests[n].now == times[n]
    ensures LapsesAt(e, requests, i, j, k) && Exchanges(seals, map[], requests, text) == 2
  {
    requests := Script(Exchange(challengeText, text, "e", subject, 0), Look(other, subject, 0), Look(unknown, subject, 0), times, i, j, k);
    var n := |times|;
    while n > 0
      invariant 0 <= n <= |times|
      invariant Exchanges(seals, ScriptStore(seals.sha256(text), e, i, j, k, n), requests[n..], text)
        == (if n <= i then 1 else 0) + (if n <= k then 1 else 0)
    {
      n := n - 1;
      ScriptStep(seals, subject, text, challengeText, other, unknown, requests, e, later, times, i, j, k, n);
      assert requests[n..][1..] == requests[n + 1..];
    }
    assert requests[0..] == requests;
  }
}

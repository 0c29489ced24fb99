/** The grant state machine (owner-authorization.ts) and the order of check, consume, mark and
    mint around it (auth.ts). */
module OwnerGrant {
  import opened Wrappers
  import opened ReplayLedger

  const OWNER_AUTHORIZATION_MAX_TTL_MS := 1800000

  datatype Payload = Payload(
    previewCompletedAt: int, issuedAt: int, notBefore: int, expiresAt: int, authorizationExpiresAt: int,
    creates: bool, pullRequestNumber: Option<int>)

  /** `assertPayloadTimes` passes. */
  predicate TimesOk(p: Payload, now: int) {
    && p.previewCompletedAt <= p.issuedAt <= p.notBefore < p.expiresAt
    && p.issuedAt < p.expiresAt && p.expiresAt - p.issuedAt <= OWNER_AUTHORIZATION_MAX_TTL_MS
    && p.expiresAt <= p.authorizationExpiresAt
    && p.notBefore <= now && now < p.expiresAt && now < p.authorizationExpiresAt
    && p.creates == p.pullRequestNumber.None?
  }

  /** The receipt of the durable reservation lies inside the authorization window. */
  predicate InWindow(p: Payload, stored: Stored) {
    p.notBefore <= stored.consumedAt && p.issuedAt <= stored.consumedAt < p.expiresAt
  }

  /** What one check sees: a clock sample, and whether the key registry still authorizes the grant. */
  datatype Look = Look(now: int, registry: bool)

  /** The moment lies inside the envelope, which is in order, lasts at most thirty minutes and ends with
      the authorization at the latest; a grant creates a pull request or names one. */
  predicate Admits(p: Payload, now: int) {
    && p.previewCompletedAt <= p.issuedAt <= p.notBefore <= now < p.expiresAt <= p.authorizationExpiresAt
    && p.expiresAt <= p.issuedAt + 1800000 && (p.creates <==> p.pullRequestNumber.None?)
  }

  lemma TimesAdmit(p: Payload, now: int)
    ensures TimesOk(p, now) <==> Admits(p, now)
  {
  }

  predicate Passes(p: Payload, look: Look) { Admits(p, look.now) && look.registry }

  /** A verified grant; consumed once it holds a receipt. */
  class Grant {
    const payload: Payload
    const consumption: Consumption
    var receipt: Option<Stored>

    /** Nothing but a matching receipt inside the window ever is kept. */
    predicate Valid() reads this {
      receipt.Some? ==> receipt.value.row == consumption && InWindow(payload, receipt.value)
    }

    constructor (payload: Payload, consumption: Consumption)
      ensures this.payload == payload && this.consumption == consumption && receipt.None? && Valid()
    {
      this.payload, this.consumption, receipt := payload, consumption, None;
    }

    /** `assertCurrentOwnerGrant`. */
    method AssertCurrent(look: Look) returns (ok: bool)
      ensures ok <==> receipt.None? && Passes(payload, look)
    {
      TimesAdmit(payload, look.now);
      ok := receipt.None? && TimesOk(payload, look.now) && look.registry;
    }

    /** `markGrantConsumed`. */
    method MarkConsumed(stored: Stored, look: Look) returns (ok: bool)
      requires Valid()
      modifies this
      ensures Valid()
      ensures ok <==>
        && old(receipt).None? && stored.row == consumption && Passes(payload, look)
        && payload.issuedAt <= stored.consumedAt && payload.notBefore <= stored.consumedAt < payload.expiresAt
      ensures receipt == if ok then Some(stored) else old(receipt)
    {
      ok := false;
      if receipt.None? && stored.row == consumption {
        if stored.consumedAt < payload.notBefore || stored.consumedAt < payload.issuedAt || stored.consumedAt >= payload.expiresAt {
          return;
        }
        TimesAdmit(payload, look.now);
        if TimesOk(payload, look.now) && look.registry {
          receipt, ok := Some(stored), true;
        }
      }
    }

    /** `assertCurrentConsumedOwnerGrant`. */
    method AssertCurrentConsumed(look: Look) returns (ok: bool)
      ensures ok <==> receipt.Some? && Passes(payload, look)
    {
      TimesAdmit(payload, look.now);
      ok := receipt.Some? && TimesOk(payload, look.now) && look.registry;
    }
  }

  /** The answers one publication gets: two looks before consumption, the ledger's, then one look
      each for marking, before minting and after; and GitHub's three. */
  datatype Answers = Answers(
    first: Look, second: Look, ledger: Option<Stored>, marking: Look, beforeMint: Look, afterMint: Look,
    liveFirst: bool, liveBefore: bool, liveAfter: bool)

  /** What takes an unconsumed grant to the consumed state. */
  predicate Reserves(p: Payload, c: Consumption, receipt: Option<Stored>, a: Answers) {
    && a.liveFirst && receipt.None? && Passes(p, a.first) && Passes(p, a.second)
    && a.ledger.Some? && a.ledger.value.row == c && InWindow(p, a.ledger.value) && Passes(p, a.marking)
  }

  /** `resolveAuthorizedWriteAuth`: whether a write token was minted, and whether it was returned. */
  method ResolveAuthorizedWriteAuth(grant: Grant, a: Answers) returns (minted: bool, returned: bool)
    requires grant.Valid()
    modifies grant
    ensures grant.Valid()
    ensures grant.receipt == if Reserves(grant.payload, grant.consumption, old(grant.receipt), a) then a.ledger else old(grant.receipt)
    ensures minted <==> Reserves(grant.payload, grant.consumption, old(grant.receipt), a)
                        && a.liveBefore && Passes(grant.payload, a.beforeMint)
    ensures returned <==> minted && a.liveAfter && Passes(grant.payload, a.afterMint)
  {
    minted, returned := false, false;
    if !a.liveFirst { return; }
    var current := grant.AssertCurrent(a.first);
    if !current { return; }
    current := grant.AssertCurrent(a.second);
    if !current || a.ledger.None? { return; }
    var marked := grant.MarkConsumed(a.ledger.value, a.marking);
    if !marked || !a.liveBefore { return; }
    var still := grant.AssertCurrentConsumed(a.beforeMint);
    if !still { return; }
    minted := true;
    if !a.liveAfter { return; }
    returned := grant.AssertCurrentConsumed(a.afterMint);
  }

  /** However often one grant is presented, with whatever answers, it mints at most once. */
  method PresentRepeatedly(grant: Grant, attempts: seq<Answers>) returns (tokens: nat)
    requires grant.Valid()
    modifies grant
    ensures grant.Valid() && tokens <= 1
    ensures tokens == 1 ==> old(grant.receipt).None? && grant.receipt.Some?
    ensures old(grant.receipt).Some? ==> tokens == 0 && grant.receipt == old(grant.receipt)
  {
    tokens := 0;
    var i := 0;
    while i < |attempts|
      invariant 0 <= i <= |attempts| && grant.Valid() && tokens <= 1
      invariant tokens == 1 ==> old(grant.receipt).None? && grant.receipt.Some?
      invariant old(grant.receipt).Some? ==> tokens == 0 && grant.receipt == old(grant.receipt)
    {
      var minted, returned := ResolveAuthorizedWriteAuth(grant, attempts[i]);
      if minted { tokens := tokens + 1; }
      i := i + 1;
    }
  }

  /** A check that passes bounds the sample by the envelope, which ends within thirty minutes of
      its issue and with the authorization at the latest. */
  lemma PassBounds(p: Payload, look: Look)
    requires Passes(p, look)
    ensures p.issuedAt <= p.notBefore <= look.now < p.expiresAt <= p.authorizationExpiresAt
    ensures p.expiresAt <= p.issuedAt + 1800000 && p.previewCompletedAt <= look.now
  {
  }
}

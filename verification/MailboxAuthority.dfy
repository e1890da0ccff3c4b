/** Who may do what: the credentials behind every change, and how far a change reaches. */
module MailboxAuthority {
  import opened Identifiers
  import opened MailboxDomain
  import opened MailboxCrypto
  import opened MailboxMachine
  import opened MailboxInvariant
  import opened MailboxFates
  import MailboxRuns

  datatype Role = ACTION | CLAIM | COLLECTION | RESULT | MAINTENANCE

  /** Presenting a credential with this digest counts as this role, for this mailbox. */
  predicate Grants(c: Config, s: Installation, digest: Digest, role: Role, id: Uuid) {
    if role == MAINTENANCE then digest == c.maintenance
    else
      && id in s.records
      && match role
         case ACTION => s.records[id].actionDigest == digest
         case CLAIM => s.records[id].claimDigest == digest
         case COLLECTION => s.records[id].collectionDigest == digest
         case RESULT => s.records[id].resultDigest == Some(digest)
         case MAINTENANCE => false
  }

  /** One credential is good for one role only, and outside maintenance for one mailbox only. */
  lemma OneCredentialOneUse(c: Config, p: Primitives, s: Installation, digest: Digest, role: Role, id: Uuid, role': Role, id': Uuid)
    requires Inv(c, p, s) && Grants(c, s, digest, role, id) && Grants(c, s, digest, role', id')
    ensures role == role' && (role != MAINTENANCE ==> id == id')
  {
    hide Inv, Good, FreeFor, CredentialsDistinct, Credentials, Grants;
    InvCredentials(c, p, s);
    GrantedIsCredential(c, s, digest, role, id);
    GrantedIsCredential(c, s, digest, role', id');
    SharedMeansSame(c, s, digest, role, id, role', id');
    if role != MAINTENANCE && role' != MAINTENANCE {
      InvAt(c, p, s, id);
      OneRolePerRecord(c, p, s, digest, role, role', id);
    }
  }

  lemma SharedMeansSame(c: Config, s: Installation, digest: Digest, role: Role, id: Uuid, role': Role, id': Uuid)
    requires CredentialsDistinct(c, s.records)
    requires if role == MAINTENANCE then digest == c.maintenance else id in s.records && digest in Credentials(s.records[id])
    requires if role' == MAINTENANCE then digest == c.maintenance else id' in s.records && digest in Credentials(s.records[id'])
    ensures role == MAINTENANCE <==> role' == MAINTENANCE
    ensures role != MAINTENANCE ==> id == id'
  {
    hide Credentials;
  }

  lemma OneRolePerRecord(c: Config, p: Primitives, s: Installation, digest: Digest, role: Role, role': Role, id: Uuid)
    requires id in s.records && Good(p, s.records[id]) && role != MAINTENANCE && role' != MAINTENANCE
    requires Grants(c, s, digest, role, id) && Grants(c, s, digest, role', id)
    ensures role == role'
  {
    hide ValidatedMaterial, Lifecycle, TimesOrdered, EvidenceBounded;
  }

  lemma InvCredentials(c: Config, p: Primitives, s: Installation)
    requires Inv(c, p, s)
    ensures CredentialsDistinct(c, s.records)
  {
    hide WellKeyed, RecordSemantics, ValidatedMaterial, CredentialsDistinct, WithinQuota, TotalsOf, TombstoneSemantics;
  }

  lemma GrantedIsCredential(c: Config, s: Installation, digest: Digest, role: Role, id: Uuid)
    requires Grants(c, s, digest, role, id)
    ensures if role == MAINTENANCE then digest == c.maintenance else id in s.records && digest in Credentials(s.records[id])
  {
  }

  /** What an operation has to present. Creation presents nothing: it enrols its credentials. */
  predicate Authorized(c: Config, s: Installation, op: Op) {
    match op
    case Create(binding, _, _, _) => binding.mailboxId !in s.records && binding.mailboxId !in s.tombstones
    case Offer(binding, _, _, action, collection, _, _) =>
      && Grants(c, s, action, ACTION, binding.mailboxId) && Grants(c, s, collection, COLLECTION, binding.mailboxId)
      && s.records[binding.mailboxId].binding == binding
    case Claim(binding, claim) => Grants(c, s, claim, CLAIM, binding.mailboxId) && s.records[binding.mailboxId].binding == binding
    case Stage(binding, result, _, _) => Grants(c, s, result, RESULT, binding.mailboxId) && s.records[binding.mailboxId].binding == binding
    case Commit(binding, result, _, _, _) => Grants(c, s, result, RESULT, binding.mailboxId) && s.records[binding.mailboxId].binding == binding
    case Collect(id, collection) => Grants(c, s, collection, COLLECTION, id)
    case Acknowledge(id, collection) => Grants(c, s, collection, COLLECTION, id)
    case Abandon(id, collection) => Grants(c, s, collection, COLLECTION, id)
    case Inspect(id, collection) => Grants(c, s, collection, COLLECTION, id)
    case Expire(maintenance) => Grants(c, s, maintenance, MAINTENANCE, 0)
    case GarbageCollect(maintenance) => Grants(c, s, maintenance, MAINTENANCE, 0)
  }

  /** Refused without any effect. */
  predicate Rebuffed(d: Decision) {
    d.effect == Nothing && d.reply.Denied? && d.reply.denial != DENIED_EXPIRED
  }

  lemma RebuffedUnlessCreating(c: Config, s: Installation, binding: ActionBinding, action: Digest, claim: Digest, collection: Digest, clock: Option<Instant>)
    ensures Rebuffed(DecideCreate(c, s, binding, action, claim, collection, clock)) || Authorized(c, s, Create(binding, action, claim, collection))
  {
    hide InUse, ViewOf;
  }

  lemma RebuffedUnlessOffering(c: Config, p: Primitives, s: Installation, binding: ActionBinding, envelope: Bytes, actionKey: Bytes,
                               action: Digest, collection: Digest, resultCredential: Bytes, resultDigest: Digest, clock: Option<Instant>)
    ensures Rebuffed(DecideOffer(c, p, s, binding, envelope, actionKey, action, collection, resultCredential, resultDigest, clock))
            || Authorized(c, s, Offer(binding, envelope, actionKey, action, collection, resultCredential, resultDigest))
  {
    hide InUse, ViewOf, ValidatedMaterial, SumOver, Moved, DueNow;
  }

  lemma RebuffedUnlessClaiming(c: Config, p: Primitives, s: Installation, binding: ActionBinding, claim: Digest, clock: Option<Instant>, crashes: set<CrashPoint>)
    ensures Rebuffed(DecideClaim(p, s, binding, claim, clock, crashes)) || Authorized(c, s, Claim(binding, claim))
  {
    hide ViewOf, ValidatedMaterial, ActionFits, Moved, DueNow;
  }

  lemma ResultAdmitted(c: Config, p: Primitives, s: Installation, binding: ActionBinding, resultDigest: Digest, clock: Option<Instant>)
    ensures var a := AdmitResult(p, s, binding, resultDigest, clock);
            if a.Refused? then a.denial != DENIED_EXPIRED
            else Grants(c, s, resultDigest, RESULT, binding.mailboxId) && s.records[binding.mailboxId].binding == binding
  {
    hide ValidatedMaterial;
  }

  lemma RebuffedUnlessStaging(c: Config, p: Primitives, s: Installation, binding: ActionBinding, resultDigest: Digest,
                              u: EvidenceUpload, nonce: Nonce, clock: Option<Instant>, crashes: set<CrashPoint>)
    ensures Rebuffed(DecideStage(c, p, s, binding, resultDigest, u, nonce, clock, crashes)) || Authorized(c, s, Stage(binding, resultDigest, u, nonce))
  {
    hide ViewOf, AdmitResult, SumOver, EvidenceBytes, Unwrap, Wrap, Moved, DueNow, Grants;
    ResultAdmitted(c, p, s, binding, resultDigest, clock);
  }

  lemma RebuffedUnlessCommitting(c: Config, p: Primitives, s: Installation, binding: ActionBinding, resultDigest: Digest,
                                 json: Bytes, seals: seq<EvidenceSeal>, nonce: Nonce, clock: Option<Instant>, crashes: set<CrashPoint>)
    ensures Rebuffed(DecideCommit(c, p, s, binding, resultDigest, json, seals, nonce, clock, crashes))
            || Authorized(c, s, Commit(binding, resultDigest, json, seals, nonce))
  {
    hide ViewOf, AdmitResult, SumOver, EvidenceBytes, ReferencesValid, Moved, SealsMatch, SealIds, DueNow, Grants;
    ResultAdmitted(c, p, s, binding, resultDigest, clock);
  }

  lemma CollectorAdmitted(c: Config, p: Primitives, s: Installation, id: Uuid, collection: Digest, clock: Option<Instant>)
    ensures var a := AdmitCollector(p, s, id, collection, clock);
            if a.Refused? then a.denial != DENIED_EXPIRED else Grants(c, s, collection, COLLECTION, id)
  {
    hide ValidatedMaterial;
  }

  lemma RebuffedUnlessCollecting(c: Config, p: Primitives, s: Installation, id: Uuid, collection: Digest, clock: Option<Instant>, crashes: set<CrashPoint>)
    ensures Grants(c, s, collection, COLLECTION, id)
            || (Rebuffed(DecideCollect(p, s, id, collection, clock)) && Rebuffed(DecideAbandon(p, s, id, collection, clock))
                && Rebuffed(DecideInspect(p, s, id, collection, clock)) && Rebuffed(DecideAcknowledge(p, s, id, collection, clock, crashes)))
  {
    hide ViewOf, AdmitCollector, BundleFits, Moved, DueNow, Grants;
    CollectorAdmitted(c, p, s, id, collection, clock);
  }

  lemma RebuffedUnlessMaintaining(c: Config, p: Primitives, s: Installation, maintenance: Digest, clock: Option<Instant>)
    ensures maintenance == c.maintenance
            || (Rebuffed(DecideExpire(c, p, s, maintenance, clock)) && Rebuffed(DecideCollection(c, p, s, maintenance, clock)))
  {
    hide ValidatedMaterial, Removed, NewlyExpired;
  }

  /** Nothing is changed, claimed, delivered, shown or even expired on behalf of a caller who does
      not present the credentials of that operation for that very binding. */
  lemma NothingWithoutCredentials(c: Config, p: Primitives, s: Installation, q: Request)
    requires !Authorized(c, s, q.op)
    ensures Step(c, p, s, q).after == s
    ensures Step(c, p, s, q).reply.Denied? && Step(c, p, s, q).reply.denial != DENIED_EXPIRED
  {
    hide DecideCreate, DecideOffer, DecideClaim, DecideStage, DecideCommit, DecideCollect, DecideAcknowledge, DecideAbandon,
      DecideInspect, DecideExpire, DecideCollection;
    match q.op
    case Create(binding, action, claim, collection) => RebuffedUnlessCreating(c, s, binding, action, claim, collection, q.clock);
    case Offer(binding, envelope, actionKey, action, collection, resultCredential, resultDigest) =>
      RebuffedUnlessOffering(c, p, s, binding, envelope, actionKey, action, collection, resultCredential, resultDigest, q.clock);
    case Claim(binding, claim) => RebuffedUnlessClaiming(c, p, s, binding, claim, q.clock, q.crashes);
    case Stage(binding, resultDigest, upload, nonce) => RebuffedUnlessStaging(c, p, s, binding, resultDigest, upload, nonce, q.clock, q.crashes);
    case Commit(binding, resultDigest, resultJson, seals, nonce) =>
      RebuffedUnlessCommitting(c, p, s, binding, resultDigest, resultJson, seals, nonce, q.clock, q.crashes);
    case Collect(id, collection) => RebuffedUnlessCollecting(c, p, s, id, collection, q.clock, q.crashes);
    case Acknowledge(id, collection) => RebuffedUnlessCollecting(c, p, s, id, collection, q.clock, q.crashes);
    case Abandon(id, collection) => RebuffedUnlessCollecting(c, p, s, id, collection, q.clock, q.crashes);
    case Inspect(id, collection) => RebuffedUnlessCollecting(c, p, s, id, collection, q.clock, q.crashes);
    case Expire(maintenance) => RebuffedUnlessMaintaining(c, p, s, maintenance, q.clock);
    case GarbageCollect(maintenance) => RebuffedUnlessMaintaining(c, p, s, maintenance, q.clock);
  }

  // --- How far a change reaches -----------------------------------------------

  /** The effect is confined to one mailbox. */
  predicate Within(effect: Effect, id: Uuid) {
    match effect
    case Nothing => true
    case Creation(r, _) => r.binding.mailboxId == id
    case Movement(moved, _, _) => moved == id
    case _ => false
  }

  lemma OfferStaysWithin(c: Config, p: Primitives, s: Installation, binding: ActionBinding, envelope: Bytes, actionKey: Bytes,
                         action: Digest, collection: Digest, resultCredential: Bytes, resultDigest: Digest, clock: Option<Instant>)
    ensures Within(DecideOffer(c, p, s, binding, envelope, actionKey, action, collection, resultCredential, resultDigest, clock).effect, binding.mailboxId)
  {
    hide InUse, ViewOf, ValidatedMaterial, SumOver, Moved, DueNow;
  }

  lemma ClaimStaysWithin(c: Config, p: Primitives, s: Installation, binding: ActionBinding, claim: Digest, clock: Option<Instant>, crashes: set<CrashPoint>)
    ensures Within(DecideClaim(p, s, binding, claim, clock, crashes).effect, binding.mailboxId)
  {
    hide ViewOf, ValidatedMaterial, ActionFits, Moved, DueNow;
  }

  lemma StageStaysWithin(c: Config, p: Primitives, s: Installation, binding: ActionBinding, resultDigest: Digest,
                         u: EvidenceUpload, nonce: Nonce, clock: Option<Instant>, crashes: set<CrashPoint>)
    ensures Within(DecideStage(c, p, s, binding, resultDigest, u, nonce, clock, crashes).effect, binding.mailboxId)
  {
    hide ViewOf, AdmitResult, SumOver, EvidenceBytes, Unwrap, Wrap, Moved, DueNow;
    AdmittedResult(p, s, binding, resultDigest, clock);
  }

  lemma CommitStaysWithin(c: Config, p: Primitives, s: Installation, binding: ActionBinding, resultDigest: Digest,
                          json: Bytes, seals: seq<EvidenceSeal>, nonce: Nonce, clock: Option<Instant>, crashes: set<CrashPoint>)
    ensures Within(DecideCommit(c, p, s, binding, resultDigest, json, seals, nonce, clock, crashes).effect, binding.mailboxId)
  {
    hide ViewOf, AdmitResult, SumOver, EvidenceBytes, ReferencesValid, Moved, SealsMatch, SealIds, DueNow;
    AdmittedResult(p, s, binding, resultDigest, clock);
  }

  lemma CollectorStaysWithin(c: Config, p: Primitives, s: Installation, id: Uuid, collection: Digest, clock: Option<Instant>, crashes: set<CrashPoint>)
    requires WellKeyed(c, s)
    ensures Within(DecideCollect(p, s, id, collection, clock).effect, id) && Within(DecideAbandon(p, s, id, collection, clock).effect, id)
    ensures Within(DecideInspect(p, s, id, collection, clock).effect, id) && Within(DecideAcknowledge(p, s, id, collection, clock, crashes).effect, id)
  {
    hide ViewOf, AdmitCollector, BundleFits, Moved, DueNow;
    AdmittedCollector(c, p, s, id, collection, clock);
  }

  lemma WithinLeavesOthers(c: Config, p: Primitives, s: Installation, effect: Effect, id: Uuid, other: Uuid)
    requires WellKeyed(c, s) && Within(effect, id) && other != id
    ensures var s' := Apply(c, p, s, effect);
            && s'.tombstones == s.tombstones
            && (other in s'.records <==> other in s.records)
            && (other in s.records ==> s'.records[other] == s.records[other])
  {
    if effect.Movement? && id in s.records {
      MovedKeepsBinding(p, s.records[id], effect.move, effect.now);
    }
    hide Moved;
  }

  /** An operation on one mailbox never touches another one, nor any tombstone. */
  lemma OthersAreUntouched(c: Config, p: Primitives, s: Installation, q: Request, other: Uuid)
    requires Inv(c, p, s)
    requires (q.op.Create? && other != q.op.binding.mailboxId) || (Addressed(q.op).Some? && other != Addressed(q.op).value)
    ensures var s' := Step(c, p, s, q).after;
            && s'.tombstones == s.tombstones
            && (other in s'.records <==> other in s.records)
            && (other in s.records ==> s'.records[other] == s.records[other])
  {
    hide Inv, WellKeyed, WithinQuota, TotalsOf, DecideOffer, DecideClaim, DecideStage, DecideCommit, DecideCollect, DecideAcknowledge, DecideAbandon,
      DecideInspect, DecideExpire, DecideCollection, Apply, InUse, ViewOf;
    InvQuota(c, p, s);
    match q.op
    case Create(binding, action, claim, collection) =>
      WithinLeavesOthers(c, p, s, Decide(c, p, s, q).effect, binding.mailboxId, other);
    case Offer(binding, envelope, actionKey, action, collection, resultCredential, resultDigest) =>
      OfferStaysWithin(c, p, s, binding, envelope, actionKey, action, collection, resultCredential, resultDigest, q.clock);
      WithinLeavesOthers(c, p, s, Decide(c, p, s, q).effect, binding.mailboxId, other);
    case Claim(binding, claim) =>
      ClaimStaysWithin(c, p, s, binding, claim, q.clock, q.crashes);
      WithinLeavesOthers(c, p, s, Decide(c, p, s, q).effect, binding.mailboxId, other);
    case Stage(binding, resultDigest, upload, nonce) =>
      StageStaysWithin(c, p, s, binding, resultDigest, upload, nonce, q.clock, q.crashes);
      WithinLeavesOthers(c, p, s, Decide(c, p, s, q).effect, binding.mailboxId, other);
    case Commit(binding, resultDigest, resultJson, seals, nonce) =>
      CommitStaysWithin(c, p, s, binding, resultDigest, resultJson, seals, nonce, q.clock, q.crashes);
      WithinLeavesOthers(c, p, s, Decide(c, p, s, q).effect, binding.mailboxId, other);
    case Collect(id, collection) =>
      CollectorStaysWithin(c, p, s, id, collection, q.clock, q.crashes);
      WithinLeavesOthers(c, p, s, Decide(c, p, s, q).effect, id, other);
    case Acknowledge(id, collection) =>
      CollectorStaysWithin(c, p, s, id, collection, q.clock, q.crashes);
      WithinLeavesOthers(c, p, s, Decide(c, p, s, q).effect, id, other);
    case Abandon(id, collection) =>
      CollectorStaysWithin(c, p, s, id, collection, q.clock, q.crashes);
      WithinLeavesOthers(c, p, s, Decide(c, p, s, q).effect, id, other);
    case Inspect(id, collection) =>
      CollectorStaysWithin(c, p, s, id, collection, q.clock, q.crashes);
      WithinLeavesOthers(c, p, s, Decide(c, p, s, q).effect, id, other);
    case Expire(_) =>
    case GarbageCollect(_) =>
  }

  // --- Exactly when an operation succeeds -------------------------------------

  /** A reading that is usable and not behind the installation's high-water mark. */
  predicate ClockUsable(s: Installation, clock: Option<Instant>) {
    clock.Some? && NotAhead(s, clock.value)
  }

  /** In a reachable state retained material authenticates and no record is ahead of the installation. */
  lemma AdmitExactly(c: Config, p: Primitives, s: Installation, id: Uuid, clock: Option<Instant>)
    requires Inv(c, p, s) && id in s.records
    ensures ValidatedMaterial(p, s.records[id]).Some?
    ensures Admit(p, s, s.records[id], clock) ==
              if ClockUsable(s, clock) then Admitted(s.records[id], clock.value, ValidatedMaterial(p, s.records[id]).value)
              else Admission.Refused(INTERNAL_UNCERTAINTY)
  {
    hide Inv, FreeFor, ValidatedMaterial, RecordSemantics;
    InvAt(c, p, s, id);
    MailboxRuns.LastSeenBound(c, p, s, id);
  }

  /** Neither the maintenance credential nor one of any mailbox. */
  predicate Unused(c: Config, s: Installation, digest: Digest) {
    digest != c.maintenance && forall id | id in s.records :: digest !in Credentials(s.records[id])
  }

  /** A claim delivers its action exactly when it is authorized, the mailbox is offered, the clock
      is usable and strictly before the claim deadline, and the material has the action's bounds. */
  lemma ClaimSucceedsExactly(c: Config, p: Primitives, s: Installation, q: Request)
    requires Inv(c, p, s) && q.op.Claim? && q.crashes == {}
    ensures Step(c, p, s, q).reply.Claimed? <==>
            && Authorized(c, s, q.op) && ClockUsable(s, q.clock)
            && var r := s.records[q.op.binding.mailboxId];
               && r.state == OFFERED && q.clock.value < r.binding.claimDeadline
               && r.envelope.Some? && r.actionKey.Some? && r.resultCredential.Some?
               && ActionFits(r.envelope.value, r.actionKey.value, r.resultCredential.value)
  {
    hide Inv, Apply, ActionFits, ValidatedMaterial, Admit;
    if q.op.binding.mailboxId in s.records {
      AdmitExactly(c, p, s, q.op.binding.mailboxId, q.clock);
    }
  }

  /** The effect of a call that did not get through. */
  predicate NothingOrExpiry(effect: Effect) {
    effect.Nothing? || (effect.Movement? && effect.move.Expiry?)
  }

  /** What a commit has to meet: authorized, in time, its seals name exactly the staged evidence and
      match it, both byte bounds hold, and the text agrees with the evidence. */
  predicate CommitGuard(c: Config, p: Primitives, s: Installation, op: Op, clock: Option<Instant>)
    requires op.Commit?
  {
    && Authorized(c, s, op) && ClockUsable(s, clock)
    && var r := s.records[op.binding.mailboxId];
       && r.state == CLAIMED_ONCE && clock.value < r.binding.deadline && ValidatedMaterial(p, r).Some?
       && var evidence := ValidatedMaterial(p, r).value.evidence;
          && SealIds(op.seals) == evidence.Keys && SealsMatch(op.seals, evidence)
          && |op.resultJson| + EvidenceBytes(r) <= r.binding.responseBytes
          && SumOver(s.records, CommittedBytes) + |op.resultJson| + EvidenceBytes(r) <= c.limits.maxCommittedBytes
          && ReferencesValid(p, r.binding, op.resultJson, evidence)
  }

  /** A commit takes effect exactly under its guard, unless it crashes before, and is answered with a
      snapshot exactly then, unless it crashes at all. */
  lemma CommitSucceedsExactly(c: Config, p: Primitives, s: Installation, q: Request)
    requires Inv(c, p, s) && q.op.Commit?
    ensures Step(c, p, s, q).reply.Snapshot? <==>
            CommitGuard(c, p, s, q.op, q.clock) && BEFORE_RESULT_COMMIT !in q.crashes && AFTER_RESULT_COMMIT !in q.crashes
    ensures if CommitGuard(c, p, s, q.op, q.clock) && BEFORE_RESULT_COMMIT !in q.crashes then
              Decide(c, p, s, q).effect == Movement(q.op.binding.mailboxId, Committing(q.op.resultJson, q.op.nonce), q.clock.value)
            else
              NothingOrExpiry(Decide(c, p, s, q).effect)
  {
    hide Inv, Apply, ValidatedMaterial, Admit, ReferencesValid, SealsMatch, SealIds, EvidenceBytes, SumOver, Moved, ViewOf;
    if q.op.binding.mailboxId in s.records {
      AdmitExactly(c, p, s, q.op.binding.mailboxId, q.clock);
    }
  }

  /** What an offer has to meet: authorized, the mailbox empty and before its claim deadline, a result
      credential that nobody uses, and room for the material. */
  predicate OfferGuard(c: Config, s: Installation, op: Op, clock: Option<Instant>)
    requires op.Offer?
  {
    && Authorized(c, s, op) && ClockUsable(s, clock)
    && var r := s.records[op.binding.mailboxId];
       && r.state == EMPTY && clock.value < r.binding.claimDeadline
       && Unused(c, s, op.resultDigest)
       && SumOver(s.records, ActiveBytes) + |op.envelope| + |op.actionKey| + |op.resultCredential| <= c.limits.maxActiveBytes
  }

  /** An offer is accepted, and takes effect, exactly under its guard. */
  lemma OfferSucceedsExactly(c: Config, p: Primitives, s: Installation, q: Request)
    requires Inv(c, p, s) && q.op.Offer?
    ensures Step(c, p, s, q).reply.Snapshot? <==> OfferGuard(c, s, q.op, q.clock)
    ensures if OfferGuard(c, s, q.op, q.clock) then
              Decide(c, p, s, q).effect ==
              Movement(q.op.binding.mailboxId, Offering(q.op.envelope, q.op.actionKey, q.op.resultCredential, q.op.resultDigest), q.clock.value)
            else
              NothingOrExpiry(Decide(c, p, s, q).effect)
  {
    hide Inv, Good, FreeFor, Apply, ValidatedMaterial, Admit, SumOver, Moved, ViewOf, Unused, InUse;
    var id := q.op.binding.mailboxId;
    if id in s.records {
      InvAt(c, p, s, id);
      AdmitExactly(c, p, s, id, q.clock);
      FreshExactly(c, p, s, id, q.op.resultDigest);
    }
  }

  /** For an empty mailbox the offer's three checks on the result credential say that it is unused. */
  lemma FreshExactly(c: Config, p: Primitives, s: Installation, id: Uuid, digest: Digest)
    requires id in s.records && Good(p, s.records[id]) && s.records[id].binding.mailboxId == id
    ensures s.records[id].state == EMPTY ==>
              (Unused(c, s, digest) <==>
                && |{s.records[id].actionDigest, s.records[id].claimDigest, s.records[id].collectionDigest, digest}| == 4
                && c.maintenance != digest && !InUse(s.records, digest, Some(id)))
  {
    hide Good, Unused, InUse;
    if s.records[id].state == EMPTY {
      EmptyHasThree(p, s.records[id]);
      FourDistinctExactly(s.records[id].actionDigest, s.records[id].claimDigest, s.records[id].collectionDigest, digest);
      UnusedSplits(c, s, id, digest);
    }
  }

  lemma EmptyHasThree(p: Primitives, r: Record)
    requires Good(p, r) && r.state == EMPTY
    ensures r.actionDigest != r.claimDigest && r.actionDigest != r.collectionDigest && r.claimDigest != r.collectionDigest
    ensures Credentials(r) == {r.actionDigest, r.claimDigest, r.collectionDigest}
  {
    hide ValidatedMaterial, EvidenceBounded;
  }

  lemma UnusedSplits(c: Config, s: Installation, id: Uuid, digest: Digest)
    requires id in s.records
    ensures Unused(c, s, digest) <==> c.maintenance != digest && digest !in Credentials(s.records[id]) && !InUse(s.records, digest, Some(id))
  {
    hide Credentials;
  }

  lemma FourDistinctExactly(a: Digest, b: Digest, d: Digest, e: Digest)
    requires a != b && a != d && b != d
    ensures |{a, b, d, e}| == 4 <==> e !in {a, b, d}
  {
    assert |{a, b, d}| == 3;
    assert {a, b, d, e} == {a, b, d} + {e};
    if e in {a, b, d} {
      assert {a, b, d, e} == {a, b, d};
    }
  }

  /** Evidence is accepted exactly when it is authorized, in time, new, within the item and byte
      bounds, and its digest is that of its payload. */
  lemma StageSucceedsExactly(c: Config, p: Primitives, s: Installation, q: Request)
    requires Sound(p) && Inv(c, p, s) && q.op.Stage? && q.crashes == {}
    ensures Step(c, p, s, q).reply.Snapshot? <==>
            && Authorized(c, s, q.op) && ClockUsable(s, q.clock)
            && var r, u := s.records[q.op.binding.mailboxId], q.op.upload;
               && r.state == CLAIMED_ONCE && q.clock.value < r.binding.deadline
               && u.objectId !in r.evidence && |r.evidence| < MAX_EVIDENCE_ITEMS
               && EvidenceBytes(r) + |u.payload| <= r.binding.responseBytes
               && SumOver(s.records, EvidenceBytes) + |u.payload| <= c.limits.maxEvidenceBytes
               && p.hash(u.payload) == u.payloadDigest
  {
    hide Sound, Inv, Apply, ValidatedMaterial, Admit, EvidenceBytes, SumOver, Moved, ViewOf, Wrap, Unwrap;
    var u := q.op.upload;
    if p.hash(u.payload) == u.payloadDigest {
      UnwrapWrap(p, q.op.binding.mailboxId, u, q.op.nonce);
    }
    if q.op.binding.mailboxId in s.records {
      AdmitExactly(c, p, s, q.op.binding.mailboxId, q.clock);
    }
  }

  /** A mailbox is created exactly when its identifier is free, there is room, its three credentials
      are new, distinct and not the maintenance credential, and the claim deadline is ahead. */
  lemma CreateSucceedsExactly(c: Config, p: Primitives, s: Installation, q: Request)
    requires Inv(c, p, s) && q.op.Create?
    ensures Step(c, p, s, q).reply.Snapshot? <==>
            && Authorized(c, s, q.op) && ClockUsable(s, q.clock) && q.clock.value < q.op.binding.claimDeadline
            && |s.records| < c.limits.maxMailboxes
            && q.op.action != q.op.claim && q.op.action != q.op.collection && q.op.claim != q.op.collection
            && Unused(c, s, q.op.action) && Unused(c, s, q.op.claim) && Unused(c, s, q.op.collection)
  {
    hide Inv, Apply, ViewOf, Credentials;
    DistinctThreeExactly(q.op.action, q.op.claim, q.op.collection);
  }

  lemma DistinctThreeExactly(a: Digest, b: Digest, d: Digest)
    ensures |{a, b, d}| == 3 <==> a != b && a != d && b != d
  {
    if a == b {
      assert {a, b, d} == {b, d};
      SmallSet(b, d);
    } else if a == d {
      assert {a, b, d} == {a, b};
      SmallSet(a, b);
    } else if b == d {
      assert {a, b, d} == {a, b};
      SmallSet(a, b);
    }
  }
}

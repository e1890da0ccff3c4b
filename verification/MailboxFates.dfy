/** What one step of the protocol does to one mailbox, and what a denial, a crash or a
    reply says about the state behind it. */
module MailboxFates {
  import opened Identifiers
  import opened MailboxDomain
  import opened MailboxCrypto
  import opened MailboxMachine
  import opened MailboxInvariant

  // --- Fates -----------------------------------------------------------------

  /** What an effect does to the mailbox with a given identifier. */
  datatype Fate =
    | Untouched
    | Made(move: Move, now: Instant)
    | Born(now: Instant)
    | Buried(now: Instant)
    | Forgotten(now: Instant)

  ghost function FateOf(c: Config, s: Installation, effect: Effect, id: Uuid): Fate {
    match effect
    case Nothing => Untouched
    case Creation(r, now) => if r.binding.mailboxId == id then Born(now) else Untouched
    case Movement(other, move, now) => if other == id && id in s.records then Made(move, now) else Untouched
    case Sweeping(now) =>
      if id in s.records then Made(if DueNow(s.records[id], now) then Expiry else Observing, now) else Untouched
    case Collecting(now) =>
      if id in s.records then (if id in Removed(c, s, now) then Buried(now) else Made(Observing, now))
      else if id in s.tombstones && s.tombstones[id].expiresAt <= now then Forgotten(now)
      else Untouched
  }

  /** How the mailbox looks afterwards, and what had been checked. */
  ghost predicate FateHolds(c: Config, p: Primitives, s: Installation, s': Installation, id: Uuid, fate: Fate) {
    match fate
    case Untouched =>
      && (id in s.records <==> id in s'.records) && (id in s.records ==> s'.records[id] == s.records[id])
      && (id in s.tombstones <==> id in s'.tombstones) && (id in s.tombstones ==> s'.tombstones[id] == s.tombstones[id])
    case Made(move, now) =>
      && id in s.records && id in s'.records
      && NotAhead(s, now) && s.records[id].lastSeen <= now && s'.highWater == Some(now)
      && (move.Observing? || MoveAllowed(c, p, s, s.records[id], move, now))
      && s'.records[id] == Moved(p, s.records[id], move, now)
    case Born(now) =>
      && id !in s.records && id !in s.tombstones && id in s'.records
      && NotAhead(s, now) && s'.highWater == Some(now)
      && var r := s'.records[id]; r == NewRecord(r.binding, now, r.actionDigest, r.claimDigest, r.collectionDigest)
    case Buried(now) =>
      && id in s.records && Due(c, s.records[id], now) && s'.highWater == Some(now)
      && id !in s'.records && id in s'.tombstones
      && s'.tombstones[id].createdAt == now && s'.tombstones[id].expiresAt == now + c.limits.tombstoneRetention
    case Forgotten(now) =>
      && id !in s.records && id in s.tombstones && s.tombstones[id].expiresAt <= now && s'.highWater == Some(now)
      && id !in s'.records && id !in s'.tombstones
  }

  lemma CreationFate(c: Config, p: Primitives, s: Installation, r: Record, now: Instant, id: Uuid)
    requires WellKeyed(c, s) && CreationAllowed(c, s, r, now)
    ensures FateHolds(c, p, s, Put(s, r, now), id, FateOf(c, s, Creation(r, now), id))
  {
    hide InUse, MoveAllowed, Moved;
  }

  lemma PutElsewhere(s: Installation, r: Record, now: Instant, id: Uuid)
    requires r.binding.mailboxId != id
    ensures id in s.records <==> id in Put(s, r, now).records
    ensures id in s.records ==> Put(s, r, now).records[id] == s.records[id]
    ensures Put(s, r, now).tombstones == s.tombstones
  {
  }

  lemma PutHere(s: Installation, r: Record, now: Instant)
    requires NotAhead(s, now)
    ensures r.binding.mailboxId in Put(s, r, now).records && Put(s, r, now).records[r.binding.mailboxId] == r
    ensures Put(s, r, now).highWater == Some(now)
  {
  }

  lemma MovementFate(c: Config, p: Primitives, s: Installation, other: Uuid, move: Move, now: Instant, id: Uuid)
    requires WellKeyed(c, s) && Enabled(c, p, s, other, move, now)
    ensures FateHolds(c, p, s, Apply(c, p, s, Movement(other, move, now)), id, FateOf(c, s, Movement(other, move, now), id))
    ensures Moved(p, s.records[other], move, now).binding == s.records[other].binding
  {
    hide MoveAllowed, Moved, Put, NotAhead;
    MovedKeepsBinding(p, s.records[other], move, now);
    PutHere(s, Moved(p, s.records[other], move, now), now);
    if other != id {
      PutElsewhere(s, Moved(p, s.records[other], move, now), now, id);
    }
  }

  lemma SweepingFate(c: Config, p: Primitives, s: Installation, now: Instant, id: Uuid)
    requires SweepAllowed(s, now)
    ensures FateHolds(c, p, s, SweptAll(p, s, now), id, FateOf(c, s, Sweeping(now), id))
  {
    hide Moved, DueNow;
  }

  lemma CollectedHighWater(c: Config, s: Installation, now: Instant)
    requires NotAhead(s, now)
    ensures CollectedAll(c, s, now).highWater == Some(now)
  {
    hide Removed, LiveTombstones;
  }

  lemma CollectedRecord(c: Config, s: Installation, now: Instant, id: Uuid)
    requires now + c.limits.tombstoneRetention <= MAX_INSTANT
    requires id in s.records && id !in s.tombstones
    ensures id in Removed(c, s, now) ==>
              && id !in CollectedAll(c, s, now).records && id in CollectedAll(c, s, now).tombstones
              && CollectedAll(c, s, now).tombstones[id] == Tombstone(now, now + c.limits.tombstoneRetention)
    ensures id !in Removed(c, s, now) ==>
              && id in CollectedAll(c, s, now).records && id !in CollectedAll(c, s, now).tombstones
              && CollectedAll(c, s, now).records[id] == s.records[id].(lastSeen := now)
  {
    hide Removed;
  }

  lemma CollectedTombstone(c: Config, s: Installation, now: Instant, id: Uuid)
    requires id !in s.records
    ensures id !in CollectedAll(c, s, now).records
    ensures id in CollectedAll(c, s, now).tombstones <==> id in s.tombstones && s.tombstones[id].expiresAt > now
    ensures id in CollectedAll(c, s, now).tombstones ==> CollectedAll(c, s, now).tombstones[id] == s.tombstones[id]
  {
    hide Removed;
  }

  lemma CollectingFate(c: Config, p: Primitives, s: Installation, now: Instant, id: Uuid)
    requires WellKeyed(c, s) && SweepAllowed(s, now) && now + c.limits.tombstoneRetention <= MAX_INSTANT
    ensures FateHolds(c, p, s, CollectedAll(c, s, now), id, FateOf(c, s, Collecting(now), id))
  {
    hide Removed, MoveAllowed, Due, CollectedAll, NotAhead;
    RemovedAreDue(c, s, now);
    CollectedHighWater(c, s, now);
    if id in s.records {
      assert Moved(p, s.records[id], Observing, now) == s.records[id].(lastSeen := now);
      CollectedRecord(c, s, now, id);
    } else {
      CollectedTombstone(c, s, now, id);
    }
  }

  lemma RemovedAreDue(c: Config, s: Installation, now: Instant)
    ensures forall id | id in Removed(c, s, now) :: Due(c, s.records[id], now)
  {
    hide Due;
  }

  /** Every step gives every mailbox one of five fates. */
  lemma StepFate(c: Config, p: Primitives, s: Installation, q: Request, id: Uuid)
    requires Inv(c, p, s)
    ensures FateHolds(c, p, s, Step(c, p, s, q).after, id, FateOf(c, s, Decide(c, p, s, q).effect, id))
  {
    hide Inv, WellKeyed, WithinQuota, TotalsOf, Decide, Enabled, CreationAllowed, SweepAllowed, FateHolds, FateOf, Put, SweptAll, CollectedAll, Moved;
    InvQuota(c, p, s);
    DecisionAllowed(c, p, s, q);
    match Decide(c, p, s, q).effect
    case Nothing => NothingFate(c, p, s, id);
    case Creation(r, now) => CreationFate(c, p, s, r, now, id);
    case Movement(other, move, now) => MovementFate(c, p, s, other, move, now, id);
    case Sweeping(now) => SweepingFate(c, p, s, now, id);
    case Collecting(now) => CollectingFate(c, p, s, now, id);
  }

  lemma NothingFate(c: Config, p: Primitives, s: Installation, id: Uuid)
    ensures FateHolds(c, p, s, s, id, FateOf(c, s, Nothing, id))
  {
  }

  // --- Time never goes back --------------------------------------------------

  predicate NoLater(a: Option<Instant>, b: Option<Instant>) {
    a.Some? ==> b.Some? && a.value <= b.value
  }

  /** Helper for whole runs: one step never moves the high-water mark back. */
  lemma StepKeepsTime(c: Config, p: Primitives, s: Installation, q: Request)
    ensures NoLater(s.highWater, Step(c, p, s, q).after.highWater)
  {
    hide Decide, Moved, Removed, LiveTombstones, SweptRecord;
  }

  // --- Denials and crashes ---------------------------------------------------

  /** The mailbox an operation addresses; sweeps address none. */
  function Addressed(op: Op): Option<Uuid> {
    match op
    case Create(binding, _, _, _) => Some(binding.mailboxId)
    case Offer(binding, _, _, _, _, _, _) => Some(binding.mailboxId)
    case Claim(binding, _) => Some(binding.mailboxId)
    case Stage(binding, _, _, _) => Some(binding.mailboxId)
    case Commit(binding, _, _, _, _) => Some(binding.mailboxId)
    case Collect(id, _) => Some(id)
    case Acknowledge(id, _) => Some(id)
    case Abandon(id, _) => Some(id)
    case Inspect(id, _) => Some(id)
    case _ => None
  }

  /** What a denial says about the effect behind it. */
  ghost predicate DenialTells(s: Installation, id: Uuid, clock: Option<Instant>, d: Decision) {
    && (d.reply.Denied? && d.reply.denial != DENIED_EXPIRED ==> d.effect == Nothing)
    && (d.reply == Denied(DENIED_EXPIRED) ==>
          clock.Some? && id in s.records && DueNow(s.records[id], clock.value) && d.effect == Movement(id, Expiry, clock.value))
  }

  lemma CreateDenials(c: Config, s: Installation, binding: ActionBinding, action: Digest, claim: Digest, collection: Digest, clock: Option<Instant>)
    ensures DecideCreate(c, s, binding, action, claim, collection, clock).reply.Denied? ==>
              DecideCreate(c, s, binding, action, claim, collection, clock).effect == Nothing
  {
    hide InUse, ViewOf;
  }

  lemma OfferDenials(c: Config, p: Primitives, s: Installation, binding: ActionBinding, envelope: Bytes, actionKey: Bytes,
                     action: Digest, collection: Digest, resultCredential: Bytes, resultDigest: Digest, clock: Option<Instant>)
    requires WellKeyed(c, s)
    ensures DenialTells(s, binding.mailboxId, clock, DecideOffer(c, p, s, binding, envelope, actionKey, action, collection, resultCredential, resultDigest, clock))
  {
    hide InUse, ViewOf, ValidatedMaterial, SumOver, Moved, DueNow;
  }

  lemma ClaimDenials(c: Config, p: Primitives, s: Installation, binding: ActionBinding, claim: Digest, clock: Option<Instant>, crashes: set<CrashPoint>)
    requires WellKeyed(c, s)
    ensures DenialTells(s, binding.mailboxId, clock, DecideClaim(p, s, binding, claim, clock, crashes))
    ensures CrashTells(DecideClaim(p, s, binding, claim, clock, crashes), DecideClaim(p, s, binding, claim, clock, {}))
  {
    hide ViewOf, ValidatedMaterial, ActionFits, Moved, DueNow;
  }

  lemma StageDenials(c: Config, p: Primitives, s: Installation, binding: ActionBinding, resultDigest: Digest,
                     u: EvidenceUpload, nonce: Nonce, clock: Option<Instant>, crashes: set<CrashPoint>)
    requires WellKeyed(c, s)
    ensures DenialTells(s, binding.mailboxId, clock, DecideStage(c, p, s, binding, resultDigest, u, nonce, clock, crashes))
    ensures CrashTells(DecideStage(c, p, s, binding, resultDigest, u, nonce, clock, crashes),
                       DecideStage(c, p, s, binding, resultDigest, u, nonce, clock, {}))
  {
    hide ViewOf, AdmitResult, SumOver, EvidenceBytes, Unwrap, Wrap, Moved, DueNow;
    AdmittedResult(p, s, binding, resultDigest, clock);
  }

  lemma AdmittedResult(p: Primitives, s: Installation, binding: ActionBinding, resultDigest: Digest, clock: Option<Instant>)
    ensures var a := AdmitResult(p, s, binding, resultDigest, clock);
            (a.Refused? ==> a.denial != DENIED_EXPIRED) &&
            (a.Admitted? ==> clock == Some(a.now) && binding.mailboxId in s.records && a.record == s.records[binding.mailboxId] && a.record.binding == binding)
  {
    hide ValidatedMaterial;
  }

  lemma CommitDenials(c: Config, p: Primitives, s: Installation, binding: ActionBinding, resultDigest: Digest,
                      json: Bytes, seals: seq<EvidenceSeal>, nonce: Nonce, clock: Option<Instant>, crashes: set<CrashPoint>)
    requires WellKeyed(c, s)
    ensures DenialTells(s, binding.mailboxId, clock, DecideCommit(c, p, s, binding, resultDigest, json, seals, nonce, clock, crashes))
    ensures CrashTells(DecideCommit(c, p, s, binding, resultDigest, json, seals, nonce, clock, crashes),
                       DecideCommit(c, p, s, binding, resultDigest, json, seals, nonce, clock, {}))
  {
    hide ViewOf, AdmitResult, SumOver, EvidenceBytes, ReferencesValid, Moved, SealsMatch, SealIds, DueNow;
    AdmittedResult(p, s, binding, resultDigest, clock);
  }

  lemma CollectorDenials(c: Config, p: Primitives, s: Installation, id: Uuid, collection: Digest, clock: Option<Instant>)
    requires WellKeyed(c, s)
    ensures DenialTells(s, id, clock, DecideCollect(p, s, id, collection, clock))
    ensures DenialTells(s, id, clock, DecideAbandon(p, s, id, collection, clock))
    ensures DenialTells(s, id, clock, DecideInspect(p, s, id, collection, clock))
  {
    hide ViewOf, AdmitCollector, BundleFits, Moved, DueNow;
    AdmittedCollector(c, p, s, id, collection, clock);
  }

  lemma AcknowledgeDenials(c: Config, p: Primitives, s: Installation, id: Uuid, collection: Digest, clock: Option<Instant>, crashes: set<CrashPoint>)
    requires WellKeyed(c, s)
    ensures DenialTells(s, id, clock, DecideAcknowledge(p, s, id, collection, clock, crashes))
    ensures CrashTells(DecideAcknowledge(p, s, id, collection, clock, crashes), DecideAcknowledge(p, s, id, collection, clock, {}))
  {
    hide ViewOf, AdmitCollector, Moved, DueNow;
    AdmittedCollector(c, p, s, id, collection, clock);
  }

  lemma AdmittedCollector(c: Config, p: Primitives, s: Installation, id: Uuid, collection: Digest, clock: Option<Instant>)
    requires WellKeyed(c, s)
    ensures var a := AdmitCollector(p, s, id, collection, clock);
            (a.Refused? ==> a.denial != DENIED_EXPIRED) &&
            (a.Admitted? ==> clock == Some(a.now) && id in s.records && a.record == s.records[id] && a.record.binding.mailboxId == id)
  {
    hide ValidatedMaterial;
  }

  /** A crash leaves nothing, or what the same call without the crash leaves. */
  ghost predicate CrashTells(crashed: Decision, plain: Decision) {
    crashed.reply.Crashed? ==> crashed.effect == Nothing || crashed.effect == plain.effect
  }

  /** A denial other than an expiry changes nothing; an expiry denial is either the refusal of
      a creation, which changes nothing, or exactly the expiry of the addressed mailbox. */
  lemma DenialsAreAtomic(c: Config, p: Primitives, s: Installation, q: Request)
    requires Inv(c, p, s)
    requires Step(c, p, s, q).reply.Denied?
    ensures Step(c, p, s, q).reply.denial != DENIED_EXPIRED || q.op.Create? ==> Step(c, p, s, q).after == s
    ensures Step(c, p, s, q).reply.denial == DENIED_EXPIRED && !q.op.Create? ==>
              && q.clock.Some? && Addressed(q.op).Some? && Addressed(q.op).value in s.records
              && DueNow(s.records[Addressed(q.op).value], q.clock.value)
              && Step(c, p, s, q).after == Put(s, Moved(p, s.records[Addressed(q.op).value], Expiry, q.clock.value), q.clock.value)
  {
    hide Inv, WellKeyed, WithinQuota, TotalsOf, DecideCreate, DecideOffer, DecideClaim, DecideStage, DecideCommit, DecideCollect,
      DecideAcknowledge, DecideAbandon, DecideInspect, DecideExpire, DecideCollection, Moved, Put, SweptAll, CollectedAll, DueNow, CrashTells;
    InvQuota(c, p, s);
    match q.op
    case Create(binding, action, claim, collection) => CreateDenials(c, s, binding, action, claim, collection, q.clock);
    case Offer(binding, envelope, actionKey, action, collection, resultCredential, resultDigest) =>
      OfferDenials(c, p, s, binding, envelope, actionKey, action, collection, resultCredential, resultDigest, q.clock);
    case Claim(binding, claim) => ClaimDenials(c, p, s, binding, claim, q.clock, q.crashes);
    case Stage(binding, resultDigest, upload, nonce) => StageDenials(c, p, s, binding, resultDigest, upload, nonce, q.clock, q.crashes);
    case Commit(binding, resultDigest, resultJson, seals, nonce) =>
      CommitDenials(c, p, s, binding, resultDigest, resultJson, seals, nonce, q.clock, q.crashes);
    case Collect(id, collection) => CollectorDenials(c, p, s, id, collection, q.clock);
    case Acknowledge(id, collection) => AcknowledgeDenials(c, p, s, id, collection, q.clock, q.crashes);
    case Abandon(id, collection) => CollectorDenials(c, p, s, id, collection, q.clock);
    case Expire(maintenance) => SweepReplies(c, p, s, maintenance, q.clock);
    case GarbageCollect(maintenance) => SweepReplies(c, p, s, maintenance, q.clock);
    case Inspect(id, collection) => CollectorDenials(c, p, s, id, collection, q.clock);
  }

  lemma SweepReplies(c: Config, p: Primitives, s: Installation, maintenance: Digest, clock: Option<Instant>)
    ensures var d := DecideExpire(c, p, s, maintenance, clock);
            d.reply.Denied? ==> d.effect == Nothing && d.reply.denial != DENIED_EXPIRED
    ensures var d := DecideCollection(c, p, s, maintenance, clock);
            d.reply.Denied? ==> d.effect == Nothing && d.reply.denial != DENIED_EXPIRED
    ensures !DecideExpire(c, p, s, maintenance, clock).reply.Crashed? && !DecideCollection(c, p, s, maintenance, clock).reply.Crashed?
  {
    hide ValidatedMaterial, Removed, NewlyExpired;
  }

  /** An injected crash leaves exactly the state before the call, or exactly the complete state after it. */
  lemma CrashesAreAtomic(c: Config, p: Primitives, s: Installation, q: Request)
    requires Inv(c, p, s)
    requires Step(c, p, s, q).reply.Crashed?
    ensures Step(c, p, s, q).after == s || Step(c, p, s, q).after == Step(c, p, s, q.(crashes := {})).after
  {
    hide Inv, WellKeyed, WithinQuota, TotalsOf, DenialTells, DecideClaim, DecideStage, DecideCommit, DecideAcknowledge, DecideExpire, DecideCollection, Apply,
      DecideCreate, DecideOffer, DecideCollect, DecideAbandon, DecideInspect;
    InvQuota(c, p, s);
    ApplyNothing(c, p, s);
    match q.op
    case Claim(binding, claim) => ClaimDenials(c, p, s, binding, claim, q.clock, q.crashes);
    case Stage(binding, resultDigest, upload, nonce) => StageDenials(c, p, s, binding, resultDigest, upload, nonce, q.clock, q.crashes);
    case Commit(binding, resultDigest, resultJson, seals, nonce) =>
      CommitDenials(c, p, s, binding, resultDigest, resultJson, seals, nonce, q.clock, q.crashes);
    case Acknowledge(id, collection) => AcknowledgeDenials(c, p, s, id, collection, q.clock, q.crashes);
    case _ => CrashlessOps(c, p, s, q);
  }

  lemma ApplyNothing(c: Config, p: Primitives, s: Installation)
    ensures Apply(c, p, s, Nothing) == s
  {
  }

  lemma CrashlessOps(c: Config, p: Primitives, s: Installation, q: Request)
    requires !q.op.Claim? && !q.op.Stage? && !q.op.Commit? && !q.op.Acknowledge?
    ensures Decide(c, p, s, q) == Decide(c, p, s, q.(crashes := {}))
  {
    hide DecideCreate, DecideOffer, DecideCollect, DecideAbandon, DecideInspect, DecideExpire, DecideCollection;
  }

  // --- Denials that only the durable adapter gives ----------------------------

  /** Neither contention nor an oversized frame. */
  predicate NotTheAdapters(reply: Reply) {
    reply != Denied(CONTENDED) && reply != Denied(OVERSIZE)
  }

  lemma AdmissionsNeverContend(p: Primitives, s: Installation, binding: ActionBinding, digest: Digest, clock: Option<Instant>)
    ensures var a := AdmitResult(p, s, binding, digest, clock); a.Refused? ==> NotTheAdapters(Denied(a.denial))
    ensures var a := AdmitClaim(p, s, binding, digest, clock); a.Refused? ==> NotTheAdapters(Denied(a.denial))
    ensures var a := AdmitCollector(p, s, binding.mailboxId, digest, clock); a.Refused? ==> NotTheAdapters(Denied(a.denial))
  {
    hide ValidatedMaterial;
  }

  lemma CollectorNeverContends(p: Primitives, s: Installation, id: Uuid, collection: Digest, clock: Option<Instant>, crashes: set<CrashPoint>)
    ensures NotTheAdapters(DecideCollect(p, s, id, collection, clock).reply) && NotTheAdapters(DecideAbandon(p, s, id, collection, clock).reply)
    ensures NotTheAdapters(DecideInspect(p, s, id, collection, clock).reply)
    ensures NotTheAdapters(DecideAcknowledge(p, s, id, collection, clock, crashes).reply)
  {
    hide ViewOf, ValidatedMaterial, BundleFits, Moved, DueNow;
  }

  lemma OfferNeverContends(c: Config, p: Primitives, s: Installation, binding: ActionBinding, envelope: Bytes, actionKey: Bytes,
                           action: Digest, collection: Digest, resultCredential: Bytes, resultDigest: Digest, clock: Option<Instant>)
    ensures NotTheAdapters(DecideOffer(c, p, s, binding, envelope, actionKey, action, collection, resultCredential, resultDigest, clock).reply)
  {
    hide InUse, ViewOf, ValidatedMaterial, SumOver, Moved, DueNow;
  }

  lemma ClaimNeverContends(p: Primitives, s: Installation, binding: ActionBinding, claim: Digest, clock: Option<Instant>, crashes: set<CrashPoint>)
    ensures NotTheAdapters(DecideClaim(p, s, binding, claim, clock, crashes).reply)
  {
    hide AdmitClaim, ViewOf, ActionFits, Moved, DueNow;
    AdmissionsNeverContend(p, s, binding, claim, clock);
  }

  lemma StageNeverContends(c: Config, p: Primitives, s: Installation, binding: ActionBinding, resultDigest: Digest,
                           u: EvidenceUpload, nonce: Nonce, clock: Option<Instant>, crashes: set<CrashPoint>)
    ensures NotTheAdapters(DecideStage(c, p, s, binding, resultDigest, u, nonce, clock, crashes).reply)
  {
    hide AdmitResult, ViewOf, SumOver, EvidenceBytes, Unwrap, Wrap, Moved, DueNow;
    AdmissionsNeverContend(p, s, binding, resultDigest, clock);
  }

  lemma CommitNeverContends(c: Config, p: Primitives, s: Installation, binding: ActionBinding, resultDigest: Digest,
                            json: Bytes, seals: seq<EvidenceSeal>, nonce: Nonce, clock: Option<Instant>, crashes: set<CrashPoint>)
    ensures NotTheAdapters(DecideCommit(c, p, s, binding, resultDigest, json, seals, nonce, clock, crashes).reply)
  {
    hide AdmitResult, ViewOf, SumOver, EvidenceBytes, ReferencesValid, Moved, SealsMatch, SealIds, DueNow;
    AdmissionsNeverContend(p, s, binding, resultDigest, clock);
  }

  lemma CreateNeverContends(c: Config, s: Installation, binding: ActionBinding, action: Digest, claim: Digest, collection: Digest, clock: Option<Instant>)
    ensures NotTheAdapters(DecideCreate(c, s, binding, action, claim, collection, clock).reply)
  {
    hide InUse, ViewOf;
  }

  lemma SweepsNeverContend(c: Config, p: Primitives, s: Installation, maintenance: Digest, clock: Option<Instant>)
    ensures NotTheAdapters(DecideExpire(c, p, s, maintenance, clock).reply) && NotTheAdapters(DecideCollection(c, p, s, maintenance, clock).reply)
  {
    hide ValidatedMaterial, Removed, NewlyExpired;
  }

  /** A step of the machine is never answered with contention or an oversized frame: a caller who
      sees either knows that the durable adapter refused the call. */
  lemma StepNeverContends(c: Config, p: Primitives, s: Installation, q: Request)
    ensures Step(c, p, s, q).reply != Denied(OVERSIZE) && Step(c, p, s, q).reply != Denied(CONTENDED)
  {
    hide Apply, DecideCreate, DecideOffer, DecideClaim, DecideStage, DecideCommit, DecideCollect, DecideAcknowledge, DecideAbandon,
      DecideInspect, DecideExpire, DecideCollection;
    match q.op
    case Create(binding, action, claim, collection) => CreateNeverContends(c, s, binding, action, claim, collection, q.clock);
    case Offer(binding, envelope, actionKey, action, collection, resultCredential, resultDigest) =>
      OfferNeverContends(c, p, s, binding, envelope, actionKey, action, collection, resultCredential, resultDigest, q.clock);
    case Claim(binding, claim) => ClaimNeverContends(p, s, binding, claim, q.clock, q.crashes);
    case Stage(binding, resultDigest, upload, nonce) => StageNeverContends(c, p, s, binding, resultDigest, upload, nonce, q.clock, q.crashes);
    case Commit(binding, resultDigest, resultJson, seals, nonce) =>
      CommitNeverContends(c, p, s, binding, resultDigest, resultJson, seals, nonce, q.clock, q.crashes);
    case Collect(id, collection) => CollectorNeverContends(p, s, id, collection, q.clock, q.crashes);
    case Acknowledge(id, collection) => CollectorNeverContends(p, s, id, collection, q.clock, q.crashes);
    case Abandon(id, collection) => CollectorNeverContends(p, s, id, collection, q.clock, q.crashes);
    case Inspect(id, collection) => CollectorNeverContends(p, s, id, collection, q.clock, q.crashes);
    case Expire(maintenance) => SweepsNeverContend(c, p, s, maintenance, q.clock);
    case GarbageCollect(maintenance) => SweepsNeverContend(c, p, s, maintenance, q.clock);
  }

  // --- Collection of garbage --------------------------------------------------

  lemma LiveFit(c: Config, p: Primitives, s: Installation, now: Instant)
    requires Inv(c, p, s)
    ensures |LiveTombstones(s, now)| <= c.limits.maxTombstones
  {
    hide RecordSemantics, ValidatedMaterial, CredentialsDistinct, WithinQuota, TotalsOf, TombstoneSemantics;
    assert LiveTombstones(s, now).Keys <= s.tombstones.Keys;
    SubsetSize(LiveTombstones(s, now).Keys, s.tombstones.Keys);
    assert |LiveTombstones(s, now)| == |LiveTombstones(s, now).Keys| && |s.tombstones| == |s.tombstones.Keys|;
  }

  lemma CollectionAnswers(c: Config, p: Primitives, s: Installation, maintenance: Digest, clock: Option<Instant>)
    requires DecideCollection(c, p, s, maintenance, clock).reply.Swept?
    ensures clock.Some? && clock.value + c.limits.tombstoneRetention <= MAX_INSTANT
    ensures DecideCollection(c, p, s, maintenance, clock) == Decision(Collecting(clock.value), Swept(Ascending(Removed(c, s, clock.value))))
  {
    hide ValidatedMaterial, Removed;
  }

  /** The tombstones that had not expired and one for each of `gone`, which are as many due mailboxes
      as there were free slots. */
  ghost predicate NewTombstones(c: Config, s: Installation, s': Installation, gone: set<Uuid>, now: Instant) {
    var due, live := DueIds(c, s.records, now), LiveTombstones(s, now);
    && gone <= due && |live| <= c.limits.maxTombstones && |gone| == Smaller(|due|, c.limits.maxTombstones - |live|)
    && s'.tombstones.Keys == live.Keys + gone
    && (forall id | id in live && id !in gone :: s'.tombstones[id] == live[id])
    && (forall id | id in gone :: s'.tombstones[id].createdAt == now && s'.tombstones[id].expiresAt == now + c.limits.tombstoneRetention)
  }

  /** From `s` to `s'` the due mailboxes `gone` are buried and the others only observed; `gone` are
      the oldest ones, as many as there are free tombstone slots. */
  ghost predicate BuriesOldest(c: Config, s: Installation, s': Installation, gone: set<Uuid>, now: Instant) {
    && gone <= DueIds(c, s.records, now) && IsOldestPart(s.records, DueIds(c, s.records, now), gone)
    && s'.records.Keys == s.records.Keys - gone
    && (forall id | id in s'.records :: s'.records[id] == s.records[id].(lastSeen := now))
    && NewTombstones(c, s, s', gone, now)
  }

  lemma RemovedIsOldest(c: Config, s: Installation, now: Instant)
    requires |LiveTombstones(s, now)| <= c.limits.maxTombstones
    ensures Removed(c, s, now) <= DueIds(c, s.records, now)
    ensures IsOldestPart(s.records, DueIds(c, s.records, now), Removed(c, s, now))
    ensures |Removed(c, s, now)| == Smaller(|DueIds(c, s.records, now)|, c.limits.maxTombstones - |LiveTombstones(s, now)|)
  {
    hide IsOldestPart, LiveTombstones, DueIds, Oldest;
    OldestIsOldest(s.records, DueIds(c, s.records, now), c.limits.maxTombstones - |LiveTombstones(s, now)|);
  }

  lemma CollectedKeepsRecords(c: Config, s: Installation, now: Instant)
    ensures forall id | id in CollectedAll(c, s, now).records :: id in s.records && CollectedAll(c, s, now).records[id] == s.records[id].(lastSeen := now)
  {
    hide Removed, LiveTombstones;
  }

  lemma CollectedKeepsTombstones(c: Config, s: Installation, now: Instant)
    requires now + c.limits.tombstoneRetention <= MAX_INSTANT
    ensures forall id | id in LiveTombstones(s, now) && id !in Removed(c, s, now) ::
              id in CollectedAll(c, s, now).tombstones && CollectedAll(c, s, now).tombstones[id] == LiveTombstones(s, now)[id]
    ensures forall id | id in Removed(c, s, now) ::
              id in CollectedAll(c, s, now).tombstones && CollectedAll(c, s, now).tombstones[id] == Tombstone(now, now + c.limits.tombstoneRetention)
  {
    hide Removed, LiveTombstones;
  }

  lemma CollectedBuriesOldest(c: Config, s: Installation, now: Instant)
    requires |LiveTombstones(s, now)| <= c.limits.maxTombstones && now + c.limits.tombstoneRetention <= MAX_INSTANT
    ensures BuriesOldest(c, s, CollectedAll(c, s, now), Removed(c, s, now), now)
  {
    hide Removed, IsOldestPart, DueIds, LiveTombstones, CollectedAll;
    RemovedIsOldest(c, s, now);
    CollectedKeys(c, s, now);
    CollectedKeepsRecords(c, s, now);
    CollectedKeepsTombstones(c, s, now);
  }

  lemma StepCollects(c: Config, p: Primitives, s: Installation, q: Request)
    requires q.op.GarbageCollect? && Step(c, p, s, q).reply.Swept?
    ensures q.clock.Some? && q.clock.value + c.limits.tombstoneRetention <= MAX_INSTANT
    ensures Step(c, p, s, q).after == CollectedAll(c, s, q.clock.value)
    ensures Step(c, p, s, q).reply.ids == Ascending(Removed(c, s, q.clock.value))
  {
    hide Removed, CollectedAll, DecideCollection;
    CollectionAnswers(c, p, s, q.op.maintenance, q.clock);
  }

  function SweptIds(reply: Reply): set<Uuid>
    requires reply.Swept?
  {
    set id | id in reply.ids
  }

  /** A collection of garbage buries exactly the oldest due mailboxes, as many as there are free
      tombstone slots, answers their identifiers in order, and leaves the others as they were. */
  lemma CollectionIsExact(c: Config, p: Primitives, s: Installation, q: Request)
    requires Inv(c, p, s) && q.op.GarbageCollect? && Step(c, p, s, q).reply.Swept?
    ensures q.clock.Some?
    ensures BuriesOldest(c, s, Step(c, p, s, q).after, SweptIds(Step(c, p, s, q).reply), q.clock.value)
    ensures forall i, j | 0 <= i < j < |Step(c, p, s, q).reply.ids| :: Step(c, p, s, q).reply.ids[i] < Step(c, p, s, q).reply.ids[j]
  {
    hide Inv, BuriesOldest, Removed, CollectedAll, Step, LiveTombstones;
    StepCollects(c, p, s, q);
    var now := q.clock.value;
    LiveFit(c, p, s, now);
    CollectedBuriesOldest(c, s, now);
    assert SweptIds(Step(c, p, s, q).reply) == Removed(c, s, now);
  }

  // --- The expiry sweep -------------------------------------------------------

  lemma StepSweeps(c: Config, p: Primitives, s: Installation, q: Request)
    requires q.op.Expire? && Step(c, p, s, q).reply.Swept?
    ensures q.clock.Some? && Step(c, p, s, q).after == SweptAll(p, s, q.clock.value)
    ensures Step(c, p, s, q).reply.ids == Ascending(NewlyExpired(s.records, q.clock.value))
  {
    hide SweptAll, NewlyExpired, ValidatedMaterial;
  }

  lemma SweptStates(p: Primitives, r: Record, now: Instant)
    ensures SweptRecord(p, r, now).state == (if DueNow(r, now) then EXPIRED else r.state)
    ensures !DueNow(r, now) ==> SweptRecord(p, r, now) == r.(lastSeen := now)
  {
    hide DueNow, WrapResult, BuildManifest, Wrap;
  }

  /** The sweep answers, in order, exactly the mailboxes that it turned to EXPIRED, and only observes
      those that are not due. */
  lemma ExpireIsExact(c: Config, p: Primitives, s: Installation, q: Request)
    requires q.op.Expire? && Step(c, p, s, q).reply.Swept?
    ensures q.clock.Some? && Step(c, p, s, q).after.records.Keys == s.records.Keys
    ensures forall id :: id in Step(c, p, s, q).reply.ids <==>
              id in s.records && s.records[id].state != EXPIRED && Step(c, p, s, q).after.records[id].state == EXPIRED
    ensures forall i, j | 0 <= i < j < |Step(c, p, s, q).reply.ids| :: Step(c, p, s, q).reply.ids[i] < Step(c, p, s, q).reply.ids[j]
    ensures forall id | id in s.records && !DueNow(s.records[id], q.clock.value) ::
              Step(c, p, s, q).after.records[id] == s.records[id].(lastSeen := q.clock.value)
  {
    hide Step, SweptRecord, DueNow;
    StepSweeps(c, p, s, q);
    var now := q.clock.value;
    forall id | id in s.records
      ensures SweptRecord(p, s.records[id], now).state == (if DueNow(s.records[id], now) then EXPIRED else s.records[id].state)
      ensures !DueNow(s.records[id], now) ==> SweptRecord(p, s.records[id], now) == s.records[id].(lastSeen := now)
    {
      SweptStates(p, s.records[id], now);
    }
  }
}

/** What every operation answers and what it leaves, field by field of the record it addresses. */
module MailboxEffects {
  import opened Identifiers
  import opened MailboxDomain
  import opened MailboxCrypto
  import opened MailboxMachine
  import opened MailboxInvariant
  import opened MailboxFates
  import opened MailboxRuns
  import MailboxAuthority

  /** From `s` to `s'` mailbox `id` becomes `r`, `now` is the latest time seen, and nothing else changes. */
  ghost predicate Became(s: Installation, s': Installation, id: Uuid, r: Record, now: Instant) {
    s'.records == s.records[id := r] && s'.tombstones == s.tombstones && s'.highWater == Some(now)
  }

  /** The call was answered with this and changed nothing. */
  ghost predicate Without(s: Installation, o: Outcome, reply: Reply) {
    o.after == s && o.reply == reply
  }

  /** A snapshot of `r`. */
  predicate Shows(reply: Reply, r: Record) {
    && reply.Snapshot?
    && reply.view.mailboxId == r.binding.mailboxId && reply.view.state == r.state && reply.view.collection == r.collection
    && reply.view.evidenceCount == |r.evidence| && reply.view.evidenceBytes == SumOver(r.evidence, ItemBytes)
    && (reply.view.resultPresent <==> r.result.Some?)
    && (reply.view.claimMaterialRetained <==> r.actionKey.Some? || r.envelope.Some?)
    && (reply.view.resultCredentialRetained <==> r.resultCredential.Some?)
    && reply.view.observedAt == r.lastSeen
    && reply.view.claimDeadline == r.binding.claimDeadline && reply.view.deadline == r.binding.deadline
  }

  /** A clock reading that is usable and not behind what the installation has seen. */
  predicate Usable(s: Installation, clock: Option<Instant>) {
    clock.Some? && (s.highWater.Some? ==> s.highWater.value <= clock.value)
  }

  /** Expired already, or at the deadline that applies before or after the claim. */
  predicate Late(r: Record, now: Instant) {
    match r.state
    case EMPTY => now >= r.binding.claimDeadline
    case OFFERED => now >= r.binding.claimDeadline
    case CLAIMED_ONCE => now >= r.binding.deadline
    case state => state == EXPIRED
  }

  /** What a late record is turned into: nothing but its identity, times and own credentials remain. */
  function Lapsed(r: Record, now: Instant): Record {
    if r.state == EXPIRED then r.(lastSeen := now)
    else
      r.(state := EXPIRED, terminalAt := Some(now), lastSeen := now, envelope := None, actionKey := None, resultCredential := None,
         resultDigest := None, evidence := map[], result := None, manifest := None)
  }

  /** Refused as expired, and the record has lapsed. */
  ghost predicate RefusedLate(s: Installation, o: Outcome, id: Uuid, now: Instant)
    requires id in s.records
  {
    Became(s, o.after, id, Lapsed(s.records[id], now), now) && o.reply == Denied(DENIED_EXPIRED)
  }

  /** How an unknown mailbox is answered. */
  function Missing(s: Installation, id: Uuid): Reply {
    Denied(if id in s.tombstones then REPLAY else NOT_FOUND)
  }

  // --- Shared steps of the proofs ---------------------------------------------

  lemma LateIsDue(p: Primitives, r: Record, now: Instant)
    ensures DueNow(r, now) <==> Late(r, now)
    ensures Late(r, now) ==> Moved(p, r, Expiry, now) == Lapsed(r, now)
  {
  }

  lemma ViewShows(r: Record)
    ensures Shows(Snapshot(ViewOf(r)), r)
  {
  }

  lemma PutBecomes(s: Installation, r: Record, now: Instant)
    requires NotAhead(s, now)
    ensures Became(s, Put(s, r, now), r.binding.mailboxId, r, now)
  {
  }

  /** In a reachable state a known mailbox is reached exactly with a usable clock. */
  lemma ReachedExactly(c: Config, p: Primitives, s: Installation, id: Uuid, clock: Option<Instant>)
    requires Inv(c, p, s) && id in s.records
    ensures Good(p, s.records[id]) && s.records[id].binding.mailboxId == id
    ensures ValidatedMaterial(p, s.records[id]).Some?
    ensures Admit(p, s, s.records[id], clock) ==
              if Usable(s, clock) then Admitted(s.records[id], clock.value, ValidatedMaterial(p, s.records[id]).value)
              else Admission.Refused(INTERNAL_UNCERTAINTY)
    ensures Usable(s, clock) ==> NotAhead(s, clock.value)
  {
    hide Inv, Good, FreeFor, ValidatedMaterial, Admit;
    InvAt(c, p, s, id);
    MailboxAuthority.AdmitExactly(c, p, s, id, clock);
  }

  /** A move of a reached record, spelled out. */
  lemma MoveBecomes(c: Config, p: Primitives, s: Installation, id: Uuid, move: Move, now: Instant)
    requires id in s.records && s.records[id].binding.mailboxId == id && NotAhead(s, now)
    ensures Became(s, Apply(c, p, s, Movement(id, move, now)), id, Moved(p, s.records[id], move, now), now)
    ensures Shows(Snapshot(ViewOf(Moved(p, s.records[id], move, now))), Moved(p, s.records[id], move, now))
    ensures move.Expiry? && Late(s.records[id], now) ==> Moved(p, s.records[id], move, now) == Lapsed(s.records[id], now)
  {
    hide Moved, Put, Became, Shows, ViewOf, NotAhead, Late, Lapsed;
    LateIsDue(p, s.records[id], now);
    MovedKeepsBinding(p, s.records[id], move, now);
    PutBecomes(s, Moved(p, s.records[id], move, now), now);
    ViewShows(Moved(p, s.records[id], move, now));
  }

  // --- Operations of the collector --------------------------------------------

  /** Acknowledging a delivered bundle gives up its data for good; acknowledging again only observes. */
  lemma AcknowledgeExactly(c: Config, p: Primitives, s: Installation, id: Uuid, digest: Digest, clock: Option<Instant>, crashes: set<CrashPoint>)
    requires Inv(c, p, s)
    ensures var o := Step(c, p, s, Request(Acknowledge(id, digest), clock, crashes));
            if id !in s.records then Without(s, o, Missing(s, id))
            else if s.records[id].collectionDigest != digest then Without(s, o, Denied(UNAUTHORIZED))
            else if !Usable(s, clock) then Without(s, o, Denied(INTERNAL_UNCERTAINTY))
            else
              var r, now := s.records[id], clock.value;
              if r.collection == ACKNOWLEDGED then
                Became(s, o.after, id, r.(lastSeen := now), now) && Shows(o.reply, r.(lastSeen := now))
              else if r.collection != DELIVERING then Without(s, o, Denied(INVALID_STATE))
              else if BEFORE_COLLECTION_ACK in crashes then Without(s, o, Crashed(BEFORE_COLLECTION_ACK))
              else
                var r' := r.(result := None, manifest := None, evidence := map[], collection := ACKNOWLEDGED, terminalAt := Some(now), lastSeen := now);
                Became(s, o.after, id, r', now) && if AFTER_COLLECTION_ACK in crashes then o.reply == Crashed(AFTER_COLLECTION_ACK) else Shows(o.reply, r')
  {
    hide Inv, Good, Admit, ValidatedMaterial, Became, Shows, ViewOf, Put, NotAhead;
    if id in s.records {
      ReachedExactly(c, p, s, id, clock);
      CollectionTells(p, s.records[id]);
      if Usable(s, clock) {
        MoveBecomes(c, p, s, id, Observing, clock.value);
        MoveBecomes(c, p, s, id, Acknowledging, clock.value);
      }
    }
  }

  /** The collection state of a good record says whether it holds a committed result. */
  lemma CollectionTells(p: Primitives, r: Record)
    requires Good(p, r)
    ensures r.collection != NONE <==> r.state == RESULT_COMMITTED
    ensures r.collection == READY || r.collection == DELIVERING ==>
              r.result.Some? && ValidatedMaterial(p, r).Some? && ValidatedMaterial(p, r).value.result.Some?
  {
    hide EvidenceSlots, ReferencesValid, BuildManifest, UnwrapResult, OwnCredentialsDistinct, EvidenceBounded, SumOver;
  }

  /** Collecting a committed result marks it as being delivered and returns exactly what was committed,
      unless the text is longer than a bundle may carry. */
  lemma CollectExactly(c: Config, p: Primitives, s: Installation, id: Uuid, digest: Digest, clock: Option<Instant>, crashes: set<CrashPoint>)
    requires Inv(c, p, s)
    ensures var o := Step(c, p, s, Request(Collect(id, digest), clock, crashes));
            if id !in s.records then Without(s, o, Missing(s, id))
            else if s.records[id].collectionDigest != digest then Without(s, o, Denied(UNAUTHORIZED))
            else if !Usable(s, clock) then Without(s, o, Denied(INTERNAL_UNCERTAINTY))
            else
              var r, now := s.records[id], clock.value;
              if r.collection == ACKNOWLEDGED then Without(s, o, Denied(REPLAY))
              else if r.collection == NONE then Without(s, o, Denied(INVALID_STATE))
              else
                && Became(s, o.after, id, r.(collection := DELIVERING, lastSeen := now), now)
                && ValidatedMaterial(p, r).Some? && ValidatedMaterial(p, r).value.result.Some?
                && var json := ValidatedMaterial(p, r).value.result.value;
                   o.reply == if |json| <= MAX_RESULT_ENVELOPE_BYTES then Bundle(r.binding, json, ValidatedMaterial(p, r).value.evidence) else Fault
  {
    hide Inv, Good, Admit, ValidatedMaterial, Became, Shows, ViewOf, Put, NotAhead, BundleFits;
    if id in s.records {
      ReachedExactly(c, p, s, id, clock);
      CollectionTells(p, s.records[id]);
      var r := s.records[id];
      if r.collection == READY || r.collection == DELIVERING {
        BundleFitsExactly(p, r, ValidatedMaterial(p, r).value.result.value, ValidatedMaterial(p, r).value.evidence);
      }
      if Usable(s, clock) {
        MoveBecomes(c, p, s, id, Delivering, clock.value);
      }
    }
  }

  /** Abandoning a mailbox that is open and in time releases everything it holds; a late one is
      refused as expired and lapses. */
  lemma AbandonExactly(c: Config, p: Primitives, s: Installation, id: Uuid, digest: Digest, clock: Option<Instant>, crashes: set<CrashPoint>)
    requires Inv(c, p, s)
    ensures var o := Step(c, p, s, Request(Abandon(id, digest), clock, crashes));
            if id !in s.records then Without(s, o, Missing(s, id))
            else if s.records[id].collectionDigest != digest then Without(s, o, Denied(UNAUTHORIZED))
            else if !Usable(s, clock) then Without(s, o, Denied(INTERNAL_UNCERTAINTY))
            else
              var r, now := s.records[id], clock.value;
              if Late(r, now) then RefusedLate(s, o, id, now)
              else if r.state == RESULT_COMMITTED || r.state == ABANDONED then Without(s, o, Denied(INVALID_STATE))
              else
                var r' := r.(state := ABANDONED, terminalAt := Some(now), lastSeen := now, envelope := None, actionKey := None, resultCredential := None,
                             resultDigest := None, evidence := map[], result := None, manifest := None);
                Became(s, o.after, id, r', now) && Shows(o.reply, r')
  {
    hide Inv, Good, Admit, ValidatedMaterial, Became, Shows, ViewOf, Put, NotAhead, Lapsed;
    if id in s.records {
      ReachedExactly(c, p, s, id, clock);
      if Usable(s, clock) {
        LateIsDue(p, s.records[id], clock.value);
        MoveBecomes(c, p, s, id, Expiry, clock.value);
        MoveBecomes(c, p, s, id, Abandonment, clock.value);
      }
    }
  }

  /** An inspection always shows the mailbox, lapsed first if it is late. */
  lemma InspectExactly(c: Config, p: Primitives, s: Installation, id: Uuid, digest: Digest, clock: Option<Instant>, crashes: set<CrashPoint>)
    requires Inv(c, p, s)
    ensures var o := Step(c, p, s, Request(Inspect(id, digest), clock, crashes));
            if id !in s.records then Without(s, o, Missing(s, id))
            else if s.records[id].collectionDigest != digest then Without(s, o, Denied(UNAUTHORIZED))
            else if !Usable(s, clock) then Without(s, o, Denied(INTERNAL_UNCERTAINTY))
            else
              var r, now := s.records[id], clock.value;
              var r' := if Late(r, now) then Lapsed(r, now) else r.(lastSeen := now);
              Became(s, o.after, id, r', now) && Shows(o.reply, r')
  {
    hide Inv, Good, Admit, ValidatedMaterial, Became, Shows, ViewOf, Put, NotAhead, Lapsed;
    if id in s.records {
      ReachedExactly(c, p, s, id, clock);
      if Usable(s, clock) {
        LateIsDue(p, s.records[id], clock.value);
        MoveBecomes(c, p, s, id, Expiry, clock.value);
        MoveBecomes(c, p, s, id, Observing, clock.value);
      }
    }
  }

  // --- Creation, offer and claim -----------------------------------------------

  /** A digest that some mailbox is known by in one of its four roles. */
  predicate Held(r: Record, digest: Digest) {
    r.actionDigest == digest || r.claimDigest == digest || r.collectionDigest == digest || r.resultDigest == Some(digest)
  }

  predicate HeldByAny(s: Installation, digest: Digest) {
    exists id :: id in s.records && Held(s.records[id], digest)
  }

  /** A creation is answered with the new, empty mailbox, or with the first condition it fails. */
  lemma CreateExactly(c: Config, p: Primitives, s: Installation, q: Request)
    requires q.op.Create?
    ensures var o, b := Step(c, p, s, q), q.op.binding;
            if !Usable(s, q.clock) then Without(s, o, Denied(INTERNAL_UNCERTAINTY))
            else if b.mailboxId in s.records then Without(s, o, Denied(ALREADY_EXISTS))
            else if b.mailboxId in s.tombstones then Without(s, o, Denied(REPLAY))
            else if |s.records| >= c.limits.maxMailboxes then Without(s, o, Denied(QUOTA_EXCEEDED))
            else if q.op.action == q.op.claim || q.op.action == q.op.collection || q.op.claim == q.op.collection
                    || c.maintenance == q.op.action || c.maintenance == q.op.claim || c.maintenance == q.op.collection then
              Without(s, o, Denied(INVALID_INPUT))
            else if HeldByAny(s, q.op.action) || HeldByAny(s, q.op.claim) || HeldByAny(s, q.op.collection) then Without(s, o, Denied(REPLAY))
            else if q.clock.value >= b.claimDeadline then Without(s, o, Denied(DENIED_EXPIRED))
            else
              var now := q.clock.value;
              var r := Record(b, now, now, q.op.action, q.op.claim, q.op.collection, EMPTY, NONE, None, None, None, None, map[], None, None, None, None);
              Became(s, o.after, b.mailboxId, r, now) && Shows(o.reply, r)
  {
    hide InUse, HeldByAny, ViewOf, Shows, Became, Put;
    MailboxAuthority.DistinctThreeExactly(q.op.action, q.op.claim, q.op.collection);
    InUseIsHeld(s, q.op.action);
    InUseIsHeld(s, q.op.claim);
    InUseIsHeld(s, q.op.collection);
    if Usable(s, q.clock) {
      var r := NewRecord(q.op.binding, q.clock.value, q.op.action, q.op.claim, q.op.collection);
      PutBecomes(s, r, q.clock.value);
      ViewShows(r);
    }
  }

  lemma InUseIsHeld(s: Installation, digest: Digest)
    ensures InUse(s.records, digest, None) <==> HeldByAny(s, digest)
  {
    hide Held, Credentials;
    forall id | id in s.records ensures digest in Credentials(s.records[id]) <==> Held(s.records[id], digest) {
      CredentialIsHeld(s.records[id], digest);
    }
  }

  lemma CredentialIsHeld(r: Record, digest: Digest)
    ensures digest in Credentials(r) <==> Held(r, digest)
  {
  }

  /** Another mailbox is known by the digest. */
  predicate HeldByOther(s: Installation, digest: Digest, id: Uuid) {
    exists other :: other in s.records && other != id && Held(s.records[other], digest)
  }

  lemma InUseIsHeldByOther(s: Installation, digest: Digest, id: Uuid)
    ensures InUse(s.records, digest, Some(id)) <==> HeldByOther(s, digest, id)
  {
    hide Held, Credentials;
    forall other | other in s.records ensures digest in Credentials(s.records[other]) <==> Held(s.records[other], digest) {
      CredentialIsHeld(s.records[other], digest);
    }
  }

  /** An offer puts the material into an empty mailbox in time, or is answered with the first condition it fails. */
  lemma OfferExactly(c: Config, p: Primitives, s: Installation, q: Request)
    requires Inv(c, p, s) && q.op.Offer?
    ensures var o, id := Step(c, p, s, q), q.op.binding.mailboxId;
            if id !in s.records then Without(s, o, Missing(s, id))
            else
              var r := s.records[id];
              if r.binding != q.op.binding then Without(s, o, Denied(BINDING_MISMATCH))
              else if r.collectionDigest != q.op.collection || r.actionDigest != q.op.action then Without(s, o, Denied(UNAUTHORIZED))
              else if !Usable(s, q.clock) then Without(s, o, Denied(INTERNAL_UNCERTAINTY))
              else if q.op.resultDigest in {r.actionDigest, r.claimDigest, r.collectionDigest, c.maintenance} then Without(s, o, Denied(INVALID_INPUT))
              else if HeldByOther(s, q.op.resultDigest, id) then Without(s, o, Denied(REPLAY))
              else if Late(r, q.clock.value) then RefusedLate(s, o, id, q.clock.value)
              else if r.state != EMPTY then Without(s, o, Denied(REPLAY))
              else if SumOver(s.records, ActiveBytes) + |q.op.envelope| + |q.op.actionKey| + |q.op.resultCredential| > c.limits.maxActiveBytes then
                Without(s, o, Denied(QUOTA_EXCEEDED))
              else
                var r' := r.(state := OFFERED, lastSeen := q.clock.value, envelope := Some(q.op.envelope), actionKey := Some(q.op.actionKey),
                             resultCredential := Some(q.op.resultCredential), resultDigest := Some(q.op.resultDigest));
                Became(s, o.after, id, r', q.clock.value) && Shows(o.reply, r')
  {
    hide Inv, Good, Admit, ValidatedMaterial, Became, Shows, ViewOf, Put, NotAhead, Lapsed, Late, DueNow, InUse, HeldByOther, SumOver;
    var id := q.op.binding.mailboxId;
    if id in s.records {
      ReachedExactly(c, p, s, id, q.clock);
      var r := s.records[id];
      ThreeDistinct(p, r);
      MailboxAuthority.FourDistinctExactly(r.actionDigest, r.claimDigest, r.collectionDigest, q.op.resultDigest);
      InUseIsHeldByOther(s, q.op.resultDigest, id);
      if Usable(s, q.clock) {
        LateIsDue(p, r, q.clock.value);
        MoveBecomes(c, p, s, id, Expiry, q.clock.value);
        MoveBecomes(c, p, s, id, Offering(q.op.envelope, q.op.actionKey, q.op.resultCredential, q.op.resultDigest), q.clock.value);
      }
    }
  }

  lemma ThreeDistinct(p: Primitives, r: Record)
    requires Good(p, r)
    ensures r.actionDigest != r.claimDigest && r.actionDigest != r.collectionDigest && r.claimDigest != r.collectionDigest
    ensures r.state == OFFERED ==> r.envelope.Some? && r.actionKey.Some? && r.resultCredential.Some?
    ensures r.state == CLAIMED_ONCE ==> r.resultDigest.Some?
    ensures r.resultDigest.Some? ==> r.state == OFFERED || r.state == CLAIMED_ONCE
  {
    hide ValidatedMaterial, EvidenceBounded, SumOver;
  }

  /** A claim hands out the offered action and forgets it in the same step, or is answered with the
      first condition it fails. */
  lemma ClaimExactly(c: Config, p: Primitives, s: Installation, q: Request)
    requires Inv(c, p, s) && q.op.Claim?
    ensures var o, id := Step(c, p, s, q), q.op.binding.mailboxId;
            if id !in s.records then Without(s, o, Missing(s, id))
            else
              var r := s.records[id];
              if r.claimDigest != q.op.claim then Without(s, o, Denied(UNAUTHORIZED))
              else if r.binding != q.op.binding then Without(s, o, Denied(BINDING_MISMATCH))
              else if !Usable(s, q.clock) then Without(s, o, Denied(INTERNAL_UNCERTAINTY))
              else if Late(r, q.clock.value) then RefusedLate(s, o, id, q.clock.value)
              else if r.state != OFFERED then Without(s, o, Denied(REPLAY))
              else if BEFORE_CLAIM_COMMIT in q.crashes then Without(s, o, Crashed(BEFORE_CLAIM_COMMIT))
              else
                && r.envelope.Some? && r.actionKey.Some? && r.resultCredential.Some?
                && Became(s, o.after, id, r.(state := CLAIMED_ONCE, lastSeen := q.clock.value, envelope := None, actionKey := None, resultCredential := None), q.clock.value)
                && o.reply ==
                   if AFTER_CLAIM_COMMIT in q.crashes then Crashed(AFTER_CLAIM_COMMIT)
                   else if && 0 < |r.envelope.value| <= MAX_ACTION_ENVELOPE_BYTES && |r.actionKey.value| == ACTION_KEY_BYTES
                           && MIN_CREDENTIAL_BYTES <= |r.resultCredential.value| <= MAX_CREDENTIAL_BYTES then
                     Claimed(r.binding, r.envelope.value, r.actionKey.value, r.resultCredential.value)
                   else Fault
  {
    hide Inv, Good, Admit, ValidatedMaterial, Became, Shows, ViewOf, Put, NotAhead, Lapsed, Late, DueNow;
    var id := q.op.binding.mailboxId;
    if id in s.records {
      ReachedExactly(c, p, s, id, q.clock);
      ThreeDistinct(p, s.records[id]);
      if Usable(s, q.clock) {
        LateIsDue(p, s.records[id], q.clock.value);
        MoveBecomes(c, p, s, id, Expiry, q.clock.value);
        MoveBecomes(c, p, s, id, Claiming, q.clock.value);
      }
    }
  }

  // --- Evidence and results -----------------------------------------------------

  /** The checks every call of the claimant makes before it is looked at, in their order; `None` when it passes. */
  function Turned(s: Installation, binding: ActionBinding, digest: Digest, clock: Option<Instant>): (reply: Option<Reply>)
    ensures reply.None? ==> binding.mailboxId in s.records && Usable(s, clock)
  {
    var id := binding.mailboxId;
    if id !in s.records then Some(Missing(s, id))
    else if s.records[id].binding != binding then Some(Denied(BINDING_MISMATCH))
    else if s.records[id].state != CLAIMED_ONCE then Some(Denied(REPLAY))
    else if s.records[id].resultDigest != Some(digest) then Some(Denied(UNAUTHORIZED))
    else if !Usable(s, clock) then Some(Denied(INTERNAL_UNCERTAINTY))
    else None
  }

  lemma ResultReached(c: Config, p: Primitives, s: Installation, binding: ActionBinding, digest: Digest, clock: Option<Instant>)
    requires Inv(c, p, s)
    ensures var a := AdmitResult(p, s, binding, digest, clock);
            match Turned(s, binding, digest, clock)
            case Some(reply) => a.Refused? && reply == Denied(a.denial)
            case None =>
              var r := s.records[binding.mailboxId];
              && Good(p, r) && r.binding == binding && r.state == CLAIMED_ONCE && NotAhead(s, clock.value) && ValidatedMaterial(p, r).Some?
              && a == Admitted(r, clock.value, ValidatedMaterial(p, r).value)
              && EvidenceSlots(p, r) == Some(ValidatedMaterial(p, r).value.evidence)
  {
    hide Inv, Good, Admit, ValidatedMaterial, EvidenceSlots;
    if binding.mailboxId in s.records {
      ReachedExactly(c, p, s, binding.mailboxId, clock);
      ThreeDistinct(p, s.records[binding.mailboxId]);
      if s.records[binding.mailboxId].state == CLAIMED_ONCE {
        ClaimedMaterial(p, s.records[binding.mailboxId]);
      }
    }
  }

  /** The record now also holds this upload, readable only as what it was, and nothing else changed. */
  ghost predicate Holds(p: Primitives, r: Record, r': Record, u: EvidenceUpload, now: Instant) {
    && u.objectId in r'.evidence
    && Unwrap(p, r.binding.mailboxId, u.objectId, r'.evidence[u.objectId]) == Some(u)
    && r' == r.(evidence := r.evidence[u.objectId := r'.evidence[u.objectId]], lastSeen := now)
    && SumOver(r'.evidence, ItemBytes) == SumOver(r.evidence, ItemBytes) + |u.payload|
  }

  lemma StagedHoldsUpload(p: Primitives, r: Record, u: EvidenceUpload, nonce: Nonce, now: Instant)
    requires Sound(p) && p.hash(u.payload) == u.payloadDigest && u.objectId !in r.evidence
    ensures Holds(p, r, Moved(p, r, Staging(u, nonce), now), u, now)
    ensures Unwrap(p, r.binding.mailboxId, u.objectId, Wrap(p, r.binding.mailboxId, u, nonce)).Some?
  {
    hide Sound, Unwrap, SumOver;
    UnwrapWrap(p, r.binding.mailboxId, u, nonce);
    SumUpdate(r.evidence, u.objectId, Wrap(p, r.binding.mailboxId, u, nonce), ItemBytes);
  }

  /** Staged evidence is kept as uploaded next to what was staged before, or the call is answered with
      the first condition it fails. */
  lemma StageExactly(c: Config, p: Primitives, s: Installation, q: Request)
    requires Sound(p) && Inv(c, p, s) && q.op.Stage?
    ensures var o, id, u := Step(c, p, s, q), q.op.binding.mailboxId, q.op.upload;
            match Turned(s, q.op.binding, q.op.resultDigest, q.clock)
            case Some(reply) => Without(s, o, reply)
            case None =>
              var r, now := s.records[id], q.clock.value;
              if now >= r.binding.deadline then RefusedLate(s, o, id, now)
              else if u.objectId in r.evidence then Without(s, o, Denied(REPLAY))
              else if |r.evidence| >= MAX_EVIDENCE_ITEMS || SumOver(r.evidence, ItemBytes) + |u.payload| > r.binding.responseBytes then
                Without(s, o, Denied(EVIDENCE_LIMIT))
              else if SumOver(s.records, EvidenceBytes) + |u.payload| > c.limits.maxEvidenceBytes then Without(s, o, Denied(QUOTA_EXCEEDED))
              else if p.hash(u.payload) != u.payloadDigest then Without(s, o, Denied(DIGEST_MISMATCH))
              else if BEFORE_EVIDENCE_COMMIT in q.crashes then Without(s, o, Crashed(BEFORE_EVIDENCE_COMMIT))
              else
                && id in o.after.records && Holds(p, r, o.after.records[id], u, now)
                && Became(s, o.after, id, o.after.records[id], now)
                && if AFTER_EVIDENCE_COMMIT in q.crashes then o.reply == Crashed(AFTER_EVIDENCE_COMMIT) else Shows(o.reply, o.after.records[id])
  {
    hide Sound, Inv, Good, AdmitResult, ValidatedMaterial, EvidenceSlots, Shows, ViewOf, Put, NotAhead, Lapsed, DueNow, Turned, Wrap, Unwrap, SumOver, Moved, Holds;
    var id, u := q.op.binding.mailboxId, q.op.upload;
    ResultReached(c, p, s, q.op.binding, q.op.resultDigest, q.clock);
    if Turned(s, q.op.binding, q.op.resultDigest, q.clock).None? {
      var r, now := s.records[id], q.clock.value;
      LateIsDue(p, r, now);
      MoveBecomes(c, p, s, id, Expiry, now);
      MoveBecomes(c, p, s, id, Staging(u, q.op.nonce), now);
      if p.hash(u.payload) == u.payloadDigest && u.objectId !in r.evidence {
        StagedHoldsUpload(p, r, u, q.op.nonce, now);
      }
    }
  }

  /** The seal describes this upload. */
  predicate Describes(seal: EvidenceSeal, u: EvidenceUpload) {
    seal.kind == u.kind && seal.payloadDigest == u.payloadDigest && seal.byteCount == |u.payload|
  }

  /** The text parses to a result of this action and attempt whose seals name every piece of evidence
      once, no other, and describe each. */
  ghost predicate Agrees(p: Primitives, b: ActionBinding, json: Bytes, evidence: map<Uuid, EvidenceUpload>) {
    && p.parseResult(json).Some?
    && var result := p.parseResult(json).value;
       && result.actionId == b.actionId && result.attemptId == b.attemptId && |result.evidence| == |evidence|
       && (forall id :: id in evidence <==> exists k :: 0 <= k < |result.evidence| && result.evidence[k].objectId == id)
       && forall k | 0 <= k < |result.evidence| :: Describes(result.evidence[k], evidence[result.evidence[k].objectId])
  }

  lemma AgreesExactly(p: Primitives, b: ActionBinding, json: Bytes, evidence: map<Uuid, EvidenceUpload>)
    ensures ReferencesValid(p, b, json, evidence) <==> Agrees(p, b, json, evidence)
  {
    if p.parseResult(json).Some? {
      var result := p.parseResult(json).value;
      var ids := set seal | seal in result.evidence :: seal.objectId;
      assert |evidence| == |evidence.Keys|;
      if ids == evidence.Keys {
        forall id ensures id in evidence <==> exists k :: 0 <= k < |result.evidence| && result.evidence[k].objectId == id {
          assert id in evidence <==> id in ids;
        }
      }
      if Agrees(p, b, json, evidence) {
        forall id ensures id in ids <==> id in evidence.Keys {
          if id in evidence {
            var k :| 0 <= k < |result.evidence| && result.evidence[k].objectId == id;
            assert result.evidence[k] in result.evidence;
          }
        }
        assert ids == evidence.Keys;
      }
    }
  }

  /** What a commit leaves: the text and the evidence staged so far can be read back, and no one can
      present the result credential again. */
  ghost predicate Sealed(p: Primitives, r: Record, r': Record, json: Bytes, now: Instant) {
    && r'.result.Some? && r'.manifest.Some? && r'.result.value.byteCount == |json|
    && r' == r.(result := r'.result, manifest := r'.manifest, state := RESULT_COMMITTED, collection := READY, resultDigest := None,
                committedAt := Some(now), lastSeen := now)
    && ValidatedMaterial(p, r).Some? && ValidatedMaterial(p, r') == Some(Material(ValidatedMaterial(p, r).value.evidence, Some(json)))
  }

  lemma CommittedIsSealed(p: Primitives, r: Record, json: Bytes, nonce: Nonce, now: Instant)
    requires Sound(p) && Good(p, r) && r.state == CLAIMED_ONCE && r.lastSeen <= now
    requires |json| + EvidenceBytes(r) <= r.binding.responseBytes
    requires ValidatedMaterial(p, r).Some? && ReferencesValid(p, r.binding, json, ValidatedMaterial(p, r).value.evidence)
    ensures Sealed(p, r, Moved(p, r, Committing(json, nonce), now), json, now)
  {
    hide Sound, Good, ValidatedMaterial, ReferencesValid, EvidenceBytes, BuildManifest, BindingDigest, ResultAad;
    CommittedGood(p, r, json, nonce, now);
  }

  /** The objects the seals name. */
  predicate Names(seals: seq<EvidenceSeal>, id: Uuid) {
    exists k :: 0 <= k < |seals| && seals[k].objectId == id
  }

  lemma NamesExactly(seals: seq<EvidenceSeal>, evidence: map<Uuid, EvidenceUpload>)
    ensures SealIds(seals) <= evidence.Keys <==> (forall k | 0 <= k < |seals| :: seals[k].objectId in evidence)
    ensures evidence.Keys <= SealIds(seals) <==> (forall id | id in evidence :: Names(seals, id))
    ensures SealsMatch(seals, evidence) <==> (forall k | 0 <= k < |seals| :: seals[k].objectId in evidence && Describes(seals[k], evidence[seals[k].objectId]))
  {
    forall id ensures id in SealIds(seals) <==> Names(seals, id) {
      if Names(seals, id) {
        var k :| 0 <= k < |seals| && seals[k].objectId == id;
        assert seals[k] in seals;
      }
    }
    forall k | 0 <= k < |seals| ensures seals[k] in seals && seals[k].objectId in SealIds(seals) {
    }
  }

  /** A commit seals the text and everything staged, or is answered with the first condition it fails. */
  lemma CommitExactly(c: Config, p: Primitives, s: Installation, q: Request)
    requires Sound(p) && Inv(c, p, s) && q.op.Commit?
    ensures var o, id, seals := Step(c, p, s, q), q.op.binding.mailboxId, q.op.seals;
            match Turned(s, q.op.binding, q.op.resultDigest, q.clock)
            case Some(reply) => Without(s, o, reply)
            case None =>
              var r, now := s.records[id], q.clock.value;
              if now >= r.binding.deadline then RefusedLate(s, o, id, now)
              else
                && EvidenceSlots(p, r).Some?
                && var evidence := EvidenceSlots(p, r).value;
                   var response := |q.op.resultJson| + SumOver(r.evidence, ItemBytes);
                   if exists k :: 0 <= k < |seals| && seals[k].objectId !in evidence then Without(s, o, Denied(EVIDENCE_MISSING))
                   else if exists e :: e in evidence && !Names(seals, e) then Without(s, o, Denied(EVIDENCE_UNREFERENCED))
                   else if exists k :: 0 <= k < |seals| && !Describes(seals[k], evidence[seals[k].objectId]) then Without(s, o, Denied(DIGEST_MISMATCH))
                   else if response > r.binding.responseBytes then Without(s, o, Denied(EVIDENCE_LIMIT))
                   else if SumOver(s.records, CommittedBytes) + response > c.limits.maxCommittedBytes then Without(s, o, Denied(QUOTA_EXCEEDED))
                   else if !Agrees(p, r.binding, q.op.resultJson, evidence) then Without(s, o, Denied(INTERNAL_UNCERTAINTY))
                   else if BEFORE_RESULT_COMMIT in q.crashes then Without(s, o, Crashed(BEFORE_RESULT_COMMIT))
                   else
                     && id in o.after.records && Sealed(p, r, o.after.records[id], q.op.resultJson, now)
                     && Became(s, o.after, id, o.after.records[id], now)
                     && if AFTER_RESULT_COMMIT in q.crashes then o.reply == Crashed(AFTER_RESULT_COMMIT) else Shows(o.reply, o.after.records[id])
  {
    hide Sound, Inv, Good, AdmitResult, ValidatedMaterial, EvidenceSlots, Shows, ViewOf, Put, NotAhead, Lapsed, DueNow, Turned, SumOver, Moved, Sealed,
      SealIds, SealsMatch, Describes, Agrees, ReferencesValid, Names;
    var id := q.op.binding.mailboxId;
    ResultReached(c, p, s, q.op.binding, q.op.resultDigest, q.clock);
    if Turned(s, q.op.binding, q.op.resultDigest, q.clock).None? {
      var r, now := s.records[id], q.clock.value;
      var evidence := ValidatedMaterial(p, r).value.evidence;
      LateIsDue(p, r, now);
      NamesExactly(q.op.seals, evidence);
      AgreesExactly(p, r.binding, q.op.resultJson, evidence);
      MoveBecomes(c, p, s, id, Expiry, now);
      MoveBecomes(c, p, s, id, Committing(q.op.resultJson, q.op.nonce), now);
      if ReferencesValid(p, r.binding, q.op.resultJson, evidence) && |q.op.resultJson| + EvidenceBytes(r) <= r.binding.responseBytes {
        LastSeenIsPast(c, p, s, id, now);
        CommittedIsSealed(p, r, q.op.resultJson, q.op.nonce, now);
      }
    }
  }

  lemma LastSeenIsPast(c: Config, p: Primitives, s: Installation, id: Uuid, now: Instant)
    requires Inv(c, p, s) && id in s.records && NotAhead(s, now)
    ensures s.records[id].lastSeen <= now
  {
    hide Inv;
    LastSeenBound(c, p, s, id);
  }

  // --- Sweeps ---------------------------------------------------------------------

  /** In a reachable state a sweep goes ahead exactly with the maintenance credential and a usable clock. */
  lemma SweepProceedsExactly(c: Config, p: Primitives, s: Installation, digest: Digest, clock: Option<Instant>)
    requires Inv(c, p, s)
    ensures SweepNow(c, p, s, digest, clock) ==
              if digest != c.maintenance then Stopped(UNAUTHORIZED)
              else if !Usable(s, clock) then Stopped(INTERNAL_UNCERTAINTY)
              else Proceed(clock.value)
  {
    hide Inv, ValidatedMaterial;
    forall id | id in s.records ensures ValidatedMaterial(p, s.records[id]).Some? && Seen(s, s.records[id].lastSeen) {
      ReachedExactly(c, p, s, id, clock);
      LastSeenBound(c, p, s, id);
    }
  }

  /** The expiry sweep lets every late mailbox lapse, only observes the others, and answers, in order,
      those that were not expired before; it is refused exactly without the credential or the clock. */
  lemma ExpireExactly(c: Config, p: Primitives, s: Installation, digest: Digest, clock: Option<Instant>, crashes: set<CrashPoint>)
    requires Inv(c, p, s)
    ensures var o := Step(c, p, s, Request(Expire(digest), clock, crashes));
            if digest != c.maintenance then Without(s, o, Denied(UNAUTHORIZED))
            else if !Usable(s, clock) then Without(s, o, Denied(INTERNAL_UNCERTAINTY))
            else
              var now := clock.value;
              && o.after.records.Keys == s.records.Keys && o.after.tombstones == s.tombstones && o.after.highWater == Some(now)
              && (forall id | id in s.records ::
                    o.after.records[id] == if Late(s.records[id], now) then Lapsed(s.records[id], now) else s.records[id].(lastSeen := now))
              && o.reply.Swept?
              && (forall id :: id in o.reply.ids <==> id in s.records && s.records[id].state != EXPIRED && Late(s.records[id], now))
              && (forall i, j | 0 <= i < j < |o.reply.ids| :: o.reply.ids[i] < o.reply.ids[j])
  {
    hide Inv, SweepNow, Lapsed, SweptRecord, Late, DueNow;
    SweepProceedsExactly(c, p, s, digest, clock);
    if digest == c.maintenance && Usable(s, clock) {
      forall id | id in s.records
        ensures DueNow(s.records[id], clock.value) <==> Late(s.records[id], clock.value)
        ensures SweptRecord(p, s.records[id], clock.value) ==
                  if Late(s.records[id], clock.value) then Lapsed(s.records[id], clock.value) else s.records[id].(lastSeen := clock.value)
      {
        LateIsDue(p, s.records[id], clock.value);
        SweptIs(p, s.records[id], clock.value);
      }
    }
  }

  lemma SweptIs(p: Primitives, r: Record, now: Instant)
    ensures SweptRecord(p, r, now) == if Late(r, now) then Lapsed(r, now) else r.(lastSeen := now)
  {
    hide Lapsed, Late, DueNow;
    LateIsDue(p, r, now);
  }

  /** Terminal for the whole retention period. */
  predicate Over(c: Config, r: Record, now: Instant) {
    r.terminalAt.Some? && now >= r.terminalAt.value + c.limits.terminalRetention
  }

  /** `r`, known as `id`, became terminal before `r'`, known as `id'`; ties go by identifier. */
  predicate Older(r: Record, id: Uuid, r': Record, id': Uuid) {
    && r.terminalAt.Some? && r'.terminalAt.Some?
    && (r.terminalAt.value < r'.terminalAt.value || (r.terminalAt.value == r'.terminalAt.value && id < id'))
  }

  /** The mailboxes `gone` are over, and older than all others that are. */
  ghost predicate OldestOver(c: Config, s: Installation, gone: set<Uuid>, now: Instant) {
    && (forall id | id in gone :: id in s.records && Over(c, s.records[id], now))
    && (forall a, b | a in gone && b in s.records && b !in gone && Over(c, s.records[b], now) :: Older(s.records[a], a, s.records[b], b))
  }

  /** The tombstones that have not expired stay, and the mailboxes `gone` get one each. */
  ghost predicate Entombed(c: Config, s: Installation, s': Installation, gone: set<Uuid>, now: Instant) {
    && (forall id :: id in s'.tombstones <==> id in gone || (id in s.tombstones && s.tombstones[id].expiresAt > now))
    && (forall id | id in gone && id in s'.tombstones ::
          s'.tombstones[id].createdAt == now && s'.tombstones[id].expiresAt == now + c.limits.tombstoneRetention)
    && (forall id | id in s'.tombstones && id !in gone && id in s.tombstones :: s'.tombstones[id] == s.tombstones[id])
  }

  /** From `s` to `s'` the mailboxes `gone` turned into tombstones: all that are over, or the oldest of
      them if the tombstones are then at their limit. Tombstones past their time are forgotten. */
  ghost predicate Cleared(c: Config, s: Installation, s': Installation, gone: set<Uuid>, now: Instant) {
    && OldestOver(c, s, gone, now)
    && ((exists id :: id in s.records && id !in gone && Over(c, s.records[id], now)) ==> |s'.tombstones| == c.limits.maxTombstones)
    && s'.records.Keys == s.records.Keys - gone
    && (forall id | id in s'.records && id in s.records :: s'.records[id] == s.records[id].(lastSeen := now))
    && Entombed(c, s, s', gone, now)
    && s'.highWater == Some(now)
  }

  lemma DueIsOver(c: Config, records: map<Uuid, Record>, now: Instant, id: Uuid)
    requires id in records
    ensures id in DueIds(c, records, now) <==> Over(c, records[id], now)
  {
  }

  lemma BeforeIsOlder(records: map<Uuid, Record>, a: Uuid, b: Uuid)
    requires a in records && b in records && records[a].terminalAt.Some? && records[b].terminalAt.Some?
    ensures Before(records, a, b) <==> Older(records[a], a, records[b], b)
  {
  }

  lemma OldestPartIsOver(c: Config, s: Installation, gone: set<Uuid>, now: Instant)
    requires gone <= DueIds(c, s.records, now) && IsOldestPart(s.records, DueIds(c, s.records, now), gone)
    ensures OldestOver(c, s, gone, now)
    ensures (exists id :: id in s.records && id !in gone && Over(c, s.records[id], now)) ==> gone != DueIds(c, s.records, now)
  {
    hide Before, DueIds, Over, Older;
    var due := DueIds(c, s.records, now);
    forall id | id in s.records ensures id in due <==> Over(c, s.records[id], now) {
      DueIsOver(c, s.records, now, id);
    }
    forall a, b | a in gone && b in s.records && b !in gone && Over(c, s.records[b], now) ensures Older(s.records[a], a, s.records[b], b) {
      assert b in due - gone;
      BeforeIsOlder(s.records, a, b);
    }
  }

  lemma LiveIs(s: Installation, now: Instant, id: Uuid)
    ensures id in LiveTombstones(s, now) <==> id in s.tombstones && s.tombstones[id].expiresAt > now
    ensures id in LiveTombstones(s, now) ==> LiveTombstones(s, now)[id] == s.tombstones[id]
  {
  }

  lemma EntombedAt(c: Config, s: Installation, s': Installation, gone: set<Uuid>, now: Instant, id: Uuid)
    requires NewTombstones(c, s, s', gone, now)
    ensures id in s'.tombstones <==> id in gone || (id in s.tombstones && s.tombstones[id].expiresAt > now)
    ensures id in gone ==> s'.tombstones[id].createdAt == now && s'.tombstones[id].expiresAt == now + c.limits.tombstoneRetention
    ensures id in s'.tombstones && id !in gone && id in s.tombstones ==> s'.tombstones[id] == s.tombstones[id]
  {
    hide DueIds, Smaller, LiveTombstones;
    LiveIs(s, now, id);
    assert id in s'.tombstones <==> id in LiveTombstones(s, now).Keys + gone;
  }

  lemma BuriedEntombs(c: Config, s: Installation, s': Installation, gone: set<Uuid>, now: Instant)
    requires NewTombstones(c, s, s', gone, now)
    ensures Entombed(c, s, s', gone, now)
  {
    hide NewTombstones;
    forall id
      ensures id in s'.tombstones <==> id in gone || (id in s.tombstones && s.tombstones[id].expiresAt > now)
      ensures id in gone && id in s'.tombstones ==> s'.tombstones[id].createdAt == now && s'.tombstones[id].expiresAt == now + c.limits.tombstoneRetention
      ensures id in s'.tombstones && id !in gone && id in s.tombstones ==> s'.tombstones[id] == s.tombstones[id]
    {
      EntombedAt(c, s, s', gone, now, id);
    }
  }

  lemma BuriedFills(c: Config, s: Installation, s': Installation, gone: set<Uuid>, now: Instant)
    requires NewTombstones(c, s, s', gone, now)
    requires forall id | id in gone :: id !in s.tombstones
    requires gone != DueIds(c, s.records, now)
    ensures |s'.tombstones| == c.limits.maxTombstones
  {
    hide DueIds, Smaller, LiveTombstones;
    var due, live := DueIds(c, s.records, now), LiveTombstones(s, now);
    SmallerIs(|due|, c.limits.maxTombstones - |live|);
    SmallerSubset(gone, due);
    forall id | id in live ensures id !in gone {
      LiveIs(s, now, id);
    }
    SizeOfUnion(live.Keys, gone);
    assert |s'.tombstones| == |s'.tombstones.Keys| && |live| == |live.Keys|;
  }

  lemma BuriedIsCleared(c: Config, p: Primitives, s: Installation, s': Installation, gone: set<Uuid>, now: Instant)
    requires Inv(c, p, s)
    requires BuriesOldest(c, s, s', gone, now) && s'.highWater == Some(now)
    ensures Cleared(c, s, s', gone, now)
  {
    hide Inv, Good, FreeFor, DueIds, Over, OldestOver, Entombed, IsOldestPart, NewTombstones;
    OldestPartIsOver(c, s, gone, now);
    forall id | id in gone ensures id !in s.tombstones {
      InvAt(c, p, s, id);
    }
    BuriedEntombs(c, s, s', gone, now);
    if gone != DueIds(c, s.records, now) {
      BuriedFills(c, s, s', gone, now);
    }
  }

  lemma SmallerIs(a: nat, b: nat)
    ensures Smaller(a, b) == a || Smaller(a, b) == b
  {
  }

  lemma SmallerSubset(a: set<Uuid>, b: set<Uuid>)
    requires a <= b && a != b
    ensures |a| < |b|
  {
    assert a < b;
    var x :| x in b && x !in a;
    SubsetSize(a, b - {x});
  }

  /** A collection of garbage clears, and answers in order, exactly what is over and finds room; it is
      refused exactly without the credential, the clock, or a tombstone span that fits the calendar. */
  lemma CollectionExactly(c: Config, p: Primitives, s: Installation, digest: Digest, clock: Option<Instant>, crashes: set<CrashPoint>)
    requires Inv(c, p, s)
    ensures var o := Step(c, p, s, Request(GarbageCollect(digest), clock, crashes));
            if digest != c.maintenance then Without(s, o, Denied(UNAUTHORIZED))
            else if !Usable(s, clock) || clock.value + c.limits.tombstoneRetention > MAX_INSTANT then Without(s, o, Denied(INTERNAL_UNCERTAINTY))
            else
              && o.reply.Swept? && Cleared(c, s, o.after, Elements(o.reply.ids), clock.value)
              && (forall i, j | 0 <= i < j < |o.reply.ids| :: o.reply.ids[i] < o.reply.ids[j])
  {
    hide Inv, Step, Cleared, Without;
    CollectionProceeds(c, p, s, digest, clock, crashes);
    var q := Request(GarbageCollect(digest), clock, crashes);
    if digest == c.maintenance && Usable(s, clock) && clock.value + c.limits.tombstoneRetention <= MAX_INSTANT {
      CollectionClears(c, p, s, q);
    }
  }

  lemma CollectionClears(c: Config, p: Primitives, s: Installation, q: Request)
    requires Inv(c, p, s) && q.op.GarbageCollect?
    requires Step(c, p, s, q).reply.Swept? && q.clock.Some? && Step(c, p, s, q).after.highWater == Some(q.clock.value)
    ensures Cleared(c, s, Step(c, p, s, q).after, Elements(Step(c, p, s, q).reply.ids), q.clock.value)
    ensures forall i, j | 0 <= i < j < |Step(c, p, s, q).reply.ids| :: Step(c, p, s, q).reply.ids[i] < Step(c, p, s, q).reply.ids[j]
  {
    hide Inv, Step, Cleared, BuriesOldest;
    CollectionIsExact(c, p, s, q);
    var o := Step(c, p, s, q);
    assert SweptIds(o.reply) == Elements(o.reply.ids);
    BuriedIsCleared(c, p, s, o.after, Elements(o.reply.ids), q.clock.value);
  }

  lemma CollectionProceeds(c: Config, p: Primitives, s: Installation, digest: Digest, clock: Option<Instant>, crashes: set<CrashPoint>)
    requires Inv(c, p, s)
    ensures var o := Step(c, p, s, Request(GarbageCollect(digest), clock, crashes));
            if digest != c.maintenance then Without(s, o, Denied(UNAUTHORIZED))
            else if !Usable(s, clock) || clock.value + c.limits.tombstoneRetention > MAX_INSTANT then Without(s, o, Denied(INTERNAL_UNCERTAINTY))
            else o.reply.Swept? && o.after.highWater == Some(clock.value)
  {
    hide Inv, SweepNow, CollectedAll, Removed;
    SweepProceedsExactly(c, p, s, digest, clock);
    if digest == c.maintenance && Usable(s, clock) {
      CollectedHighWater(c, s, clock.value);
    }
  }
}

/** The installation invariant, as the durable adapter checks it on every load and
    write, and the proof that every step of the protocol keeps it. */
module MailboxInvariant {
  import opened Identifiers
  import opened MailboxDomain
  import opened MailboxCrypto
  import opened MailboxMachine

  // --- Per record ------------------------------------------------------------

  predicate Within(r: Record, instant: Option<Instant>) {
    instant.Some? ==> r.createdAt <= instant.value <= r.lastSeen
  }

  predicate TimesOrdered(r: Record) {
    && r.createdAt <= r.lastSeen
    && r.createdAt < r.binding.claimDeadline
    && Within(r, r.committedAt)
    && Within(r, r.terminalAt)
  }

  predicate OwnCredentialsDistinct(r: Record) {
    && r.actionDigest != r.claimDigest
    && r.actionDigest != r.collectionDigest
    && r.claimDigest != r.collectionDigest
    && (r.resultDigest.Some? ==> r.resultDigest.value !in {r.actionDigest, r.claimDigest, r.collectionDigest})
  }

  predicate EvidenceBounded(r: Record) {
    |r.evidence| <= MAX_EVIDENCE_ITEMS && EvidenceBytes(r) <= r.binding.responseBytes
  }

  predicate NothingActive(r: Record) {
    r.envelope.None? && r.actionKey.None? && r.resultCredential.None?
  }

  predicate NothingCommitted(r: Record) {
    r.result.None? && r.manifest.None? && r.committedAt.None?
  }

  /** Which fields may be present in which state. */
  predicate Lifecycle(r: Record) {
    match r.state
    case EMPTY =>
      r.collection == NONE && NothingActive(r) && r.resultDigest.None? && r.evidence == map[] && NothingCommitted(r) && r.terminalAt.None?
    case OFFERED =>
      && r.collection == NONE && r.envelope.Some? && r.actionKey.Some? && r.resultCredential.Some?
      && r.resultDigest.Some? && r.evidence == map[] && NothingCommitted(r) && r.terminalAt.None?
    case CLAIMED_ONCE =>
      r.collection == NONE && NothingActive(r) && r.resultDigest.Some? && NothingCommitted(r) && r.terminalAt.None?
    case RESULT_COMMITTED =>
      && r.collection != NONE && NothingActive(r) && r.resultDigest.None? && r.committedAt.Some?
      && (r.collection == ACKNOWLEDGED <==> r.terminalAt.Some?)
      && (r.terminalAt.Some? ==> r.committedAt.value <= r.terminalAt.value)
      && (r.collection != ACKNOWLEDGED && r.result.Some? ==> r.result.value.byteCount + EvidenceBytes(r) <= r.binding.responseBytes)
    case _ =>
      r.collection == NONE && NothingActive(r) && r.resultDigest.None? && r.evidence == map[] && NothingCommitted(r) && r.terminalAt.Some?
  }

  predicate RecordSemantics(r: Record) {
    TimesOrdered(r) && OwnCredentialsDistinct(r) && EvidenceBounded(r) && Lifecycle(r)
  }

  predicate Good(p: Primitives, r: Record) {
    RecordSemantics(r) && ValidatedMaterial(p, r).Some?
  }

  // --- Whole installation ----------------------------------------------------

  datatype Totals = Totals(active: nat, evidence: nat, committed: nat)

  function TotalsOf(records: map<Uuid, Record>): Totals {
    Totals(SumOver(records, ActiveBytes), SumOver(records, EvidenceBytes), SumOver(records, CommittedBytes))
  }

  predicate WithinQuota(c: Config, t: Totals) {
    t.active <= c.limits.maxActiveBytes && t.evidence <= c.limits.maxEvidenceBytes && t.committed <= c.limits.maxCommittedBytes
  }

  /** No digest is used twice, and none is the maintenance digest. */
  ghost predicate CredentialsDistinct(c: Config, records: map<Uuid, Record>) {
    && (forall id | id in records :: c.maintenance !in Credentials(records[id]))
    && (forall a, b | a in records && b in records && a != b :: Credentials(records[a]) !! Credentials(records[b]))
  }

  /** The installation has observed a time no earlier than this one. */
  predicate Seen(s: Installation, instant: Instant) {
    s.highWater.Some? && instant <= s.highWater.value
  }

  predicate TombstoneSemantics(c: Config, s: Installation, t: Tombstone) {
    && t.createdAt < t.expiresAt
    && t.expiresAt - t.createdAt == c.limits.tombstoneRetention
    && Seen(s, t.createdAt)
  }

  /** Exactly what the durable adapter's global validation accepts. */
  ghost predicate Semantics(c: Config, s: Installation, totals: Totals) {
    && (forall id | id in s.records :: RecordSemantics(s.records[id]) && Seen(s, s.records[id].lastSeen))
    && CredentialsDistinct(c, s.records)
    && (forall id | id in s.tombstones :: TombstoneSemantics(c, s, s.tombstones[id]))
    && totals == TotalsOf(s.records)
    && WithinQuota(c, totals)
  }

  /** The counts, keys and disjointness that decoding a frame enforces. */
  ghost predicate WellKeyed(c: Config, s: Installation) {
    && (forall id | id in s.records :: s.records[id].binding.mailboxId == id)
    && s.records.Keys !! s.tombstones.Keys
    && |s.records| <= c.limits.maxMailboxes
    && |s.tombstones| <= c.limits.maxTombstones
  }

  ghost predicate Inv(c: Config, p: Primitives, s: Installation) {
    && WellKeyed(c, s)
    && Semantics(c, s, TotalsOf(s.records))
    && (forall id | id in s.records :: ValidatedMaterial(p, s.records[id]).Some?)
  }

  lemma EmptyInv(c: Config, p: Primitives)
    ensures Inv(c, p, EMPTY_INSTALLATION)
  {
  }

  // --- Enabled moves ---------------------------------------------------------

  /** What has been checked by the time a move of record `id` happens. */
  ghost predicate Enabled(c: Config, p: Primitives, s: Installation, id: Uuid, move: Move, now: Instant) {
    && id in s.records && NotAhead(s, now) && s.records[id].lastSeen <= now
    && MoveAllowed(c, p, s, s.records[id], move, now)
  }

  ghost predicate MoveAllowed(c: Config, p: Primitives, s: Installation, r: Record, move: Move, now: Instant) {
    match move
    case Observing => !DueNow(r, now)
    case Expiry => DueNow(r, now)
    case Abandonment => Open(r.state) && !DueNow(r, now)
    case Offering(envelope, actionKey, resultCredential, resultDigest) =>
      && r.state == EMPTY && !DueNow(r, now)
      && |{r.actionDigest, r.claimDigest, r.collectionDigest, resultDigest}| == 4
      && c.maintenance != resultDigest && !InUse(s.records, resultDigest, Some(r.binding.mailboxId))
      && SumOver(s.records, ActiveBytes) + |envelope| + |actionKey| + |resultCredential| <= c.limits.maxActiveBytes
    case Claiming => r.state == OFFERED && !DueNow(r, now)
    case Staging(u, nonce) =>
      && r.state == CLAIMED_ONCE && !DueNow(r, now)
      && u.objectId !in r.evidence && |r.evidence| < MAX_EVIDENCE_ITEMS
      && EvidenceBytes(r) + |u.payload| <= r.binding.responseBytes
      && SumOver(s.records, EvidenceBytes) + |u.payload| <= c.limits.maxEvidenceBytes
      && p.hash(u.payload) == u.payloadDigest
      && Unwrap(p, r.binding.mailboxId, u.objectId, Wrap(p, r.binding.mailboxId, u, nonce)).Some?
    case Committing(json, nonce) =>
      && r.state == CLAIMED_ONCE && !DueNow(r, now)
      && |json| + EvidenceBytes(r) <= r.binding.responseBytes
      && SumOver(s.records, CommittedBytes) + |json| + EvidenceBytes(r) <= c.limits.maxCommittedBytes
      && ValidatedMaterial(p, r).Some? && ReferencesValid(p, r.binding, json, ValidatedMaterial(p, r).value.evidence)
    case Delivering => r.state == RESULT_COMMITTED && (r.collection == READY || r.collection == DELIVERING)
    case Acknowledging => r.state == RESULT_COMMITTED && r.collection == DELIVERING
  }

  ghost predicate CreationAllowed(c: Config, s: Installation, r: Record, now: Instant) {
    && NotAhead(s, now) && now < r.binding.claimDeadline
    && r == NewRecord(r.binding, now, r.actionDigest, r.claimDigest, r.collectionDigest)
    && r.binding.mailboxId !in s.records && r.binding.mailboxId !in s.tombstones
    && |s.records| < c.limits.maxMailboxes
    && |{r.actionDigest, r.claimDigest, r.collectionDigest}| == 3
    && c.maintenance !in {r.actionDigest, r.claimDigest, r.collectionDigest}
    && !InUse(s.records, r.actionDigest, None) && !InUse(s.records, r.claimDigest, None) && !InUse(s.records, r.collectionDigest, None)
  }

  ghost predicate SweepAllowed(s: Installation, now: Instant) {
    NotAhead(s, now) && forall id | id in s.records :: s.records[id].lastSeen <= now
  }

  ghost predicate EffectAllowed(c: Config, p: Primitives, s: Installation, effect: Effect) {
    match effect
    case Nothing => true
    case Creation(r, now) => CreationAllowed(c, s, r, now)
    case Movement(id, move, now) => Enabled(c, p, s, id, move, now)
    case Sweeping(now) => SweepAllowed(s, now)
    case Collecting(now) => SweepAllowed(s, now) && now + c.limits.tombstoneRetention <= MAX_INSTANT
  }

  /** `r'` is the same mailbox and retains no more. */
  ghost predicate Shrinks(r: Record, r': Record) {
    && r'.binding == r.binding
    && Credentials(r') <= Credentials(r)
    && ActiveBytes(r') <= ActiveBytes(r)
    && EvidenceBytes(r') <= EvidenceBytes(r)
    && CommittedBytes(r') <= CommittedBytes(r)
  }

  // --- Each move of a record keeps it good -----------------------------------

  lemma EmptyEvidenceWeighsNothing()
    ensures SumOver(map[], ItemBytes) == 0
  {
  }

  lemma DistinctThree(a: Digest, b: Digest, d: Digest)
    requires |{a, b, d}| == 3
    ensures a != b && a != d && b != d
  {
    assert a == b ==> {a, b, d} == {a, d};
    assert a == d || b == d ==> {a, b, d} == {a, b};
    SmallSet(a, d);
    SmallSet(a, b);
  }

  lemma SmallSet(a: Digest, b: Digest)
    ensures |{a, b}| <= 2
  {
    assert {a, b} == {a} + {b};
  }

  lemma DistinctFour(a: Digest, b: Digest, d: Digest, e: Digest)
    requires |{a, b, d, e}| == 4
    ensures e !in {a, b, d}
  {
    assert e in {a, b, d} ==> {a, b, d, e} == {a, b} + {d};
    SmallSet(a, b);
  }

  lemma CreatedGood(p: Primitives, binding: ActionBinding, now: Instant, action: Digest, claim: Digest, collection: Digest)
    requires |{action, claim, collection}| == 3
    requires now < binding.claimDeadline
    ensures Good(p, NewRecord(binding, now, action, claim, collection))
  {
    DistinctThree(action, claim, collection);
  }

  lemma SlotsFollowEvidence(p: Primitives, r: Record, r': Record)
    requires r'.binding == r.binding && r'.evidence == r.evidence
    ensures EvidenceSlots(p, r') == EvidenceSlots(p, r)
    ensures EvidenceSlots(p, r).Some? ==> EvidenceSlots(p, r).value.Keys == r.evidence.Keys
  {
  }

  lemma ObservedGood(p: Primitives, r: Record, now: Instant)
    requires Good(p, r) && r.lastSeen <= now
    ensures Good(p, Moved(p, r, Observing, now))
    ensures ValidatedMaterial(p, Moved(p, r, Observing, now)) == ValidatedMaterial(p, r)
  {
    hide EvidenceSlots, UnwrapResult, BuildManifest, ReferencesValid, SumOver;
    SlotsFollowEvidence(p, r, r.(lastSeen := now));
  }

  lemma TerminatedGood(p: Primitives, r: Record, state: MailboxState, now: Instant)
    requires Good(p, r) && r.lastSeen <= now
    requires Open(r.state)
    requires state == EXPIRED || state == ABANDONED
    ensures Good(p, Terminated(r, state, now))
  {
    hide Unwrap, UnwrapResult, BuildManifest, ReferencesValid;
    EmptyEvidenceWeighsNothing();
  }

  lemma OfferedGood(p: Primitives, r: Record, envelope: Bytes, actionKey: Bytes, resultCredential: Bytes, resultDigest: Digest, now: Instant)
    requires Good(p, r) && r.lastSeen <= now
    requires r.state == EMPTY
    requires |{r.actionDigest, r.claimDigest, r.collectionDigest, resultDigest}| == 4
    ensures Good(p, Offered(r, envelope, actionKey, resultCredential, resultDigest, now))
  {
    hide Unwrap, UnwrapResult, BuildManifest, ReferencesValid, SumOver;
    DistinctFour(r.actionDigest, r.claimDigest, r.collectionDigest, resultDigest);
  }

  lemma ClaimedGood(p: Primitives, r: Record, now: Instant)
    requires Good(p, r) && r.lastSeen <= now
    requires r.state == OFFERED
    ensures Good(p, ClaimedRecord(r, now))
  {
    hide Unwrap, UnwrapResult, BuildManifest, ReferencesValid, SumOver;
  }

  lemma StagedGood(p: Primitives, r: Record, objectId: Uuid, item: WrappedEvidence, now: Instant)
    requires Good(p, r) && r.lastSeen <= now
    requires r.state == CLAIMED_ONCE
    requires objectId !in r.evidence && |r.evidence| < MAX_EVIDENCE_ITEMS
    requires EvidenceBytes(r) + item.byteCount <= r.binding.responseBytes
    requires Unwrap(p, r.binding.mailboxId, objectId, item).Some?
    ensures Good(p, Staged(r, objectId, item, now))
  {
    hide Unwrap, UnwrapResult, BuildManifest, ReferencesValid, SumOver;
    SumUpdate(r.evidence, objectId, item, ItemBytes);
  }

  lemma CommittedMaterial(p: Primitives, r: Record, json: Bytes, nonce: Nonce, now: Instant, evidence: map<Uuid, EvidenceUpload>)
    requires Sound(p)
    requires EvidenceSlots(p, r) == Some(evidence)
    requires ReferencesValid(p, r.binding, json, evidence)
    ensures ValidatedMaterial(p, Committed(p, r, json, nonce, now)) == Some(Material(evidence, Some(json)))
  {
    var r' := Committed(p, r, json, nonce, now);
    SlotsFollowEvidence(p, r, r');
    UnwrapWrapResult(p, r.binding, json, nonce);
    hide EvidenceSlots, UnwrapResult;
  }

  lemma CommittedSemantics(p: Primitives, r: Record, json: Bytes, nonce: Nonce, now: Instant)
    requires RecordSemantics(r) && r.lastSeen <= now
    requires r.state == CLAIMED_ONCE
    requires |json| + EvidenceBytes(r) <= r.binding.responseBytes
    ensures RecordSemantics(Committed(p, r, json, nonce, now))
  {
    hide SumOver, BuildManifest, ResultAad, BindingDigest;
  }

  lemma ClaimedMaterial(p: Primitives, r: Record)
    requires r.state == CLAIMED_ONCE && ValidatedMaterial(p, r).Some?
    ensures EvidenceSlots(p, r) == Some(ValidatedMaterial(p, r).value.evidence)
  {
    hide EvidenceSlots;
  }

  lemma CommittedGood(p: Primitives, r: Record, json: Bytes, nonce: Nonce, now: Instant)
    requires Sound(p)
    requires Good(p, r) && r.lastSeen <= now
    requires r.state == CLAIMED_ONCE
    requires |json| + EvidenceBytes(r) <= r.binding.responseBytes
    requires ReferencesValid(p, r.binding, json, ValidatedMaterial(p, r).value.evidence)
    ensures Good(p, Committed(p, r, json, nonce, now))
    ensures ValidatedMaterial(p, Committed(p, r, json, nonce, now)) == Some(Material(ValidatedMaterial(p, r).value.evidence, Some(json)))
  {
    hide Sound, RecordSemantics, ValidatedMaterial, ReferencesValid, EvidenceBytes, Committed;
    ClaimedMaterial(p, r);
    CommittedMaterial(p, r, json, nonce, now, ValidatedMaterial(p, r).value.evidence);
    CommittedSemantics(p, r, json, nonce, now);
  }

  lemma DeliveringGood(p: Primitives, r: Record, now: Instant)
    requires Good(p, r) && r.lastSeen <= now
    requires r.state == RESULT_COMMITTED && r.collection != ACKNOWLEDGED
    ensures Good(p, Moved(p, r, Delivering, now))
    ensures ValidatedMaterial(p, Moved(p, r, Delivering, now)) == ValidatedMaterial(p, r)
  {
    hide EvidenceSlots, UnwrapResult, BuildManifest, ReferencesValid, SumOver;
    SlotsFollowEvidence(p, r, r.(collection := DELIVERING, lastSeen := now));
  }

  lemma AcknowledgedGood(p: Primitives, r: Record, now: Instant)
    requires Good(p, r) && r.lastSeen <= now
    requires r.state == RESULT_COMMITTED && r.collection == DELIVERING
    ensures Good(p, Acknowledged(r, now))
  {
    hide Unwrap, UnwrapResult, BuildManifest, ReferencesValid;
    EmptyEvidenceWeighsNothing();
  }

  /** A move that is allowed of a good record leaves it good. */
  lemma MovedGood(c: Config, p: Primitives, s: Installation, r: Record, move: Move, now: Instant)
    requires Sound(p)
    requires Good(p, r) && r.lastSeen <= now && MoveAllowed(c, p, s, r, move, now)
    ensures Good(p, Moved(p, r, move, now))
    ensures Moved(p, r, move, now).lastSeen == now && Moved(p, r, move, now).binding == r.binding
  {
    hide Sound, Good, ValidatedMaterial, SumOver, InUse, Unwrap, ReferencesValid, EvidenceBytes, WrapResult, BuildManifest;
    match move
    case Observing => ObservedGood(p, r, now);
    case Expiry => if r.state == EXPIRED { ObservedGood(p, r, now); } else { TerminatedGood(p, r, EXPIRED, now); }
    case Abandonment => TerminatedGood(p, r, ABANDONED, now);
    case Offering(envelope, actionKey, resultCredential, resultDigest) =>
      OfferedGood(p, r, envelope, actionKey, resultCredential, resultDigest, now);
    case Claiming => ClaimedGood(p, r, now);
    case Staging(u, nonce) => StagedGood(p, r, u.objectId, Wrap(p, r.binding.mailboxId, u, nonce), now);
    case Committing(json, nonce) => CommittedGood(p, r, json, nonce, now);
    case Delivering => DeliveringGood(p, r, now);
    case Acknowledging => AcknowledgedGood(p, r, now);
  }

  // --- What a move does to the byte counts and the credentials ---------------

  predicate Growing(move: Move) {
    move.Offering? || move.Staging? || move.Committing?
  }

  /** No move touches the binding or the creation time, and every move is seen at its time. */
  lemma MovedKeepsBinding(p: Primitives, r: Record, move: Move, now: Instant)
    ensures Moved(p, r, move, now).binding == r.binding
    ensures Moved(p, r, move, now).lastSeen == now
    ensures Moved(p, r, move, now).createdAt == r.createdAt
  {
    hide Wrap, WrapResult, BuildManifest;
  }

  lemma MovedShrinks(p: Primitives, r: Record, move: Move, now: Instant)
    requires !Growing(move)
    ensures Shrinks(r, Moved(p, r, move, now))
  {
    EmptyEvidenceWeighsNothing();
  }

  lemma OfferedHolds(p: Primitives, r: Record, envelope: Bytes, actionKey: Bytes, resultCredential: Bytes, resultDigest: Digest, now: Instant)
    requires Good(p, r) && r.state == EMPTY
    ensures var r' := Offered(r, envelope, actionKey, resultCredential, resultDigest, now);
            && Credentials(r') <= Credentials(r) + {resultDigest}
            && ActiveBytes(r') == |envelope| + |actionKey| + |resultCredential|
            && EvidenceBytes(r') == EvidenceBytes(r) && CommittedBytes(r') == CommittedBytes(r)
  {
    hide ValidatedMaterial;
  }

  lemma StagedHolds(p: Primitives, r: Record, objectId: Uuid, item: WrappedEvidence, now: Instant)
    requires Good(p, r) && r.state == CLAIMED_ONCE && objectId !in r.evidence
    ensures var r' := Staged(r, objectId, item, now);
            && Credentials(r') == Credentials(r) && ActiveBytes(r') == ActiveBytes(r)
            && EvidenceBytes(r') == EvidenceBytes(r) + item.byteCount
            && CommittedBytes(r') == CommittedBytes(r)
  {
    hide ValidatedMaterial;
    SumUpdate(r.evidence, objectId, item, ItemBytes);
  }

  lemma CommittedHolds(p: Primitives, r: Record, json: Bytes, nonce: Nonce, now: Instant)
    requires Good(p, r) && r.state == CLAIMED_ONCE
    ensures var r' := Committed(p, r, json, nonce, now);
            && Credentials(r') <= Credentials(r) && ActiveBytes(r') == ActiveBytes(r)
            && EvidenceBytes(r') == EvidenceBytes(r)
            && CommittedBytes(r) == 0 && CommittedBytes(r') == |json| + EvidenceBytes(r)
  {
    hide ValidatedMaterial;
  }

  // --- Replacing one record --------------------------------------------------

  /** No record other than `id`, and not maintenance, uses any of these digests. */
  ghost predicate FreeFor(c: Config, records: map<Uuid, Record>, id: Uuid, digests: set<Digest>) {
    && c.maintenance !in digests
    && forall other | other in records && other != id :: Credentials(records[other]) !! digests
  }

  lemma CredentialsPut(c: Config, records: map<Uuid, Record>, id: Uuid, r: Record)
    requires CredentialsDistinct(c, records)
    requires FreeFor(c, records, id, Credentials(r))
    ensures CredentialsDistinct(c, records[id := r])
  {
    hide Credentials;
  }

  lemma PutKeepsKeys(c: Config, s: Installation, r: Record, now: Instant)
    requires WellKeyed(c, s)
    requires r.binding.mailboxId !in s.tombstones
    requires r.binding.mailboxId in s.records || |s.records| < c.limits.maxMailboxes
    ensures WellKeyed(c, Put(s, r, now))
  {
    assert Put(s, r, now).records.Keys == s.records.Keys + {r.binding.mailboxId};
  }

  lemma PutKeepsInv(c: Config, p: Primitives, s: Installation, r: Record, now: Instant)
    requires Inv(c, p, s) && NotAhead(s, now)
    requires Good(p, r) && r.lastSeen == now
    requires r.binding.mailboxId !in s.tombstones
    requires r.binding.mailboxId in s.records || |s.records| < c.limits.maxMailboxes
    requires FreeFor(c, s.records, r.binding.mailboxId, Credentials(r))
    requires WithinQuota(c, TotalsOf(s.records[r.binding.mailboxId := r]))
    ensures Inv(c, p, Put(s, r, now))
  {
    hide WellKeyed, RecordSemantics, ValidatedMaterial, Credentials, CredentialsDistinct, FreeFor, TotalsOf, WithinQuota;
    CredentialsPut(c, s.records, r.binding.mailboxId, r);
    PutKeepsKeys(c, s, r, now);
  }

  /** What the invariant says about one record. */
  lemma InvAt(c: Config, p: Primitives, s: Installation, id: Uuid)
    requires Inv(c, p, s) && id in s.records
    ensures Good(p, s.records[id]) && s.records[id].binding.mailboxId == id && id !in s.tombstones
    ensures FreeFor(c, s.records, id, Credentials(s.records[id]))
  {
    hide RecordSemantics, ValidatedMaterial, Credentials, TotalsOf, WithinQuota;
  }

  lemma QuotaKept(c: Config, records: map<Uuid, Record>, id: Uuid, r: Record)
    requires WithinQuota(c, TotalsOf(records))
    requires id in records && Shrinks(records[id], r)
    ensures WithinQuota(c, TotalsOf(records[id := r]))
  {
    SumUpdate(records, id, r, ActiveBytes);
    SumUpdate(records, id, r, EvidenceBytes);
    SumUpdate(records, id, r, CommittedBytes);
  }

  /** Replacing a record by a good one that holds no more keeps the invariant. */
  lemma ShrinkKeepsInv(c: Config, p: Primitives, s: Installation, r: Record, now: Instant)
    requires Inv(c, p, s) && NotAhead(s, now)
    requires Good(p, r) && r.lastSeen == now
    requires r.binding.mailboxId in s.records && Shrinks(s.records[r.binding.mailboxId], r)
    ensures Inv(c, p, Put(s, r, now))
  {
    var id := r.binding.mailboxId;
    InvAt(c, p, s, id);
    assert WithinQuota(c, TotalsOf(s.records)) by {
      hide WellKeyed, RecordSemantics, ValidatedMaterial, TotalsOf, WithinQuota;
    }
    hide Inv, Good, TotalsOf, WithinQuota, Credentials, SumOver, EvidenceBytes, ActiveBytes, CommittedBytes;
    QuotaKept(c, s.records, id, r);
    PutKeepsInv(c, p, s, r, now);
  }

  // --- Each effect keeps the invariant ---------------------------------------

  /** Adding a record, or material to a record, within the quotas. */
  lemma GrowthWithinQuota(c: Config, records: map<Uuid, Record>, id: Uuid, r: Record)
    requires WithinQuota(c, TotalsOf(records))
    requires id in records ==> ActiveBytes(r) <= ActiveBytes(records[id]) || SumOver(records, ActiveBytes) + ActiveBytes(r) <= c.limits.maxActiveBytes + ActiveBytes(records[id])
    requires id in records ==> EvidenceBytes(r) <= EvidenceBytes(records[id]) || SumOver(records, EvidenceBytes) + EvidenceBytes(r) <= c.limits.maxEvidenceBytes + EvidenceBytes(records[id])
    requires id in records ==> CommittedBytes(r) <= CommittedBytes(records[id]) || SumOver(records, CommittedBytes) + CommittedBytes(r) <= c.limits.maxCommittedBytes + CommittedBytes(records[id])
    requires id !in records ==> ActiveBytes(r) == EvidenceBytes(r) == CommittedBytes(r) == 0
    ensures WithinQuota(c, TotalsOf(records[id := r]))
  {
    hide SumOver, ActiveBytes, EvidenceBytes, CommittedBytes;
    SumUpdate(records, id, r, ActiveBytes);
    SumUpdate(records, id, r, EvidenceBytes);
    SumUpdate(records, id, r, CommittedBytes);
  }

  lemma InvQuota(c: Config, p: Primitives, s: Installation)
    requires Inv(c, p, s)
    ensures WithinQuota(c, TotalsOf(s.records))
    ensures WellKeyed(c, s)
  {
    hide WellKeyed, RecordSemantics, ValidatedMaterial, TotalsOf, WithinQuota;
  }

  lemma CreatedFree(c: Config, records: map<Uuid, Record>, r: Record, action: Digest, claim: Digest, collection: Digest)
    requires c.maintenance !in {action, claim, collection}
    requires !InUse(records, action, None) && !InUse(records, claim, None) && !InUse(records, collection, None)
    requires Credentials(r) == {action, claim, collection}
    ensures FreeFor(c, records, r.binding.mailboxId, Credentials(r))
  {
    hide Credentials;
  }

  lemma CreationKeepsInv(c: Config, p: Primitives, s: Installation, r: Record, now: Instant)
    requires Inv(c, p, s) && CreationAllowed(c, s, r, now)
    ensures Inv(c, p, Put(s, r, now))
  {
    InvQuota(c, p, s);
    CreatedGood(p, r.binding, now, r.actionDigest, r.claimDigest, r.collectionDigest);
    assert ActiveBytes(r) == EvidenceBytes(r) == CommittedBytes(r) == 0 by {
      hide Inv, Good, InUse, Credentials, TotalsOf, WithinQuota;
      EmptyEvidenceWeighsNothing();
    }
    assert Credentials(r) == {r.actionDigest, r.claimDigest, r.collectionDigest};
    hide Inv, Good, SumOver, InUse, Credentials, TotalsOf, WithinQuota, FreeFor, NewRecord, EvidenceBytes;
    CreatedFree(c, s.records, r, r.actionDigest, r.claimDigest, r.collectionDigest);
    GrowthWithinQuota(c, s.records, r.binding.mailboxId, r);
    PutKeepsInv(c, p, s, r, now);
  }

  lemma OfferedFree(c: Config, records: map<Uuid, Record>, id: Uuid, r: Record, r': Record, resultDigest: Digest)
    requires FreeFor(c, records, id, Credentials(r))
    requires c.maintenance != resultDigest && !InUse(records, resultDigest, Some(id))
    requires Credentials(r') <= Credentials(r) + {resultDigest}
    ensures FreeFor(c, records, id, Credentials(r'))
  {
    hide Credentials;
  }

  lemma FewerFree(c: Config, records: map<Uuid, Record>, id: Uuid, digests: set<Digest>, fewer: set<Digest>)
    requires FreeFor(c, records, id, digests) && fewer <= digests
    ensures FreeFor(c, records, id, fewer)
  {
    hide Credentials;
  }

  lemma OfferingGrows(c: Config, p: Primitives, s: Installation, id: Uuid, r: Record, envelope: Bytes, actionKey: Bytes, resultCredential: Bytes, resultDigest: Digest, now: Instant)
    requires WithinQuota(c, TotalsOf(s.records)) && FreeFor(c, s.records, id, Credentials(r))
    requires id in s.records && r == s.records[id] && Good(p, r) && r.binding.mailboxId == id
    requires MoveAllowed(c, p, s, r, Offering(envelope, actionKey, resultCredential, resultDigest), now)
    ensures WithinQuota(c, TotalsOf(s.records[id := Moved(p, r, Offering(envelope, actionKey, resultCredential, resultDigest), now)]))
    ensures FreeFor(c, s.records, id, Credentials(Moved(p, r, Offering(envelope, actionKey, resultCredential, resultDigest), now)))
  {
    hide Good, SumOver, ValidatedMaterial, ReferencesValid, Unwrap, ActiveBytes, EvidenceBytes, CommittedBytes,
      InUse, Credentials, TotalsOf, WithinQuota, FreeFor, Committed, Offered, Staged, DueNow;
    var r' := Moved(p, r, Offering(envelope, actionKey, resultCredential, resultDigest), now);
    OfferedHolds(p, r, envelope, actionKey, resultCredential, resultDigest, now);
    OfferedFree(c, s.records, id, r, r', resultDigest);
    GrowthWithinQuota(c, s.records, id, r');
  }

  lemma StagingGrows(c: Config, p: Primitives, s: Installation, id: Uuid, r: Record, u: EvidenceUpload, nonce: Nonce, now: Instant)
    requires WithinQuota(c, TotalsOf(s.records)) && FreeFor(c, s.records, id, Credentials(r))
    requires id in s.records && r == s.records[id] && Good(p, r) && r.binding.mailboxId == id
    requires MoveAllowed(c, p, s, r, Staging(u, nonce), now)
    ensures WithinQuota(c, TotalsOf(s.records[id := Moved(p, r, Staging(u, nonce), now)]))
    ensures FreeFor(c, s.records, id, Credentials(Moved(p, r, Staging(u, nonce), now)))
  {
    hide Good, SumOver, ValidatedMaterial, ReferencesValid, Unwrap, ActiveBytes, EvidenceBytes, CommittedBytes,
      InUse, Credentials, TotalsOf, WithinQuota, FreeFor, Committed, Offered, Staged, DueNow;
    var r' := Moved(p, r, Staging(u, nonce), now);
    StagedHolds(p, r, u.objectId, Wrap(p, id, u, nonce), now);
    GrowthWithinQuota(c, s.records, id, r');
  }

  lemma CommittingGrows(c: Config, p: Primitives, s: Installation, id: Uuid, r: Record, json: Bytes, nonce: Nonce, now: Instant)
    requires WithinQuota(c, TotalsOf(s.records)) && FreeFor(c, s.records, id, Credentials(r))
    requires id in s.records && r == s.records[id] && Good(p, r) && r.binding.mailboxId == id
    requires MoveAllowed(c, p, s, r, Committing(json, nonce), now)
    ensures WithinQuota(c, TotalsOf(s.records[id := Moved(p, r, Committing(json, nonce), now)]))
    ensures FreeFor(c, s.records, id, Credentials(Moved(p, r, Committing(json, nonce), now)))
  {
    hide Good, SumOver, ValidatedMaterial, ReferencesValid, Unwrap, ActiveBytes, EvidenceBytes, CommittedBytes,
      InUse, Credentials, TotalsOf, WithinQuota, FreeFor, Committed, Offered, Staged, DueNow;
    var r' := Moved(p, r, Committing(json, nonce), now);
    CommittedHolds(p, r, json, nonce, now);
    FewerFree(c, s.records, id, Credentials(r), Credentials(r'));
    GrowthWithinQuota(c, s.records, id, r');
  }

  lemma GrowthKeepsInv(c: Config, p: Primitives, s: Installation, id: Uuid, r: Record, move: Move, now: Instant)
    requires WithinQuota(c, TotalsOf(s.records)) && FreeFor(c, s.records, id, Credentials(r))
    requires id in s.records && r == s.records[id] && Good(p, r) && r.binding.mailboxId == id
    requires Growing(move) && MoveAllowed(c, p, s, r, move, now)
    ensures WithinQuota(c, TotalsOf(s.records[id := Moved(p, r, move, now)]))
    ensures FreeFor(c, s.records, id, Credentials(Moved(p, r, move, now)))
  {
    hide Good, MoveAllowed, Moved, TotalsOf, WithinQuota, FreeFor, Credentials;
    match move
    case Offering(envelope, actionKey, resultCredential, resultDigest) =>
      OfferingGrows(c, p, s, id, r, envelope, actionKey, resultCredential, resultDigest, now);
    case Staging(u, nonce) => StagingGrows(c, p, s, id, r, u, nonce, now);
    case Committing(json, nonce) => CommittingGrows(c, p, s, id, r, json, nonce, now);
  }

  lemma MovementKeepsInv(c: Config, p: Primitives, s: Installation, id: Uuid, move: Move, now: Instant)
    requires Sound(p) && Inv(c, p, s) && Enabled(c, p, s, id, move, now)
    ensures Inv(c, p, Put(s, Moved(p, s.records[id], move, now), now))
  {
    hide Sound, Inv, Good, MoveAllowed, Moved, TotalsOf, WithinQuota, FreeFor, Shrinks, Credentials, NotAhead;
    var r := s.records[id];
    InvAt(c, p, s, id);
    InvQuota(c, p, s);
    MovedGood(c, p, s, r, move, now);
    if Growing(move) {
      GrowthKeepsInv(c, p, s, id, r, move, now);
      PutKeepsInv(c, p, s, Moved(p, r, move, now), now);
    } else {
      MovedShrinks(p, r, move, now);
      ShrinkKeepsInv(c, p, s, Moved(p, r, move, now), now);
    }
  }

  // --- Sweeps ----------------------------------------------------------------

  /** Some records kept, each replaced by a good one that holds no more. */
  ghost predicate Thinned(p: Primitives, records: map<Uuid, Record>, records': map<Uuid, Record>, now: Instant) {
    && records'.Keys <= records.Keys
    && forall id | id in records' :: Good(p, records'[id]) && records'[id].lastSeen == now && Shrinks(records[id], records'[id])
  }

  lemma ThinnedCredentials(c: Config, p: Primitives, records: map<Uuid, Record>, records': map<Uuid, Record>, now: Instant)
    requires CredentialsDistinct(c, records) && Thinned(p, records, records', now)
    ensures CredentialsDistinct(c, records')
  {
    hide Good, Credentials, EvidenceBytes, ActiveBytes, CommittedBytes;
    forall a, b | a in records' && b in records' && a != b
      ensures Credentials(records'[a]) !! Credentials(records'[b])
    {
      assert Credentials(records[a]) !! Credentials(records[b]);
    }
  }

  lemma ThinnedTotals(c: Config, p: Primitives, records: map<Uuid, Record>, records': map<Uuid, Record>, now: Instant)
    requires WithinQuota(c, TotalsOf(records)) && Thinned(p, records, records', now)
    ensures WithinQuota(c, TotalsOf(records'))
  {
    hide Good, Credentials, SumOver, EvidenceBytes, ActiveBytes, CommittedBytes;
    SumMonotone(records', records, ActiveBytes);
    SumMonotone(records', records, EvidenceBytes);
    SumMonotone(records', records, CommittedBytes);
  }

  ghost predicate TombstonesFit(c: Config, s: Installation) {
    && s.records.Keys !! s.tombstones.Keys
    && |s.tombstones| <= c.limits.maxTombstones
    && forall id | id in s.tombstones :: TombstoneSemantics(c, s, s.tombstones[id])
  }

  lemma ThinnedKeys(c: Config, p: Primitives, s: Installation, s': Installation, now: Instant)
    requires WellKeyed(c, s) && Thinned(p, s.records, s'.records, now) && TombstonesFit(c, s')
    ensures WellKeyed(c, s')
  {
    hide Good, Shrinks, TombstoneSemantics;
    SubsetSize(s'.records.Keys, s.records.Keys);
    forall id | id in s'.records ensures s'.records[id].binding.mailboxId == id {
      SameBinding(s.records[id], s'.records[id]);
    }
  }

  lemma SameBinding(r: Record, r': Record)
    requires Shrinks(r, r')
    ensures r'.binding == r.binding
  {
  }

  lemma GoodParts(p: Primitives, r: Record)
    requires Good(p, r)
    ensures RecordSemantics(r) && ValidatedMaterial(p, r).Some?
  {
    hide RecordSemantics, ValidatedMaterial;
  }

  lemma ThinnedRecords(p: Primitives, s: Installation, s': Installation, now: Instant)
    requires Thinned(p, s.records, s'.records, now) && s'.highWater == Some(now)
    ensures forall id | id in s'.records :: RecordSemantics(s'.records[id]) && Seen(s', s'.records[id].lastSeen)
    ensures forall id | id in s'.records :: ValidatedMaterial(p, s'.records[id]).Some?
  {
    hide Good, RecordSemantics, ValidatedMaterial, Shrinks;
    forall id | id in s'.records
      ensures RecordSemantics(s'.records[id]) && Seen(s', s'.records[id].lastSeen) && ValidatedMaterial(p, s'.records[id]).Some?
    {
      GoodParts(p, s'.records[id]);
    }
  }

  lemma SweepKeepsInv(c: Config, p: Primitives, s: Installation, s': Installation, now: Instant)
    requires Inv(c, p, s)
    requires Thinned(p, s.records, s'.records, now)
    requires s'.highWater == Some(now) && TombstonesFit(c, s')
    ensures Inv(c, p, s')
  {
    hide WellKeyed, RecordSemantics, ValidatedMaterial, CredentialsDistinct, TotalsOf, WithinQuota, TombstoneSemantics, Thinned, Seen;
    InvQuota(c, p, s);
    ThinnedKeys(c, p, s, s', now);
    ThinnedCredentials(c, p, s.records, s'.records, now);
    ThinnedTotals(c, p, s.records, s'.records, now);
    ThinnedRecords(p, s, s', now);
  }

  lemma InvTombstones(c: Config, p: Primitives, s: Installation)
    requires Inv(c, p, s)
    ensures TombstonesFit(c, s)
  {
    hide RecordSemantics, ValidatedMaterial, CredentialsDistinct, TotalsOf, WithinQuota, TombstoneSemantics;
  }

  lemma SweepingFits(c: Config, p: Primitives, s: Installation, now: Instant)
    requires TombstonesFit(c, s) && NotAhead(s, now)
    ensures TombstonesFit(c, SweptAll(p, s, now))
  {
    hide SweptRecord;
  }

  lemma SweptGood(c: Config, p: Primitives, s: Installation, id: Uuid, now: Instant)
    requires Sound(p) && Inv(c, p, s) && id in s.records && s.records[id].lastSeen <= now
    ensures var r' := SweptRecord(p, s.records[id], now);
            Good(p, r') && r'.lastSeen == now && Shrinks(s.records[id], r')
  {
    hide Sound, Inv, Good, Moved, DueNow, Shrinks, FreeFor;
    var r := s.records[id];
    var move := if DueNow(r, now) then Expiry else Observing;
    InvAt(c, p, s, id);
    MovedGood(c, p, s, r, move, now);
    MovedShrinks(p, r, move, now);
  }

  lemma SweepingKeepsInv(c: Config, p: Primitives, s: Installation, now: Instant)
    requires Sound(p) && Inv(c, p, s) && SweepAllowed(s, now)
    ensures Inv(c, p, SweptAll(p, s, now))
  {
    hide Sound, Inv, Good, SweptRecord, Shrinks, TombstonesFit;
    InvTombstones(c, p, s);
    SweepingFits(c, p, s, now);
    var s' := SweptAll(p, s, now);
    forall id | id in s'.records
      ensures Good(p, s'.records[id]) && s'.records[id].lastSeen == now && Shrinks(s.records[id], s'.records[id])
    {
      SweptGood(c, p, s, id, now);
    }
    SweepKeepsInv(c, p, s, s', now);
  }

  /** A collection never overfills the tombstones. */
  lemma RemovedFits(c: Config, s: Installation, now: Instant)
    requires |s.tombstones| <= c.limits.maxTombstones
    ensures |LiveTombstones(s, now)| + |Removed(c, s, now)| <= c.limits.maxTombstones
  {
    hide Oldest, Due;
    var live := LiveTombstones(s, now);
    assert live.Keys <= s.tombstones.Keys;
    SubsetSize(live.Keys, s.tombstones.Keys);
    OldestIsOldest(s.records, DueIds(c, s.records, now), c.limits.maxTombstones - |live|);
  }

  lemma CollectedTombstones(c: Config, s: Installation, now: Instant)
    requires forall id | id in s.tombstones :: TombstoneSemantics(c, s, s.tombstones[id])
    requires NotAhead(s, now) && now + c.limits.tombstoneRetention <= MAX_INSTANT
    ensures forall id | id in CollectedAll(c, s, now).tombstones :: TombstoneSemantics(c, CollectedAll(c, s, now), CollectedAll(c, s, now).tombstones[id])
  {
    hide Removed;
  }

  lemma CollectedKeys(c: Config, s: Installation, now: Instant)
    ensures CollectedAll(c, s, now).tombstones.Keys == LiveTombstones(s, now).Keys + Removed(c, s, now)
    ensures CollectedAll(c, s, now).records.Keys == s.records.Keys - Removed(c, s, now)
  {
    hide Removed;
  }

  lemma CollectingFits(c: Config, s: Installation, now: Instant)
    requires TombstonesFit(c, s) && NotAhead(s, now) && now + c.limits.tombstoneRetention <= MAX_INSTANT
    ensures TombstonesFit(c, CollectedAll(c, s, now))
  {
    hide Removed, CollectedAll, TombstoneSemantics;
    CollectedKeys(c, s, now);
    CollectedTombstones(c, s, now);
    RemovedFits(c, s, now);
    SizeOfUnion(LiveTombstones(s, now).Keys, Removed(c, s, now));
  }

  lemma SizeOfUnion(a: set<Uuid>, b: set<Uuid>)
    ensures |a + b| <= |a| + |b|
  {
    assert a + b == a + (b - a);
    SubsetSize(b - a, b);
  }

  lemma CollectedGood(c: Config, p: Primitives, s: Installation, id: Uuid, now: Instant)
    requires Inv(c, p, s) && id in s.records && s.records[id].lastSeen <= now
    ensures var r' := s.records[id].(lastSeen := now); Good(p, r') && Shrinks(s.records[id], r')
  {
    hide Inv, Good, Shrinks, FreeFor, ValidatedMaterial, Credentials, ViewOf;
    var r := s.records[id];
    assert Moved(p, r, Observing, now) == r.(lastSeen := now);
    hide Moved;
    InvAt(c, p, s, id);
    ObservedGood(p, r, now);
    MovedShrinks(p, r, Observing, now);
  }

  lemma CollectingKeepsInv(c: Config, p: Primitives, s: Installation, now: Instant)
    requires Sound(p) && Inv(c, p, s) && SweepAllowed(s, now) && now + c.limits.tombstoneRetention <= MAX_INSTANT
    ensures Inv(c, p, CollectedAll(c, s, now))
  {
    hide Sound, Inv, Good, Removed, TombstonesFit, Shrinks;
    InvTombstones(c, p, s);
    CollectingFits(c, s, now);
    var s' := CollectedAll(c, s, now);
    forall id | id in s'.records
      ensures Good(p, s'.records[id]) && s'.records[id].lastSeen == now && Shrinks(s.records[id], s'.records[id])
    {
      CollectedGood(c, p, s, id, now);
    }
    SweepKeepsInv(c, p, s, s', now);
  }

  lemma EffectKeepsInv(c: Config, p: Primitives, s: Installation, effect: Effect)
    requires Sound(p) && Inv(c, p, s) && EffectAllowed(c, p, s, effect)
    ensures Inv(c, p, Apply(c, p, s, effect))
  {
    hide Sound, Inv, CreationAllowed, MoveAllowed, SweepAllowed, Put, Moved, SweptAll, CollectedAll;
    match effect
    case Nothing =>
    case Creation(r, now) => CreationKeepsInv(c, p, s, r, now);
    case Movement(id, move, now) => MovementKeepsInv(c, p, s, id, move, now);
    case Sweeping(now) => SweepingKeepsInv(c, p, s, now);
    case Collecting(now) => CollectingKeepsInv(c, p, s, now);
  }

  // --- Every operation only does what is allowed -----------------------------

  ghost predicate Allowed(c: Config, p: Primitives, s: Installation, d: Decision) {
    EffectAllowed(c, p, s, d.effect)
  }

  lemma CreateAllowed(c: Config, p: Primitives, s: Installation, binding: ActionBinding,
                      action: Digest, claim: Digest, collection: Digest, clock: Option<Instant>)
    ensures Allowed(c, p, s, DecideCreate(c, s, binding, action, claim, collection, clock))
  {
    hide InUse, ViewOf;
  }

  lemma OfferAllowed(c: Config, p: Primitives, s: Installation, binding: ActionBinding, envelope: Bytes, actionKey: Bytes,
                     action: Digest, collection: Digest, resultCredential: Bytes, resultDigest: Digest, clock: Option<Instant>)
    requires WellKeyed(c, s)
    ensures Allowed(c, p, s, DecideOffer(c, p, s, binding, envelope, actionKey, action, collection, resultCredential, resultDigest, clock))
  {
    hide InUse, ViewOf, ValidatedMaterial, SumOver, Moved, DueNow;
  }

  lemma ClaimAllowed(c: Config, p: Primitives, s: Installation, binding: ActionBinding, claim: Digest,
                     clock: Option<Instant>, crashes: set<CrashPoint>)
    requires WellKeyed(c, s)
    ensures Allowed(c, p, s, DecideClaim(p, s, binding, claim, clock, crashes))
  {
    hide ViewOf, ValidatedMaterial, ActionFits, Moved, DueNow;
  }

  lemma StageAllowed(c: Config, p: Primitives, s: Installation, binding: ActionBinding, resultDigest: Digest,
                     u: EvidenceUpload, nonce: Nonce, clock: Option<Instant>, crashes: set<CrashPoint>)
    requires WellKeyed(c, s)
    ensures Allowed(c, p, s, DecideStage(c, p, s, binding, resultDigest, u, nonce, clock, crashes))
  {
    hide ViewOf, ValidatedMaterial, SumOver, EvidenceBytes, Unwrap, Wrap, Moved, DueNow;
  }

  lemma CommitAllowed(c: Config, p: Primitives, s: Installation, binding: ActionBinding, resultDigest: Digest,
                      json: Bytes, seals: seq<EvidenceSeal>, nonce: Nonce, clock: Option<Instant>, crashes: set<CrashPoint>)
    requires WellKeyed(c, s)
    ensures Allowed(c, p, s, DecideCommit(c, p, s, binding, resultDigest, json, seals, nonce, clock, crashes))
  {
    hide ViewOf, ValidatedMaterial, SumOver, EvidenceBytes, ReferencesValid, Moved, SealsMatch, SealIds, DueNow;
  }

  lemma CollectorAllowed(c: Config, p: Primitives, s: Installation, id: Uuid, collection: Digest, clock: Option<Instant>)
    requires WellKeyed(c, s)
    ensures Allowed(c, p, s, DecideCollect(p, s, id, collection, clock))
    ensures Allowed(c, p, s, DecideAbandon(p, s, id, collection, clock))
    ensures Allowed(c, p, s, DecideInspect(p, s, id, collection, clock))
  {
    hide ViewOf, ValidatedMaterial, BundleFits, Moved, DueNow;
  }

  lemma AcknowledgedIsCommitted(p: Primitives, r: Record)
    requires Good(p, r)
    ensures r.collection == ACKNOWLEDGED ==> r.state == RESULT_COMMITTED
  {
    hide ValidatedMaterial, OwnCredentialsDistinct, EvidenceBounded;
  }

  lemma AcknowledgeAllowed(c: Config, p: Primitives, s: Installation, id: Uuid, collection: Digest,
                           clock: Option<Instant>, crashes: set<CrashPoint>)
    requires Inv(c, p, s)
    ensures Allowed(c, p, s, DecideAcknowledge(p, s, id, collection, clock, crashes))
  {
    hide Inv, Good, ViewOf, ValidatedMaterial, Moved, FreeFor;
    if id in s.records {
      InvAt(c, p, s, id);
      AcknowledgedIsCommitted(p, s.records[id]);
    }
  }

  lemma SweepsAllowed(c: Config, p: Primitives, s: Installation, maintenance: Digest, clock: Option<Instant>)
    ensures Allowed(c, p, s, DecideExpire(c, p, s, maintenance, clock))
    ensures Allowed(c, p, s, DecideCollection(c, p, s, maintenance, clock))
  {
    hide ValidatedMaterial, Removed, NewlyExpired;
  }

  /** Whatever an operation does has passed the checks that make it safe. */
  lemma DecisionAllowed(c: Config, p: Primitives, s: Installation, q: Request)
    requires Inv(c, p, s)
    ensures Allowed(c, p, s, Decide(c, p, s, q))
  {
    hide Inv, WellKeyed, WithinQuota, TotalsOf, Allowed, DecideCreate, DecideOffer, DecideClaim, DecideStage, DecideCommit,
      DecideCollect, DecideAcknowledge, DecideAbandon, DecideInspect, DecideExpire, DecideCollection;
    InvQuota(c, p, s);
    match q.op
    case Create(binding, action, claim, collection) => CreateAllowed(c, p, s, binding, action, claim, collection, q.clock);
    case Offer(binding, envelope, actionKey, action, collection, resultCredential, resultDigest) =>
      OfferAllowed(c, p, s, binding, envelope, actionKey, action, collection, resultCredential, resultDigest, q.clock);
    case Claim(binding, claim) => ClaimAllowed(c, p, s, binding, claim, q.clock, q.crashes);
    case Stage(binding, resultDigest, upload, nonce) => StageAllowed(c, p, s, binding, resultDigest, upload, nonce, q.clock, q.crashes);
    case Commit(binding, resultDigest, resultJson, seals, nonce) =>
      CommitAllowed(c, p, s, binding, resultDigest, resultJson, seals, nonce, q.clock, q.crashes);
    case Collect(id, collection) => CollectorAllowed(c, p, s, id, collection, q.clock);
    case Acknowledge(id, collection) => AcknowledgeAllowed(c, p, s, id, collection, q.clock, q.crashes);
    case Abandon(id, collection) => CollectorAllowed(c, p, s, id, collection, q.clock);
    case Expire(maintenance) => SweepsAllowed(c, p, s, maintenance, q.clock);
    case GarbageCollect(maintenance) => SweepsAllowed(c, p, s, maintenance, q.clock);
    case Inspect(id, collection) => CollectorAllowed(c, p, s, id, collection, q.clock);
  }

  // --- Main result -----------------------------------------------------------

  /** Every operation, whether it succeeds, is denied, crashes or faults, keeps the invariant. */
  lemma StepKeepsInv(c: Config, p: Primitives, s: Installation, q: Request)
    requires Sound(p) && Inv(c, p, s)
    ensures Inv(c, p, Step(c, p, s, q).after)
  {
    hide Sound, Inv, Decide, Apply, EffectAllowed;
    DecisionAllowed(c, p, s, q);
    EffectKeepsInv(c, p, s, Decide(c, p, s, q).effect);
  }
}

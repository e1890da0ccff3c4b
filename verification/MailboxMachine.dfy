/** The mailbox protocol as one step function over what an installation retains.

    Quotas are stated over sums recomputed from the records, expiry and collection of
    garbage over whole maps; `VolatileRepository` does the same work incrementally. */
module MailboxMachine {
  import opened Identifiers
  import opened MailboxDomain
  import opened MailboxCrypto

  // --- Time ------------------------------------------------------------------

  function Advance(highWater: Option<Instant>, now: Instant): Option<Instant> {
    if highWater.None? || now > highWater.value then Some(now) else highWater
  }

  /** The clock reading, unless it is unusable or behind the installation's high-water mark. */
  function InstallationNow(s: Installation, clock: Option<Instant>): Option<Instant> {
    if clock.None? then None
    else if s.highWater.Some? && clock.value < s.highWater.value then None
    else clock
  }

  predicate NotAhead(s: Installation, now: Instant) {
    s.highWater.Some? ==> s.highWater.value <= now
  }

  function Put(s: Installation, r: Record, now: Instant): Installation {
    s.(records := s.records[r.binding.mailboxId := r], highWater := Advance(s.highWater, now))
  }

  // --- Releasing material ----------------------------------------------------

  function ClearClaimMaterial(r: Record): Record {
    r.(envelope := None, actionKey := None, resultCredential := None)
  }

  function ReleasePayloads(r: Record): Record {
    r.(result := None, manifest := None, evidence := map[])
  }

  function ClearActionMaterial(r: Record): Record {
    ReleasePayloads(ClearClaimMaterial(r).(resultDigest := None))
  }

  predicate Open(state: MailboxState) {
    state == EMPTY || state == OFFERED || state == CLAIMED_ONCE
  }

  function DeadlineOf(r: Record): Instant {
    if r.state == EMPTY || r.state == OFFERED then r.binding.claimDeadline else r.binding.deadline
  }

  function Terminated(r: Record, state: MailboxState, now: Instant): Record {
    ClearActionMaterial(r).(state := state, terminalAt := Some(now), lastSeen := now)
  }

  /** The expiry check: already expired, or open past the deadline of its state. */
  predicate DueNow(r: Record, now: Instant) {
    r.state == EXPIRED || (Open(r.state) && now >= DeadlineOf(r))
  }

  // --- Moves: everything that can happen to one record -----------------------

  datatype Move =
    | Observing
    | Expiry
    | Abandonment
    | Offering(envelope: Bytes, actionKey: Bytes, resultCredential: Bytes, resultDigest: Digest)
    | Claiming
    | Staging(upload: EvidenceUpload, nonce: Nonce)
    | Committing(json: Bytes, resultNonce: Nonce)
    | Delivering
    | Acknowledging

  function Offered(r: Record, envelope: Bytes, actionKey: Bytes, resultCredential: Bytes, resultDigest: Digest, now: Instant): Record {
    r.(envelope := Some(envelope), actionKey := Some(actionKey), resultCredential := Some(resultCredential),
       resultDigest := Some(resultDigest), state := OFFERED, lastSeen := now)
  }

  function ClaimedRecord(r: Record, now: Instant): Record {
    ClearClaimMaterial(r.(state := CLAIMED_ONCE, lastSeen := now))
  }

  function Staged(r: Record, objectId: Uuid, item: WrappedEvidence, now: Instant): Record {
    r.(evidence := r.evidence[objectId := item], lastSeen := now)
  }

  function Committed(p: Primitives, r: Record, json: Bytes, nonce: Nonce, now: Instant): Record {
    var result := WrapResult(p, r.binding, json, nonce);
    r.(result := Some(result), manifest := Some(BuildManifest(p, r.binding, r.evidence.Keys, result)),
       state := RESULT_COMMITTED, collection := READY, resultDigest := None, committedAt := Some(now), lastSeen := now)
  }

  function Acknowledged(r: Record, now: Instant): Record {
    ReleasePayloads(r).(collection := ACKNOWLEDGED, terminalAt := Some(now), lastSeen := now)
  }

  function Moved(p: Primitives, r: Record, move: Move, now: Instant): Record {
    match move
    case Observing => r.(lastSeen := now)
    case Expiry => if r.state == EXPIRED then r.(lastSeen := now) else Terminated(r, EXPIRED, now)
    case Abandonment => Terminated(r, ABANDONED, now)
    case Offering(envelope, actionKey, resultCredential, resultDigest) =>
      Offered(r, envelope, actionKey, resultCredential, resultDigest, now)
    case Claiming => ClaimedRecord(r, now)
    case Staging(u, nonce) => Staged(r, u.objectId, Wrap(p, r.binding.mailboxId, u, nonce), now)
    case Committing(json, nonce) => Committed(p, r, json, nonce, now)
    case Delivering => r.(collection := DELIVERING, lastSeen := now)
    case Acknowledging => Acknowledged(r, now)
  }

  // --- Effects: everything that can happen to an installation ----------------

  datatype Effect =
    | Nothing
    | Creation(record: Record, now: Instant)
    | Movement(id: Uuid, move: Move, now: Instant)
    | Sweeping(now: Instant)
    | Collecting(now: Instant)

  /** What an operation does and what it answers. */
  datatype Decision = Decision(effect: Effect, reply: Reply)

  function Refuse(denial: Denial): Decision {
    Decision(Nothing, Denied(denial))
  }

  function Answer(p: Primitives, r: Record, move: Move, now: Instant): Decision {
    Decision(Movement(r.binding.mailboxId, move, now), Snapshot(ViewOf(Moved(p, r, move, now))))
  }

  function ExpiredDecision(r: Record, now: Instant): Decision {
    Decision(Movement(r.binding.mailboxId, Expiry, now), Denied(DENIED_EXPIRED))
  }

  // --- Admission -------------------------------------------------------------

  datatype Admission = Admitted(record: Record, now: Instant, material: Material) | Refused(denial: Denial)

  function Absent(s: Installation, id: Uuid): Denial {
    if id in s.tombstones then REPLAY else NOT_FOUND
  }

  /** The last two checks of every record-scoped operation: retained material, then time. */
  function Admit(p: Primitives, s: Installation, r: Record, clock: Option<Instant>): Admission {
    match ValidatedMaterial(p, r)
    case None => Refused(INTERNAL_UNCERTAINTY)
    case Some(material) =>
      match InstallationNow(s, clock)
      case None => Refused(INTERNAL_UNCERTAINTY)
      case Some(now) => if now < r.lastSeen then Refused(INTERNAL_UNCERTAINTY) else Admitted(r, now, material)
  }

  function AdmitCollector(p: Primitives, s: Installation, id: Uuid, collection: Digest, clock: Option<Instant>): Admission {
    if id !in s.records then Refused(Absent(s, id))
    else if s.records[id].collectionDigest != collection then Refused(UNAUTHORIZED)
    else Admit(p, s, s.records[id], clock)
  }

  function AdmitOffer(p: Primitives, s: Installation, binding: ActionBinding, action: Digest, collection: Digest, clock: Option<Instant>): Admission {
    if binding.mailboxId !in s.records then Refused(Absent(s, binding.mailboxId))
    else
      var r := s.records[binding.mailboxId];
      if r.binding != binding then Refused(BINDING_MISMATCH)
      else if r.collectionDigest != collection then Refused(UNAUTHORIZED)
      else if r.actionDigest != action then Refused(UNAUTHORIZED)
      else Admit(p, s, r, clock)
  }

  function AdmitClaim(p: Primitives, s: Installation, binding: ActionBinding, claim: Digest, clock: Option<Instant>): Admission {
    if binding.mailboxId !in s.records then Refused(Absent(s, binding.mailboxId))
    else
      var r := s.records[binding.mailboxId];
      if r.claimDigest != claim then Refused(UNAUTHORIZED)
      else if r.binding != binding then Refused(BINDING_MISMATCH)
      else Admit(p, s, r, clock)
  }

  function AdmitResult(p: Primitives, s: Installation, binding: ActionBinding, resultDigest: Digest, clock: Option<Instant>): Admission {
    if binding.mailboxId !in s.records then Refused(Absent(s, binding.mailboxId))
    else
      var r := s.records[binding.mailboxId];
      if r.binding != binding then Refused(BINDING_MISMATCH)
      else if r.state != CLAIMED_ONCE then Refused(REPLAY)
      else if r.resultDigest.None? then Refused(INTERNAL_UNCERTAINTY)
      else if r.resultDigest.value != resultDigest then Refused(UNAUTHORIZED)
      else Admit(p, s, r, clock)
  }

  // --- Credentials -----------------------------------------------------------

  function Credentials(r: Record): set<Digest> {
    {r.actionDigest, r.claimDigest, r.collectionDigest} + (if r.resultDigest.Some? then {r.resultDigest.value} else {})
  }

  predicate InUse(records: map<Uuid, Record>, digest: Digest, excluding: Option<Uuid>) {
    exists id :: id in records && Some(id) != excluding && digest in Credentials(records[id])
  }

  // --- Operations ------------------------------------------------------------

  function NewRecord(binding: ActionBinding, now: Instant, action: Digest, claim: Digest, collection: Digest): Record {
    Record(binding, now, now, action, claim, collection, EMPTY, NONE, None, None, None, None, map[], None, None, None, None)
  }

  function DecideCreate(c: Config, s: Installation, binding: ActionBinding,
                        action: Digest, claim: Digest, collection: Digest, clock: Option<Instant>): Decision {
    match InstallationNow(s, clock)
    case None => Refuse(INTERNAL_UNCERTAINTY)
    case Some(now) =>
      if binding.mailboxId in s.records then Refuse(ALREADY_EXISTS)
      else if binding.mailboxId in s.tombstones then Refuse(REPLAY)
      else if |s.records| >= c.limits.maxMailboxes then Refuse(QUOTA_EXCEEDED)
      else if |{action, claim, collection}| != 3 then Refuse(INVALID_INPUT)
      else if c.maintenance in {action, claim, collection} then Refuse(INVALID_INPUT)
      else if InUse(s.records, action, None) || InUse(s.records, claim, None) || InUse(s.records, collection, None) then Refuse(REPLAY)
      else if now >= binding.claimDeadline then Refuse(DENIED_EXPIRED)
      else
        var r := NewRecord(binding, now, action, claim, collection);
        Decision(Creation(r, now), Snapshot(ViewOf(r)))
  }

  function DecideOffer(c: Config, p: Primitives, s: Installation, binding: ActionBinding, envelope: Bytes, actionKey: Bytes,
                       action: Digest, collection: Digest, resultCredential: Bytes, resultDigest: Digest,
                       clock: Option<Instant>): Decision {
    match AdmitOffer(p, s, binding, action, collection, clock)
    case Refused(denial) => Refuse(denial)
    case Admitted(r, now, _) =>
      if |{r.actionDigest, r.claimDigest, r.collectionDigest, resultDigest}| != 4 then Refuse(INVALID_INPUT)
      else if c.maintenance == resultDigest then Refuse(INVALID_INPUT)
      else if InUse(s.records, resultDigest, Some(binding.mailboxId)) then Refuse(REPLAY)
      else if DueNow(r, now) then ExpiredDecision(r, now)
      else if r.state != EMPTY then Refuse(REPLAY)
      else if SumOver(s.records, ActiveBytes) + |envelope| + |actionKey| + |resultCredential| > c.limits.maxActiveBytes then
        Refuse(QUOTA_EXCEEDED)
      else
        Answer(p, r, Offering(envelope, actionKey, resultCredential, resultDigest), now)
  }

  /** The checks `ClaimedAction` makes on the material it carries. */
  predicate ActionFits(envelope: Bytes, actionKey: Bytes, resultCredential: Bytes) {
    && 0 < |envelope| <= MAX_ACTION_ENVELOPE_BYTES
    && |actionKey| == ACTION_KEY_BYTES
    && MIN_CREDENTIAL_BYTES <= |resultCredential| <= MAX_CREDENTIAL_BYTES
  }

  function DecideClaim(p: Primitives, s: Installation, binding: ActionBinding, claim: Digest,
                       clock: Option<Instant>, crashes: set<CrashPoint>): Decision {
    match AdmitClaim(p, s, binding, claim, clock)
    case Refused(denial) => Refuse(denial)
    case Admitted(r, now, _) =>
      if DueNow(r, now) then ExpiredDecision(r, now)
      else if r.state != OFFERED then Refuse(REPLAY)
      else if r.envelope.None? || r.actionKey.None? || r.resultCredential.None? then Refuse(INTERNAL_UNCERTAINTY)
      else if BEFORE_CLAIM_COMMIT in crashes then Decision(Nothing, Crashed(BEFORE_CLAIM_COMMIT))
      else
        Decision(Movement(binding.mailboxId, Claiming, now),
                 if AFTER_CLAIM_COMMIT in crashes then Crashed(AFTER_CLAIM_COMMIT)
                 else if !ActionFits(r.envelope.value, r.actionKey.value, r.resultCredential.value) then Fault
                 else Claimed(r.binding, r.envelope.value, r.actionKey.value, r.resultCredential.value))
  }

  function DecideStage(c: Config, p: Primitives, s: Installation, binding: ActionBinding, resultDigest: Digest,
                       u: EvidenceUpload, nonce: Nonce, clock: Option<Instant>, crashes: set<CrashPoint>): Decision {
    match AdmitResult(p, s, binding, resultDigest, clock)
    case Refused(denial) => Refuse(denial)
    case Admitted(r, now, _) =>
      if DueNow(r, now) then ExpiredDecision(r, now)
      else if u.objectId in r.evidence then Refuse(REPLAY)
      else if |r.evidence| >= MAX_EVIDENCE_ITEMS then Refuse(EVIDENCE_LIMIT)
      else if EvidenceBytes(r) + |u.payload| > r.binding.responseBytes then Refuse(EVIDENCE_LIMIT)
      else if SumOver(s.records, EvidenceBytes) + |u.payload| > c.limits.maxEvidenceBytes then Refuse(QUOTA_EXCEEDED)
      else if p.hash(u.payload) != u.payloadDigest then Refuse(DIGEST_MISMATCH)
      else if Unwrap(p, binding.mailboxId, u.objectId, Wrap(p, binding.mailboxId, u, nonce)).None? then Refuse(INTERNAL_UNCERTAINTY)
      else if BEFORE_EVIDENCE_COMMIT in crashes then Decision(Nothing, Crashed(BEFORE_EVIDENCE_COMMIT))
      else if AFTER_EVIDENCE_COMMIT in crashes then
        Decision(Movement(binding.mailboxId, Staging(u, nonce), now), Crashed(AFTER_EVIDENCE_COMMIT))
      else
        Answer(p, r, Staging(u, nonce), now)
  }

  predicate SealsMatch(seals: seq<EvidenceSeal>, evidence: map<Uuid, EvidenceUpload>) {
    forall seal | seal in seals :: seal.objectId in evidence && SealMatches(seal, evidence[seal.objectId])
  }

  function SealIds(seals: seq<EvidenceSeal>): set<Uuid> {
    set seal | seal in seals :: seal.objectId
  }

  function DecideCommit(c: Config, p: Primitives, s: Installation, binding: ActionBinding, resultDigest: Digest,
                        json: Bytes, seals: seq<EvidenceSeal>, nonce: Nonce,
                        clock: Option<Instant>, crashes: set<CrashPoint>): Decision {
    match AdmitResult(p, s, binding, resultDigest, clock)
    case Refused(denial) => Refuse(denial)
    case Admitted(r, now, material) =>
      var response := |json| + EvidenceBytes(r);
      if DueNow(r, now) then ExpiredDecision(r, now)
      else if !(SealIds(seals) <= material.evidence.Keys) then Refuse(EVIDENCE_MISSING)
      else if !(material.evidence.Keys <= SealIds(seals)) then Refuse(EVIDENCE_UNREFERENCED)
      else if !SealsMatch(seals, material.evidence) then Refuse(DIGEST_MISMATCH)
      else if response > r.binding.responseBytes then Refuse(EVIDENCE_LIMIT)
      else if SumOver(s.records, CommittedBytes) + response > c.limits.maxCommittedBytes then Refuse(QUOTA_EXCEEDED)
      else if !ReferencesValid(p, r.binding, json, material.evidence) then Refuse(INTERNAL_UNCERTAINTY)
      else if BEFORE_RESULT_COMMIT in crashes then Decision(Nothing, Crashed(BEFORE_RESULT_COMMIT))
      else if AFTER_RESULT_COMMIT in crashes then
        Decision(Movement(binding.mailboxId, Committing(json, nonce), now), Crashed(AFTER_RESULT_COMMIT))
      else
        Answer(p, r, Committing(json, nonce), now)
  }

  function PayloadBytes(u: EvidenceUpload): nat {
    |u.payload|
  }

  /** The checks `CommittedBundle` makes on what it delivers. */
  predicate BundleFits(binding: ActionBinding, json: Bytes, evidence: map<Uuid, EvidenceUpload>) {
    var total := SumOver(evidence, PayloadBytes);
    && 0 < |json| <= MAX_RESULT_ENVELOPE_BYTES
    && |evidence| <= MAX_EVIDENCE_ITEMS
    && total <= MAX_EVIDENCE_BYTES
    && |json| + total <= binding.responseBytes
  }

  function DecideCollect(p: Primitives, s: Installation, id: Uuid, collection: Digest, clock: Option<Instant>): Decision {
    match AdmitCollector(p, s, id, collection, clock)
    case Refused(denial) => Refuse(denial)
    case Admitted(r, now, material) =>
      if r.collection == ACKNOWLEDGED then Refuse(REPLAY)
      else if r.state != RESULT_COMMITTED || r.result.None? then Refuse(INVALID_STATE)
      else if r.collection == NONE || material.result.None? then Refuse(INTERNAL_UNCERTAINTY)
      else
        Decision(Movement(id, Delivering, now),
                 if BundleFits(r.binding, material.result.value, material.evidence)
                 then Bundle(r.binding, material.result.value, material.evidence)
                 else Fault)
  }

  function DecideAcknowledge(p: Primitives, s: Installation, id: Uuid, collection: Digest,
                             clock: Option<Instant>, crashes: set<CrashPoint>): Decision {
    match AdmitCollector(p, s, id, collection, clock)
    case Refused(denial) => Refuse(denial)
    case Admitted(r, now, _) =>
      if r.collection == ACKNOWLEDGED then Answer(p, r, Observing, now)
      else if r.state != RESULT_COMMITTED || r.collection != DELIVERING then Refuse(INVALID_STATE)
      else if BEFORE_COLLECTION_ACK in crashes then Decision(Nothing, Crashed(BEFORE_COLLECTION_ACK))
      else if AFTER_COLLECTION_ACK in crashes then Decision(Movement(id, Acknowledging, now), Crashed(AFTER_COLLECTION_ACK))
      else Answer(p, r, Acknowledging, now)
  }

  function DecideAbandon(p: Primitives, s: Installation, id: Uuid, collection: Digest, clock: Option<Instant>): Decision {
    match AdmitCollector(p, s, id, collection, clock)
    case Refused(denial) => Refuse(denial)
    case Admitted(r, now, _) =>
      if DueNow(r, now) then ExpiredDecision(r, now)
      else if !Open(r.state) then Refuse(INVALID_STATE)
      else Answer(p, r, Abandonment, now)
  }

  function DecideInspect(p: Primitives, s: Installation, id: Uuid, collection: Digest, clock: Option<Instant>): Decision {
    match AdmitCollector(p, s, id, collection, clock)
    case Refused(denial) => Refuse(denial)
    case Admitted(r, now, _) => Answer(p, r, if DueNow(r, now) then Expiry else Observing, now)
  }

  // --- Installation sweeps ---------------------------------------------------

  datatype Sweep = Proceed(now: Instant) | Stopped(denial: Denial)

  /** The reading a sweep works at, or the denial that stops it before it changes anything. */
  function SweepNow(c: Config, p: Primitives, s: Installation, maintenance: Digest, clock: Option<Instant>): Sweep {
    if c.maintenance != maintenance then Stopped(UNAUTHORIZED)
    else if exists id :: id in s.records && ValidatedMaterial(p, s.records[id]).None? then Stopped(INTERNAL_UNCERTAINTY)
    else
      match InstallationNow(s, clock)
      case None => Stopped(INTERNAL_UNCERTAINTY)
      case Some(now) =>
        if exists id :: id in s.records && now < s.records[id].lastSeen then Stopped(INTERNAL_UNCERTAINTY)
        else Proceed(now)
  }

  /** Every record is expired if due, and in any case observed at `now`. */
  function SweptRecord(p: Primitives, r: Record, now: Instant): Record {
    Moved(p, r, if DueNow(r, now) then Expiry else Observing, now)
  }

  function SweptAll(p: Primitives, s: Installation, now: Instant): Installation {
    s.(records := map id | id in s.records :: SweptRecord(p, s.records[id], now), highWater := Advance(s.highWater, now))
  }

  function NewlyExpired(records: map<Uuid, Record>, now: Instant): set<Uuid> {
    set id | id in records && records[id].state != EXPIRED && DueNow(records[id], now)
  }

  function DecideExpire(c: Config, p: Primitives, s: Installation, maintenance: Digest, clock: Option<Instant>): Decision {
    match SweepNow(c, p, s, maintenance, clock)
    case Stopped(denial) => Refuse(denial)
    case Proceed(now) => Decision(Sweeping(now), Swept(Ascending(NewlyExpired(s.records, now))))
  }

  predicate Due(c: Config, r: Record, now: Instant) {
    r.terminalAt.Some? && now - r.terminalAt.value >= c.limits.terminalRetention
  }

  function DueIds(c: Config, records: map<Uuid, Record>, now: Instant): (ids: set<Uuid>)
    ensures ids <= records.Keys
    ensures forall id | id in ids :: records[id].terminalAt.Some?
  {
    set id | id in records && Due(c, records[id], now)
  }

  /** Oldest terminal time first, ties by identifier. */
  predicate Before(records: map<Uuid, Record>, a: Uuid, b: Uuid)
    requires a in records && records[a].terminalAt.Some?
    requires b in records && records[b].terminalAt.Some?
  {
    var t, u := records[a].terminalAt.value, records[b].terminalAt.value;
    t < u || (t == u && a < b)
  }

  ghost predicate Terminal(records: map<Uuid, Record>, ids: set<Uuid>) {
    forall id | id in ids :: id in records && records[id].terminalAt.Some?
  }

  ghost predicate IsFirst(records: map<Uuid, Record>, ids: set<Uuid>, m: Uuid)
    requires Terminal(records, ids)
  {
    m in ids && forall y | y in ids :: y == m || Before(records, m, y)
  }

  lemma {:induction false} FirstExists(records: map<Uuid, Record>, ids: set<Uuid>) returns (m: Uuid)
    requires Terminal(records, ids) && ids != {}
    ensures IsFirst(records, ids, m)
    decreases |ids|
  {
    m :| m in ids;
    var rest := ids - {m};
    assert forall y | y in ids :: y == m || y in rest;
    if rest != {} {
      var n := FirstExists(records, rest);
      if Before(records, n, m) {
        m := n;
      } else {
        assert Before(records, m, n);
        forall y | y in rest ensures Before(records, m, y) {
          assert y == n || Before(records, n, y);
        }
      }
    }
  }

  ghost function First(records: map<Uuid, Record>, ids: set<Uuid>): (m: Uuid)
    requires Terminal(records, ids) && ids != {}
    ensures IsFirst(records, ids, m)
  {
    assert exists m :: IsFirst(records, ids, m) by {
      var w := FirstExists(records, ids);
    }
    var m :| IsFirst(records, ids, m);
    m
  }

  /** The `room` oldest of `ids`. */
  ghost function Oldest(records: map<Uuid, Record>, ids: set<Uuid>, room: nat): (r: set<Uuid>)
    requires Terminal(records, ids)
    ensures r <= ids
  {
    if room == 0 || ids == {} then {} else
      var m := First(records, ids);
      {m} + Oldest(records, ids - {m}, room - 1)
  }

  /** `chosen` is a prefix of `ids` in removal order. */
  ghost predicate IsOldestPart(records: map<Uuid, Record>, ids: set<Uuid>, chosen: set<Uuid>)
    requires Terminal(records, ids)
  {
    chosen <= ids && forall a, b | a in chosen && b in ids - chosen :: Before(records, a, b)
  }

  ghost function Smaller(a: nat, b: nat): nat {
    if a < b then a else b
  }

  lemma OldestTurn(records: map<Uuid, Record>, ids: set<Uuid>, m: Uuid, rest: set<Uuid>)
    requires Terminal(records, ids) && IsFirst(records, ids, m)
    requires IsOldestPart(records, ids - {m}, rest)
    ensures IsOldestPart(records, ids, {m} + rest)
    ensures |{m} + rest| == 1 + |rest|
  {
    hide Before;
    forall a, b | a in {m} + rest && b in ids - ({m} + rest) ensures Before(records, a, b) {
      assert b in ids - {m} - rest;
    }
  }

  lemma {:induction false} OldestIsOldest(records: map<Uuid, Record>, ids: set<Uuid>, room: nat)
    requires Terminal(records, ids)
    ensures IsOldestPart(records, ids, Oldest(records, ids, room))
    ensures |Oldest(records, ids, room)| == Smaller(|ids|, room)
    decreases room
  {
    hide Before;
    if room > 0 && ids != {} {
      hide IsOldestPart, IsFirst;
      var m := First(records, ids);
      OldestIsOldest(records, ids - {m}, room - 1);
      OldestTurn(records, ids, m, Oldest(records, ids - {m}, room - 1));
      FirstIsIn(records, ids, m);
    }
  }

  lemma FirstIsIn(records: map<Uuid, Record>, ids: set<Uuid>, m: Uuid)
    requires Terminal(records, ids) && IsFirst(records, ids, m)
    ensures |ids - {m}| == |ids| - 1
  {
  }

  /** An oldest part is determined by its size, so the removal order leaves no choice. */
  lemma OldestUnique(records: map<Uuid, Record>, ids: set<Uuid>, a: set<Uuid>, b: set<Uuid>)
    requires Terminal(records, ids)
    requires IsOldestPart(records, ids, a) && IsOldestPart(records, ids, b)
    requires |a| == |b|
    ensures a == b
  {
    if a - b != {} {
      var x :| x in a - b;
      SizeSplit(a, b);
      var y :| y in b - a;
      NotBothBefore(records, x, y);
      assert false;
    } else {
      SizeSplit(b, a);
      assert a == b;
    }
  }

  lemma NotBothBefore(records: map<Uuid, Record>, x: Uuid, y: Uuid)
    requires x in records && records[x].terminalAt.Some?
    requires y in records && records[y].terminalAt.Some?
    requires Before(records, x, y)
    ensures !Before(records, y, x)
  {
  }

  lemma SizeSplit(a: set<Uuid>, b: set<Uuid>)
    requires |a| == |b|
    ensures |a - b| == |b - a|
    ensures a - b != {} ==> b - a != {}
  {
    assert a == (a - b) + (a * b);
    assert b == (b - a) + (a * b);
  }

  lemma {:induction false} SubsetSize(a: set<Uuid>, b: set<Uuid>)
    requires a <= b
    ensures |a| <= |b|
  {
    if a != {} {
      var x :| x in a;
      SubsetSize(a - {x}, b - {x});
    }
  }

  function LiveTombstones(s: Installation, now: Instant): map<Uuid, Tombstone> {
    map id | id in s.tombstones && s.tombstones[id].expiresAt > now :: s.tombstones[id]
  }

  /** What a collection removes: the oldest due records that free tombstone slots can take. */
  ghost function Removed(c: Config, s: Installation, now: Instant): (ids: set<Uuid>)
    ensures ids <= s.records.Keys
  {
    var live := |LiveTombstones(s, now)|;
    var room := if live < c.limits.maxTombstones then c.limits.maxTombstones - live else 0;
    Oldest(s.records, DueIds(c, s.records, now), room)
  }

  ghost function CollectedAll(c: Config, s: Installation, now: Instant): Installation {
    var removed := Removed(c, s, now);
    var until: Instant := if now + c.limits.tombstoneRetention <= MAX_INSTANT then now + c.limits.tombstoneRetention else MAX_INSTANT;
    Installation(
      map id | id in s.records && id !in removed :: s.records[id].(lastSeen := now),
      LiveTombstones(s, now) + map id | id in removed :: Tombstone(now, until),
      Advance(s.highWater, now))
  }

  ghost function DecideCollection(c: Config, p: Primitives, s: Installation, maintenance: Digest, clock: Option<Instant>): Decision {
    match SweepNow(c, p, s, maintenance, clock)
    case Stopped(denial) => Refuse(denial)
    case Proceed(now) =>
      if now + c.limits.tombstoneRetention > MAX_INSTANT then Refuse(INTERNAL_UNCERTAINTY)
      else Decision(Collecting(now), Swept(Ascending(Removed(c, s, now))))
  }

  // --- The step --------------------------------------------------------------

  ghost function Decide(c: Config, p: Primitives, s: Installation, q: Request): Decision {
    match q.op
    case Create(binding, action, claim, collection) => DecideCreate(c, s, binding, action, claim, collection, q.clock)
    case Offer(binding, envelope, actionKey, action, collection, resultCredential, resultDigest) =>
      DecideOffer(c, p, s, binding, envelope, actionKey, action, collection, resultCredential, resultDigest, q.clock)
    case Claim(binding, claim) => DecideClaim(p, s, binding, claim, q.clock, q.crashes)
    case Stage(binding, resultDigest, upload, nonce) =>
      DecideStage(c, p, s, binding, resultDigest, upload, nonce, q.clock, q.crashes)
    case Commit(binding, resultDigest, resultJson, seals, nonce) =>
      DecideCommit(c, p, s, binding, resultDigest, resultJson, seals, nonce, q.clock, q.crashes)
    case Collect(id, collection) => DecideCollect(p, s, id, collection, q.clock)
    case Acknowledge(id, collection) => DecideAcknowledge(p, s, id, collection, q.clock, q.crashes)
    case Abandon(id, collection) => DecideAbandon(p, s, id, collection, q.clock)
    case Expire(maintenance) => DecideExpire(c, p, s, maintenance, q.clock)
    case GarbageCollect(maintenance) => DecideCollection(c, p, s, maintenance, q.clock)
    case Inspect(id, collection) => DecideInspect(p, s, id, collection, q.clock)
  }

  ghost function Apply(c: Config, p: Primitives, s: Installation, effect: Effect): Installation {
    match effect
    case Nothing => s
    case Creation(r, now) => Put(s, r, now)
    case Movement(id, move, now) => if id in s.records then Put(s, Moved(p, s.records[id], move, now), now) else s
    case Sweeping(now) => SweptAll(p, s, now)
    case Collecting(now) => CollectedAll(c, s, now)
  }

  ghost function Step(c: Config, p: Primitives, s: Installation, q: Request): Outcome {
    var decision := Decide(c, p, s, q);
    Outcome(Apply(c, p, s, decision.effect), decision.reply)
  }
}

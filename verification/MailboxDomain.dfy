/** Value types of the runner mailbox: states, denials, bounds, bindings, uploads,
    the retained records and the replies an operation can give. */
module MailboxDomain {
  import opened Identifiers

  newtype Byte = b: int | 0 <= b < 256
  type Bytes = seq<Byte>
  type Digest = d: Bytes | |d| == 32 witness seq(32, _ => 0)
  type Nonce = n: Bytes | |n| == 12 witness seq(12, _ => 0)

  /** Microseconds since 0001-01-01T00:00:00Z; the last one is the end of year 9999. */
  const MAX_INSTANT: nat := 315_537_897_599_999_999
  type Instant = t: nat | t <= MAX_INSTANT

  const ACTION_KEY_BYTES := 32
  const MIN_CREDENTIAL_BYTES := 32
  const MAX_CREDENTIAL_BYTES := 128
  const MAX_ACTION_ENVELOPE_BYTES := 8_388_608
  const MAX_RESULT_ENVELOPE_BYTES := 1_048_576
  const MAX_EVIDENCE_BYTES := 67_108_864
  const MAX_EVIDENCE_ITEMS := 64
  const MAX_WALL_SECONDS := 3_600

  datatype MailboxState = EMPTY | OFFERED | CLAIMED_ONCE | RESULT_COMMITTED | EXPIRED | ABANDONED

  datatype CollectionState = NONE | READY | DELIVERING | ACKNOWLEDGED

  datatype Denial =
    | ALREADY_EXISTS | NOT_FOUND | INVALID_INPUT | UNAUTHORIZED | BINDING_MISMATCH
    | INVALID_STATE | DENIED_EXPIRED | REPLAY | OVERSIZE | DIGEST_MISMATCH
    | RESULT_MISMATCH | CAPABILITY_MISMATCH | EVIDENCE_MISSING | EVIDENCE_UNREFERENCED | EVIDENCE_LIMIT | QUOTA_EXCEEDED
    | CONTENDED | INTERNAL_UNCERTAINTY

  datatype CrashPoint =
    | BEFORE_CLAIM_COMMIT | AFTER_CLAIM_COMMIT
    | BEFORE_EVIDENCE_COMMIT | AFTER_EVIDENCE_COMMIT
    | BEFORE_RESULT_COMMIT | AFTER_RESULT_COMMIT
    | BEFORE_COLLECTION_ACK | AFTER_COLLECTION_ACK

  datatype LimitFields = Limits(
    maxMailboxes: nat,
    maxActiveBytes: nat,
    maxEvidenceBytes: nat,
    maxCommittedBytes: nat,
    terminalRetention: nat,
    tombstoneRetention: nat,
    maxTombstones: nat)

  /** Every limit and both retention windows are positive. */
  type MailboxLimits = l: LimitFields |
    && l.maxMailboxes > 0 && l.maxActiveBytes > 0 && l.maxEvidenceBytes > 0
    && l.maxCommittedBytes > 0 && l.terminalRetention > 0 && l.tombstoneRetention > 0
    && l.maxTombstones > 0
    witness Limits(1, 1, 1, 1, 1, 1, 1)

  datatype BindingFields = Binding(
    mailboxId: Uuid,
    actionId: Uuid,
    intentId: Uuid,
    attemptId: Uuid,
    connectorRelease: Bytes,
    capability: Bytes,
    artifactDigest: Bytes,
    dispatchEpoch: nat,
    fence: nat,
    authorizationEpoch: nat,
    claimDeadline: Instant,
    deadline: Instant,
    wallSeconds: nat,
    responseBytes: nat,
    envelopeDigest: Bytes)

  predicate WellFormedBinding(b: BindingFields) {
    && b.claimDeadline < b.deadline
    && 0 < b.wallSeconds <= MAX_WALL_SECONDS
    && 0 < b.responseBytes <= MAX_EVIDENCE_BYTES
  }

  /** Text fields are their UTF-8 bytes. */
  type ActionBinding = b: BindingFields | WellFormedBinding(b)
    witness Binding(0, 0, 0, 0, [], [], [], 0, 0, 0, 0, 1, 1, 1, [])

  datatype UploadFields = Upload(objectId: Uuid, kind: Bytes, payloadDigest: Digest, payload: Bytes)

  /** An upload is never empty and never above the evidence bound. */
  type EvidenceUpload = u: UploadFields | 0 < |u.payload| <= MAX_EVIDENCE_BYTES
    witness Upload(0, [], seq(32, _ => 0), [0])

  datatype EvidenceSeal = Seal(objectId: Uuid, kind: Bytes, payloadDigest: Digest, byteCount: nat)

  datatype ResultEnvelope = Envelope(actionId: Uuid, attemptId: Uuid, evidence: seq<EvidenceSeal>)

  datatype WrappedEvidence = WrappedEvidence(
    objectId: Uuid,
    kind: Bytes,
    byteCount: nat,
    storageDigest: Digest,
    semanticMac: Digest,
    nonce: Nonce,
    wrapped: Bytes)

  datatype WrappedResult = WrappedResult(
    byteCount: nat,
    storageDigest: Digest,
    semanticMac: Digest,
    nonce: Nonce,
    wrapped: Bytes)

  datatype Manifest = Manifest(itemCount: nat, storageDigest: Digest, semanticMac: Digest)

  datatype Record = Record(
    binding: ActionBinding,
    createdAt: Instant,
    lastSeen: Instant,
    actionDigest: Digest,
    claimDigest: Digest,
    collectionDigest: Digest,
    state: MailboxState,
    collection: CollectionState,
    envelope: Option<Bytes>,
    actionKey: Option<Bytes>,
    resultCredential: Option<Bytes>,
    resultDigest: Option<Digest>,
    evidence: map<Uuid, WrappedEvidence>,
    result: Option<WrappedResult>,
    manifest: Option<Manifest>,
    committedAt: Option<Instant>,
    terminalAt: Option<Instant>)

  datatype Tombstone = Tombstone(createdAt: Instant, expiresAt: Instant)

  /** What an installation retains. The three running byte totals are not part of
      it: they are an implementation's cache of sums over `records`. */
  datatype Installation = Installation(
    records: map<Uuid, Record>,
    tombstones: map<Uuid, Tombstone>,
    highWater: Option<Instant>)

  const EMPTY_INSTALLATION := Installation(map[], map[], None)

  datatype Config = Config(maintenance: Digest, limits: MailboxLimits)

  datatype View = View(
    mailboxId: Uuid,
    state: MailboxState,
    collection: CollectionState,
    evidenceCount: nat,
    evidenceBytes: nat,
    resultPresent: bool,
    claimMaterialRetained: bool,
    resultCredentialRetained: bool,
    observedAt: Instant,
    claimDeadline: Instant,
    deadline: Instant)

  /** `Fault` stands for a value that could not be built because it fails its own bounds. */
  datatype Reply =
    | Snapshot(view: View)
    | Claimed(binding: ActionBinding, envelope: Bytes, actionKey: Bytes, resultCredential: Bytes)
    | Bundle(binding: ActionBinding, result: Bytes, evidence: map<Uuid, EvidenceUpload>)
    | Swept(ids: seq<Uuid>)
    | Denied(denial: Denial)
    | Crashed(point: CrashPoint)
    | Fault

  datatype Op =
    | Create(binding: ActionBinding, action: Digest, claim: Digest, collection: Digest)
    | Offer(binding: ActionBinding, envelope: Bytes, actionKey: Bytes, action: Digest,
            collection: Digest, resultCredential: Bytes, resultDigest: Digest)
    | Claim(binding: ActionBinding, claim: Digest)
    | Stage(binding: ActionBinding, resultDigest: Digest, upload: EvidenceUpload, nonce: Nonce)
    | Commit(binding: ActionBinding, resultDigest: Digest, resultJson: Bytes,
             seals: seq<EvidenceSeal>, nonce: Nonce)
    | Collect(mailboxId: Uuid, collection: Digest)
    | Acknowledge(mailboxId: Uuid, collection: Digest)
    | Abandon(mailboxId: Uuid, collection: Digest)
    | Expire(maintenance: Digest)
    | GarbageCollect(maintenance: Digest)
    | Inspect(mailboxId: Uuid, collection: Digest)

  /** One call: the operation, the clock reading taken under the lock (`None` when it
      is not an aware UTC instant), and the points at which the injector raises. */
  datatype Request = Request(op: Op, clock: Option<Instant>, crashes: set<CrashPoint>)

  datatype Outcome = Outcome(after: Installation, reply: Reply)

  // --- Byte counts -----------------------------------------------------------

  function Length(b: Option<Bytes>): nat {
    if b.Some? then |b.value| else 0
  }

  function ActiveBytes(r: Record): nat {
    Length(r.envelope) + Length(r.actionKey) + Length(r.resultCredential)
  }

  function ItemBytes(e: WrappedEvidence): nat {
    e.byteCount
  }

  function EvidenceBytes(r: Record): nat {
    SumOver(r.evidence, ItemBytes)
  }

  function ResultBytes(r: Record): nat {
    if r.result.Some? then r.result.value.byteCount else 0
  }

  function CommittedBytes(r: Record): nat {
    if r.committedAt.Some? then ResultBytes(r) + EvidenceBytes(r) else 0
  }

  function ViewOf(r: Record): View {
    View(r.binding.mailboxId, r.state, r.collection, |r.evidence|, EvidenceBytes(r),
         r.result.Some?, r.actionKey.Some? || r.envelope.Some?, r.resultCredential.Some?,
         r.lastSeen, r.binding.claimDeadline, r.binding.deadline)
  }
}

/** The durable state frame as a tree of typed values: canonical encoding, and a decoder
    that accepts nothing but the exact schema within its byte bounds. */
module PersistentCodec {
  import opened Identifiers
  import opened MailboxDomain
  import opened MailboxCrypto
  import opened MailboxInvariant

  datatype Key =
    | VERSION | RECORDS | TOMBSTONES | INSTALLATION_LAST_SEEN
    | TOTAL_ACTIVE | TOTAL_EVIDENCE | TOTAL_COMMITTED
    | BINDING | CREATED_AT | LAST_SEEN | ACTION_DIGEST | CLAIM_DIGEST | COLLECTION_DIGEST
    | STATE | COLLECTION_STATE | ENVELOPE | ACTION_KEY | RESULT_CREDENTIAL | RESULT_DIGEST
    | EVIDENCE | RESULT_ENVELOPE | MANIFEST | COMMITTED_AT | TERMINAL_AT
    | MAILBOX_ID | ACTION_ID | INTENT_ID | ATTEMPT_ID | CONNECTOR_RELEASE | CAPABILITY
    | ARTIFACT_DIGEST | DISPATCH_EPOCH | FENCE | AUTHORIZATION_EPOCH | CLAIM_DEADLINE
    | DEADLINE | WALL_SECONDS | RESPONSE_BYTES | ENVELOPE_DIGEST
    | OBJECT_ID | KIND | BYTE_COUNT | STORAGE_DIGEST | SEMANTIC_MAC | NONCE | WRAPPED
    | ITEM_COUNT | EXPIRES_AT

  /** Every leaf but `JNull` and `JInt` is text on the wire: a word, UTF-8, base64, an ISO instant or a UUID. */
  datatype Json =
    | JNull
    | JInt(number: int)
    | JWord(word: string)
    | JText(text: Bytes)
    | JData(data: Bytes)
    | JTime(instant: Instant)
    | JId(id: Uuid)
    | JList(items: seq<Json>)
    | JObject(fields: map<Key, Json>)

  const FRAME_VERSION := 1
  const MAX_WRAPPED_RESULT := 1_048_576 + 128

  // --- Leaves ----------------------------------------------------------------

  function EncodeData(b: Option<Bytes>): Json {
    if b.Some? then JData(b.value) else JNull
  }

  function EncodeTime(t: Option<Instant>): Json {
    if t.Some? then JTime(t.value) else JNull
  }

  function DataOf(j: Json, lower: nat, upper: nat): Option<Bytes> {
    if j.JData? && lower <= |j.data| <= upper then Some(j.data) else None
  }

  function OptionalData(j: Json, lower: nat, upper: nat): Option<Option<Bytes>> {
    if j.JNull? then Some(None) else if DataOf(j, lower, upper).Some? then Some(DataOf(j, lower, upper)) else None
  }

  function DigestOf(j: Json): Option<Digest> {
    if j.JData? && |j.data| == 32 then Some(j.data) else None
  }

  function NonceOf(j: Json): Option<Nonce> {
    if j.JData? && |j.data| == 12 then Some(j.data) else None
  }

  function OptionalDigest(j: Json): Option<Option<Digest>> {
    if j.JNull? then Some(None) else if DigestOf(j).Some? then Some(DigestOf(j)) else None
  }

  function TimeOf(j: Json): Option<Instant> {
    if j.JTime? then Some(j.instant) else None
  }

  function OptionalTime(j: Json): Option<Option<Instant>> {
    if j.JNull? then Some(None) else if j.JTime? then Some(Some(j.instant)) else None
  }

  function IdOf(j: Json): Option<Uuid> {
    if j.JId? then Some(j.id) else None
  }

  function TextOf(j: Json): Option<Bytes> {
    if j.JText? then Some(j.text) else None
  }

  function CountOf(j: Json): Option<nat> {
    if j.JInt? && j.number >= 0 then Some(j.number) else None
  }

  predicate Exactly(j: Json, keys: set<Key>) {
    j.JObject? && j.fields.Keys == keys
  }

  // --- Enumerations ----------------------------------------------------------

  function StateWord(s: MailboxState): string {
    match s
    case EMPTY => "empty"
    case OFFERED => "offered"
    case CLAIMED_ONCE => "claimed_once"
    case RESULT_COMMITTED => "result_committed"
    case EXPIRED => "expired"
    case ABANDONED => "abandoned"
  }

  function StateOf(j: Json): Option<MailboxState> {
    if !j.JWord? then None
    else if j.word == "empty" then Some(EMPTY)
    else if j.word == "offered" then Some(OFFERED)
    else if j.word == "claimed_once" then Some(CLAIMED_ONCE)
    else if j.word == "result_committed" then Some(RESULT_COMMITTED)
    else if j.word == "expired" then Some(EXPIRED)
    else if j.word == "abandoned" then Some(ABANDONED)
    else None
  }

  lemma StateRoundTrip(s: MailboxState)
    ensures StateOf(JWord(StateWord(s))) == Some(s)
  {
    assert |"empty"| == 5 && |"offered"| == 7 && |"claimed_once"| == 12 && |"result_committed"| == 16;
    assert |"expired"| == 7 && |"abandoned"| == 9;
    assert "offered"[0] == 'o' && "expired"[0] == 'e';
  }

  function CollectionWord(s: CollectionState): string {
    match s
    case NONE => "none"
    case READY => "ready"
    case DELIVERING => "delivering"
    case ACKNOWLEDGED => "acknowledged"
  }

  function CollectionOf(j: Json): Option<CollectionState> {
    if !j.JWord? then None
    else if j.word == "none" then Some(NONE)
    else if j.word == "ready" then Some(READY)
    else if j.word == "delivering" then Some(DELIVERING)
    else if j.word == "acknowledged" then Some(ACKNOWLEDGED)
    else None
  }

  lemma CollectionRoundTrip(s: CollectionState)
    ensures CollectionOf(JWord(CollectionWord(s))) == Some(s)
  {
    assert |"none"| == 4 && |"ready"| == 5 && |"delivering"| == 10 && |"acknowledged"| == 12;
  }

  // --- Bindings --------------------------------------------------------------

  const BINDING_KEYS: set<Key> := {MAILBOX_ID, ACTION_ID, INTENT_ID, ATTEMPT_ID, CONNECTOR_RELEASE, CAPABILITY, ARTIFACT_DIGEST,
    DISPATCH_EPOCH, FENCE, AUTHORIZATION_EPOCH, CLAIM_DEADLINE, DEADLINE, WALL_SECONDS, RESPONSE_BYTES, ENVELOPE_DIGEST}

  function EncodeBinding(b: ActionBinding): Json {
    JObject(map[
      MAILBOX_ID := JId(b.mailboxId), ACTION_ID := JId(b.actionId), INTENT_ID := JId(b.intentId), ATTEMPT_ID := JId(b.attemptId),
      CONNECTOR_RELEASE := JText(b.connectorRelease), CAPABILITY := JText(b.capability), ARTIFACT_DIGEST := JText(b.artifactDigest),
      DISPATCH_EPOCH := JInt(b.dispatchEpoch), FENCE := JInt(b.fence), AUTHORIZATION_EPOCH := JInt(b.authorizationEpoch),
      CLAIM_DEADLINE := JTime(b.claimDeadline), DEADLINE := JTime(b.deadline),
      WALL_SECONDS := JInt(b.wallSeconds), RESPONSE_BYTES := JInt(b.responseBytes), ENVELOPE_DIGEST := JText(b.envelopeDigest)])
  }

  function DecodeBinding(j: Json): Option<ActionBinding> {
    if !Exactly(j, BINDING_KEYS) then None
    else
      var f := j.fields;
      var mailboxId :- IdOf(f[MAILBOX_ID]);
      var actionId :- IdOf(f[ACTION_ID]);
      var intentId :- IdOf(f[INTENT_ID]);
      var attemptId :- IdOf(f[ATTEMPT_ID]);
      var release :- TextOf(f[CONNECTOR_RELEASE]);
      var capability :- TextOf(f[CAPABILITY]);
      var artifact :- TextOf(f[ARTIFACT_DIGEST]);
      var dispatch :- CountOf(f[DISPATCH_EPOCH]);
      var fence :- CountOf(f[FENCE]);
      var authorization :- CountOf(f[AUTHORIZATION_EPOCH]);
      var claimDeadline :- TimeOf(f[CLAIM_DEADLINE]);
      var deadline :- TimeOf(f[DEADLINE]);
      var wall :- CountOf(f[WALL_SECONDS]);
      var response :- CountOf(f[RESPONSE_BYTES]);
      var digest :- TextOf(f[ENVELOPE_DIGEST]);
      var b := Binding(mailboxId, actionId, intentId, attemptId, release, capability, artifact, dispatch, fence,
                       authorization, claimDeadline, deadline, wall, response, digest);
      if WellFormedBinding(b) then Some(b) else None
  }

  lemma BindingKeys(b: ActionBinding)
    ensures Exactly(EncodeBinding(b), BINDING_KEYS)
  {
  }

  lemma BindingFieldsA(b: ActionBinding)
    requires Exactly(EncodeBinding(b), BINDING_KEYS)
    ensures var f := EncodeBinding(b).fields;
            && f[MAILBOX_ID] == JId(b.mailboxId) && f[ACTION_ID] == JId(b.actionId) && f[INTENT_ID] == JId(b.intentId)
            && f[ATTEMPT_ID] == JId(b.attemptId) && f[CONNECTOR_RELEASE] == JText(b.connectorRelease)
            && f[CAPABILITY] == JText(b.capability) && f[ARTIFACT_DIGEST] == JText(b.artifactDigest) && f[DISPATCH_EPOCH] == JInt(b.dispatchEpoch)
  {
  }

  lemma BindingFieldsB(b: ActionBinding)
    requires Exactly(EncodeBinding(b), BINDING_KEYS)
    ensures var f := EncodeBinding(b).fields;
            && f[FENCE] == JInt(b.fence) && f[AUTHORIZATION_EPOCH] == JInt(b.authorizationEpoch)
            && f[CLAIM_DEADLINE] == JTime(b.claimDeadline) && f[DEADLINE] == JTime(b.deadline) && f[WALL_SECONDS] == JInt(b.wallSeconds)
            && f[RESPONSE_BYTES] == JInt(b.responseBytes) && f[ENVELOPE_DIGEST] == JText(b.envelopeDigest)
  {
  }

  lemma BindingRoundTrip(b: ActionBinding)
    ensures DecodeBinding(EncodeBinding(b)) == Some(b)
  {
    hide EncodeBinding;
    BindingKeys(b);
    BindingFieldsA(b);
    BindingFieldsB(b);
  }

  // --- Wrapped items ---------------------------------------------------------

  const EVIDENCE_KEYS: set<Key> := {OBJECT_ID, KIND, BYTE_COUNT, STORAGE_DIGEST, SEMANTIC_MAC, NONCE, WRAPPED}

  function EncodeEvidence(e: WrappedEvidence): Json {
    JObject(map[OBJECT_ID := JId(e.objectId), KIND := JText(e.kind), BYTE_COUNT := JInt(e.byteCount),
                STORAGE_DIGEST := JData(e.storageDigest), SEMANTIC_MAC := JData(e.semanticMac),
                NONCE := JData(e.nonce), WRAPPED := JData(e.wrapped)])
  }

  function DecodeEvidence(l: MailboxLimits, j: Json): Option<(Uuid, WrappedEvidence)> {
    if !Exactly(j, EVIDENCE_KEYS) then None
    else
      var f := j.fields;
      var objectId :- IdOf(f[OBJECT_ID]);
      var kind :- TextOf(f[KIND]);
      var byteCount :- CountOf(f[BYTE_COUNT]);
      var storageDigest :- DigestOf(f[STORAGE_DIGEST]);
      var semanticMac :- DigestOf(f[SEMANTIC_MAC]);
      var nonce :- NonceOf(f[NONCE]);
      var wrapped :- DataOf(f[WRAPPED], 16, l.maxEvidenceBytes + 128);
      Some((objectId, WrappedEvidence(objectId, kind, byteCount, storageDigest, semanticMac, nonce, wrapped)))
  }

  predicate EvidenceFits(l: MailboxLimits, e: WrappedEvidence) {
    16 <= |e.wrapped| <= l.maxEvidenceBytes + 128
  }

  lemma EvidenceRoundTrip(l: MailboxLimits, e: WrappedEvidence)
    ensures DecodeEvidence(l, EncodeEvidence(e)) == if EvidenceFits(l, e) then Some((e.objectId, e)) else None
  {
    assert EncodeEvidence(e).fields.Keys == EVIDENCE_KEYS;
  }

  const RESULT_KEYS: set<Key> := {BYTE_COUNT, STORAGE_DIGEST, SEMANTIC_MAC, NONCE, WRAPPED}

  function EncodeResult(r: Option<WrappedResult>): Json {
    if r.None? then JNull
    else JObject(map[BYTE_COUNT := JInt(r.value.byteCount), STORAGE_DIGEST := JData(r.value.storageDigest),
                     SEMANTIC_MAC := JData(r.value.semanticMac), NONCE := JData(r.value.nonce), WRAPPED := JData(r.value.wrapped)])
  }

  function DecodeResult(j: Json): Option<Option<WrappedResult>> {
    if j.JNull? then Some(None)
    else if !Exactly(j, RESULT_KEYS) then None
    else
      var f := j.fields;
      var byteCount :- CountOf(f[BYTE_COUNT]);
      var storageDigest :- DigestOf(f[STORAGE_DIGEST]);
      var semanticMac :- DigestOf(f[SEMANTIC_MAC]);
      var nonce :- NonceOf(f[NONCE]);
      var wrapped :- DataOf(f[WRAPPED], 16, MAX_WRAPPED_RESULT);
      Some(Some(WrappedResult(byteCount, storageDigest, semanticMac, nonce, wrapped)))
  }

  predicate ResultFits(r: Option<WrappedResult>) {
    r.Some? ==> 16 <= |r.value.wrapped| <= MAX_WRAPPED_RESULT
  }

  lemma ResultRoundTrip(r: Option<WrappedResult>)
    ensures DecodeResult(EncodeResult(r)) == if ResultFits(r) then Some(r) else None
  {
    if r.Some? {
      assert EncodeResult(r).fields.Keys == RESULT_KEYS;
    }
  }

  const MANIFEST_KEYS: set<Key> := {ITEM_COUNT, STORAGE_DIGEST, SEMANTIC_MAC}

  function EncodeManifest(m: Option<Manifest>): Json {
    if m.None? then JNull
    else JObject(map[ITEM_COUNT := JInt(m.value.itemCount), STORAGE_DIGEST := JData(m.value.storageDigest), SEMANTIC_MAC := JData(m.value.semanticMac)])
  }

  function DecodeManifest(j: Json): Option<Option<Manifest>> {
    if j.JNull? then Some(None)
    else if !Exactly(j, MANIFEST_KEYS) then None
    else
      var itemCount :- CountOf(j.fields[ITEM_COUNT]);
      var storageDigest :- DigestOf(j.fields[STORAGE_DIGEST]);
      var semanticMac :- DigestOf(j.fields[SEMANTIC_MAC]);
      Some(Some(Manifest(itemCount, storageDigest, semanticMac)))
  }

  lemma ManifestRoundTrip(m: Option<Manifest>)
    ensures DecodeManifest(EncodeManifest(m)) == Some(m)
  {
    if m.Some? {
      assert EncodeManifest(m).fields.Keys == MANIFEST_KEYS;
    }
  }

  // --- Keyed lists -----------------------------------------------------------

  /** The entries of a map in ascending order of their identifiers. */
  function Listed<T>(m: map<Uuid, T>, encode: (Uuid, T) -> Json): (items: seq<Json>)
    ensures |items| == |m|
  {
    var ids := Ascending(m.Keys);
    seq(|ids|, i requires 0 <= i < |ids| => assert ids[i] in ids; encode(ids[i], m[ids[i]]))
  }

  /** The first `k` items, each decoded under its own identifier; a repeated or reserved identifier is refused. */
  function Indexed<T>(items: seq<Json>, k: nat, decode: Json -> Option<(Uuid, T)>, reserved: set<Uuid>): (r: Option<map<Uuid, T>>)
    requires k <= |items|
  {
    if k == 0 then Some(map[])
    else
      var before :- Indexed(items, k - 1, decode, reserved);
      var entry :- decode(items[k - 1]);
      if entry.0 in before || entry.0 in reserved then None else Some(before[entry.0 := entry.1])
  }

  /** The decoding loop, item after item into a dictionary. */
  method IndexItems<T>(items: seq<Json>, decode: Json -> Option<(Uuid, T)>, reserved: set<Uuid>) returns (r: Option<map<Uuid, T>>)
    ensures r == Indexed(items, |items|, decode, reserved)
  {
    var found: map<Uuid, T> := map[];
    for k := 0 to |items|
      invariant Indexed(items, k, decode, reserved) == Some(found)
    {
      var entry := decode(items[k]);
      if entry.None? || entry.value.0 in found || entry.value.0 in reserved {
        IndexedFails(items, k + 1, |items|, decode, reserved);
        return None;
      }
      found := found[entry.value.0 := entry.value.1];
    }
    r := Some(found);
  }

  lemma {:induction false} IndexedFails<T>(items: seq<Json>, k: nat, n: nat, decode: Json -> Option<(Uuid, T)>, reserved: set<Uuid>)
    requires k <= n <= |items| && Indexed(items, k, decode, reserved).None?
    ensures Indexed(items, n, decode, reserved).None?
  {
    if k < n {
      IndexedFails(items, k, n - 1, decode, reserved);
    }
  }

  lemma ListedAt<T>(m: map<Uuid, T>, encode: (Uuid, T) -> Json, i: nat)
    requires i < |m|
    ensures Ascending(m.Keys)[i] in m && Listed(m, encode)[i] == encode(Ascending(m.Keys)[i], m[Ascending(m.Keys)[i]])
  {
    assert Ascending(m.Keys)[i] in Ascending(m.Keys);
  }

  ghost function FirstEntries<T>(m: map<Uuid, T>, ids: seq<Uuid>, k: nat): map<Uuid, T>
    requires k <= |ids|
  {
    map id | id in ids[..k] && id in m :: m[id]
  }

  lemma FirstEntriesTurn<T>(m: map<Uuid, T>, ids: seq<Uuid>, k: nat)
    requires k < |ids| && ids[k] in m && ids[k] !in ids[..k]
    ensures ids[k] !in FirstEntries(m, ids, k) && FirstEntries(m, ids, k + 1) == FirstEntries(m, ids, k)[ids[k] := m[ids[k]]]
  {
    assert ids[..k + 1] == ids[..k] + [ids[k]];
    assert FirstEntries(m, ids, k + 1).Keys == FirstEntries(m, ids, k).Keys + {ids[k]};
  }

  lemma FirstEntriesEnds<T>(m: map<Uuid, T>, ids: seq<Uuid>)
    requires forall id :: id in ids <==> id in m
    ensures FirstEntries(m, ids, 0) == map[]
    ensures FirstEntries(m, ids, |ids|) == m
  {
    assert ids[..|ids|] == ids;
  }

  lemma AscendingFresh(s: set<Uuid>, k: nat)
    requires k < |s|
    ensures Ascending(s)[k] in s && Ascending(s)[k] !in Ascending(s)[..k]
  {
    hide Ascending;
    assert Ascending(s)[k] in Ascending(s);
  }

  /** Listing then indexing gives the map back, whenever every entry decodes to itself. */
  lemma {:induction false} IndexedListed<T>(m: map<Uuid, T>, encode: (Uuid, T) -> Json, decode: Json -> Option<(Uuid, T)>, reserved: set<Uuid>, k: nat)
    requires k <= |m|
    requires forall id | id in m :: decode(encode(id, m[id])) == Some((id, m[id]))
    requires m.Keys !! reserved
    ensures Indexed(Listed(m, encode), k, decode, reserved) == Some(FirstEntries(m, Ascending(m.Keys), k))
  {
    hide Listed, FirstEntries, Ascending;
    if k == 0 {
      FirstEntriesEnds(m, Ascending(m.Keys));
    } else {
      IndexedListed(m, encode, decode, reserved, k - 1);
      ListedAt(m, encode, k - 1);
      AscendingFresh(m.Keys, k - 1);
      FirstEntriesTurn(m, Ascending(m.Keys), k - 1);
    }
  }

  lemma IndexedListedAll<T>(m: map<Uuid, T>, encode: (Uuid, T) -> Json, decode: Json -> Option<(Uuid, T)>, reserved: set<Uuid>)
    requires forall id | id in m :: decode(encode(id, m[id])) == Some((id, m[id]))
    requires m.Keys !! reserved
    ensures Indexed(Listed(m, encode), |m|, decode, reserved) == Some(m)
  {
    hide Listed, FirstEntries, Ascending;
    IndexedListed(m, encode, decode, reserved, |m|);
    FirstEntriesEnds(m, Ascending(m.Keys));
  }

  /** One entry that does not decode spoils the whole list. */
  lemma IndexedListedFails<T>(m: map<Uuid, T>, encode: (Uuid, T) -> Json, decode: Json -> Option<(Uuid, T)>, reserved: set<Uuid>, id: Uuid)
    requires id in m && decode(encode(id, m[id])).None?
    ensures Indexed(Listed(m, encode), |m|, decode, reserved).None?
  {
    hide Ascending, Listed;
    var ids := Ascending(m.Keys);
    AscendingCovers(m.Keys);
    ListedLength(m, encode);
    var i :| 0 <= i < |ids| && ids[i] == id;
    ListedAt(m, encode, i);
    IndexedFails(Listed(m, encode), i + 1, |m|, decode, reserved);
  }

  // --- Records ---------------------------------------------------------------

  const RECORD_KEYS: set<Key> := {BINDING, CREATED_AT, LAST_SEEN, ACTION_DIGEST, CLAIM_DIGEST, COLLECTION_DIGEST, STATE, COLLECTION_STATE,
    ENVELOPE, ACTION_KEY, RESULT_CREDENTIAL, RESULT_DIGEST, EVIDENCE, RESULT_ENVELOPE, MANIFEST, COMMITTED_AT, TERMINAL_AT}

  function EvidenceEntry(slot: Uuid, e: WrappedEvidence): Json {
    EncodeEvidence(e)
  }

  function EvidenceDecoder(l: MailboxLimits): Json -> Option<(Uuid, WrappedEvidence)> {
    j => DecodeEvidence(l, j)
  }

  function RecordHead(r: Record): map<Key, Json> {
    map[
      BINDING := EncodeBinding(r.binding), CREATED_AT := JTime(r.createdAt), LAST_SEEN := JTime(r.lastSeen),
      ACTION_DIGEST := JData(r.actionDigest), CLAIM_DIGEST := JData(r.claimDigest), COLLECTION_DIGEST := JData(r.collectionDigest),
      STATE := JWord(StateWord(r.state)), COLLECTION_STATE := JWord(CollectionWord(r.collection))]
  }

  function RecordTail(r: Record): map<Key, Json> {
    map[
      ENVELOPE := EncodeData(r.envelope), ACTION_KEY := EncodeData(r.actionKey),
      RESULT_CREDENTIAL := EncodeData(r.resultCredential), RESULT_DIGEST := EncodeData(r.resultDigest),
      EVIDENCE := JList(Listed(r.evidence, EvidenceEntry)), RESULT_ENVELOPE := EncodeResult(r.result),
      MANIFEST := EncodeManifest(r.manifest), COMMITTED_AT := EncodeTime(r.committedAt), TERMINAL_AT := EncodeTime(r.terminalAt)]
  }

  function EncodeRecord(r: Record): Json {
    JObject(RecordHead(r) + RecordTail(r))
  }

  function DecodeSlots(l: MailboxLimits, j: Json): Option<map<Uuid, WrappedEvidence>> {
    if j.JList? && |j.items| <= MAX_EVIDENCE_ITEMS then Indexed(j.items, |j.items|, EvidenceDecoder(l), {}) else None
  }

  function DecodeRecord(l: MailboxLimits, j: Json): Option<(Uuid, Record)> {
    if !Exactly(j, RECORD_KEYS) then None
    else
      var f := j.fields;
      var evidence :- DecodeSlots(l, f[EVIDENCE]);
      var binding :- DecodeBinding(f[BINDING]);
      var createdAt :- TimeOf(f[CREATED_AT]);
      var lastSeen :- TimeOf(f[LAST_SEEN]);
      var action :- DigestOf(f[ACTION_DIGEST]);
      var claim :- DigestOf(f[CLAIM_DIGEST]);
      var collector :- DigestOf(f[COLLECTION_DIGEST]);
      var state :- StateOf(f[STATE]);
      var collection :- CollectionOf(f[COLLECTION_STATE]);
      var envelope :- OptionalData(f[ENVELOPE], 1, MAX_ACTION_ENVELOPE_BYTES);
      var actionKey :- OptionalData(f[ACTION_KEY], ACTION_KEY_BYTES, ACTION_KEY_BYTES);
      var credential :- OptionalData(f[RESULT_CREDENTIAL], MIN_CREDENTIAL_BYTES, MAX_CREDENTIAL_BYTES);
      var resultDigest :- OptionalDigest(f[RESULT_DIGEST]);
      var result :- DecodeResult(f[RESULT_ENVELOPE]);
      var manifest :- DecodeManifest(f[MANIFEST]);
      var committedAt :- OptionalTime(f[COMMITTED_AT]);
      var terminalAt :- OptionalTime(f[TERMINAL_AT]);
      Some((binding.mailboxId,
            Record(binding, createdAt, lastSeen, action, claim, collector, state, collection, envelope, actionKey, credential,
                   resultDigest, evidence, result, manifest, committedAt, terminalAt)))
  }

  predicate DataFits(b: Option<Bytes>, lower: nat, upper: nat) {
    b.Some? ==> lower <= |b.value| <= upper
  }

  /** The byte bounds the decoder puts on a record, beyond what the invariant says. */
  predicate RecordFits(l: MailboxLimits, r: Record) {
    && DataFits(r.envelope, 1, MAX_ACTION_ENVELOPE_BYTES)
    && DataFits(r.actionKey, ACTION_KEY_BYTES, ACTION_KEY_BYTES)
    && DataFits(r.resultCredential, MIN_CREDENTIAL_BYTES, MAX_CREDENTIAL_BYTES)
    && |r.evidence| <= MAX_EVIDENCE_ITEMS
    && (forall slot | slot in r.evidence :: EvidenceFits(l, r.evidence[slot]))
    && ResultFits(r.result)
  }

  /** Evidence sits in the slot of its own identifier. */
  predicate OwnSlots(r: Record) {
    forall slot | slot in r.evidence :: r.evidence[slot].objectId == slot
  }

  predicate SlotsFit(l: MailboxLimits, evidence: map<Uuid, WrappedEvidence>) {
    |evidence| <= MAX_EVIDENCE_ITEMS && forall slot | slot in evidence :: EvidenceFits(l, evidence[slot])
  }

  lemma SlotsRoundTrip(l: MailboxLimits, r: Record)
    requires OwnSlots(r)
    ensures DecodeSlots(l, JList(Listed(r.evidence, EvidenceEntry))) == if SlotsFit(l, r.evidence) then Some(r.evidence) else None
  {
    hide Listed, Indexed, DecodeEvidence, EncodeEvidence, EvidenceFits;
    forall slot | slot in r.evidence
      ensures EvidenceDecoder(l)(EvidenceEntry(slot, r.evidence[slot])) == if EvidenceFits(l, r.evidence[slot]) then Some((slot, r.evidence[slot])) else None
    {
      EvidenceRoundTrip(l, r.evidence[slot]);
    }
    if SlotsFit(l, r.evidence) {
      IndexedListedAll(r.evidence, EvidenceEntry, EvidenceDecoder(l), {});
    } else if |r.evidence| <= MAX_EVIDENCE_ITEMS {
      var slot :| slot in r.evidence && !EvidenceFits(l, r.evidence[slot]);
      IndexedListedFails(r.evidence, EvidenceEntry, EvidenceDecoder(l), {}, slot);
    }
  }

  const HEAD_KEYS: set<Key> := {BINDING, CREATED_AT, LAST_SEEN, ACTION_DIGEST, CLAIM_DIGEST, COLLECTION_DIGEST, STATE, COLLECTION_STATE}
  const TAIL_KEYS: set<Key> := {ENVELOPE, ACTION_KEY, RESULT_CREDENTIAL, RESULT_DIGEST, EVIDENCE, RESULT_ENVELOPE, MANIFEST, COMMITTED_AT, TERMINAL_AT}

  lemma HeadFields(r: Record)
    ensures RecordHead(r).Keys == HEAD_KEYS
    ensures var f := RecordHead(r);
            && f[BINDING] == EncodeBinding(r.binding) && f[CREATED_AT] == JTime(r.createdAt) && f[LAST_SEEN] == JTime(r.lastSeen)
            && f[ACTION_DIGEST] == JData(r.actionDigest) && f[CLAIM_DIGEST] == JData(r.claimDigest) && f[COLLECTION_DIGEST] == JData(r.collectionDigest)
            && f[STATE] == JWord(StateWord(r.state)) && f[COLLECTION_STATE] == JWord(CollectionWord(r.collection))
  {
    hide EncodeBinding, Listed, EncodeResult, EncodeManifest, StateWord, CollectionWord, EncodeData, EncodeTime;
  }

  lemma TailFields(r: Record)
    ensures RecordTail(r).Keys == TAIL_KEYS
    ensures var f := RecordTail(r);
            && f[ENVELOPE] == EncodeData(r.envelope) && f[ACTION_KEY] == EncodeData(r.actionKey)
            && f[RESULT_CREDENTIAL] == EncodeData(r.resultCredential) && f[RESULT_DIGEST] == EncodeData(r.resultDigest)
            && f[EVIDENCE] == JList(Listed(r.evidence, EvidenceEntry)) && f[RESULT_ENVELOPE] == EncodeResult(r.result)
            && f[MANIFEST] == EncodeManifest(r.manifest) && f[COMMITTED_AT] == EncodeTime(r.committedAt) && f[TERMINAL_AT] == EncodeTime(r.terminalAt)
  {
    hide EncodeBinding, Listed, EncodeResult, EncodeManifest, StateWord, CollectionWord, EncodeData, EncodeTime;
  }

  lemma Merged(h: map<Key, Json>, t: map<Key, Json>)
    requires h.Keys !! t.Keys
    ensures (h + t).Keys == h.Keys + t.Keys
    ensures forall k | k in h :: (h + t)[k] == h[k]
    ensures forall k | k in t :: (h + t)[k] == t[k]
  {
  }

  lemma SplitKeys()
    ensures RECORD_KEYS == HEAD_KEYS + TAIL_KEYS && HEAD_KEYS !! TAIL_KEYS
  {
  }

  lemma RecordFields(r: Record)
    ensures EncodeRecord(r) == JObject(RecordHead(r) + RecordTail(r))
    ensures Exactly(EncodeRecord(r), RECORD_KEYS)
    ensures forall k | k in RecordHead(r) :: EncodeRecord(r).fields[k] == RecordHead(r)[k]
    ensures forall k | k in RecordTail(r) :: EncodeRecord(r).fields[k] == RecordTail(r)[k]
  {
    hide RecordHead, RecordTail, HEAD_KEYS, TAIL_KEYS, RECORD_KEYS;
    HeadFields(r);
    TailFields(r);
    SplitKeys();
    Merged(RecordHead(r), RecordTail(r));
  }

  lemma RecordFitsSplit(l: MailboxLimits, r: Record)
    ensures RecordFits(l, r) <==>
              DataFits(r.envelope, 1, MAX_ACTION_ENVELOPE_BYTES) && DataFits(r.actionKey, ACTION_KEY_BYTES, ACTION_KEY_BYTES)
              && DataFits(r.resultCredential, MIN_CREDENTIAL_BYTES, MAX_CREDENTIAL_BYTES) && SlotsFit(l, r.evidence) && ResultFits(r.result)
  {
    hide DataFits, EvidenceFits, ResultFits;
  }

  lemma DataRoundTrip(b: Option<Bytes>, lower: nat, upper: nat)
    ensures OptionalData(EncodeData(b), lower, upper) == if DataFits(b, lower, upper) then Some(b) else None
  {
  }

  lemma OptionalsRoundTrip(d: Option<Digest>, t: Option<Instant>)
    ensures OptionalDigest(EncodeData(d)) == Some(d)
    ensures OptionalTime(EncodeTime(t)) == Some(t)
  {
  }

  /** A record decodes to itself exactly when it is within the byte bounds. */
  lemma RecordRoundTrip(l: MailboxLimits, r: Record)
    requires OwnSlots(r)
    ensures DecodeRecord(l, EncodeRecord(r)) == if RecordFits(l, r) then Some((r.binding.mailboxId, r)) else None
  {
    hide EncodeRecord, RecordHead, RecordTail, EncodeBinding, DecodeBinding, Listed, DecodeSlots, EncodeResult, DecodeResult, EncodeManifest, DecodeManifest,
      StateWord, StateOf, CollectionWord, CollectionOf, EncodeData, OptionalData, OptionalDigest, EncodeTime, OptionalTime,
      DataFits, SlotsFit, ResultFits, RecordFits;
    RecordFields(r);
    HeadFields(r);
    TailFields(r);
    RecordFitsSplit(l, r);
    BindingRoundTrip(r.binding);
    StateRoundTrip(r.state);
    CollectionRoundTrip(r.collection);
    SlotsRoundTrip(l, r);
    ResultRoundTrip(r.result);
    ManifestRoundTrip(r.manifest);
    DataRoundTrip(r.envelope, 1, MAX_ACTION_ENVELOPE_BYTES);
    DataRoundTrip(r.actionKey, ACTION_KEY_BYTES, ACTION_KEY_BYTES);
    DataRoundTrip(r.resultCredential, MIN_CREDENTIAL_BYTES, MAX_CREDENTIAL_BYTES);
    OptionalsRoundTrip(r.resultDigest, r.committedAt);
    OptionalsRoundTrip(r.resultDigest, r.terminalAt);
  }

  // --- Tombstones ------------------------------------------------------------

  const TOMBSTONE_KEYS: set<Key> := {MAILBOX_ID, CREATED_AT, EXPIRES_AT}

  function EncodeTombstone(id: Uuid, t: Tombstone): Json {
    JObject(map[MAILBOX_ID := JId(id), CREATED_AT := JTime(t.createdAt), EXPIRES_AT := JTime(t.expiresAt)])
  }

  function DecodeTombstone(j: Json): Option<(Uuid, Tombstone)> {
    if !Exactly(j, TOMBSTONE_KEYS) then None
    else
      var id :- IdOf(j.fields[MAILBOX_ID]);
      var createdAt :- TimeOf(j.fields[CREATED_AT]);
      var expiresAt :- TimeOf(j.fields[EXPIRES_AT]);
      Some((id, Tombstone(createdAt, expiresAt)))
  }

  lemma TombstoneRoundTrip(id: Uuid, t: Tombstone)
    ensures DecodeTombstone(EncodeTombstone(id, t)) == Some((id, t))
  {
    assert EncodeTombstone(id, t).fields.Keys == TOMBSTONE_KEYS;
  }

  // --- The state frame -------------------------------------------------------

  /** What a frame holds: the state and the three totals that went with it. */
  datatype Saved = Saved(state: Installation, totals: Totals)

  const STATE_KEYS: set<Key> := {VERSION, RECORDS, TOMBSTONES, INSTALLATION_LAST_SEEN, TOTAL_ACTIVE, TOTAL_EVIDENCE, TOTAL_COMMITTED}

  function RecordEntry(id: Uuid, r: Record): Json {
    EncodeRecord(r)
  }

  function RecordDecoder(l: MailboxLimits): Json -> Option<(Uuid, Record)> {
    j => DecodeRecord(l, j)
  }

  function TombstoneDecoder(): Json -> Option<(Uuid, Tombstone)> {
    j => DecodeTombstone(j)
  }

  function EncodeState(s: Installation, t: Totals): Json {
    JObject(map[
      VERSION := JInt(FRAME_VERSION),
      RECORDS := JList(Listed(s.records, RecordEntry)),
      TOMBSTONES := JList(Listed(s.tombstones, EncodeTombstone)),
      INSTALLATION_LAST_SEEN := EncodeTime(s.highWater),
      TOTAL_ACTIVE := JInt(t.active), TOTAL_EVIDENCE := JInt(t.evidence), TOTAL_COMMITTED := JInt(t.committed)])
  }

  function DecodeState(l: MailboxLimits, j: Json): Option<Saved> {
    if !Exactly(j, STATE_KEYS) then None
    else
      var f := j.fields;
      if f[VERSION] != JInt(FRAME_VERSION) || !f[RECORDS].JList? || !f[TOMBSTONES].JList? then None
      else if |f[RECORDS].items| > l.maxMailboxes || |f[TOMBSTONES].items| > l.maxTombstones then None
      else
        var records :- Indexed(f[RECORDS].items, |f[RECORDS].items|, RecordDecoder(l), {});
        var tombstones :- Indexed(f[TOMBSTONES].items, |f[TOMBSTONES].items|, TombstoneDecoder(), records.Keys);
        var active :- CountOf(f[TOTAL_ACTIVE]);
        var evidence :- CountOf(f[TOTAL_EVIDENCE]);
        var committed :- CountOf(f[TOTAL_COMMITTED]);
        var highWater :- OptionalTime(f[INSTALLATION_LAST_SEEN]);
        Some(Saved(Installation(records, tombstones, highWater), Totals(active, evidence, committed)))
  }

  lemma StateFields(s: Installation, t: Totals)
    ensures Exactly(EncodeState(s, t), STATE_KEYS)
    ensures var f := EncodeState(s, t).fields;
            && f[VERSION] == JInt(FRAME_VERSION) && f[RECORDS] == JList(Listed(s.records, RecordEntry))
            && f[TOMBSTONES] == JList(Listed(s.tombstones, EncodeTombstone)) && f[INSTALLATION_LAST_SEEN] == EncodeTime(s.highWater)
            && f[TOTAL_ACTIVE] == JInt(t.active) && f[TOTAL_EVIDENCE] == JInt(t.evidence) && f[TOTAL_COMMITTED] == JInt(t.committed)
  {
    hide Listed, EncodeTime;
  }

  /** Every record sits under its own identifier, with its evidence in its own slots. */
  ghost predicate SelfKeyed(s: Installation) {
    && s.records.Keys !! s.tombstones.Keys
    && forall id | id in s.records :: s.records[id].binding.mailboxId == id && OwnSlots(s.records[id])
  }

  ghost predicate AllFit(l: MailboxLimits, s: Installation) {
    forall id | id in s.records :: RecordFits(l, s.records[id])
  }

  lemma RecordsRoundTrip(l: MailboxLimits, s: Installation)
    requires SelfKeyed(s)
    ensures Indexed(Listed(s.records, RecordEntry), |s.records|, RecordDecoder(l), {}) == if AllFit(l, s) then Some(s.records) else None
  {
    hide Listed, Indexed, DecodeRecord, EncodeRecord, RecordFits, OwnSlots;
    forall id | id in s.records
      ensures RecordDecoder(l)(RecordEntry(id, s.records[id])) == if RecordFits(l, s.records[id]) then Some((id, s.records[id])) else None
    {
      RecordRoundTrip(l, s.records[id]);
    }
    if AllFit(l, s) {
      IndexedListedAll(s.records, RecordEntry, RecordDecoder(l), {});
    } else {
      var id :| id in s.records && !RecordFits(l, s.records[id]);
      IndexedListedFails(s.records, RecordEntry, RecordDecoder(l), {}, id);
    }
  }

  lemma TombstonesRoundTrip(s: Installation)
    requires SelfKeyed(s)
    ensures Indexed(Listed(s.tombstones, EncodeTombstone), |s.tombstones|, TombstoneDecoder(), s.records.Keys) == Some(s.tombstones)
  {
    hide Listed, Indexed, DecodeTombstone, EncodeTombstone, OwnSlots;
    forall id | id in s.tombstones
      ensures TombstoneDecoder()(EncodeTombstone(id, s.tombstones[id])) == Some((id, s.tombstones[id]))
    {
      TombstoneRoundTrip(id, s.tombstones[id]);
    }
    IndexedListedAll(s.tombstones, EncodeTombstone, TombstoneDecoder(), s.records.Keys);
  }

  /** A state decodes to itself exactly when every record is within the byte bounds. */
  lemma StateRoundTripExactly(l: MailboxLimits, s: Installation, t: Totals)
    requires SelfKeyed(s) && |s.records| <= l.maxMailboxes && |s.tombstones| <= l.maxTombstones
    ensures DecodeState(l, EncodeState(s, t)) == if AllFit(l, s) then Some(Saved(s, t)) else None
  {
    hide EncodeState, Listed, Indexed, EncodeTime, OptionalTime, SelfKeyed, AllFit;
    StateFields(s, t);
    RecordsRoundTrip(l, s);
    TombstonesRoundTrip(s);
    TimeRoundTrip(s.highWater);
  }

  lemma TimeRoundTrip(t: Option<Instant>)
    ensures OptionalTime(EncodeTime(t)) == Some(t)
  {
  }

  // --- Canonical: the encoding determines the state, within bounds or not ----

  lemma EvidenceInjective(a: WrappedEvidence, b: WrappedEvidence)
    requires EncodeEvidence(a) == EncodeEvidence(b)
    ensures a == b
  {
    var f, g := EncodeEvidence(a).fields, EncodeEvidence(b).fields;
    assert f[OBJECT_ID] == g[OBJECT_ID] && f[KIND] == g[KIND] && f[BYTE_COUNT] == g[BYTE_COUNT];
    assert f[STORAGE_DIGEST] == g[STORAGE_DIGEST] && f[SEMANTIC_MAC] == g[SEMANTIC_MAC] && f[NONCE] == g[NONCE] && f[WRAPPED] == g[WRAPPED];
  }

  lemma ResultInjective(a: Option<WrappedResult>, b: Option<WrappedResult>)
    requires EncodeResult(a) == EncodeResult(b)
    ensures a == b
  {
    if a.Some? && b.Some? {
      var f, g := EncodeResult(a).fields, EncodeResult(b).fields;
      assert f[BYTE_COUNT] == g[BYTE_COUNT] && f[STORAGE_DIGEST] == g[STORAGE_DIGEST] && f[SEMANTIC_MAC] == g[SEMANTIC_MAC];
      assert f[NONCE] == g[NONCE] && f[WRAPPED] == g[WRAPPED];
    }
  }

  lemma SameEntries<T>(m: map<Uuid, T>, m': map<Uuid, T>, ids: seq<Uuid>)
    requires forall id :: id in ids <==> id in m
    requires forall id :: id in ids <==> id in m'
    requires forall i | 0 <= i < |ids| :: ids[i] in m && ids[i] in m' && m[ids[i]] == m'[ids[i]]
    ensures m == m'
  {
    assert m.Keys == m'.Keys;
  }

  lemma AscendingCovers(s: set<Uuid>)
    ensures forall id :: id in Ascending(s) <==> id in s
  {
  }

  lemma ListedLength<T>(m: map<Uuid, T>, encode: (Uuid, T) -> Json)
    ensures |Listed(m, encode)| == |m| == |Ascending(m.Keys)|
  {
  }

  lemma SameEntryAt<T>(m: map<Uuid, T>, m': map<Uuid, T>, encode: (Uuid, T) -> Json, i: nat)
    requires Listed(m, encode) == Listed(m', encode) && i < |m| && i < |m'|
    requires forall id, id' | id in m && id' in m' && encode(id, m[id]) == encode(id', m'[id']) :: id == id' && m[id] == m'[id']
    ensures var id := Ascending(m.Keys)[i]; id == Ascending(m'.Keys)[i] && id in m && id in m' && m[id] == m'[id]
  {
    hide Listed, Ascending;
    ListedAt(m, encode, i);
    ListedAt(m', encode, i);
  }

  /** Equal listings of maps whose entries carry their own identifiers are listings of equal maps. */
  lemma ListedInjective<T>(m: map<Uuid, T>, m': map<Uuid, T>, encode: (Uuid, T) -> Json)
    requires Listed(m, encode) == Listed(m', encode)
    requires forall id, id' | id in m && id' in m' && encode(id, m[id]) == encode(id', m'[id']) :: id == id' && m[id] == m'[id']
    ensures m == m'
  {
    hide Ascending, Listed;
    var ids, ids' := Ascending(m.Keys), Ascending(m'.Keys);
    ListedLength(m, encode);
    ListedLength(m', encode);
    forall i | 0 <= i < |ids| ensures ids[i] in m && ids[i] in m' && ids[i] == ids'[i] && m[ids[i]] == m'[ids[i]] {
      SameEntryAt(m, m', encode, i);
    }
    assert ids == ids';
    AscendingCovers(m.Keys);
    AscendingCovers(m'.Keys);
    SameEntries(m, m', ids);
  }

  lemma RecordInjective(a: Record, b: Record)
    requires OwnSlots(a) && OwnSlots(b)
    requires EncodeRecord(a) == EncodeRecord(b)
    ensures a == b
  {
    hide EncodeRecord, RecordHead, RecordTail, EncodeBinding, Listed, EncodeResult, EncodeManifest, StateWord, CollectionWord, StateOf, CollectionOf, OwnSlots, EncodeEvidence;
    RecordFields(a);
    HeadFields(a);
    TailFields(a);
    RecordFields(b);
    HeadFields(b);
    TailFields(b);
    BindingRoundTrip(a.binding);
    BindingRoundTrip(b.binding);
    StateRoundTrip(a.state);
    StateRoundTrip(b.state);
    CollectionRoundTrip(a.collection);
    CollectionRoundTrip(b.collection);
    ManifestRoundTrip(a.manifest);
    ManifestRoundTrip(b.manifest);
    ResultInjective(a.result, b.result);
    SlotsInjective(a, b);
  }

  lemma SlotsInjective(a: Record, b: Record)
    requires OwnSlots(a) && OwnSlots(b)
    requires Listed(a.evidence, EvidenceEntry) == Listed(b.evidence, EvidenceEntry)
    ensures a.evidence == b.evidence
  {
    hide Listed, EncodeEvidence;
    forall i, j | i in a.evidence && j in b.evidence && EvidenceEntry(i, a.evidence[i]) == EvidenceEntry(j, b.evidence[j])
      ensures i == j && a.evidence[i] == b.evidence[j]
    {
      EvidenceInjective(a.evidence[i], b.evidence[j]);
    }
    ListedInjective(a.evidence, b.evidence, EvidenceEntry);
  }

  lemma TombstoneInjective(i: Uuid, a: Tombstone, j: Uuid, b: Tombstone)
    requires EncodeTombstone(i, a) == EncodeTombstone(j, b)
    ensures i == j && a == b
  {
    TombstoneRoundTrip(i, a);
    TombstoneRoundTrip(j, b);
  }

  /** Two states with the same encoding are the same state. */
  lemma StateInjective(s: Installation, t: Totals, s': Installation, t': Totals)
    requires SelfKeyed(s) && SelfKeyed(s')
    requires EncodeState(s, t) == EncodeState(s', t')
    ensures s == s' && t == t'
  {
    hide EncodeState, Listed, EncodeRecord, EncodeTombstone, OwnSlots;
    StateFields(s, t);
    StateFields(s', t');
    forall i, j | i in s.records && j in s'.records && RecordEntry(i, s.records[i]) == RecordEntry(j, s'.records[j])
      ensures i == j && s.records[i] == s'.records[j]
    {
      RecordInjective(s.records[i], s'.records[j]);
    }
    ListedInjective(s.records, s'.records, RecordEntry);
    forall i, j | i in s.tombstones && j in s'.tombstones && EncodeTombstone(i, s.tombstones[i]) == EncodeTombstone(j, s'.tombstones[j])
      ensures i == j && s.tombstones[i] == s'.tombstones[j]
    {
      TombstoneInjective(i, s.tombstones[i], j, s'.tombstones[j]);
    }
    ListedInjective(s.tombstones, s'.tombstones, EncodeTombstone);
  }
}

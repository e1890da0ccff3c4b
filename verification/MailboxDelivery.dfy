/** What goes in comes out: over whole runs, within one incarnation of a mailbox, the action that was
    offered is the one claimed, evidence comes back as it was staged, and an acknowledged bundle is gone. */
module MailboxDelivery {
  import opened Identifiers
  import opened MailboxDomain
  import opened MailboxCrypto
  import opened MailboxMachine
  import opened MailboxInvariant
  import opened MailboxFates
  import opened MailboxRuns
  import opened MailboxEffects

  // --- What a caller knows -----------------------------------------------------

  /** A call that was answered, not withheld, took its step. */
  lemma AnsweredTookStep(c: Config, p: Primitives, s: Installation, e: Event, s': Installation)
    requires Linked(c, p, s, e, s') && !Withheld(e.reply)
    ensures s' == Step(c, p, s, e.request).after && e.reply == Step(c, p, s, e.request).reply
  {
  }

  /** The acknowledgement was answered, or its caller knows that it crashed after taking effect. */
  predicate AcknowledgedBy(e: Event, id: Uuid) {
    e.request.op.Acknowledge? && e.request.op.mailboxId == id && (e.reply.Snapshot? || e.reply == Crashed(AFTER_COLLECTION_ACK))
  }

  /** The evidence was accepted, or its caller knows that the call crashed after taking effect. */
  predicate StagedBy(e: Event, id: Uuid, u: EvidenceUpload) {
    e.request.op.Stage? && e.request.op.binding.mailboxId == id && e.request.op.upload == u && (e.reply.Snapshot? || e.reply == Crashed(AFTER_EVIDENCE_COMMIT))
  }

  /** The mailbox exists after event `i` and up to state `j`, so its record is one and the same. */
  ghost predicate Persists(states: seq<Installation>, id: Uuid, i: nat, j: nat)
    requires j < |states|
  {
    forall k | i < k <= j :: id in states[k].records
  }

  // --- After an acknowledgement --------------------------------------------------

  lemma AcknowledgementTakesEffect(c: Config, p: Primitives, s: Installation, e: Event, s': Installation, id: Uuid)
    requires Inv(c, p, s) && Linked(c, p, s, e, s') && AcknowledgedBy(e, id)
    ensures id in s'.records && s'.records[id].collection == ACKNOWLEDGED
  {
    hide Inv, Step, Shows;
    AnsweredTookStep(c, p, s, e, s');
    AcknowledgeExactly(c, p, s, id, e.request.op.collection, e.request.clock, e.request.crashes);
    assert e.request == Request(Acknowledge(id, e.request.op.collection), e.request.clock, e.request.crashes);
  }

  /** Once an acknowledgement was answered the mailbox holds no result and no evidence, is waiting for
      collection of garbage, and no collection of it returns data again. */
  lemma AcknowledgedForGood(c: Config, p: Primitives, states: seq<Installation>, events: seq<Event>, id: Uuid, i: nat, j: nat)
    requires Sound(p) && Run(c, p, states, events) && Inv(c, p, states[0])
    requires i < j < |events| && AcknowledgedBy(events[i], id) && Persists(states, id, i, j)
    ensures var r := states[j].records[id]; r.result.None? && r.manifest.None? && r.evidence == map[] && r.terminalAt.Some?
    ensures events[j].request.op.Collect? && events[j].request.op.mailboxId == id ==> !events[j].reply.Bundle? && !events[j].reply.Fault?
  {
    hide Sound, Inv, Linked, Progress, Good, FreeFor, AcknowledgedBy;
    RunKeepsInv(c, p, states, events, i);
    RunKeepsInv(c, p, states, events, j);
    AcknowledgementTakesEffect(c, p, states[i], events[i], states[i + 1], id);
    LifecycleNeverGoesBack(c, p, states, events, id, i + 1, j);
    AcknowledgedStays(states[i + 1].records[id], states[j].records[id]);
    InvAt(c, p, states[j], id);
    AcknowledgedHoldsNothing(p, states[j].records[id]);
    if events[j].request.op.Collect? && events[j].request.op.mailboxId == id {
      CollectAfterAcknowledgement(c, p, states[j], events[j], states[j + 1], id);
    }
  }

  // --- Staged evidence comes back --------------------------------------------------

  /** The record is terminal, or still holds the upload, readable as what it was. */
  ghost predicate Keeps(p: Primitives, r: Record, u: EvidenceUpload) {
    r.terminalAt.Some? || (u.objectId in r.evidence && Unwrap(p, r.binding.mailboxId, u.objectId, r.evidence[u.objectId]) == Some(u))
  }

  lemma MovedKeepsUpload(c: Config, p: Primitives, s: Installation, r: Record, move: Move, now: Instant, u: EvidenceUpload)
    requires Good(p, r) && r.lastSeen <= now && Keeps(p, r, u)
    requires move.Observing? || MoveAllowed(c, p, s, r, move, now)
    ensures Keeps(p, Moved(p, r, move, now), u)
  {
    hide Unwrap;
    if r.terminalAt.Some? {
      hide Moved, MoveAllowed, Good;
      MovedProgresses(c, p, s, r, move, now);
    } else {
      hide Good, DueNow;
      MovedKeepsItems(c, p, s, r, move, now);
    }
  }

  /** Evidence once staged is kept as it is until the record turns terminal. */
  lemma MovedKeepsItems(c: Config, p: Primitives, s: Installation, r: Record, move: Move, now: Instant)
    requires Good(p, r) && (move.Observing? || MoveAllowed(c, p, s, r, move, now))
    ensures var r' := Moved(p, r, move, now);
            && r'.binding == r.binding
            && (r'.terminalAt.Some? || forall slot | slot in r.evidence :: slot in r'.evidence && r'.evidence[slot] == r.evidence[slot])
  {
    hide ValidatedMaterial, Wrap, Unwrap, WrapResult, BuildManifest, ReferencesValid, SumOver, InUse, EvidenceBytes, OwnCredentialsDistinct, TimesOrdered;
    MovedKeepsBinding(p, r, move, now);
  }

  lemma LinkKeepsUpload(c: Config, p: Primitives, s: Installation, e: Event, s': Installation, id: Uuid, u: EvidenceUpload)
    requires Inv(c, p, s) && Linked(c, p, s, e, s') && id in s.records && id in s'.records && Keeps(p, s.records[id], u)
    ensures Keeps(p, s'.records[id], u)
  {
    hide Inv, Good, Linked, MoveAllowed, Moved, Keeps, FreeFor, Due, LinkFate;
    InvAt(c, p, s, id);
    LinkFateHolds(c, p, s, e, s', id);
    var fate := LinkFate(c, p, s, e, s', id);
    if fate.Made? {
      MovedKeepsUpload(c, p, s, s.records[id], fate.move, fate.now, u);
    }
  }

  lemma {:induction false} UploadIsKept(c: Config, p: Primitives, states: seq<Installation>, events: seq<Event>, id: Uuid, u: EvidenceUpload, i: nat, j: nat)
    requires Sound(p) && Run(c, p, states, events) && Inv(c, p, states[0])
    requires i < j < |states| && Persists(states, id, i, j) && Keeps(p, states[i + 1].records[id], u)
    ensures Keeps(p, states[j].records[id], u)
  {
    hide Sound, Inv, Linked, Keeps;
    if i + 1 < j {
      UploadIsKept(c, p, states, events, id, u, i, j - 1);
      RunKeepsInv(c, p, states, events, j - 1);
      LinkKeepsUpload(c, p, states[j - 1], events[j - 1], states[j], id, u);
    }
  }

  lemma StagingTakesEffect(c: Config, p: Primitives, s: Installation, e: Event, s': Installation, id: Uuid, u: EvidenceUpload)
    requires Sound(p) && Inv(c, p, s) && Linked(c, p, s, e, s') && StagedBy(e, id, u)
    ensures id in s'.records && Keeps(p, s'.records[id], u)
  {
    hide Sound, Inv, Step, Shows, Unwrap, Turned, SumOver, Lapsed;
    AnsweredTookStep(c, p, s, e, s');
    StageExactly(c, p, s, e.request);
    TurnedIsDenied(s, e.request.op.binding, e.request.op.resultDigest, e.request.clock);
    if Turned(s, e.request.op.binding, e.request.op.resultDigest, e.request.clock).None? {
      TurnedNone(s, e.request.op.binding, e.request.op.resultDigest, e.request.clock);
    }
  }

  lemma TurnedIsDenied(s: Installation, binding: ActionBinding, digest: Digest, clock: Option<Instant>)
    ensures Turned(s, binding, digest, clock).Some? ==> Turned(s, binding, digest, clock).value.Denied?
  {
  }

  lemma TurnedNone(s: Installation, binding: ActionBinding, digest: Digest, clock: Option<Instant>)
    requires Turned(s, binding, digest, clock).None?
    ensures binding.mailboxId in s.records && s.records[binding.mailboxId].binding == binding
  {
  }

  /** Whatever a bundle delivers is what was staged: evidence accepted earlier in the same incarnation
      is in it, with the same kind, digest and payload. */
  lemma StagedComesBack(c: Config, p: Primitives, states: seq<Installation>, events: seq<Event>, id: Uuid, u: EvidenceUpload, i: nat, j: nat)
    requires Sound(p) && Run(c, p, states, events) && Inv(c, p, states[0])
    requires i < j < |events| && StagedBy(events[i], id, u) && Persists(states, id, i, j)
    requires events[j].request.op.Collect? && events[j].request.op.mailboxId == id && events[j].reply.Bundle?
    ensures u.objectId in events[j].reply.evidence && events[j].reply.evidence[u.objectId] == u
  {
    hide Sound, Inv, Linked, Keeps, Good, Step;
    RunKeepsInv(c, p, states, events, i);
    RunKeepsInv(c, p, states, events, j);
    StagingTakesEffect(c, p, states[i], events[i], states[i + 1], id, u);
    UploadIsKept(c, p, states, events, id, u, i, j);
    BundleHolds(c, p, states[j], events[j], states[j + 1], id, u);
  }

  lemma BundleHolds(c: Config, p: Primitives, s: Installation, e: Event, s': Installation, id: Uuid, u: EvidenceUpload)
    requires Inv(c, p, s) && Linked(c, p, s, e, s') && id in s.records && Keeps(p, s.records[id], u)
    requires e.request.op.Collect? && e.request.op.mailboxId == id && e.reply.Bundle?
    ensures u.objectId in e.reply.evidence && e.reply.evidence[u.objectId] == u
  {
    hide Inv, Step, Good, FreeFor, ValidatedMaterial, Became, Unwrap;
    AnsweredTookStep(c, p, s, e, s');
    CollectExactly(c, p, s, id, e.request.op.collection, e.request.clock, e.request.crashes);
    assert e.request == Request(Collect(id, e.request.op.collection), e.request.clock, e.request.crashes);
    InvAt(c, p, s, id);
    MaterialIsSlots(p, s.records[id]);
  }

  /** What authenticates is each piece of evidence as it is read back. */
  lemma MaterialIsSlots(p: Primitives, r: Record)
    requires Good(p, r) && (r.collection == READY || r.collection == DELIVERING)
    ensures r.terminalAt.None? && ValidatedMaterial(p, r).Some?
    ensures forall slot | slot in r.evidence ::
              && Unwrap(p, r.binding.mailboxId, slot, r.evidence[slot]).Some? && slot in ValidatedMaterial(p, r).value.evidence
              && ValidatedMaterial(p, r).value.evidence[slot] == Unwrap(p, r.binding.mailboxId, slot, r.evidence[slot]).value
  {
    hide Unwrap, UnwrapResult, ReferencesValid, BuildManifest, OwnCredentialsDistinct, EvidenceBounded;
    CollectionTells(p, r);
  }

  /** A delivered bundle agrees with its own text: the text is a result of this action and attempt and
      its seals describe exactly the evidence delivered with it. */
  lemma BundleAgrees(c: Config, p: Primitives, s: Installation, id: Uuid, digest: Digest, clock: Option<Instant>, crashes: set<CrashPoint>)
    requires Inv(c, p, s)
    requires Step(c, p, s, Request(Collect(id, digest), clock, crashes)).reply.Bundle?
    ensures var reply := Step(c, p, s, Request(Collect(id, digest), clock, crashes)).reply;
            && id in s.records && reply.binding == s.records[id].binding
            && 0 < |reply.result| <= MAX_RESULT_ENVELOPE_BYTES
            && Agrees(p, reply.binding, reply.result, reply.evidence)
  {
    hide Inv, Step, Good, FreeFor, ValidatedMaterial, Became, Agrees;
    CollectExactly(c, p, s, id, digest, clock, crashes);
    InvAt(c, p, s, id);
    MaterialAgrees(p, s.records[id]);
  }

  lemma MaterialAgrees(p: Primitives, r: Record)
    requires Good(p, r) && ValidatedMaterial(p, r).value.result.Some?
    ensures 0 < |ValidatedMaterial(p, r).value.result.value|
    ensures Agrees(p, r.binding, ValidatedMaterial(p, r).value.result.value, ValidatedMaterial(p, r).value.evidence)
  {
    hide Agrees, ReferencesValid, EvidenceSlots, BuildManifest, RecordSemantics;
    AgreesExactly(p, r.binding, ValidatedMaterial(p, r).value.result.value, ValidatedMaterial(p, r).value.evidence);
  }

  // --- The action claimed is the one offered ------------------------------------------

  /** While it is on offer the record holds this action; it is never empty again. */
  predicate Offers(r: Record, envelope: Bytes, actionKey: Bytes, resultCredential: Bytes) {
    && r.state != EMPTY
    && (r.state == OFFERED ==> r.envelope == Some(envelope) && r.actionKey == Some(actionKey) && r.resultCredential == Some(resultCredential))
  }

  lemma MovedOffers(c: Config, p: Primitives, s: Installation, r: Record, move: Move, now: Instant, envelope: Bytes, actionKey: Bytes, resultCredential: Bytes)
    requires Offers(r, envelope, actionKey, resultCredential)
    requires move.Observing? || MoveAllowed(c, p, s, r, move, now)
    ensures Offers(Moved(p, r, move, now), envelope, actionKey, resultCredential)
  {
    hide Wrap, Unwrap, WrapResult, BuildManifest, ReferencesValid, SumOver, InUse, EvidenceBytes, ValidatedMaterial;
  }

  lemma LinkOffers(c: Config, p: Primitives, s: Installation, e: Event, s': Installation, id: Uuid,
                   envelope: Bytes, actionKey: Bytes, resultCredential: Bytes)
    requires Inv(c, p, s) && Linked(c, p, s, e, s') && id in s.records && id in s'.records && Offers(s.records[id], envelope, actionKey, resultCredential)
    ensures Offers(s'.records[id], envelope, actionKey, resultCredential)
  {
    hide Inv, Good, Linked, MoveAllowed, Moved, Offers, FreeFor, Due, LinkFate;
    LinkFateHolds(c, p, s, e, s', id);
    var fate := LinkFate(c, p, s, e, s', id);
    if fate.Made? {
      MovedOffers(c, p, s, s.records[id], fate.move, fate.now, envelope, actionKey, resultCredential);
    }
  }

  lemma {:induction false} OfferStands(c: Config, p: Primitives, states: seq<Installation>, events: seq<Event>, id: Uuid,
                                       envelope: Bytes, actionKey: Bytes, resultCredential: Bytes, i: nat, j: nat)
    requires Sound(p) && Run(c, p, states, events) && Inv(c, p, states[0])
    requires i < j < |states| && Persists(states, id, i, j) && Offers(states[i + 1].records[id], envelope, actionKey, resultCredential)
    ensures Offers(states[j].records[id], envelope, actionKey, resultCredential)
  {
    hide Sound, Inv, Linked, Offers;
    if i + 1 < j {
      OfferStands(c, p, states, events, id, envelope, actionKey, resultCredential, i, j - 1);
      RunKeepsInv(c, p, states, events, j - 1);
      LinkOffers(c, p, states[j - 1], events[j - 1], states[j], id, envelope, actionKey, resultCredential);
    }
  }

  lemma OfferTakesEffect(c: Config, p: Primitives, s: Installation, e: Event, s': Installation)
    requires Inv(c, p, s) && Linked(c, p, s, e, s') && e.request.op.Offer? && e.reply.Snapshot?
    ensures var op := e.request.op;
            && op.binding.mailboxId in s'.records && Offers(s'.records[op.binding.mailboxId], op.envelope, op.actionKey, op.resultCredential)
  {
    hide Inv, Step, Shows, SumOver, HeldByOther, Late, Lapsed;
    AnsweredTookStep(c, p, s, e, s');
    OfferExactly(c, p, s, e.request);
  }

  /** What a claim hands out is the envelope, the key and the result credential that were offered, for
      the binding they were offered for. */
  lemma ClaimedIsOffered(c: Config, p: Primitives, states: seq<Installation>, events: seq<Event>, i: nat, j: nat)
    requires Sound(p) && Run(c, p, states, events) && Inv(c, p, states[0])
    requires i < j < |events| && events[i].request.op.Offer? && events[i].reply.Snapshot?
    requires events[j].request.op.Claim? && events[j].reply.Claimed?
    requires events[j].request.op.binding == events[i].request.op.binding && Persists(states, events[i].request.op.binding.mailboxId, i, j)
    ensures var op := events[i].request.op; events[j].reply == Claimed(op.binding, op.envelope, op.actionKey, op.resultCredential)
  {
    hide Sound, Inv, Linked, Offers, Step;
    var op := events[i].request.op;
    RunKeepsInv(c, p, states, events, i);
    RunKeepsInv(c, p, states, events, j);
    OfferTakesEffect(c, p, states[i], events[i], states[i + 1]);
    OfferStands(c, p, states, events, op.binding.mailboxId, op.envelope, op.actionKey, op.resultCredential, i, j);
    ClaimHandsOut(c, p, states[j], events[j], states[j + 1], op.envelope, op.actionKey, op.resultCredential);
  }

  lemma ClaimHandsOut(c: Config, p: Primitives, s: Installation, e: Event, s': Installation, envelope: Bytes, actionKey: Bytes, resultCredential: Bytes)
    requires Inv(c, p, s) && Linked(c, p, s, e, s') && e.request.op.Claim? && e.reply.Claimed?
    requires e.request.op.binding.mailboxId in s.records && Offers(s.records[e.request.op.binding.mailboxId], envelope, actionKey, resultCredential)
    ensures e.reply == Claimed(e.request.op.binding, envelope, actionKey, resultCredential)
  {
    hide Inv, Step, Late, Lapsed;
    AnsweredTookStep(c, p, s, e, s');
    ClaimExactly(c, p, s, e.request);
  }
}

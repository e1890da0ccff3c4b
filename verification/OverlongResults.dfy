/** A result longer than a bundle may carry: the repository commits it, and the collection of it
    faults. Shown for any such text, and on one concrete installation. */
module OverlongResults {
  import opened Identifiers
  import opened MailboxDomain
  import opened MailboxCrypto
  import opened MailboxMachine
  import opened MailboxInvariant
  import opened MailboxFates
  import opened MailboxRuns
  import opened MailboxAuthority
  import opened PersistentCodec
  import opened PersistentRepository

  /** A commit that gets through, followed by a collection with the right credential and a usable
      clock: the bundle is delivered or the collection faults, by the length of the text alone. */
  lemma CommitThenCollect(c: Config, p: Primitives, s: Installation, commit: Request, collect: Request)
    requires Sound(p) && Inv(c, p, s) && commit.op.Commit? && commit.crashes == {} && CommitGuard(c, p, s, commit.op, commit.clock)
    requires var id := commit.op.binding.mailboxId;
             && collect.op == Collect(id, s.records[id].collectionDigest)
             && collect.clock.Some? && NotAhead(Step(c, p, s, commit).after, collect.clock.value)
    ensures Step(c, p, s, commit).reply.Snapshot?
    ensures var json := commit.op.resultJson;
            Step(c, p, Step(c, p, s, commit).after, collect).reply ==
              if |json| <= MAX_RESULT_ENVELOPE_BYTES
              then Bundle(commit.op.binding, json, ValidatedMaterial(p, s.records[commit.op.binding.mailboxId]).value.evidence)
              else Fault
  {
    hide Sound, Inv, Step, Decide, ValidatedMaterial, Moved, MoveAllowed, CommitGuard, Deliverable;
    GuardedBinding(c, p, s, commit.op, commit.clock);
    var id, now := commit.op.binding.mailboxId, commit.clock.value;
    var move := Committing(commit.op.resultJson, commit.op.nonce);
    CommitSucceedsExactly(c, p, s, commit);
    CommitEffect(c, p, s, commit);
    MovedKeepsBinding(p, s.records[id], move, now);
    CommitMakesDeliverable(c, p, s, id, commit.op.resultJson, commit.op.nonce, now);
    CommittedCredential(p, s.records[id], commit.op.resultJson, commit.op.nonce, now);
    StepKeepsInv(c, p, s, commit);
    KeyOf(c, p, s, id);
    var s' := Step(c, p, s, commit).after;
    assert id in s'.records && s'.records[id] == Moved(p, s.records[id], move, now);
    CollectDelivers(c, p, s', collect, id, commit.op.resultJson, ValidatedMaterial(p, s.records[id]).value.evidence);
  }

  lemma GuardedBinding(c: Config, p: Primitives, s: Installation, op: Op, clock: Option<Instant>)
    requires op.Commit? && CommitGuard(c, p, s, op, clock)
    ensures clock.Some? && op.binding.mailboxId in s.records && s.records[op.binding.mailboxId].binding == op.binding
  {
    hide ValidatedMaterial, ReferencesValid, SealsMatch, SealIds, EvidenceBytes, SumOver;
  }

  lemma CommitEffect(c: Config, p: Primitives, s: Installation, q: Request)
    requires Inv(c, p, s) && q.op.Commit? && q.crashes == {} && CommitGuard(c, p, s, q.op, q.clock)
    ensures q.clock.Some? && q.op.binding.mailboxId in s.records
    ensures Enabled(c, p, s, q.op.binding.mailboxId, Committing(q.op.resultJson, q.op.nonce), q.clock.value)
    ensures Step(c, p, s, q).after ==
            Put(s, Moved(p, s.records[q.op.binding.mailboxId], Committing(q.op.resultJson, q.op.nonce), q.clock.value), q.clock.value)
  {
    hide Inv, Decide, Moved, MoveAllowed, CommitGuard, Put;
    GuardedBinding(c, p, s, q.op, q.clock);
    CommitSucceedsExactly(c, p, s, q);
    DecisionAllowed(c, p, s, q);
  }

  lemma CommittedCredential(p: Primitives, r: Record, json: Bytes, nonce: Nonce, now: Instant)
    ensures Moved(p, r, Committing(json, nonce), now).collectionDigest == r.collectionDigest
  {
    hide WrapResult, BuildManifest;
  }

  // --- One mailbox, from nothing ----------------------------------------------

  /** The digests of the five credentials of one mailbox and of maintenance, all different. */
  datatype Enrolment = Enrolment(action: Digest, claim: Digest, collection: Digest, result: Digest)

  predicate AllDifferent(c: Config, e: Enrolment) {
    && e.action != e.claim && e.action != e.collection && e.claim != e.collection
    && e.result !in {e.action, e.claim, e.collection}
    && c.maintenance !in {e.action, e.claim, e.collection, e.result}
  }

  /** One mailbox and nothing else, last seen at time zero. */
  function Only(r: Record): Installation {
    Installation(map[r.binding.mailboxId := r], map[], Some(0))
  }

  function Call(op: Op): Request {
    Request(op, Some(0), {})
  }

  lemma SumOne(id: Uuid, r: Record, f: Record -> nat)
    ensures SumOver(map[id := r], f) == f(r)
  {
    SumUpdate(map[], id, r, f);
    assert map[][id := r] == map[id := r];
  }

  lemma NoEvidence(r: Record)
    requires r.evidence == map[]
    ensures EvidenceBytes(r) == 0
  {
  }

  /** The mailbox before it was claimed, in its first three states. */
  function Enrolled(b: ActionBinding, e: Enrolment): Record {
    NewRecord(b, 0, e.action, e.claim, e.collection)
  }

  function WithOffer(b: ActionBinding, e: Enrolment, envelope: Bytes, key: Bytes, credential: Bytes): Record {
    Offered(Enrolled(b, e), envelope, key, credential, e.result, 0)
  }

  lemma CreateFirst(c: Config, p: Primitives, b: ActionBinding, e: Enrolment)
    requires AllDifferent(c, e) && b.claimDeadline > 0
    ensures var o := Step(c, p, EMPTY_INSTALLATION, Call(Create(b, e.action, e.claim, e.collection)));
            o.reply.Snapshot? && o.after == Only(Enrolled(b, e))
  {
    hide ViewOf;
    EmptyInv(c, p);
    CreateSucceedsExactly(c, p, EMPTY_INSTALLATION, Call(Create(b, e.action, e.claim, e.collection)));
  }

  lemma OfferNext(c: Config, p: Primitives, b: ActionBinding, e: Enrolment, envelope: Bytes, key: Bytes, credential: Bytes)
    requires Inv(c, p, Only(Enrolled(b, e))) && AllDifferent(c, e) && b.claimDeadline > 0
    requires |envelope| + |key| + |credential| <= c.limits.maxActiveBytes
    ensures var o := Step(c, p, Only(Enrolled(b, e)), Call(Offer(b, envelope, key, e.action, e.collection, credential, e.result)));
            o.reply.Snapshot? && o.after == Only(WithOffer(b, e, envelope, key, credential))
  {
    var s, q := Only(Enrolled(b, e)), Call(Offer(b, envelope, key, e.action, e.collection, credential, e.result));
    SumOne(b.mailboxId, Enrolled(b, e), ActiveBytes);
    hide Inv, SumOver, Decide;
    assert OfferGuard(c, s, q.op, q.clock);
    OfferSucceedsExactly(c, p, s, q);
  }

  lemma ClaimNext(c: Config, p: Primitives, b: ActionBinding, e: Enrolment, envelope: Bytes, key: Bytes, credential: Bytes)
    requires Inv(c, p, Only(WithOffer(b, e, envelope, key, credential))) && b.claimDeadline > 0 && ActionFits(envelope, key, credential)
    ensures var o := Step(c, p, Only(WithOffer(b, e, envelope, key, credential)), Call(Claim(b, e.claim)));
            o.reply.Claimed? && o.after == Only(ClaimedRecord(WithOffer(b, e, envelope, key, credential), 0))
  {
    var s, q := Only(WithOffer(b, e, envelope, key, credential)), Call(Claim(b, e.claim));
    hide Inv, ActionFits, DecideClaim;
    ClaimSucceedsExactly(c, p, s, q);
    SelfKeyedAlone(c, p, WithOffer(b, e, envelope, key, credential));
    ClaimReply(c, p, s, b, e.claim, Some(0), {});
  }

  lemma SelfKeyedAlone(c: Config, p: Primitives, r: Record)
    requires Inv(c, p, Only(r))
    ensures WellKeyed(c, Only(r))
  {
    hide WellKeyed, WithinQuota, TotalsOf;
    InvQuota(c, p, Only(r));
  }

  lemma ClaimedGuard(c: Config, p: Primitives, b: ActionBinding, e: Enrolment, r: Record, json: Bytes, nonce: Nonce)
    requires Inv(c, p, Only(r)) && r.binding == b && r.state == CLAIMED_ONCE && r.evidence == map[] && r.resultDigest == Some(e.result)
    requires p.parseResult(json) == Some(Envelope(b.actionId, b.attemptId, []))
    requires |json| <= b.responseBytes && |json| <= c.limits.maxCommittedBytes
    ensures CommitGuard(c, p, Only(r), Commit(b, e.result, json, [], nonce), Some(0))
  {
    hide Inv, SumOver, ValidatedMaterial, ReferencesValid;
    SumOne(b.mailboxId, r, CommittedBytes);
    NoEvidence(r);
    AdmitExactly(c, p, Only(r), b.mailboxId, Some(0));
    NothingCommittedYet(c, p, r);
    EmptyMaterial(p, r);
    NoReferences(p, b, json);
  }

  lemma NothingCommittedYet(c: Config, p: Primitives, r: Record)
    requires Inv(c, p, Only(r)) && r.state == CLAIMED_ONCE
    ensures r.committedAt.None?
  {
    hide Inv, ValidatedMaterial, FreeFor, OwnCredentialsDistinct, EvidenceBounded;
    InvAt(c, p, Only(r), r.binding.mailboxId);
  }

  lemma EmptyMaterial(p: Primitives, r: Record)
    requires ValidatedMaterial(p, r).Some? && r.evidence == map[]
    ensures ValidatedMaterial(p, r).value.evidence == map[]
  {
    hide UnwrapResult, ReferencesValid, BuildManifest;
  }

  lemma NoReferences(p: Primitives, b: ActionBinding, json: Bytes)
    requires p.parseResult(json) == Some(Envelope(b.actionId, b.attemptId, []))
    ensures ReferencesValid(p, b, json, map[])
  {
  }

  /** For any text that the parser accepts as a result without evidence: five calls from an empty
      installation commit it, and the fifth, its collection, faults exactly when it is too long. The
      state after the commit can be saved and loaded again exactly when it is within the decoder's
      bound, which is a little larger. */
  lemma FiveCalls(c: Config, p: Primitives, b: ActionBinding, e: Enrolment, envelope: Bytes, key: Bytes, credential: Bytes, json: Bytes, nonce: Nonce)
    returns (states: seq<Installation>, events: seq<Event>)
    requires Sound(p) && AllDifferent(c, e) && b.claimDeadline > 0 && ActionFits(envelope, key, credential)
    requires |envelope| + |key| + |credential| <= c.limits.maxActiveBytes
    requires |json| <= b.responseBytes && |json| <= c.limits.maxCommittedBytes
    requires p.parseResult(json) == Some(Envelope(b.actionId, b.attemptId, []))
    ensures Run(c, p, states, events) && |events| == 5 && states[0] == EMPTY_INSTALLATION
    ensures events[3].request.op.Commit? && events[3].reply.Snapshot? && events[4].request.op.Collect?
    ensures events[4].reply == if |json| <= MAX_RESULT_ENVELOPE_BYTES then Bundle(b, json, map[]) else Fault
    ensures AllFit(c.limits, states[4]) <==> |json| + 80 <= MAX_WRAPPED_RESULT
  {
    hide Sound, Inv, Step, ActionFits, CommitGuard, AllFit, ValidatedMaterial, Enrolled, WithOffer, ClaimedRecord;
    var s0, q0 := EMPTY_INSTALLATION, Call(Create(b, e.action, e.claim, e.collection));
    var s1, q1 := Only(Enrolled(b, e)), Call(Offer(b, envelope, key, e.action, e.collection, credential, e.result));
    var s2, q2 := Only(WithOffer(b, e, envelope, key, credential)), Call(Claim(b, e.claim));
    var r := ClaimedRecord(WithOffer(b, e, envelope, key, credential), 0);
    var s3, q3, q4 := Only(r), Call(Commit(b, e.result, json, [], nonce)), Call(Collect(b.mailboxId, e.collection));
    ThreeCalls(c, p, b, e, envelope, key, credential);
    ClaimedShape(b, e, envelope, key, credential);
    ClaimedFits(c, b, e, envelope, key, credential);
    LastTwoCalls(c, p, b, e, r, json, nonce);
    hide Only;
    var s4 := Step(c, p, s3, q3).after;
    states := [s0, s1, s2, s3, s4, Step(c, p, s4, q4).after];
    events := [Event(q0, Step(c, p, s0, q0).reply), Event(q1, Step(c, p, s1, q1).reply), Event(q2, Step(c, p, s2, q2).reply),
               Event(q3, Step(c, p, s3, q3).reply), Event(q4, Step(c, p, s4, q4).reply)];
  }

  /** Committed and collected. */
  lemma LastTwoCalls(c: Config, p: Primitives, b: ActionBinding, e: Enrolment, r: Record, json: Bytes, nonce: Nonce)
    requires Sound(p) && Inv(c, p, Only(r)) && AllFit(c.limits, Only(r))
    requires r.binding == b && r.state == CLAIMED_ONCE && r.evidence == map[] && r.resultDigest == Some(e.result) && r.collectionDigest == e.collection
    requires p.parseResult(json) == Some(Envelope(b.actionId, b.attemptId, []))
    requires |json| <= b.responseBytes && |json| <= c.limits.maxCommittedBytes
    ensures var o := Step(c, p, Only(r), Call(Commit(b, e.result, json, [], nonce)));
            && o.reply.Snapshot?
            && (AllFit(c.limits, o.after) <==> |json| + 80 <= MAX_WRAPPED_RESULT)
            && Step(c, p, o.after, Call(Collect(b.mailboxId, e.collection))).reply ==
               if |json| <= MAX_RESULT_ENVELOPE_BYTES then Bundle(b, json, map[]) else Fault
  {
    hide Sound, Inv, Step, CommitGuard, AllFit, ValidatedMaterial;
    var s, q := Only(r), Call(Commit(b, e.result, json, [], nonce));
    ClaimedGuard(c, p, b, e, r, json, nonce);
    CommitEffect(c, p, s, q);
    CommitThenCollect(c, p, s, q, Call(Collect(b.mailboxId, e.collection)));
    AdmitExactly(c, p, s, b.mailboxId, Some(0));
    EmptyMaterial(p, r);
    StepKeepsFitExactly(c, p, s, q);
  }

  lemma ClaimedShape(b: ActionBinding, e: Enrolment, envelope: Bytes, key: Bytes, credential: Bytes)
    ensures var r := ClaimedRecord(WithOffer(b, e, envelope, key, credential), 0);
            && r.binding == b && r.state == CLAIMED_ONCE && r.evidence == map[] && r.resultDigest == Some(e.result)
            && r.collectionDigest == e.collection
    ensures Enrolled(b, e).binding == b && WithOffer(b, e, envelope, key, credential).binding == b
  {
  }

  /** Created, offered and claimed, one call after the other. */
  lemma ThreeCalls(c: Config, p: Primitives, b: ActionBinding, e: Enrolment, envelope: Bytes, key: Bytes, credential: Bytes)
    requires Sound(p) && AllDifferent(c, e) && b.claimDeadline > 0 && ActionFits(envelope, key, credential)
    requires |envelope| + |key| + |credential| <= c.limits.maxActiveBytes
    ensures Step(c, p, EMPTY_INSTALLATION, Call(Create(b, e.action, e.claim, e.collection))).after == Only(Enrolled(b, e))
    ensures Step(c, p, Only(Enrolled(b, e)), Call(Offer(b, envelope, key, e.action, e.collection, credential, e.result))).after ==
            Only(WithOffer(b, e, envelope, key, credential))
    ensures Step(c, p, Only(WithOffer(b, e, envelope, key, credential)), Call(Claim(b, e.claim))).after ==
            Only(ClaimedRecord(WithOffer(b, e, envelope, key, credential), 0))
    ensures Inv(c, p, Only(ClaimedRecord(WithOffer(b, e, envelope, key, credential), 0)))
  {
    hide Sound, Inv, Step, ActionFits, Enrolled, WithOffer, ClaimedRecord, Only;
    EmptyInv(c, p);
    CreateFirst(c, p, b, e);
    StepKeepsInv(c, p, EMPTY_INSTALLATION, Call(Create(b, e.action, e.claim, e.collection)));
    OfferNext(c, p, b, e, envelope, key, credential);
    StepKeepsInv(c, p, Only(Enrolled(b, e)), Call(Offer(b, envelope, key, e.action, e.collection, credential, e.result)));
    ClaimNext(c, p, b, e, envelope, key, credential);
    StepKeepsInv(c, p, Only(WithOffer(b, e, envelope, key, credential)), Call(Claim(b, e.claim)));
  }

  lemma ClaimedFits(c: Config, b: ActionBinding, e: Enrolment, envelope: Bytes, key: Bytes, credential: Bytes)
    ensures AllFit(c.limits, Only(ClaimedRecord(WithOffer(b, e, envelope, key, credential), 0)))
  {
  }

  // --- A concrete one ---------------------------------------------------------

  const TAG16: Bytes := seq(16, _ => 0)

  function Filled(b: Byte): Digest {
    seq(32, _ => b)
  }

  /** A box that appends a constant tag, and a parser that reads any text as a result without evidence. */
  const PLAIN: Primitives := Primitives(
    _ => Filled(0),
    _ => Filled(0),
    (_, text: Bytes, _) => text + TAG16,
    (_, wrapped: Bytes, _) => if |wrapped| < 16 then None else Some(wrapped[..|wrapped| - 16]),
    (text: Bytes) => if text == [] then None else Some(Envelope(0, 0, [])),
    _ => [])

  const ROOMY: Config := Config(Filled(0), Limits(1, 1_000, 1_000, 10_000_000, 1, 1, 1))

  const LONG_ACTION: ActionBinding := Binding(0, 0, 0, 0, [], [], [], 0, 0, 0, 10, 20, 1, 10_000_000, [])

  lemma PlainIsSound()
    ensures Sound(PLAIN)
  {
    forall n: Nonce, t: Bytes, a: Bytes ensures PLAIN.open(n, PLAIN.seal(n, t, a), a) == Some(t) && |PLAIN.seal(n, t, a)| == |t| + TAG_BYTES {
      assert (t + TAG16)[..|t + TAG16| - 16] == t;
    }
  }

  /** There is a reachable installation that holds a committed result whose collection faults, and
      one whose state cannot be loaded again once it is saved. */
  lemma OverlongResultsAreReachable() returns (states: seq<Installation>, events: seq<Event>)
    ensures Sound(PLAIN) && Run(ROOMY, PLAIN, states, events) && |events| == 5 && states[0] == EMPTY_INSTALLATION
    ensures events[3].request.op.Commit? && events[3].reply.Snapshot?
    ensures events[4].request.op.Collect? && events[4].reply == Fault
    ensures !AllFit(ROOMY.limits, states[4])
  {
    var json: Bytes := seq(MAX_WRAPPED_RESULT, _ => 32);
    var e := Enrolment(Filled(1), Filled(2), Filled(3), Filled(4));
    var key: Bytes := seq(32, _ => 0);
    PlainIsSound();
    assert Filled(0)[0] == 0 && Filled(1)[0] == 1 && Filled(2)[0] == 2 && Filled(3)[0] == 3 && Filled(4)[0] == 4;
    states, events := FiveCalls(ROOMY, PLAIN, LONG_ACTION, e, [0], key, key, json, seq(12, _ => 0));
  }
}

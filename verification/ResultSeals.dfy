/** Committing a result through the service: the envelope's own validators, the seals made from
    it, and why the repository's later reference check cannot fail on them. */
module ResultSeals {
  import opened Identifiers
  import opened MailboxDomain
  import opened MailboxCrypto
  import opened MailboxMachine
  import opened MailboxInvariant
  import opened MailboxAuthority

  /** The strict wire parser, the canonical re-encoding of what it accepted, the capability policy
      on the accepted text, and the credential digester. */
  datatype Wire = Wire(
    parse: Bytes -> Option<ResultEnvelope>,
    canonical: Bytes -> Bytes,
    permits: (ActionBinding, Bytes) -> bool,
    digest: Bytes -> Digest)

  function SealBytes(seals: seq<EvidenceSeal>): nat {
    if seals == [] then 0 else seals[0].byteCount + SealBytes(seals[1..])
  }

  /** Entry-wise uniqueness: two references may still name one object. */
  predicate UniqueEntries(seals: seq<EvidenceSeal>) {
    |Elements(seals)| == |seals|
  }

  /** The validators of the result envelope. */
  predicate EnvelopeValid(e: ResultEnvelope) {
    && |e.evidence| <= MAX_EVIDENCE_ITEMS
    && (forall seal | seal in e.evidence :: 0 < seal.byteCount <= MAX_EVIDENCE_BYTES)
    && UniqueEntries(e.evidence)
    && SealBytes(e.evidence) <= MAX_EVIDENCE_BYTES
  }

  /** A parsed envelope passed its validators, and its canonical text parses back to it. */
  ghost predicate WireSound(w: Wire, p: Primitives) {
    forall j | w.parse(j).Some? :: EnvelopeValid(w.parse(j).value) && p.parseResult(w.canonical(j)) == w.parse(j)
  }

  // --- The service ------------------------------------------------------------

  datatype Parsed = Unparsed(denial: Denial) | Accepted(result: ResultEnvelope, text: Bytes)

  function ParseResult(w: Wire, json: Bytes): Parsed {
    if json == [] || |json| > MAX_RESULT_ENVELOPE_BYTES then Unparsed(OVERSIZE)
    else
      match w.parse(json)
      case None => Unparsed(INVALID_INPUT)
      case Some(result) => Accepted(result, w.canonical(json))
  }

  datatype Handed = Declined(denial: Denial) | Handed(request: Request)

  /** The service's `commit_result`: what it refuses itself, and the call it hands to the repository. */
  function HandCommit(w: Wire, binding: ActionBinding, json: Bytes, credential: Bytes, nonce: Nonce,
                      clock: Option<Instant>, crashes: set<CrashPoint>): Handed {
    if !(MIN_CREDENTIAL_BYTES <= |credential| <= MAX_CREDENTIAL_BYTES) then Declined(INVALID_INPUT)
    else
      match ParseResult(w, json)
      case Unparsed(denial) => Declined(denial)
      case Accepted(result, text) =>
        if result.actionId != binding.actionId || result.attemptId != binding.attemptId then Declined(RESULT_MISMATCH)
        else if !w.permits(binding, json) then Declined(CAPABILITY_MISMATCH)
        else Handed(Request(Commit(binding, w.digest(credential), text, result.evidence, nonce), clock, crashes))
  }

  /** A call is handed over exactly for a credential of the right length and a text that is neither empty
      nor too long, parses, names this action and attempt, and is permitted; what goes to the repository is
      the canonical text with the seals of that very envelope. */
  lemma HandsOverExactly(w: Wire, binding: ActionBinding, json: Bytes, credential: Bytes, nonce: Nonce,
                         clock: Option<Instant>, crashes: set<CrashPoint>)
    ensures var h := HandCommit(w, binding, json, credential, nonce, clock, crashes);
            if !(MIN_CREDENTIAL_BYTES <= |credential| <= MAX_CREDENTIAL_BYTES) then h == Declined(INVALID_INPUT)
            else if !(0 < |json| <= MAX_RESULT_ENVELOPE_BYTES) then h == Declined(OVERSIZE)
            else if w.parse(json).None? then h == Declined(INVALID_INPUT)
            else if w.parse(json).value.actionId != binding.actionId || w.parse(json).value.attemptId != binding.attemptId then
              h == Declined(RESULT_MISMATCH)
            else if !w.permits(binding, json) then h == Declined(CAPABILITY_MISMATCH)
            else
              && h.Handed? && h.request.op.Commit? && h.request.clock == clock && h.request.crashes == crashes
              && h.request.op.binding == binding && h.request.op.resultDigest == w.digest(credential)
              && h.request.op.resultJson == w.canonical(json) && h.request.op.seals == w.parse(json).value.evidence
              && h.request.op.nonce == nonce
  {
  }

  // --- The bijection ----------------------------------------------------------

  predicate IdsDistinct(seals: seq<EvidenceSeal>) {
    forall i, j | 0 <= i < j < |seals| :: seals[i].objectId != seals[j].objectId
  }

  function ObjectIds(seals: seq<EvidenceSeal>): (ids: seq<Uuid>)
    ensures |ids| == |seals| && forall i | 0 <= i < |ids| :: ids[i] == seals[i].objectId
  {
    seq(|seals|, i requires 0 <= i < |seals| => seals[i].objectId)
  }

  lemma DistinctEntriesCount(seals: seq<EvidenceSeal>)
    ensures UniqueEntries(seals) <==> Distinct(seals)
  {
    DistinctCount(seals);
  }

  lemma DistinctIdsCount(seals: seq<EvidenceSeal>)
    ensures |SealIds(seals)| == |seals| <==> IdsDistinct(seals)
  {
    var ids := ObjectIds(seals);
    DistinctCount(ids);
    forall seal | seal in seals ensures seal.objectId in ids {
      var i :| 0 <= i < |seals| && seals[i] == seal;
      assert ids[i] == seal.objectId;
    }
    assert SealIds(seals) == Elements(ids);
    assert Distinct(ids) <==> IdsDistinct(seals);
  }

  /** Two seals that match the same upload are the same seal. */
  lemma MatchDetermines(a: EvidenceSeal, b: EvidenceSeal, evidence: map<Uuid, EvidenceUpload>)
    requires a.objectId in evidence && SealMatches(a, evidence[a.objectId])
    requires b.objectId in evidence && SealMatches(b, evidence[b.objectId])
    ensures a.objectId == b.objectId <==> a == b
  {
  }

  /** The place of the one seal that names an object. */
  ghost predicate NamedAt(seals: seq<EvidenceSeal>, i: nat, id: Uuid) {
    i < |seals| && seals[i].objectId == id
  }

  /** Once the staged and the referenced identifiers agree and every seal matches its upload,
      entries are unique exactly when the objects are: the seals are then in one-to-one
      correspondence with the staged evidence. */
  lemma SealsAreABijection(seals: seq<EvidenceSeal>, evidence: map<Uuid, EvidenceUpload>)
    requires SealIds(seals) == evidence.Keys && SealsMatch(seals, evidence)
    ensures UniqueEntries(seals) <==> IdsDistinct(seals)
    ensures UniqueEntries(seals) <==> |seals| == |evidence|
    ensures UniqueEntries(seals) ==>
              forall id | id in evidence :: exists i :: NamedAt(seals, i, id) && forall j | NamedAt(seals, j, id) :: j == i
  {
    DistinctEntriesCount(seals);
    DistinctIdsCount(seals);
    forall i, j | 0 <= i < j < |seals| ensures seals[i].objectId == seals[j].objectId <==> seals[i] == seals[j] {
      MatchDetermines(seals[i], seals[j], evidence);
    }
    assert |evidence| == |evidence.Keys|;
    forall id | id in evidence && UniqueEntries(seals)
      ensures exists i :: NamedAt(seals, i, id) && forall j | NamedAt(seals, j, id) :: j == i
    {
      assert id in SealIds(seals);
      var i: nat :| i < |seals| && seals[i].objectId == id;
      assert NamedAt(seals, i, id);
    }
  }

  /** Without the match loop the uniqueness of references is not enough: two different references
      to one object. */
  lemma UniqueEntriesAreNotDistinctObjects(kind: Bytes, other: Bytes, digest: Digest)
    requires kind != other
    ensures var seals := [Seal(1, kind, digest, 1), Seal(1, other, digest, 1)];
            UniqueEntries(seals) && !IdsDistinct(seals) && SealIds(seals) == {1}
  {
    var seals := [Seal(1, kind, digest, 1), Seal(1, other, digest, 1)];
    DistinctEntriesCount(seals);
    DistinctIdsCount(seals);
    assert seals[0].objectId == seals[1].objectId;
    assert seals[0] in seals;
  }

  // --- The commit -------------------------------------------------------------

  /** The repository's checks on the seals imply its later check on the result text, when both come
      from one envelope. */
  lemma ChecksImplyReferences(w: Wire, p: Primitives, b: ActionBinding, json: Bytes, evidence: map<Uuid, EvidenceUpload>)
    requires WireSound(w, p) && w.parse(json).Some?
    requires w.parse(json).value.actionId == b.actionId && w.parse(json).value.attemptId == b.attemptId
    requires SealIds(w.parse(json).value.evidence) == evidence.Keys && SealsMatch(w.parse(json).value.evidence, evidence)
    ensures ReferencesValid(p, b, w.canonical(json), evidence)
  {
    hide UniqueEntries;
    var seals := w.parse(json).value.evidence;
    SealsAreABijection(seals, evidence);
    DistinctIdsCount(seals);
    assert SealIds(seals) == set seal | seal in seals :: seal.objectId;
  }

  lemma CommitUncertainty(c: Config, p: Primitives, s: Installation, binding: ActionBinding, resultDigest: Digest,
                          text: Bytes, seals: seq<EvidenceSeal>, nonce: Nonce, clock: Option<Instant>, crashes: set<CrashPoint>)
    requires AdmitResult(p, s, binding, resultDigest, clock).Admitted?
    requires var evidence := AdmitResult(p, s, binding, resultDigest, clock).material.evidence;
             SealIds(seals) == evidence.Keys && SealsMatch(seals, evidence) ==> ReferencesValid(p, AdmitResult(p, s, binding, resultDigest, clock).record.binding, text, evidence)
    ensures DecideCommit(c, p, s, binding, resultDigest, text, seals, nonce, clock, crashes).reply != Denied(INTERNAL_UNCERTAINTY)
  {
    hide AdmitResult, SealIds, SealsMatch, ReferencesValid, Moved, DueNow, EvidenceBytes, SumOver;
  }

  lemma AdmittedBinding(p: Primitives, s: Installation, binding: ActionBinding, resultDigest: Digest, clock: Option<Instant>)
    requires AdmitResult(p, s, binding, resultDigest, clock).Admitted?
    ensures AdmitResult(p, s, binding, resultDigest, clock).record.binding == binding
  {
    hide ValidatedMaterial;
  }

  /** A result committed through the service is answered INTERNAL_UNCERTAINTY exactly when the
      repository could not even admit the call: the re-encoded result never contradicts its seals. */
  lemma ServiceCommitUncertainExactly(w: Wire, c: Config, p: Primitives, s: Installation, binding: ActionBinding, json: Bytes,
                                      credential: Bytes, nonce: Nonce, clock: Option<Instant>, crashes: set<CrashPoint>)
    requires WireSound(w, p)
    requires HandCommit(w, binding, json, credential, nonce, clock, crashes).Handed?
    ensures Step(c, p, s, HandCommit(w, binding, json, credential, nonce, clock, crashes).request).reply == Denied(INTERNAL_UNCERTAINTY) <==>
            AdmitResult(p, s, binding, w.digest(credential), clock) == Admission.Refused(INTERNAL_UNCERTAINTY)
  {
    hide AdmitResult, ReferencesValid, SealsMatch, SealIds, WireSound, EnvelopeValid, DecideCommit, Apply;
    var admission := AdmitResult(p, s, binding, w.digest(credential), clock);
    var seals := w.parse(json).value.evidence;
    if admission.Admitted? {
      AdmittedBinding(p, s, binding, w.digest(credential), clock);
      if SealIds(seals) == admission.material.evidence.Keys && SealsMatch(seals, admission.material.evidence) {
        ChecksImplyReferences(w, p, binding, json, admission.material.evidence);
      }
      CommitUncertainty(c, p, s, binding, w.digest(credential), w.canonical(json), seals, nonce, clock, crashes);
    } else {
      RefusedCommit(c, p, s, binding, w.digest(credential), w.canonical(json), seals, nonce, clock, crashes);
    }
  }

  lemma RefusedCommit(c: Config, p: Primitives, s: Installation, binding: ActionBinding, resultDigest: Digest,
                      text: Bytes, seals: seq<EvidenceSeal>, nonce: Nonce, clock: Option<Instant>, crashes: set<CrashPoint>)
    requires AdmitResult(p, s, binding, resultDigest, clock).Refused?
    ensures DecideCommit(c, p, s, binding, resultDigest, text, seals, nonce, clock, crashes).reply ==
            Denied(AdmitResult(p, s, binding, resultDigest, clock).denial)
  {
    hide AdmitResult, SealIds, SealsMatch, ReferencesValid, Moved, DueNow, EvidenceBytes, SumOver;
  }

  /** In a reachable state that means: the caller holds the result credential of the claimed mailbox,
      and the clock is unusable. */
  lemma ServiceCommitUncertainInReach(w: Wire, c: Config, p: Primitives, s: Installation, binding: ActionBinding, json: Bytes,
                                      credential: Bytes, nonce: Nonce, clock: Option<Instant>, crashes: set<CrashPoint>)
    requires WireSound(w, p) && Inv(c, p, s)
    requires HandCommit(w, binding, json, credential, nonce, clock, crashes).Handed?
    ensures Step(c, p, s, HandCommit(w, binding, json, credential, nonce, clock, crashes).request).reply == Denied(INTERNAL_UNCERTAINTY) <==>
            && Grants(c, s, w.digest(credential), RESULT, binding.mailboxId) && s.records[binding.mailboxId].binding == binding
            && s.records[binding.mailboxId].state == CLAIMED_ONCE && !ClockUsable(s, clock)
  {
    hide Inv, Good, FreeFor, WireSound, EnvelopeValid, Step, Admit, ValidatedMaterial, HandCommit;
    ServiceCommitUncertainExactly(w, c, p, s, binding, json, credential, nonce, clock, crashes);
    if binding.mailboxId in s.records {
      InvAt(c, p, s, binding.mailboxId);
      AdmitExactly(c, p, s, binding.mailboxId, clock);
      ClaimedHasCredential(p, s.records[binding.mailboxId]);
    }
  }

  lemma ClaimedHasCredential(p: Primitives, r: Record)
    requires Good(p, r)
    ensures r.state == CLAIMED_ONCE ==> r.resultDigest.Some?
  {
    hide ValidatedMaterial, OwnCredentialsDistinct, EvidenceBounded;
  }

  lemma MatchingSealsAgree(w: Wire, p: Primitives, b: ActionBinding, json: Bytes, credential: Bytes, nonce: Nonce,
                           clock: Option<Instant>, crashes: set<CrashPoint>, evidence: map<Uuid, EvidenceUpload>)
    requires WireSound(w, p) && HandCommit(w, b, json, credential, nonce, clock, crashes).Handed?
    ensures w.parse(json).Some?
    ensures SealIds(w.parse(json).value.evidence) == evidence.Keys && SealsMatch(w.parse(json).value.evidence, evidence) ==>
              ReferencesValid(p, b, w.canonical(json), evidence)
  {
    HandsOverExactly(w, b, json, credential, nonce, clock, crashes);
    hide WireSound, EnvelopeValid, SealIds, SealsMatch, ReferencesValid;
    if SealIds(w.parse(json).value.evidence) == evidence.Keys && SealsMatch(w.parse(json).value.evidence, evidence) {
      ChecksImplyReferences(w, p, b, json, evidence);
    }
  }

  /** Authorized and in time, with seals that name and describe exactly what was staged, and a canonical
      text that fits both byte bounds. */
  ghost predicate ServiceGuard(w: Wire, c: Config, p: Primitives, s: Installation, binding: ActionBinding, json: Bytes, credential: Bytes,
                               clock: Option<Instant>)
    requires w.parse(json).Some?
  {
    && Grants(c, s, w.digest(credential), RESULT, binding.mailboxId) && s.records[binding.mailboxId].binding == binding
    && ClockUsable(s, clock)
    && var r, seals, text := s.records[binding.mailboxId], w.parse(json).value.evidence, w.canonical(json);
       && r.state == CLAIMED_ONCE && clock.value < binding.deadline && ValidatedMaterial(p, r).Some?
       && var evidence := ValidatedMaterial(p, r).value.evidence;
          && SealIds(seals) == evidence.Keys && SealsMatch(seals, evidence)
          && |text| + EvidenceBytes(r) <= binding.responseBytes
          && SumOver(s.records, CommittedBytes) + |text| + EvidenceBytes(r) <= c.limits.maxCommittedBytes
  }

  lemma ServiceGuardExactly(w: Wire, c: Config, p: Primitives, s: Installation, binding: ActionBinding, json: Bytes,
                            credential: Bytes, nonce: Nonce, clock: Option<Instant>)
    requires WireSound(w, p) && HandCommit(w, binding, json, credential, nonce, clock, {}).Handed?
    ensures w.parse(json).Some?
    ensures var q := HandCommit(w, binding, json, credential, nonce, clock, {}).request;
            q.op.Commit? && q.clock == clock && q.crashes == {} &&
            (CommitGuard(c, p, s, q.op, clock) <==> ServiceGuard(w, c, p, s, binding, json, credential, clock))
  {
    HandsOverExactly(w, binding, json, credential, nonce, clock, {});
    hide WireSound, HandCommit, SumOver, EvidenceBytes, SealIds, SealsMatch, ReferencesValid, ValidatedMaterial, ClockUsable;
    if Grants(c, s, w.digest(credential), RESULT, binding.mailboxId) && ValidatedMaterial(p, s.records[binding.mailboxId]).Some? {
      MatchingSealsAgree(w, p, binding, json, credential, nonce, clock, {}, ValidatedMaterial(p, s.records[binding.mailboxId]).value.evidence);
    }
  }

  /** A result handed over by the service is committed exactly under that guard: the re-encoded text never
      stands in the way. */
  lemma ServiceCommitSucceedsExactly(w: Wire, c: Config, p: Primitives, s: Installation, binding: ActionBinding, json: Bytes,
                                     credential: Bytes, nonce: Nonce, clock: Option<Instant>)
    requires WireSound(w, p) && Inv(c, p, s)
    requires HandCommit(w, binding, json, credential, nonce, clock, {}).Handed?
    ensures w.parse(json).Some?
    ensures Step(c, p, s, HandCommit(w, binding, json, credential, nonce, clock, {}).request).reply.Snapshot? <==>
            ServiceGuard(w, c, p, s, binding, json, credential, clock)
  {
    hide WireSound, Inv, HandCommit, Step, ServiceGuard, CommitGuard, Decide, NothingOrExpiry;
    ServiceGuardExactly(w, c, p, s, binding, json, credential, nonce, clock);
    CommitSucceedsExactly(c, p, s, HandCommit(w, binding, json, credential, nonce, clock, {}).request);
  }
}

/** Whole runs: any sequence of operations, with denials, crashes, refused and lost replies. */
module MailboxRuns {
  import opened Identifiers
  import opened MailboxDomain
  import opened MailboxCrypto
  import opened MailboxMachine
  import opened MailboxInvariant
  import opened MailboxFates

  // --- Runs ------------------------------------------------------------------

  /** One call and the reply its caller saw. */
  datatype Event = Event(request: Request, reply: Reply)

  /** Replies of the adapter itself: the step may or may not have happened. */
  predicate Withheld(reply: Reply) {
    reply == Denied(CONTENDED) || reply == Denied(OVERSIZE) || reply == Denied(INTERNAL_UNCERTAINTY)
  }

  /** The call did nothing and was refused, or took its step and was answered or lost its answer. */
  ghost predicate Linked(c: Config, p: Primitives, s: Installation, e: Event, s': Installation) {
    || (s' == s && Withheld(e.reply))
    || (s' == Step(c, p, s, e.request).after && (e.reply == Step(c, p, s, e.request).reply || Withheld(e.reply)))
  }

  ghost predicate Run(c: Config, p: Primitives, states: seq<Installation>, events: seq<Event>) {
    && |states| == |events| + 1
    && forall i | 0 <= i < |events| :: Linked(c, p, states[i], events[i], states[i + 1])
  }

  lemma LinkKeepsInv(c: Config, p: Primitives, s: Installation, e: Event, s': Installation)
    requires Sound(p) && Inv(c, p, s) && Linked(c, p, s, e, s')
    ensures Inv(c, p, s')
  {
    hide Sound, Inv, Step, Withheld;
    StepKeepsInv(c, p, s, e.request);
  }

  /** The invariant holds in every state of every run that starts in it. */
  lemma {:induction false} RunKeepsInv(c: Config, p: Primitives, states: seq<Installation>, events: seq<Event>, i: nat)
    requires Sound(p) && Run(c, p, states, events) && Inv(c, p, states[0])
    requires i < |states|
    ensures Inv(c, p, states[i])
  {
    hide Sound, Inv, Linked;
    if i > 0 {
      RunKeepsInv(c, p, states, events, i - 1);
      LinkKeepsInv(c, p, states[i - 1], events[i - 1], states[i]);
    }
  }

  /** The installation's high-water mark never decreases. */
  lemma {:induction false} TimeNeverGoesBack(c: Config, p: Primitives, states: seq<Installation>, events: seq<Event>, i: nat, j: nat)
    requires Run(c, p, states, events) && i <= j < |states|
    ensures NoLater(states[i].highWater, states[j].highWater)
  {
    if i < j {
      TimeNeverGoesBack(c, p, states, events, i, j - 1);
      LinkKeepsTime(c, p, states[j - 1], events[j - 1], states[j]);
    }
  }

  lemma LinkKeepsTime(c: Config, p: Primitives, s: Installation, e: Event, s': Installation)
    requires Linked(c, p, s, e, s')
    ensures NoLater(s.highWater, s'.highWater)
  {
    hide Step, Withheld;
    StepKeepsTime(c, p, s, e.request);
  }

  /** The fate of a mailbox across one event. */
  ghost function LinkFate(c: Config, p: Primitives, s: Installation, e: Event, s': Installation, id: Uuid): Fate {
    if s' == s then Untouched else FateOf(c, s, Decide(c, p, s, e.request).effect, id)
  }

  lemma LinkFateHolds(c: Config, p: Primitives, s: Installation, e: Event, s': Installation, id: Uuid)
    requires Inv(c, p, s) && Linked(c, p, s, e, s')
    ensures FateHolds(c, p, s, s', id, LinkFate(c, p, s, e, s', id))
  {
    hide Inv, Step, FateHolds, FateOf, Decide, Withheld;
    StepFate(c, p, s, e.request, id);
    UntouchedHolds(c, p, s, id);
  }

  lemma UntouchedHolds(c: Config, p: Primitives, s: Installation, id: Uuid)
    ensures FateHolds(c, p, s, s, id, Untouched)
  {
  }

  // --- Lifecycle over runs ---------------------------------------------------

  function Rank(state: MailboxState): nat {
    match state
    case EMPTY => 0
    case OFFERED => 1
    case CLAIMED_ONCE => 2
    case _ => 3
  }

  function CollectionRank(collection: CollectionState): nat {
    match collection
    case NONE => 0
    case READY => 1
    case DELIVERING => 2
    case ACKNOWLEDGED => 3
  }

  /** A terminal record: nothing but the time it was last seen can still change. */
  predicate Settled(r: Record) {
    r.terminalAt.Some?
  }

  /** How one record may differ from what it was earlier in the same incarnation. */
  ghost predicate Progress(r: Record, r': Record) {
    && r'.binding == r.binding && r'.createdAt == r.createdAt && r.lastSeen <= r'.lastSeen
    && Rank(r.state) <= Rank(r'.state)
    && (Rank(r.state) == 3 ==> r'.state == r.state)
    && CollectionRank(r.collection) <= CollectionRank(r'.collection)
    && (Settled(r) ==> r' == r.(lastSeen := r'.lastSeen))
    && (r.committedAt.Some? ==> r'.committedAt == r.committedAt)
  }

  lemma MovedProgresses(c: Config, p: Primitives, s: Installation, r: Record, move: Move, now: Instant)
    requires Good(p, r) && r.lastSeen <= now
    requires move.Observing? || MoveAllowed(c, p, s, r, move, now)
    ensures Progress(r, Moved(p, r, move, now))
  {
    hide ValidatedMaterial, Wrap, Unwrap, WrapResult, BuildManifest, ReferencesValid, SumOver, InUse, EvidenceBytes, OwnCredentialsDistinct;
  }

  lemma LinkProgresses(c: Config, p: Primitives, s: Installation, e: Event, s': Installation, id: Uuid)
    requires Inv(c, p, s) && Linked(c, p, s, e, s') && id in s.records && id in s'.records
    ensures Progress(s.records[id], s'.records[id])
  {
    hide Inv, Good, Linked, MoveAllowed, Moved, Progress, FreeFor, Due, LinkFate;
    InvAt(c, p, s, id);
    LinkFateHolds(c, p, s, e, s', id);
    ProgressRefl(s.records[id]);
    var fate := LinkFate(c, p, s, e, s', id);
    if fate.Made? {
      MovedProgresses(c, p, s, s.records[id], fate.move, fate.now);
    }
  }

  lemma ProgressRefl(r: Record)
    ensures Progress(r, r)
  {
  }

  lemma ProgressTrans(a: Record, b: Record, d: Record)
    requires Progress(a, b) && Progress(b, d)
    ensures Progress(a, d)
  {
  }

  /** Within one incarnation the lifecycle only advances: ranks never decrease, a final state is
      kept, and a terminal record is frozen but for the time it was last seen. */
  lemma {:induction false} LifecycleNeverGoesBack(c: Config, p: Primitives, states: seq<Installation>, events: seq<Event>, id: Uuid, i: nat, j: nat)
    requires Sound(p) && Run(c, p, states, events) && Inv(c, p, states[0])
    requires i <= j < |states|
    requires forall k | i <= k <= j :: id in states[k].records
    ensures Progress(states[i].records[id], states[j].records[id])
  {
    hide Sound, Inv, Linked, Progress;
    if i == j {
      ProgressRefl(states[i].records[id]);
    } else {
      LifecycleNeverGoesBack(c, p, states, events, id, i, j - 1);
      RunKeepsInv(c, p, states, events, j - 1);
      LinkProgresses(c, p, states[j - 1], events[j - 1], states[j], id);
      ProgressTrans(states[i].records[id], states[j - 1].records[id], states[j].records[id]);
    }
  }

  // --- At most once per incarnation ------------------------------------------

  /** The state of mailbox `id` goes from below rank `k` to `k` or above. */
  ghost predicate Crosses(s: Installation, s': Installation, id: Uuid, k: nat) {
    && id in s.records && id in s'.records
    && Rank(s.records[id].state) < k <= Rank(s'.records[id].state)
  }

  function Retention(c: Config): nat {
    c.limits.terminalRetention + c.limits.tombstoneRetention
  }

  /** Everything a later state remembers of a crossing at time `t`: the record itself, then its
      tombstone, then only that both retention periods have passed. */
  ghost predicate Spent(c: Config, s: Installation, id: Uuid, k: nat, t: nat) {
    if id in s.records then
      var r := s.records[id];
      || (Rank(r.state) >= k && r.lastSeen >= t && (r.terminalAt.Some? ==> r.terminalAt.value >= t))
      || r.createdAt >= t + Retention(c)
    else if id in s.tombstones then
      s.tombstones[id].createdAt >= t + c.limits.terminalRetention
    else
      s.highWater.Some? && s.highWater.value >= t + Retention(c)
  }

  lemma MovedTerminal(c: Config, p: Primitives, s: Installation, r: Record, move: Move, now: Instant)
    requires Good(p, r)
    requires move.Observing? || MoveAllowed(c, p, s, r, move, now)
    ensures Moved(p, r, move, now).terminalAt == r.terminalAt || Moved(p, r, move, now).terminalAt == Some(now)
  {
    hide ValidatedMaterial, Wrap, Unwrap, WrapResult, BuildManifest, ReferencesValid, SumOver, InUse, EvidenceBytes, OwnCredentialsDistinct;
  }

  lemma FateKeepsSpent(c: Config, p: Primitives, s: Installation, s': Installation, id: Uuid, fate: Fate, k: nat, t: nat)
    requires Inv(c, p, s) && FateHolds(c, p, s, s', id, fate) && NoLater(s.highWater, s'.highWater)
    requires Spent(c, s, id, k, t)
    ensures Spent(c, s', id, k, t)
  {
    hide Inv, Good, MoveAllowed, Moved, FreeFor, Progress, TombstoneSemantics;
    if id in s.records {
      var r := s.records[id];
      InvAt(c, p, s, id);
      TerminalAfterCreation(p, r);
      if fate.Made? {
        MovedProgresses(c, p, s, r, fate.move, fate.now);
        MovedTerminal(c, p, s, r, fate.move, fate.now);
        MovedKeepsBinding(p, r, fate.move, fate.now);
        ProgressKeepsRank(r, Moved(p, r, fate.move, fate.now));
      }
    } else if id in s.tombstones {
      TombstoneSpan(c, p, s, id);
    }
  }

  lemma ProgressKeepsRank(r: Record, r': Record)
    requires Progress(r, r')
    ensures Rank(r.state) <= Rank(r'.state)
  {
  }

  lemma TerminalAfterCreation(p: Primitives, r: Record)
    requires Good(p, r)
    ensures r.terminalAt.Some? ==> r.createdAt <= r.terminalAt.value
    ensures r.createdAt <= r.lastSeen
    ensures r.terminalAt.Some? ==> Rank(r.state) == 3
  {
    hide ValidatedMaterial, OwnCredentialsDistinct, EvidenceBounded;
  }

  lemma TombstoneSpan(c: Config, p: Primitives, s: Installation, id: Uuid)
    requires Inv(c, p, s) && id in s.tombstones
    ensures s.tombstones[id].expiresAt == s.tombstones[id].createdAt + c.limits.tombstoneRetention
  {
    hide RecordSemantics, ValidatedMaterial, CredentialsDistinct, TotalsOf, WithinQuota;
  }

  lemma LinkKeepsSpent(c: Config, p: Primitives, s: Installation, e: Event, s': Installation, id: Uuid, k: nat, t: nat)
    requires Inv(c, p, s) && Linked(c, p, s, e, s') && Spent(c, s, id, k, t)
    ensures Spent(c, s', id, k, t)
  {
    hide Inv, Linked, Spent, FateHolds;
    LinkFateHolds(c, p, s, e, s', id);
    LinkKeepsTime(c, p, s, e, s');
    FateKeepsSpent(c, p, s, s', id, LinkFate(c, p, s, e, s', id), k, t);
  }

  lemma CrossingIsSpent(c: Config, p: Primitives, s: Installation, e: Event, s': Installation, id: Uuid, k: nat)
    requires Inv(c, p, s) && Linked(c, p, s, e, s') && Crosses(s, s', id, k) && k <= 3
    ensures Spent(c, s', id, k, s'.records[id].lastSeen)
  {
    hide Inv, Good, Linked, MoveAllowed, Moved, FreeFor, LinkFate;
    InvAt(c, p, s, id);
    LinkFateHolds(c, p, s, e, s', id);
    var fate := LinkFate(c, p, s, e, s', id);
    TerminalAfterCreation(p, s.records[id]);
    if fate.Made? {
      MovedTerminal(c, p, s, s.records[id], fate.move, fate.now);
      MovedKeepsBinding(p, s.records[id], fate.move, fate.now);
    }
  }

  /** A crossing can only happen again once both retention periods have passed since the first. */
  lemma CrossingOfSpent(c: Config, p: Primitives, s: Installation, e: Event, s': Installation, id: Uuid, k: nat, t: nat)
    requires Inv(c, p, s) && Linked(c, p, s, e, s') && Crosses(s, s', id, k) && Spent(c, s, id, k, t)
    ensures s'.records[id].lastSeen >= t + Retention(c)
  {
    hide Inv, Good, Linked, Progress;
    InvAt(c, p, s, id);
    TerminalAfterCreation(p, s.records[id]);
    LinkProgresses(c, p, s, e, s', id);
    ProgressKeepsTime(s.records[id], s'.records[id]);
  }

  lemma ProgressKeepsTime(r: Record, r': Record)
    requires Progress(r, r')
    ensures r.lastSeen <= r'.lastSeen
  {
  }

  lemma {:induction false} SpentStaysSpent(c: Config, p: Primitives, states: seq<Installation>, events: seq<Event>, id: Uuid, k: nat, t: nat, i: nat, j: nat)
    requires Sound(p) && Run(c, p, states, events) && Inv(c, p, states[0])
    requires i <= j < |states| && Spent(c, states[i], id, k, t)
    ensures Spent(c, states[j], id, k, t)
  {
    hide Sound, Inv, Linked, Spent;
    if i < j {
      SpentStaysSpent(c, p, states, events, id, k, t, i, j - 1);
      RunKeepsInv(c, p, states, events, j - 1);
      LinkKeepsSpent(c, p, states[j - 1], events[j - 1], states[j], id, k, t);
    }
  }

  /** While the identifier stays in place a rank is not crossed again: before a second crossing the
      mailbox has left the installation. */
  lemma CrossedAgainMeansLeft(c: Config, p: Primitives, states: seq<Installation>, events: seq<Event>, id: Uuid, k: nat, i: nat, j: nat)
    requires Sound(p) && Run(c, p, states, events) && Inv(c, p, states[0])
    requires i < j < |events|
    requires Crosses(states[i], states[i + 1], id, k) && Crosses(states[j], states[j + 1], id, k)
    ensures exists m :: i + 1 < m < j && id !in states[m].records
  {
    hide Sound, Inv, Linked, Progress;
    if forall m | i + 1 <= m <= j :: id in states[m].records {
      LifecycleNeverGoesBack(c, p, states, events, id, i + 1, j);
      ProgressKeepsRank(states[i + 1].records[id], states[j].records[id]);
      assert false;
    }
  }

  /** The record that crosses a rank again is a later one, created after both retention periods. */
  lemma CrossesAgainRecreated(c: Config, s: Installation, s': Installation, id: Uuid, k: nat, t: nat)
    requires Crosses(s, s', id, k) && Spent(c, s, id, k, t)
    ensures s.records[id].createdAt >= t + Retention(c)
  {
  }

  /** A mailbox reaches each lifecycle rank at most once per incarnation: before it crosses the same
      rank again its record has left the installation, and the record that crosses then was created
      at least a terminal and a tombstone retention after the first crossing. */
  lemma CrossingsAreFarApart(c: Config, p: Primitives, states: seq<Installation>, events: seq<Event>, id: Uuid, k: nat, i: nat, j: nat)
    requires Sound(p) && Run(c, p, states, events) && Inv(c, p, states[0])
    requires i < j < |events| && k <= 3
    requires Crosses(states[i], states[i + 1], id, k) && Crosses(states[j], states[j + 1], id, k)
    ensures exists m :: i + 1 < m < j && id !in states[m].records
    ensures states[j].records[id].createdAt >= states[i + 1].records[id].lastSeen + Retention(c)
    ensures states[j + 1].records[id].lastSeen >= states[i + 1].records[id].lastSeen + Retention(c)
  {
    hide Sound, Inv, Linked, Spent;
    var t := states[i + 1].records[id].lastSeen;
    RunKeepsInv(c, p, states, events, i);
    CrossingIsSpent(c, p, states[i], events[i], states[i + 1], id, k);
    SpentStaysSpent(c, p, states, events, id, k, t, i + 1, j);
    RunKeepsInv(c, p, states, events, j);
    CrossingOfSpent(c, p, states[j], events[j], states[j + 1], id, k, t);
    CrossesAgainRecreated(c, states[j], states[j + 1], id, k, t);
    CrossedAgainMeansLeft(c, p, states, events, id, k, i, j);
  }

  /** Every claim delivered to a caller takes its mailbox from OFFERED to CLAIMED_ONCE,
      strictly before the claim deadline, at the time the clock showed. */
  lemma ClaimReplyIsACrossing(c: Config, p: Primitives, s: Installation, e: Event, s': Installation)
    requires Inv(c, p, s) && Linked(c, p, s, e, s') && e.reply.Claimed?
    ensures var id := e.reply.binding.mailboxId;
            && Crosses(s, s', id, 2) && s.records[id].state == OFFERED && s'.records[id].state == CLAIMED_ONCE
            && e.request.clock == Some(s'.records[id].lastSeen)
            && s'.records[id].lastSeen < e.reply.binding.claimDeadline
            && e.reply == Claimed(s.records[id].binding, s.records[id].envelope.value, s.records[id].actionKey.value, s.records[id].resultCredential.value)
  {
    hide Inv, WithinQuota, TotalsOf, DecideCreate, DecideOffer, DecideStage, DecideCommit, DecideCollect, DecideAcknowledge,
      DecideAbandon, DecideInspect, DecideExpire, DecideCollection, DecideClaim, SweptAll, CollectedAll, Moved, Put;
    InvQuota(c, p, s);
    OnlyClaimClaims(c, p, s, e.request);
    ClaimReply(c, p, s, e.request.op.binding, e.request.op.claim, e.request.clock, e.request.crashes);
    ClaimMove(p, s, e.request.op.binding.mailboxId, e.request.clock.value);
  }

  lemma OnlyClaimClaims(c: Config, p: Primitives, s: Installation, q: Request)
    requires Decide(c, p, s, q).reply.Claimed?
    ensures q.op.Claim?
  {
    hide ValidatedMaterial, Moved, DueNow, InUse, SumOver, Unwrap, Wrap, ReferencesValid, SealsMatch, SealIds, BundleFits, ActionFits,
      ViewOf, Removed, NewlyExpired, SweepNow, AdmitOffer, AdmitClaim, AdmitResult, AdmitCollector, EvidenceBytes;
  }

  lemma ClaimReply(c: Config, p: Primitives, s: Installation, binding: ActionBinding, claim: Digest, clock: Option<Instant>, crashes: set<CrashPoint>)
    requires WellKeyed(c, s)
    requires DecideClaim(p, s, binding, claim, clock, crashes).reply.Claimed?
    ensures var id := binding.mailboxId; var d := DecideClaim(p, s, binding, claim, clock, crashes);
            && clock.Some? && id in s.records && d.effect == Movement(id, Claiming, clock.value)
            && s.records[id].state == OFFERED && clock.value < s.records[id].binding.claimDeadline
            && s.records[id].envelope.Some? && s.records[id].actionKey.Some? && s.records[id].resultCredential.Some?
            && d.reply == Claimed(s.records[id].binding, s.records[id].envelope.value, s.records[id].actionKey.value, s.records[id].resultCredential.value)
            && s.records[id].binding == binding
  {
    hide ValidatedMaterial, ActionFits;
  }

  lemma ClaimMove(p: Primitives, s: Installation, id: Uuid, now: Instant)
    requires id in s.records
    ensures var r' := Moved(p, s.records[id], Claiming, now);
            r'.binding == s.records[id].binding && r'.state == CLAIMED_ONCE && r'.lastSeen == now
    ensures s.records[id].binding.mailboxId == id ==>
              id in Put(s, Moved(p, s.records[id], Claiming, now), now).records
              && Put(s, Moved(p, s.records[id], Claiming, now), now).records[id] == Moved(p, s.records[id], Claiming, now)
  {
  }

  /** At most one claim is delivered per incarnation of a mailbox, over any run with crashes,
      refusals and lost replies: between two claims the record has left the installation, and the
      one claimed second was created at least both retention periods after the first claim. */
  lemma ClaimsAreFarApart(c: Config, p: Primitives, states: seq<Installation>, events: seq<Event>, i: nat, j: nat)
    requires Sound(p) && Run(c, p, states, events) && Inv(c, p, states[0])
    requires i < j < |events|
    requires events[i].reply.Claimed? && events[j].reply.Claimed?
    requires events[i].reply.binding.mailboxId == events[j].reply.binding.mailboxId
    ensures events[i].request.clock.Some? && events[j].request.clock.Some?
    ensures events[j].request.clock.value >= events[i].request.clock.value + Retention(c)
    ensures var id := events[i].reply.binding.mailboxId;
            && (exists m :: i + 1 < m < j && id !in states[m].records)
            && id in states[j].records && states[j].records[id].createdAt >= events[i].request.clock.value + Retention(c)
  {
    hide Sound, Inv, Linked;
    RunKeepsInv(c, p, states, events, i);
    RunKeepsInv(c, p, states, events, j);
    ClaimReplyIsACrossing(c, p, states[i], events[i], states[i + 1]);
    ClaimReplyIsACrossing(c, p, states[j], events[j], states[j + 1]);
    CrossingsAreFarApart(c, p, states, events, events[i].reply.binding.mailboxId, 2, i, j);
  }

  /** A result is committed at `i`: the mailbox goes from CLAIMED_ONCE to RESULT_COMMITTED. */
  ghost predicate CommitsAt(s: Installation, s': Installation, id: Uuid) {
    id in s.records && id in s'.records && s.records[id].state == CLAIMED_ONCE && s'.records[id].state == RESULT_COMMITTED
  }

  /** At most one result is committed per incarnation, and an incarnation that expired or was
      abandoned commits none: before such a commit the record has left the installation, and the one
      committed was created at least both retention periods later. */
  lemma CommitsAreFarApart(c: Config, p: Primitives, states: seq<Installation>, events: seq<Event>, id: Uuid, i: nat, j: nat)
    requires Sound(p) && Run(c, p, states, events) && Inv(c, p, states[0])
    requires i < j < |events|
    requires CommitsAt(states[j], states[j + 1], id)
    requires CommitsAt(states[i], states[i + 1], id) || (Crosses(states[i], states[i + 1], id, 3) && states[i + 1].records[id].state in {EXPIRED, ABANDONED})
    ensures exists m :: i + 1 < m < j && id !in states[m].records
    ensures states[j].records[id].createdAt >= states[i + 1].records[id].lastSeen + Retention(c)
    ensures states[j + 1].records[id].lastSeen >= states[i + 1].records[id].lastSeen + Retention(c)
  {
    hide Sound, Inv, Linked;
    CrossingsAreFarApart(c, p, states, events, id, 3, i, j);
  }

  // --- An identifier is refused until its tombstone is collected --------------

  /** The installation still remembers the identifier, by a record or by a tombstone. */
  predicate Known(s: Installation, id: Uuid) {
    id in s.records || id in s.tombstones
  }

  /** This event is the collection of garbage, at or after the tombstone's expiry, that makes the
      installation forget the identifier. */
  ghost predicate ForgetsAt(s: Installation, e: Event, s': Installation, id: Uuid) {
    && e.request.op.GarbageCollect? && e.request.clock.Some?
    && id !in s.records && id in s.tombstones && s.tombstones[id].expiresAt <= e.request.clock.value
    && !Known(s', id)
  }

  lemma KnownIsRefused(c: Config, p: Primitives, s: Installation, q: Request)
    requires q.op.Create? && Known(s, q.op.binding.mailboxId)
    ensures Step(c, p, s, q).after == s && Step(c, p, s, q).reply.Denied?
  {
    hide InUse, ViewOf;
  }

  lemma OnlyCollectingCollects(c: Config, p: Primitives, s: Installation, q: Request)
    requires Decide(c, p, s, q).effect.Collecting?
    ensures q.op.GarbageCollect? && q.clock == Some(Decide(c, p, s, q).effect.now)
  {
    hide ValidatedMaterial, Moved, DueNow, InUse, SumOver, Unwrap, Wrap, ReferencesValid, SealsMatch, SealIds, BundleFits, ActionFits,
      ViewOf, Removed, NewlyExpired, AdmitOffer, AdmitClaim, AdmitResult, AdmitCollector, EvidenceBytes;
  }

  /** An event either keeps the identifier known or is the collection that forgets it. */
  lemma LinkKeepsKnown(c: Config, p: Primitives, s: Installation, e: Event, s': Installation, id: Uuid)
    requires Inv(c, p, s) && Linked(c, p, s, e, s') && Known(s, id)
    ensures Known(s', id) || ForgetsAt(s, e, s', id)
  {
    hide Inv, Linked, Decide, Moved, MoveAllowed, Due, Removed;
    LinkFateHolds(c, p, s, e, s', id);
    if LinkFate(c, p, s, e, s', id).Forgotten? {
      OnlyCollectingCollects(c, p, s, e.request);
    }
  }

  lemma {:induction false} KnownUntilForgotten(c: Config, p: Primitives, states: seq<Installation>, events: seq<Event>, id: Uuid, i: nat, j: nat) returns (m: nat)
    requires Sound(p) && Run(c, p, states, events) && Inv(c, p, states[0])
    requires i <= j < |states| && Known(states[i], id) && !Known(states[j], id)
    ensures i <= m < j && ForgetsAt(states[m], events[m], states[m + 1], id)
  {
    hide Sound, Inv, Linked, Known, ForgetsAt;
    if Known(states[j - 1], id) {
      m := j - 1;
      RunKeepsInv(c, p, states, events, m);
      LinkKeepsKnown(c, p, states[m], events[m], states[j], id);
    } else {
      m := KnownUntilForgotten(c, p, states, events, id, i, j - 1);
    }
  }

  /** A creation took effect, or was at least answered with something other than a denial. */
  ghost predicate CreatesAt(s: Installation, e: Event, s': Installation, id: Uuid) {
    e.request.op.Create? && e.request.op.binding.mailboxId == id && (s' != s || !e.reply.Denied?)
  }

  lemma CreatingNeedsUnknown(c: Config, p: Primitives, s: Installation, e: Event, s': Installation, id: Uuid)
    requires Linked(c, p, s, e, s') && CreatesAt(s, e, s', id)
    ensures !Known(s, id)
  {
    hide Step, Known;
    if Known(s, id) {
      KnownIsRefused(c, p, s, e.request);
    }
  }

  /** Once the installation knows an identifier, every creation under it is denied and changes
      nothing, until a collection of garbage at or after its tombstone's expiry has forgotten it. */
  lemma CreationsAreRefusedUntilForgotten(c: Config, p: Primitives, states: seq<Installation>, events: seq<Event>, id: Uuid, i: nat, j: nat)
    returns (m: nat)
    requires Sound(p) && Run(c, p, states, events) && Inv(c, p, states[0])
    requires i <= j < |events| && Known(states[i], id)
    requires CreatesAt(states[j], events[j], states[j + 1], id)
    ensures i <= m < j && ForgetsAt(states[m], events[m], states[m + 1], id)
  {
    hide Sound, Inv, Known, ForgetsAt, CreatesAt, Linked;
    assert Linked(c, p, states[j], events[j], states[j + 1]);
    CreatingNeedsUnknown(c, p, states[j], events[j], states[j + 1], id);
    m := KnownUntilForgotten(c, p, states, events, id, i, j);
  }

  /** After a crossing the forgetting collection is at least both retention periods later. */
  lemma CrossedIsRefusedForBothRetentions(c: Config, p: Primitives, states: seq<Installation>, events: seq<Event>, id: Uuid, k: nat, i: nat, j: nat)
    returns (m: nat)
    requires Sound(p) && Run(c, p, states, events) && Inv(c, p, states[0])
    requires i < j < |events| && k <= 3 && Crosses(states[i], states[i + 1], id, k)
    requires CreatesAt(states[j], events[j], states[j + 1], id)
    ensures i < m < j && ForgetsAt(states[m], events[m], states[m + 1], id)
    ensures events[m].request.clock.value >= states[i + 1].records[id].lastSeen + Retention(c)
  {
    hide Sound, Inv, Linked, Spent, CreatesAt;
    var t := states[i + 1].records[id].lastSeen;
    m := CreationsAreRefusedUntilForgotten(c, p, states, events, id, i + 1, j);
    RunKeepsInv(c, p, states, events, i);
    CrossingIsSpent(c, p, states[i], events[i], states[i + 1], id, k);
    SpentStaysSpent(c, p, states, events, id, k, t, i + 1, m);
    RunKeepsInv(c, p, states, events, m);
    SpentTombstone(c, p, states[m], id, k, t);
  }

  lemma SpentTombstone(c: Config, p: Primitives, s: Installation, id: Uuid, k: nat, t: nat)
    requires Inv(c, p, s) && Spent(c, s, id, k, t) && id !in s.records && id in s.tombstones
    ensures s.tombstones[id].expiresAt >= t + Retention(c)
  {
    hide Inv;
    TombstoneSpan(c, p, s, id);
  }

  /** A creation that took effect makes the identifier known. */
  lemma CreationMakesKnown(c: Config, p: Primitives, s: Installation, e: Event, s': Installation)
    requires Linked(c, p, s, e, s') && e.request.op.Create? && (s' != s || e.reply.Snapshot?)
    ensures Known(s', e.request.op.binding.mailboxId)
  {
    var op := e.request.op;
    hide DecideCreate, DecideOffer, DecideClaim, DecideStage, DecideCommit, DecideCollect, DecideAcknowledge, DecideAbandon, DecideInspect,
      DecideExpire, DecideCollection;
    CreationEffect(c, s, op.binding, op.action, op.claim, op.collection, e.request.clock);
  }

  lemma CreationEffect(c: Config, s: Installation, binding: ActionBinding, action: Digest, claim: Digest, collection: Digest, clock: Option<Instant>)
    ensures var d := DecideCreate(c, s, binding, action, claim, collection, clock);
            if d.effect.Creation? then d.effect.record.binding == binding else d.effect == Nothing && d.reply.Denied?
  {
    hide InUse, ViewOf;
  }

  /** Two creations of one identifier take effect only with such a collection between them. */
  lemma CreationsAreApart(c: Config, p: Primitives, states: seq<Installation>, events: seq<Event>, id: Uuid, i: nat, j: nat) returns (m: nat)
    requires Sound(p) && Run(c, p, states, events) && Inv(c, p, states[0])
    requires i < j < |events| && CreatesAt(states[j], events[j], states[j + 1], id)
    requires events[i].request.op.Create? && events[i].request.op.binding.mailboxId == id && (states[i + 1] != states[i] || events[i].reply.Snapshot?)
    ensures i < m < j && ForgetsAt(states[m], events[m], states[m + 1], id)
  {
    hide Sound, Inv, Known, ForgetsAt, CreatesAt, Linked;
    assert Linked(c, p, states[i], events[i], states[i + 1]);
    CreationMakesKnown(c, p, states[i], events[i], states[i + 1]);
    m := CreationsAreRefusedUntilForgotten(c, p, states, events, id, i + 1, j);
  }

  // --- Two-phase delivery ----------------------------------------------------

  /** Committed and not yet acknowledged: the record authenticates to this result and evidence. */
  ghost predicate Deliverable(p: Primitives, r: Record, json: Bytes, evidence: map<Uuid, EvidenceUpload>) {
    && r.state == RESULT_COMMITTED && (r.collection == READY || r.collection == DELIVERING)
    && ValidatedMaterial(p, r) == Some(Material(evidence, Some(json)))
  }

  ghost predicate DeliverableAt(p: Primitives, s: Installation, id: Uuid, json: Bytes, evidence: map<Uuid, EvidenceUpload>) {
    id in s.records && Deliverable(p, s.records[id], json, evidence)
  }

  ghost predicate AcknowledgedAt(s: Installation, id: Uuid) {
    id in s.records && s.records[id].collection == ACKNOWLEDGED
  }

  lemma DeliverableIsNotTerminal(p: Primitives, r: Record, json: Bytes, evidence: map<Uuid, EvidenceUpload>)
    requires Good(p, r) && Deliverable(p, r, json, evidence)
    ensures r.terminalAt.None? && !Open(r.state) && forall now :: !DueNow(r, now)
  {
    hide ValidatedMaterial, OwnCredentialsDistinct, EvidenceBounded;
  }

  lemma MovedStaysDeliverable(c: Config, p: Primitives, s: Installation, r: Record, move: Move, now: Instant, json: Bytes, evidence: map<Uuid, EvidenceUpload>)
    requires Good(p, r) && r.lastSeen <= now && Deliverable(p, r, json, evidence)
    requires move.Observing? || MoveAllowed(c, p, s, r, move, now)
    requires !move.Acknowledging?
    ensures Deliverable(p, Moved(p, r, move, now), json, evidence)
  {
    hide Good, ValidatedMaterial, SumOver, InUse, Unwrap, Wrap, ReferencesValid, EvidenceBytes, DueNow;
    DeliverableIsNotTerminal(p, r, json, evidence);
    if move.Observing? {
      ObservedGood(p, r, now);
    } else if move.Delivering? {
      DeliveringGood(p, r, now);
    }
  }

  lemma LinkKeepsDeliverable(c: Config, p: Primitives, s: Installation, e: Event, s': Installation, id: Uuid, json: Bytes, evidence: map<Uuid, EvidenceUpload>)
    requires Inv(c, p, s) && Linked(c, p, s, e, s') && DeliverableAt(p, s, id, json, evidence)
    ensures DeliverableAt(p, s', id, json, evidence) || AcknowledgedAt(s', id)
  {
    hide Inv, Good, Linked, MoveAllowed, Moved, FreeFor, LinkFate, Deliverable;
    InvAt(c, p, s, id);
    LinkFateHolds(c, p, s, e, s', id);
    DeliverableIsNotTerminal(p, s.records[id], json, evidence);
    var fate := LinkFate(c, p, s, e, s', id);
    if fate.Made? {
      if fate.move.Acknowledging? {
        AcknowledgingMove(p, s.records[id], fate.now);
      } else {
        MovedStaysDeliverable(c, p, s, s.records[id], fate.move, fate.now, json, evidence);
      }
    }
  }

  lemma AcknowledgingMove(p: Primitives, r: Record, now: Instant)
    ensures Moved(p, r, Acknowledging, now).collection == ACKNOWLEDGED
  {
  }

  /** From commit until acknowledgement nothing takes the result away: not time, not abandonment,
      not a sweep, not a crash. */
  lemma {:induction false} ResultStaysDeliverable(c: Config, p: Primitives, states: seq<Installation>, events: seq<Event>, id: Uuid,
                                                  json: Bytes, evidence: map<Uuid, EvidenceUpload>, i: nat, j: nat)
    requires Sound(p) && Run(c, p, states, events) && Inv(c, p, states[0])
    requires i <= j < |states| && DeliverableAt(p, states[i], id, json, evidence)
    requires forall k | i <= k <= j :: !AcknowledgedAt(states[k], id)
    ensures DeliverableAt(p, states[j], id, json, evidence)
  {
    hide Sound, Inv, Linked, DeliverableAt, AcknowledgedAt;
    if i < j {
      ResultStaysDeliverable(c, p, states, events, id, json, evidence, i, j - 1);
      RunKeepsInv(c, p, states, events, j - 1);
      LinkKeepsDeliverable(c, p, states[j - 1], events[j - 1], states[j], id, json, evidence);
    }
  }

  lemma {:induction false} SameSums(evidence: map<Uuid, EvidenceUpload>, items: map<Uuid, WrappedEvidence>)
    requires evidence.Keys == items.Keys
    requires forall id | id in items :: |evidence[id].payload| == items[id].byteCount
    ensures SumOver(evidence, PayloadBytes) == SumOver(items, ItemBytes)
    ensures |evidence| == |items|
    decreases |items|
  {
    assert |evidence| == |evidence.Keys| && |items| == |items.Keys|;
    if items.Keys != {} {
      var k := Least(items.Keys);
      SameSums(evidence - {k}, items - {k});
    }
  }

  lemma DeliverableBounds(p: Primitives, r: Record, json: Bytes, evidence: map<Uuid, EvidenceUpload>)
    requires Good(p, r) && Deliverable(p, r, json, evidence)
    ensures r.result.Some?
    ensures 0 < |json| && |json| + EvidenceBytes(r) <= r.binding.responseBytes
    ensures evidence.Keys == r.evidence.Keys
    ensures forall id | id in r.evidence :: |evidence[id].payload| == r.evidence[id].byteCount
    ensures |r.evidence| <= MAX_EVIDENCE_ITEMS
  {
    hide SumOver, OwnCredentialsDistinct, ReferencesValid, BuildManifest;
  }

  /** A bundle that authenticates fits the bundle's own bounds exactly when the result is within the result bound. */
  lemma BundleFitsExactly(p: Primitives, r: Record, json: Bytes, evidence: map<Uuid, EvidenceUpload>)
    requires Good(p, r) && Deliverable(p, r, json, evidence)
    ensures BundleFits(r.binding, json, evidence) <==> |json| <= MAX_RESULT_ENVELOPE_BYTES
  {
    hide Good, Deliverable;
    DeliverableBounds(p, r, json, evidence);
    SameSums(evidence, r.evidence);
  }

  /** While a result is deliverable, a collection with the right credential and a usable clock
      delivers exactly that result and that evidence when the result is within
      MAX_RESULT_ENVELOPE_BYTES, and otherwise faults. */
  lemma CollectDelivers(c: Config, p: Primitives, s: Installation, q: Request, id: Uuid, json: Bytes, evidence: map<Uuid, EvidenceUpload>)
    requires Inv(c, p, s) && DeliverableAt(p, s, id, json, evidence)
    requires q.op == Collect(id, s.records[id].collectionDigest)
    requires q.clock.Some? && NotAhead(s, q.clock.value)
    ensures Step(c, p, s, q).reply ==
              if |json| <= MAX_RESULT_ENVELOPE_BYTES then Bundle(s.records[id].binding, json, evidence) else Fault
  {
    hide Inv, Good, ValidatedMaterial, BundleFits, Apply, FreeFor;
    InvAt(c, p, s, id);
    LastSeenBound(c, p, s, id);
    DeliverableBounds(p, s.records[id], json, evidence);
    BundleFitsExactly(p, s.records[id], json, evidence);
  }

  lemma LastSeenBound(c: Config, p: Primitives, s: Installation, id: Uuid)
    requires Inv(c, p, s) && id in s.records
    ensures Seen(s, s.records[id].lastSeen)
  {
    hide RecordSemantics, ValidatedMaterial, CredentialsDistinct, TotalsOf, WithinQuota, TombstoneSemantics;
  }

  /** Committing a result makes exactly that result and the evidence staged so far deliverable. */
  lemma CommitMakesDeliverable(c: Config, p: Primitives, s: Installation, id: Uuid, json: Bytes, nonce: Nonce, now: Instant)
    requires Sound(p) && Inv(c, p, s) && Enabled(c, p, s, id, Committing(json, nonce), now)
    ensures ValidatedMaterial(p, s.records[id]).Some?
    ensures Deliverable(p, Moved(p, s.records[id], Committing(json, nonce), now), json, ValidatedMaterial(p, s.records[id]).value.evidence)
    ensures now < s.records[id].binding.deadline
  {
    hide Sound, Inv, Good, ValidatedMaterial, ReferencesValid, SumOver, EvidenceBytes, FreeFor, WrapResult, BuildManifest;
    InvAt(c, p, s, id);
    CommittedGood(p, s.records[id], json, nonce, now);
  }

  /** Any run: once committed at `i` and not acknowledged up to `j`, a collection at `j` still
      delivers the committed bytes and the evidence staged at commit. */
  lemma CommittedThenCollected(c: Config, p: Primitives, states: seq<Installation>, events: seq<Event>, id: Uuid,
                               json: Bytes, nonce: Nonce, now: Instant, i: nat, j: nat)
    requires Sound(p) && Run(c, p, states, events) && Inv(c, p, states[0])
    requires i < j < |events|
    requires Enabled(c, p, states[i], id, Committing(json, nonce), now)
    requires states[i + 1] == Put(states[i], Moved(p, states[i].records[id], Committing(json, nonce), now), now)
    requires forall k | i < k <= j :: !AcknowledgedAt(states[k], id)
    requires id in states[j].records && events[j].request.op == Collect(id, states[j].records[id].collectionDigest)
    requires events[j].request.clock.Some? && NotAhead(states[j], events[j].request.clock.value)
    requires |json| <= MAX_RESULT_ENVELOPE_BYTES && !Withheld(events[j].reply)
    ensures ValidatedMaterial(p, states[i].records[id]).Some?
    ensures events[j].reply == Bundle(states[j].records[id].binding, json, ValidatedMaterial(p, states[i].records[id]).value.evidence)
  {
    hide Sound, Inv, Deliverable, Moved, ValidatedMaterial, MoveAllowed, Step, AcknowledgedAt;
    RunKeepsInv(c, p, states, events, i);
    RunKeepsInv(c, p, states, events, j);
    CommitMakesDeliverable(c, p, states[i], id, json, nonce, now);
    KeyOf(c, p, states[i], id);
    MovedKeepsBinding(p, states[i].records[id], Committing(json, nonce), now);
    var evidence := ValidatedMaterial(p, states[i].records[id]).value.evidence;
    ResultStaysDeliverable(c, p, states, events, id, json, evidence, i + 1, j);
    CollectDelivers(c, p, states[j], events[j].request, id, json, evidence);
    assert Linked(c, p, states[j], events[j], states[j + 1]);
  }

  lemma KeyOf(c: Config, p: Primitives, s: Installation, id: Uuid)
    requires Inv(c, p, s) && id in s.records
    ensures s.records[id].binding.mailboxId == id
  {
    hide Good, FreeFor;
    InvAt(c, p, s, id);
  }

  /** After acknowledgement no data is ever returned again in the same incarnation. */
  lemma NothingAfterAcknowledgement(c: Config, p: Primitives, states: seq<Installation>, events: seq<Event>, id: Uuid, i: nat, j: nat)
    requires Sound(p) && Run(c, p, states, events) && Inv(c, p, states[0])
    requires i <= j < |events| && AcknowledgedAt(states[i], id)
    requires forall k | i <= k <= j :: id in states[k].records
    requires events[j].request.op.Collect? && events[j].request.op.mailboxId == id
    ensures !events[j].reply.Bundle? && !events[j].reply.Fault?
    ensures states[j].records[id].evidence == map[] && states[j].records[id].result.None?
  {
    hide Sound, Inv, Linked, Progress, Good, FreeFor;
    LifecycleNeverGoesBack(c, p, states, events, id, i, j);
    RunKeepsInv(c, p, states, events, i);
    RunKeepsInv(c, p, states, events, j);
    InvAt(c, p, states[j], id);
    AcknowledgedStays(states[i].records[id], states[j].records[id]);
    AcknowledgedHoldsNothing(p, states[j].records[id]);
    CollectAfterAcknowledgement(c, p, states[j], events[j], states[j + 1], id);
  }

  lemma AcknowledgedStays(r: Record, r': Record)
    requires Progress(r, r') && r.collection == ACKNOWLEDGED
    ensures r'.collection == ACKNOWLEDGED
  {
  }

  lemma AcknowledgedHoldsNothing(p: Primitives, r: Record)
    requires Good(p, r) && r.collection == ACKNOWLEDGED
    ensures r.result.None? && r.manifest.None? && r.evidence == map[] && r.terminalAt.Some?
  {
    hide Unwrap, OwnCredentialsDistinct, EvidenceBounded, UnwrapResult, ReferencesValid, BuildManifest;
    assert r.state == RESULT_COMMITTED;
    if EvidenceSlots(p, r).Some? {
      assert EvidenceSlots(p, r).value.Keys == r.evidence.Keys;
    }
  }

  lemma CollectAfterAcknowledgement(c: Config, p: Primitives, s: Installation, e: Event, s': Installation, id: Uuid)
    requires Linked(c, p, s, e, s') && id in s.records && s.records[id].collection == ACKNOWLEDGED
    requires e.request.op.Collect? && e.request.op.mailboxId == id
    ensures !e.reply.Bundle? && !e.reply.Fault?
  {
    hide Apply, ValidatedMaterial, BundleFits;
  }
}

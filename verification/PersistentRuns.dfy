/** Whole runs of the durable adapter: any number of handles on one database, opened, used and
    closed in any order, with contention, failed commits and lost replies. */
module PersistentRuns {
  import opened Identifiers
  import opened MailboxDomain
  import opened MailboxCrypto
  import opened MailboxMachine
  import opened MailboxInvariant
  import opened MailboxRuns
  import opened MailboxDelivery
  import opened PersistentCodec
  import opened PersistentRepository

  /** The shared row, and for every open handle whether it is poisoned. */
  datatype System = System(frame: Option<Frame>, handles: map<nat, bool>)

  datatype Act =
    | Opens(handle: nat, io: Io)
    | Calls(handle: nat, request: Request, io: Io)
    | Closes(handle: nat)

  /** One handle does one thing. `reply` is what the caller of an operation is told. */
  ghost predicate Acts(v: Vault, y: System, act: Act, reply: Reply, y': System) {
    match act
    case Opens(h, io) =>
      var t := OpenStep(v, y.frame, io);
      && h !in y.handles
      && y' == System(t.frame, if t.live then y.handles[h := false] else y.handles)
    case Calls(h, q, io) =>
      && h in y.handles
      && var t := HandleStep(v, y.frame, y.handles[h], q, io);
         y' == System(t.frame, y.handles[h := t.poisoned]) && reply == t.reply
    case Closes(h) =>
      h in y.handles && y' == y.(handles := y.handles - {h})
  }

  ghost predicate History(v: Vault, systems: seq<System>, acts: seq<Act>, replies: seq<Reply>) {
    && |systems| == |acts| + 1 && |replies| == |acts|
    && forall i | 0 <= i < |acts| :: Acts(v, systems[i], acts[i], replies[i], systems[i + 1])
  }

  /** What a row stands for: nothing yet, or a state it was written for. */
  ghost predicate Stands(v: Vault, frame: Option<Frame>, s: Installation) {
    && Inv(v.c, v.p, s)
    && match frame
       case None => s == EMPTY_INSTALLATION
       case Some(f) => WritableFrame(v, f, s)
  }

  /** Opening and closing look like a refused call to the mailbox machine. */
  function EventOf(act: Act, reply: Reply): Event {
    if act.Calls? then Event(act.request, reply)
    else Event(Request(Expire(seq(32, _ => 0)), None, {}), Denied(CONTENDED))
  }

  function EventsOf(acts: seq<Act>, replies: seq<Reply>): (events: seq<Event>)
    requires |acts| == |replies|
    ensures |events| == |acts| && forall i | 0 <= i < |acts| :: events[i] == EventOf(acts[i], replies[i])
  {
    seq(|acts|, i requires 0 <= i < |acts| => EventOf(acts[i], replies[i]))
  }

  lemma RefinesIsLinked(v: Vault, s: Installation, f: Frame, q: Request, s': Installation, t: Transition)
    requires Refines(v, s, f, q, s', t)
    ensures Linked(v.c, v.p, s, Event(q, t.reply), s')
    ensures t.frame.Some? && WritableFrame(v, t.frame.value, s')
  {
    hide Step, WritableFrame;
  }

  lemma AbsentRowRefuses(v: Vault, poisoned: bool, q: Request, io: Io)
    ensures HandleStep(v, None, poisoned, q, io).frame == None
    ensures Withheld(HandleStep(v, None, poisoned, q, io).reply)
  {
    hide Load, Write, Step, Serialized, TotalsOf;
  }

  /** Each act is one step of the mailbox machine on what the row stands for. */
  lemma ActIsLinked(v: Vault, y: System, act: Act, reply: Reply, y': System, s: Installation) returns (s': Installation)
    requires VaultSound(v) && Stands(v, y.frame, s) && Acts(v, y, act, reply, y')
    ensures Stands(v, y'.frame, s') && Linked(v.c, v.p, s, EventOf(act, reply), s')
  {
    hide VaultSound, Inv, WritableFrame, Refines, HandleStep, OpenStep, Step;
    match act
    case Opens(h, io) =>
      s' := s;
      OpenRefines(v, y.frame, io);
    case Calls(h, q, io) =>
      if y.frame.None? {
        s' := s;
        AbsentRowRefuses(v, y.handles[h], q, io);
      } else {
        s' := TransitionRefines(v, s, y.frame.value, y.handles[h], q, io);
        RefinesIsLinked(v, s, y.frame.value, q, s', HandleStep(v, y.frame, y.handles[h], q, io));
      }
    case Closes(h) =>
      s' := s;
  }

  /** The durable store refines the volatile machine: whatever its handles do, the rows stand for
      the states of a run of the machine, with the very replies the callers saw. */
  lemma {:induction false} HistoryRefinesRun(v: Vault, systems: seq<System>, acts: seq<Act>, replies: seq<Reply>, start: Installation)
    returns (states: seq<Installation>)
    requires VaultSound(v) && History(v, systems, acts, replies) && Stands(v, systems[0].frame, start)
    ensures |states| == |systems| && states[0] == start
    ensures Run(v.c, v.p, states, EventsOf(acts, replies))
    ensures forall i | 0 <= i < |systems| :: Stands(v, systems[i].frame, states[i])
    decreases |acts|
  {
    hide VaultSound, Stands, Acts, Linked;
    if acts == [] {
      states := [start];
    } else {
      var n := |acts| - 1;
      assert systems[..n + 1][0] == systems[0];
      var before := HistoryRefinesRun(v, systems[..n + 1], acts[..n], replies[..n], start);
      assert systems[..n + 1][n] == systems[n];
      var last := ActIsLinked(v, systems[n], acts[n], replies[n], systems[n + 1], before[n]);
      states := before + [last];
      forall i | 0 <= i < |acts| ensures Linked(v.c, v.p, states[i], EventsOf(acts, replies)[i], states[i + 1]) {
        if i < n {
          assert Linked(v.c, v.p, before[i], EventsOf(acts[..n], replies[..n])[i], before[i + 1]);
        }
      }
      forall i | 0 <= i < |systems| ensures Stands(v, systems[i].frame, states[i]) {
        if i <= n {
          assert Stands(v, systems[..n + 1][i].frame, before[i]);
        }
      }
    }
  }

  // --- Guarantees of the mailbox machine, at the level of handles ------------

  lemma StartInv(v: Vault, frame: Option<Frame>, s: Installation)
    requires VaultSound(v) && Stands(v, frame, s)
    ensures Sound(v.p) && Inv(v.c, v.p, s)
  {
    hide Inv, Sound, WritableFrame;
  }

  /** The states that the rows of a history stand for, one after the other. */
  ghost predicate Reading(v: Vault, systems: seq<System>, states: seq<Installation>) {
    |states| == |systems| && forall k | 0 <= k < |systems| :: Stands(v, systems[k].frame, states[k])
  }

  /** However many handles race, fail and restart, at most one claim is delivered per incarnation:
      between two claims of one identifier the rows stand for states without its record, and the
      record claimed second was created at least both retention periods after the first claim. */
  lemma DurableClaimsFarApart(v: Vault, systems: seq<System>, acts: seq<Act>, replies: seq<Reply>, start: Installation, i: nat, j: nat)
    returns (states: seq<Installation>)
    requires VaultSound(v) && History(v, systems, acts, replies) && Stands(v, systems[0].frame, start)
    requires i < j < |acts| && acts[i].Calls? && acts[j].Calls?
    requires replies[i].Claimed? && replies[j].Claimed?
    requires replies[i].binding.mailboxId == replies[j].binding.mailboxId
    ensures acts[i].request.clock.Some? && acts[j].request.clock.Some?
    ensures acts[j].request.clock.value >= acts[i].request.clock.value + Retention(v.c)
    ensures Reading(v, systems, states)
    ensures var id := replies[i].binding.mailboxId;
            && (exists m :: i + 1 < m < j && id !in states[m].records)
            && id in states[j].records && states[j].records[id].createdAt >= acts[i].request.clock.value + Retention(v.c)
  {
    hide VaultSound, Sound, Inv, Run, Stands, Acts;
    states := HistoryRefinesRun(v, systems, acts, replies, start);
    StartInv(v, systems[0].frame, start);
    var events := EventsOf(acts, replies);
    assert events[i] == EventOf(acts[i], replies[i]) && events[j] == EventOf(acts[j], replies[j]);
    ClaimsAreFarApart(v.c, v.p, states, events, i, j);
  }

  /** A commit that was answered, or crashed right after, has moved its mailbox. */
  lemma CommitReply(c: Config, p: Primitives, s: Installation, op: Op, clock: Option<Instant>, crashes: set<CrashPoint>)
    requires op.Commit?
    requires var d := DecideCommit(c, p, s, op.binding, op.resultDigest, op.resultJson, op.seals, op.nonce, clock, crashes);
             (d.reply.Snapshot? || d.reply == Crashed(AFTER_RESULT_COMMIT)) && WellKeyed(c, s)
    ensures var d, id := DecideCommit(c, p, s, op.binding, op.resultDigest, op.resultJson, op.seals, op.nonce, clock, crashes), op.binding.mailboxId;
            && clock.Some? && id in s.records && s.records[id].state == CLAIMED_ONCE && !DueNow(s.records[id], clock.value)
            && d.effect == Movement(id, Committing(op.resultJson, op.nonce), clock.value)
  {
    hide ValidatedMaterial, ReferencesValid, SumOver, EvidenceBytes, SealsMatch, SealIds, Moved, ViewOf, DueNow;
  }

  lemma CommitReplyIsACommit(c: Config, p: Primitives, s: Installation, e: Event, s': Installation)
    requires Inv(c, p, s) && Linked(c, p, s, e, s') && e.request.op.Commit?
    requires e.reply.Snapshot? || e.reply == Crashed(AFTER_RESULT_COMMIT)
    ensures var id := e.request.op.binding.mailboxId;
            CommitsAt(s, s', id) && e.request.clock.Some? && s'.records[id].lastSeen == e.request.clock.value
            && e.request.clock.value < s.records[id].binding.deadline
  {
    hide Inv, WellKeyed, WrapResult, BuildManifest, DecideCommit;
    InvQuota(c, p, s);
    KeyOfCommitted(c, p, s, e.request.op.binding.mailboxId);
    CommitReply(c, p, s, e.request.op, e.request.clock, e.request.crashes);
  }

  lemma KeyOfCommitted(c: Config, p: Primitives, s: Installation, id: Uuid)
    requires Inv(c, p, s)
    ensures id in s.records ==> s.records[id].binding.mailboxId == id
  {
    hide Inv;
    if id in s.records {
      KeyOf(c, p, s, id);
    }
  }

  /** A row stands for one state only. */
  lemma StandsForOne(v: Vault, frame: Option<Frame>, s: Installation, s': Installation)
    requires VaultSound(v) && Stands(v, frame, s) && Stands(v, frame, s')
    ensures s == s'
  {
    hide Inv, Sound, Serialized, TotalsOf, FrameAad;
    if frame.Some? {
      var f := frame.value;
      var aad := FrameAad(v, f.generation);
      var t, t' := Serialized(v, s, TotalsOf(s.records)), Serialized(v, s', TotalsOf(s'.records));
      assert v.openFrame(f.nonce, v.sealFrame(f.nonce, t, aad), aad) == Some(t);
      assert v.openFrame(f.nonce, v.sealFrame(f.nonce, t', aad), aad) == Some(t');
      SerializedInjective(v, s, s');
    }
  }

  /** Whatever the rows stand for is a run of the machine. */
  lemma ReadingIsRun(v: Vault, systems: seq<System>, acts: seq<Act>, replies: seq<Reply>, states: seq<Installation>)
    requires VaultSound(v) && History(v, systems, acts, replies) && Reading(v, systems, states)
    ensures Run(v.c, v.p, states, EventsOf(acts, replies))
    ensures Sound(v.p) && Inv(v.c, v.p, states[0])
  {
    hide VaultSound, Sound, Inv, Run, Stands, Acts;
    var run := HistoryRefinesRun(v, systems, acts, replies, states[0]);
    StartInv(v, systems[0].frame, states[0]);
    forall k | 0 <= k < |systems| ensures run[k] == states[k] {
      StandsForOne(v, systems[k].frame, run[k], states[k]);
    }
    assert run == states;
  }

  /** At most one result is committed per incarnation, whatever the committing callers were told:
      once the row shows a result committed, or the mailbox expired or abandoned, a later commit
      under the identifier belongs to a record created at least both retention periods later. */
  lemma DurableCommitsFarApart(v: Vault, systems: seq<System>, acts: seq<Act>, replies: seq<Reply>, states: seq<Installation>, id: Uuid, i: nat, j: nat)
    requires VaultSound(v) && History(v, systems, acts, replies) && Reading(v, systems, states)
    requires i < j < |acts| && CommitsAt(states[j], states[j + 1], id)
    requires CommitsAt(states[i], states[i + 1], id) || (Crosses(states[i], states[i + 1], id, 3) && states[i + 1].records[id].state in {EXPIRED, ABANDONED})
    ensures exists m :: i + 1 < m < j && id !in states[m].records
    ensures states[j].records[id].createdAt >= states[i + 1].records[id].lastSeen + Retention(v.c)
    ensures states[j + 1].records[id].lastSeen >= states[i + 1].records[id].lastSeen + Retention(v.c)
  {
    hide VaultSound, Sound, Inv, Run, Stands, Acts;
    ReadingIsRun(v, systems, acts, replies, states);
    CommitsAreFarApart(v.c, v.p, states, EventsOf(acts, replies), id, i, j);
  }

  /** In particular, two commits that were answered, or crashed right after, are in two incarnations. */
  lemma AnsweredCommitsFarApart(v: Vault, systems: seq<System>, acts: seq<Act>, replies: seq<Reply>, start: Installation, i: nat, j: nat)
    returns (states: seq<Installation>)
    requires VaultSound(v) && History(v, systems, acts, replies) && Stands(v, systems[0].frame, start)
    requires i < j < |acts| && acts[i].Calls? && acts[j].Calls?
    requires acts[i].request.op.Commit? && acts[j].request.op.Commit?
    requires acts[i].request.op.binding.mailboxId == acts[j].request.op.binding.mailboxId
    requires replies[i].Snapshot? || replies[i] == Crashed(AFTER_RESULT_COMMIT)
    requires replies[j].Snapshot? || replies[j] == Crashed(AFTER_RESULT_COMMIT)
    ensures acts[i].request.clock.Some? && acts[j].request.clock.Some?
    ensures acts[j].request.clock.value >= acts[i].request.clock.value + Retention(v.c)
    ensures Reading(v, systems, states)
    ensures var id := acts[i].request.op.binding.mailboxId;
            && (exists m :: i + 1 < m < j && id !in states[m].records)
            && id in states[j].records && states[j].records[id].createdAt >= acts[i].request.clock.value + Retention(v.c)
  {
    hide VaultSound, Sound, Inv, Stands, Acts, Linked;
    states := HistoryRefinesRun(v, systems, acts, replies, start);
    StartInv(v, systems[0].frame, start);
    var events := EventsOf(acts, replies);
    RunKeepsInv(v.c, v.p, states, events, i);
    RunKeepsInv(v.c, v.p, states, events, j);
    CommitReplyIsACommit(v.c, v.p, states[i], events[i], states[i + 1]);
    CommitReplyIsACommit(v.c, v.p, states[j], events[j], states[j + 1]);
    CommitsAreFarApart(v.c, v.p, states, events, acts[i].request.op.binding.mailboxId, i, j);
  }

  /** Once a row knows an identifier, a creation under it takes effect or is answered with anything
      but a denial only after some handle collected garbage at or after its tombstone's expiry. */
  lemma DurableCreationsAreRefused(v: Vault, systems: seq<System>, acts: seq<Act>, replies: seq<Reply>, states: seq<Installation>, id: Uuid, i: nat, j: nat)
    returns (m: nat)
    requires VaultSound(v) && History(v, systems, acts, replies) && Reading(v, systems, states)
    requires i <= j < |acts| && Known(states[i], id)
    requires acts[j].Calls? && acts[j].request.op.Create? && acts[j].request.op.binding.mailboxId == id
    requires states[j + 1] != states[j] || !replies[j].Denied?
    ensures i <= m < j && acts[m].Calls? && acts[m].request.op.GarbageCollect? && acts[m].request.clock.Some?
    ensures id in states[m].tombstones && states[m].tombstones[id].expiresAt <= acts[m].request.clock.value && !Known(states[m + 1], id)
  {
    hide VaultSound, Sound, Inv, Run, Stands, Acts, Known;
    ReadingIsRun(v, systems, acts, replies, states);
    var events := EventsOf(acts, replies);
    assert events[j] == EventOf(acts[j], replies[j]);
    m := CreationsAreRefusedUntilForgotten(v.c, v.p, states, events, id, i, j);
    assert events[m] == EventOf(acts[m], replies[m]);
  }

  // --- Healthy calls are answered ---------------------------------------------

  /** A call at `k` meets no obstacle: its handle is not poisoned, the database is free and commits,
      the row loads, and the state of the step can be saved if it is a new one. */
  ghost predicate Healthy(v: Vault, y: System, act: Act, s: Installation) {
    && act.Calls? && act.handle in y.handles && !y.handles[act.handle]
    && act.io.begin.Began? && act.io.ending.Durable?
    && y.frame.Some? && AllFit(v.c.limits, s)
    && !Step(v.c, v.p, s, act.request).reply.Fault?
    && (Step(v.c, v.p, s, act.request).after == s || Saveable(v, y.frame.value.generation + 1, Step(v.c, v.p, s, act.request).after))
  }

  /** In any history a healthy call gets exactly the reply of the machine's step on what the row
      stands for, the row then stands for the state of that step, and the handle is poisoned only if
      that reply is itself uncertain. */
  lemma HealthyCallsAreAnswered(v: Vault, systems: seq<System>, acts: seq<Act>, replies: seq<Reply>, states: seq<Installation>, k: nat)
    requires VaultSound(v) && History(v, systems, acts, replies) && Reading(v, systems, states)
    requires k < |acts| && Healthy(v, systems[k], acts[k], states[k])
    ensures replies[k] == Step(v.c, v.p, states[k], acts[k].request).reply
    ensures states[k + 1] == Step(v.c, v.p, states[k], acts[k].request).after
    ensures acts[k].handle in systems[k + 1].handles
    ensures systems[k + 1].handles[acts[k].handle] <==> replies[k] == Denied(INTERNAL_UNCERTAINTY)
  {
    hide VaultSound, Sound, Inv, WritableFrame, HandleStep, OpenStep, Step, AllFit, Saveable;
    var y, act, s := systems[k], acts[k], states[k];
    assert Acts(v, y, act, replies[k], systems[k + 1]);
    assert Stands(v, y.frame, s) && Stands(v, systems[k + 1].frame, states[k + 1]);
    HealthyTransitionAnswers(v, s, y.frame.value, act.request, act.io);
    StartInv(v, y.frame, s);
    StepKeepsInv(v.c, v.p, s, act.request);
    StandsForOne(v, systems[k + 1].frame, states[k + 1], Step(v.c, v.p, s, act.request).after);
  }

  // --- Delivery over any handles ----------------------------------------------

  /** Across handles, failures and restarts: once an acknowledgement was answered, no call returns the data
      of that mailbox again while its record stands. */
  lemma DurableAcknowledgedForGood(v: Vault, systems: seq<System>, acts: seq<Act>, replies: seq<Reply>, states: seq<Installation>,
                                   id: Uuid, i: nat, j: nat)
    requires VaultSound(v) && History(v, systems, acts, replies) && Reading(v, systems, states)
    requires i < j < |acts| && acts[i].Calls? && acts[j].Calls?
    requires acts[i].request.op.Acknowledge? && acts[i].request.op.mailboxId == id && (replies[i].Snapshot? || replies[i] == Crashed(AFTER_COLLECTION_ACK))
    requires forall k | i < k <= j :: id in states[k].records
    ensures var r := states[j].records[id]; r.result.None? && r.manifest.None? && r.evidence == map[] && r.terminalAt.Some?
    ensures acts[j].request.op.Collect? && acts[j].request.op.mailboxId == id ==> !replies[j].Bundle? && !replies[j].Fault?
  {
    hide VaultSound, Sound, Inv, Run, Stands, Acts;
    ReadingIsRun(v, systems, acts, replies, states);
    var events := EventsOf(acts, replies);
    assert events[i] == EventOf(acts[i], replies[i]) && events[j] == EventOf(acts[j], replies[j]);
    AcknowledgedForGood(v.c, v.p, states, events, id, i, j);
  }

  /** Across handles, failures and restarts: evidence whose staging was answered is in every bundle that is
      delivered later while its record stands, as it was staged. */
  lemma DurableStagedComesBack(v: Vault, systems: seq<System>, acts: seq<Act>, replies: seq<Reply>, states: seq<Installation>,
                               id: Uuid, u: EvidenceUpload, i: nat, j: nat)
    requires VaultSound(v) && History(v, systems, acts, replies) && Reading(v, systems, states)
    requires i < j < |acts| && acts[i].Calls? && acts[j].Calls?
    requires acts[i].request.op.Stage? && acts[i].request.op.binding.mailboxId == id && acts[i].request.op.upload == u
    requires replies[i].Snapshot? || replies[i] == Crashed(AFTER_EVIDENCE_COMMIT)
    requires forall k | i < k <= j :: id in states[k].records
    requires acts[j].request.op.Collect? && acts[j].request.op.mailboxId == id && replies[j].Bundle?
    ensures u.objectId in replies[j].evidence && replies[j].evidence[u.objectId] == u
  {
    hide VaultSound, Sound, Inv, Run, Stands, Acts;
    ReadingIsRun(v, systems, acts, replies, states);
    var events := EventsOf(acts, replies);
    assert events[i] == EventOf(acts[i], replies[i]) && events[j] == EventOf(acts[j], replies[j]);
    StagedComesBack(v.c, v.p, states, events, id, u, i, j);
  }

  // --- Generations and poisoned handles --------------------------------------

  /** How many of the first `n` acts changed the row. */
  ghost function Changes(systems: seq<System>, i: nat, j: nat): nat
    requires i <= j < |systems|
    decreases j - i
  {
    if i == j then 0 else Changes(systems, i, j - 1) + (if systems[j].frame != systems[j - 1].frame then 1 else 0)
  }

  lemma ActKeepsGeneration(v: Vault, y: System, act: Act, reply: Reply, y': System)
    requires Acts(v, y, act, reply, y') && y.frame.Some?
    ensures y'.frame.Some?
    ensures y'.frame.value.generation == y.frame.value.generation + (if y'.frame != y.frame then 1 else 0)
  {
    hide HandleStep, OpenStep;
    if act.Calls? {
      RefusalsKeepTheFrame(v, y.frame, y.handles[act.handle], act.request, act.io);
      RowIsKept(v, y.frame, y.handles[act.handle], act.request, act.io);
    } else if act.Opens? {
      OpenRefines(v, y.frame, act.io);
    }
  }

  lemma RowIsKept(v: Vault, frame: Option<Frame>, poisoned: bool, q: Request, io: Io)
    requires frame.Some?
    ensures HandleStep(v, frame, poisoned, q, io).frame.Some?
  {
    hide Load, Write, Step, Serialized, TotalsOf;
  }

  /** The generation counts the changes of the row, whoever made them. */
  lemma {:induction false} GenerationCountsChanges(v: Vault, systems: seq<System>, acts: seq<Act>, replies: seq<Reply>, i: nat, j: nat)
    requires History(v, systems, acts, replies) && i <= j < |systems| && systems[i].frame.Some?
    ensures systems[j].frame.Some?
    ensures systems[j].frame.value.generation == systems[i].frame.value.generation + Changes(systems, i, j)
  {
    hide Acts;
    if i < j {
      GenerationCountsChanges(v, systems, acts, replies, i, j - 1);
      ActKeepsGeneration(v, systems[j - 1], acts[j - 1], replies[j - 1], systems[j]);
    }
  }

  /** A handle once poisoned is never used again: until it is closed every one of its calls is
      answered INTERNAL_UNCERTAINTY and leaves the row alone. */
  lemma {:induction false} PoisonedForGood(v: Vault, systems: seq<System>, acts: seq<Act>, replies: seq<Reply>, h: nat, i: nat, j: nat)
    requires History(v, systems, acts, replies) && i <= j < |systems|
    requires h in systems[i].handles && systems[i].handles[h]
    requires forall k | i <= k < j :: acts[k] != Closes(h)
    ensures h in systems[j].handles && systems[j].handles[h]
    ensures j < |acts| && acts[j].Calls? && acts[j].handle == h ==>
              replies[j] == Denied(INTERNAL_UNCERTAINTY) && systems[j + 1].frame == systems[j].frame
  {
    hide HandleStep, OpenStep;
    if i < j {
      PoisonedForGood(v, systems, acts, replies, h, i, j - 1);
      assert Acts(v, systems[j - 1], acts[j - 1], replies[j - 1], systems[j]);
      if acts[j - 1].Calls? && acts[j - 1].handle == h {
        PoisonedExactlyWhenUncertain(v, systems[j - 1].frame, true, acts[j - 1].request, acts[j - 1].io);
      }
    }
    if j < |acts| && acts[j].Calls? && acts[j].handle == h {
      assert Acts(v, systems[j], acts[j], replies[j], systems[j + 1]);
      PoisonedExactlyWhenUncertain(v, systems[j].frame, true, acts[j].request, acts[j].io);
    }
  }

  // --- The store stays usable ------------------------------------------------

  lemma EmptyFits(l: MailboxLimits)
    ensures AllFit(l, EMPTY_INSTALLATION)
  {
  }

  lemma LinkKeepsFit(c: Config, p: Primitives, s: Installation, e: Event, s': Installation)
    requires Sound(p) && Inv(c, p, s) && Linked(c, p, s, e, s') && AllFit(c.limits, s) && WellSized(e.request.op)
    ensures AllFit(c.limits, s')
  {
    hide Sound, Inv, Step, AllFit, WellSized, EffectSized, Withheld;
    StepKeepsFitExactly(c, p, s, e.request);
  }

  lemma {:induction false} RunKeepsFit(c: Config, p: Primitives, states: seq<Installation>, events: seq<Event>, i: nat)
    requires Sound(p) && Run(c, p, states, events) && Inv(c, p, states[0]) && AllFit(c.limits, states[0])
    requires forall k | 0 <= k < |events| :: WellSized(events[k].request.op)
    requires i < |states|
    ensures AllFit(c.limits, states[i])
  {
    hide Sound, Inv, Linked, AllFit, WellSized;
    if i > 0 {
      RunKeepsFit(c, p, states, events, i - 1);
      RunKeepsInv(c, p, states, events, i - 1);
      LinkKeepsFit(c, p, states[i - 1], events[i - 1], states[i]);
    }
  }

  /** As long as every caller keeps to the byte bounds, whatever the handles do and however their
      commits end, the row can always be loaded again, and loads to the state it stands for. */
  lemma StoreStaysLoadable(v: Vault, systems: seq<System>, acts: seq<Act>, replies: seq<Reply>, i: nat) returns (s: Installation)
    requires VaultSound(v) && History(v, systems, acts, replies) && systems[0].frame == None
    requires forall k | 0 <= k < |acts| && acts[k].Calls? :: WellSized(acts[k].request.op)
    requires i < |systems|
    ensures Stands(v, systems[i].frame, s)
    ensures systems[i].frame.Some? ==>
              Load(v, systems[i].frame.value) == Some(Loaded(systems[i].frame.value.generation, Saved(s, TotalsOf(s.records))))
  {
    hide VaultSound, Sound, Inv, Acts, Linked, AllFit, WritableFrame, Load, TotalsOf;
    EmptyInv(v.c, v.p);
    var states := HistoryRefinesRun(v, systems, acts, replies, EMPTY_INSTALLATION);
    StartInv(v, systems[0].frame, EMPTY_INSTALLATION);
    EmptyFits(v.c.limits);
    RunKeepsFit(v.c, v.p, states, EventsOf(acts, replies), i);
    s := states[i];
    if systems[i].frame.Some? {
      LoadStanding(v, systems[i].frame.value, s);
    }
  }

  lemma LoadStanding(v: Vault, f: Frame, s: Installation)
    requires VaultSound(v) && Inv(v.c, v.p, s) && WritableFrame(v, f, s) && AllFit(v.c.limits, s)
    ensures Load(v, f) == Some(Loaded(f.generation, Saved(s, TotalsOf(s.records))))
  {
    hide VaultSound, Inv, AllFit, WritableFrame, Load, TotalsOf;
    GenerationOf(v, f, s);
    LoadWrittenExactly(v, f, s);
  }
}

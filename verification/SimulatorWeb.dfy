/** One delivery of the web simulator: reserve in the engine and in the mail capture, render,
    commit both together, write. Every point at which an exception can surface is a choice. */
module SimulatorWeb {
  import opened Identifiers
  import opened SimulatorProtocol
  import opened SimulatorEngine
  import opened SimulatorMail

  // --- The joint commit -------------------------------------------------------

  /** Places inside the joint commit where an exception can surface: before each of its eight
      actions, and after the last one. */
  type Point = n: nat | n <= 8

  predicate BothLive(e: EngineState, m: MailState, plan: Plan, mail: Option<MailReservation>) {
    Live(e, plan) && (mail.Some? ==> Holds(m, mail.value))
  }

  function MailAfterUndo(m: MailState, mail: Option<MailReservation>): MailState {
    if mail.Some? then MailCancelled(m, mail.value) else m
  }

  function MailAfterCommit(m: MailState, mail: Option<MailReservation>): MailState {
    if mail.Some? then MailCommitted(m, mail.value) else m
  }

  /** The joint commit succeeds exactly when nothing fails inside it and both reservations are live. */
  predicate Succeeds(e: EngineState, m: MailState, plan: Plan, mail: Option<MailReservation>, failAt: Option<Point>) {
    failAt.None? && BothLive(e, m, plan, mail)
  }

  function EngineAfter(e: EngineState, plan: Plan, ok: bool): EngineState
    requires ok ==> Live(e, plan)
  {
    if ok then Committed(e, plan) else Cancelled(e, plan)
  }

  function MailAfter(m: MailState, mail: Option<MailReservation>, ok: bool): MailState {
    if ok then MailAfterCommit(m, mail) else MailAfterUndo(m, mail)
  }

  // --- A whole delivery -------------------------------------------------------

  /** What rendering the reserved result does; `KILLED` is an exception that is not caught there,
      before or after the mail reservation. */
  datatype Rendering = RENDERS | TOO_LARGE | BAD_TEXT | RAISES | KILLED_BEFORE_MAIL | KILLED

  datatype Faults = Faults(rendering: Rendering, wireRaises: bool, failAt: Option<Point>, writerRaises: bool)

  datatype Delivery =
    | Responded(statusCode: int)
    | Raised
    | UnknownDelivery

  datatype Delivered = Delivered(engine: EngineState, mail: MailState, outcome: Delivery, committed: bool, wrote: bool)

  function StatusFor(why: Refusal): int {
    match why
    case BAD_VALUE => 400
    case RESOURCE_LIMIT => 429
    case _ => 409
  }

  /** What preparing leaves: a response that can be delivered, with or without reservations. */
  datatype Preparation = Preparation(engine: EngineState, mail: MailState, statusCode: int,
                                     plan: Option<Plan>, reservation: Option<MailReservation>, killed: bool)

  /** The result is rendered under both reservations; a caught failure gives them up. */
  function Rendered(e: EngineState, m: MailState, plan: Plan, mail: Option<MailReservation>, rendering: Rendering): Preparation
    requires Live(e, plan)
  {
    match rendering
    case RENDERS => Preparation(e, m, plan.result.statusCode, Some(plan), mail, false)
    case TOO_LARGE => Preparation(Cancelled(e, plan), MailAfterUndo(m, mail), 429, None, None, false)
    case BAD_TEXT => Preparation(Cancelled(e, plan), MailAfterUndo(m, mail), 400, None, None, false)
    case RAISES => Preparation(Cancelled(e, plan), MailAfterUndo(m, mail), 500, None, None, false)
    case _ => Preparation(e, m, 500, Some(plan), mail, true)
  }

  function PrepareDelivery(catalog: Catalog, e: EngineState, m: MailState, now: nat, q: Ask, rendering: Rendering): Preparation {
    match Prepare(catalog, e, q, now)
    case Refused(why) => Preparation(e, m, StatusFor(why), None, None, false)
    case Reserved(held, plan) =>
      if rendering == KILLED_BEFORE_MAIL || plan.result.mail.None? then Rendered(held, m, plan, None, rendering)
      else if Full(m) then Preparation(Cancelled(held, plan), m, 429, None, None, false)
      else Rendered(held, MailReserved(m, plan.result.mail.value), plan, Some(NextReservation(m, plan.result.mail.value)), rendering)
  }

  /** From the prepared response to the writer. */
  function Deliver(catalog: Catalog, e: EngineState, m: MailState, now: nat, q: Ask, faults: Faults): Delivered {
    var d := PrepareDelivery(catalog, e, m, now, q, faults.rendering);
    var answer := if faults.writerRaises then UnknownDelivery else Responded(d.statusCode);
    if d.killed then Delivered(d.engine, d.mail, Raised, false, false)
    else if d.plan.None? then
      if faults.wireRaises then Delivered(d.engine, d.mail, Raised, false, false)
      else Delivered(d.engine, d.mail, answer, false, true)
    else if faults.wireRaises then
      Delivered(Cancelled(d.engine, d.plan.value), MailAfterUndo(d.mail, d.reservation), Raised, false, false)
    else
      var ok := Succeeds(d.engine, d.mail, d.plan.value, d.reservation, faults.failAt);
      var e', m' := EngineAfter(d.engine, d.plan.value, ok), MailAfter(d.mail, d.reservation, ok);
      if ok then Delivered(e', m', answer, true, true) else Delivered(e', m', Raised, false, false)
  }

  class LocalWebSimulator {
    const engine: ScenarioEngine
    const mail: InMemoryMailCapture

    constructor (engine: ScenarioEngine, mail: InMemoryMailCapture)
      ensures this.engine == engine && this.mail == mail
    {
      this.engine, this.mail := engine, mail;
    }

    /** The body of the joint commit up to the exception, if there is one: what it has done so far,
        and the two snapshots it has taken so far. */
    method TryCommit(plan: Plan, reservation: Option<MailReservation>, failAt: Option<Point>)
      returns (ok: bool, engineSnapshot: Option<Option<Session>>, mailSnapshot: Option<nat>)
      modifies engine, mail
      ensures ok == Succeeds(old(engine.State()), old(mail.State()), plan, reservation, failAt)
      ensures ok ==> engine.State() == Committed(old(engine.State()), plan)
      ensures ok ==> mail.State() == MailAfterCommit(old(mail.State()), reservation)
      ensures engineSnapshot.Some? ==> engineSnapshot.value == old(engine.Snapshot(plan))
      ensures engineSnapshot.None? ==> engine.sessions == old(engine.sessions)
      ensures engine.sessions - {plan.sessionId} == old(engine.sessions) - {plan.sessionId}
      ensures engine.reservations == old(engine.reservations) || engine.reservations == old(engine.reservations) - {plan.token}
      ensures engine.reserved == old(engine.reserved) || engine.reserved == old(engine.reserved) - {plan.sessionId}
      ensures engine.nextToken == old(engine.nextToken) && mail.nextToken == old(mail.nextToken)
      ensures mailSnapshot.Some? ==> mailSnapshot.value == |old(mail.messages)|
      ensures old(mail.messages) <= mail.messages && (mail.messages == old(mail.messages) || mailSnapshot.Some?)
      ensures mail.reservations == old(mail.reservations) || (reservation.Some? && mail.reservations == old(mail.reservations) - {reservation.value.token})
    {
      ok, engineSnapshot, mailSnapshot := false, None, None;
      if failAt == Some(0) || !engine.Validates(plan) {
        return;
      }
      if failAt == Some(1) || (reservation.Some? && !mail.Validates(reservation.value)) {
        return;
      }
      if failAt == Some(2) {
        return;
      }
      engineSnapshot := Some(engine.Snapshot(plan));
      if failAt == Some(3) {
        return;
      }
      if reservation.Some? {
        mailSnapshot := Some(|mail.messages|);
      }
      if failAt == Some(4) {
        return;
      }
      engine.CommitReservation(plan);
      if failAt == Some(5) {
        return;
      }
      if reservation.Some? {
        mail.CommitReservation(reservation.value);
      }
      if failAt == Some(6) {
        return;
      }
      engine.CancelReservation(plan);
      if failAt == Some(7) {
        return;
      }
      if reservation.Some? {
        mail.CancelReservation(reservation.value);
      }
      if failAt == Some(8) {
        return;
      }
      ok := true;
    }

    /** The exception handler: puts back what was snapshotted and drops both reservations. */
    method Undo(plan: Plan, reservation: Option<MailReservation>, engineSnapshot: Option<Option<Session>>, mailSnapshot: Option<nat>)
      requires mailSnapshot.Some? ==> mailSnapshot.value <= |mail.messages|
      modifies engine, mail
      ensures engine.sessions == Restored(old(engine.sessions), plan.sessionId, engineSnapshot)
      ensures engine.reservations == old(engine.reservations) - {plan.token}
      ensures engine.reserved == old(engine.reserved) - {plan.sessionId}
      ensures engine.nextToken == old(engine.nextToken) && mail.nextToken == old(mail.nextToken)
      ensures mail.messages == if mailSnapshot.Some? then old(mail.messages)[..mailSnapshot.value] else old(mail.messages)
      ensures mail.reservations == if reservation.Some? then old(mail.reservations) - {reservation.value.token} else old(mail.reservations)
    {
      if engineSnapshot.Some? {
        engine.RestoreSnapshot(plan, engineSnapshot.value);
      }
      if mailSnapshot.Some? {
        mail.RestoreSnapshot(mailSnapshot.value);
      }
      engine.CancelReservation(plan);
      if reservation.Some? {
        mail.CancelReservation(reservation.value);
      }
    }

    /** All or nothing, wherever it fails: both stores move together, or both keep what they had
        and only the two reservations are gone. */
    method CommitInternal(plan: Plan, reservation: Option<MailReservation>, failAt: Option<Point>) returns (ok: bool)
      modifies engine, mail
      ensures ok == Succeeds(old(engine.State()), old(mail.State()), plan, reservation, failAt)
      ensures engine.State() == EngineAfter(old(engine.State()), plan, ok)
      ensures mail.State() == MailAfter(old(mail.State()), reservation, ok)
    {
      hide Succeeds;
      ghost var sessions, messages := engine.sessions, mail.messages;
      var engineSnapshot, mailSnapshot;
      ok, engineSnapshot, mailSnapshot := TryCommit(plan, reservation, failAt);
      if !ok {
        RestoringUndoes(sessions, engine.sessions, plan.sessionId, engineSnapshot);
        Undo(plan, reservation, engineSnapshot, mailSnapshot);
        assert mail.messages == messages;
      } else {
        SucceedsMeansLive(old(engine.State()), old(mail.State()), plan, reservation, failAt);
      }
    }

    /** Mail first; the engine's rollback runs whatever the mail's did. */
    method Cancel(plan: Plan, reservation: Option<MailReservation>)
      modifies engine, mail
      ensures engine.State() == if Live(old(engine.State()), plan) then Cancelled(old(engine.State()), plan) else old(engine.State())
      ensures mail.State() == if reservation.Some? && Holds(old(mail.State()), reservation.value) then MailCancelled(old(mail.State()), reservation.value) else old(mail.State())
    {
      if reservation.Some? {
        var rolledBack := mail.Rollback(reservation.value);
      }
      var rolledBack := engine.Rollback(plan);
    }

    method PrepareResponse(q: Ask, now: nat, rendering: Rendering)
      returns (killed: bool, statusCode: int, plan: Option<Plan>, reservation: Option<MailReservation>)
      modifies engine, mail
      ensures Preparation(engine.State(), mail.State(), statusCode, plan, reservation, killed) ==
              PrepareDelivery(engine.catalog, old(engine.State()), old(mail.State()), now, q, rendering)
    {
      hide Prepare, Cancelled;
      killed, statusCode, plan, reservation := false, 500, None, None;
      PreparedLive(engine.catalog, engine.State(), q, now);
      var reserving := engine.Reserve(q, now);
      if reserving.Refused? {
        statusCode := StatusFor(reserving.why);
        return;
      }
      plan := Some(reserving.plan);
      if rendering == KILLED_BEFORE_MAIL {
        return true, 500, plan, None;
      }
      if plan.value.result.mail.Some? {
        reservation := mail.Reserve(plan.value.result.mail.value);
        if reservation.None? {
          Cancel(plan.value, None);
          return false, 429, None, None;
        }
      }
      match rendering {
        case RENDERS =>
          statusCode := plan.value.result.statusCode;
        case TOO_LARGE =>
          Cancel(plan.value, reservation);
          return false, 429, None, None;
        case BAD_TEXT =>
          Cancel(plan.value, reservation);
          return false, 400, None, None;
        case RAISES =>
          Cancel(plan.value, reservation);
          return false, 500, None, None;
        case _ =>
          killed := true;
      }
    }

    method DeliverResponse(q: Ask, now: nat, faults: Faults) returns (outcome: Delivery, committed: bool, wrote: bool)
      modifies engine, mail
      ensures Delivered(engine.State(), mail.State(), outcome, committed, wrote) ==
              Deliver(engine.catalog, old(engine.State()), old(mail.State()), now, q, faults)
    {
      hide PrepareDelivery, Cancelled, EngineAfter, MailAfter, Succeeds, Live;
      outcome, committed, wrote := Raised, false, false;
      PreparationLive(engine.catalog, engine.State(), mail.State(), now, q, faults.rendering);
      var killed, statusCode, plan, reservation := PrepareResponse(q, now, faults.rendering);
      if killed {
        return;
      }
      if faults.wireRaises {
        if plan.Some? {
          Cancel(plan.value, reservation);
        }
        return;
      }
      if plan.Some? {
        var ok := CommitInternal(plan.value, reservation, faults.failAt);
        if !ok {
          return;
        }
        committed := true;
      }
      wrote := true;
      outcome := if faults.writerRaises then UnknownDelivery else Responded(statusCode);
    }
  }

  function Restored(sessions: map<string, Session>, id: string, snapshot: Option<Option<Session>>): map<string, Session> {
    match snapshot
    case None => sessions
    case Some(None) => sessions - {id}
    case Some(Some(s)) => sessions[id := s]
  }

  /** Restoring the snapshot of one session undoes any change to that session only. */
  lemma RestoringUndoes(before: map<string, Session>, after: map<string, Session>, id: string, snapshot: Option<Option<Session>>)
    requires after - {id} == before - {id}
    requires snapshot.None? ==> after == before
    requires snapshot.Some? ==> snapshot.value == if id in before then Some(before[id]) else None
    ensures Restored(after, id, snapshot) == before
  {
    forall k | k != id ensures k in after <==> k in before {
      assert k in after - {id} <==> k in before - {id};
    }
    forall k | k in before && k != id ensures after[k] == before[k] {
      assert (after - {id})[k] == (before - {id})[k];
    }
  }

  lemma SucceedsMeansLive(e: EngineState, m: MailState, plan: Plan, mail: Option<MailReservation>, failAt: Option<Point>)
    requires Succeeds(e, m, plan, mail, failAt)
    ensures Live(e, plan)
  {
  }

  lemma PreparedLive(catalog: Catalog, e: EngineState, q: Ask, now: nat)
    ensures Prepare(catalog, e, q, now).Reserved? ==> Live(Prepare(catalog, e, q, now).after, Prepare(catalog, e, q, now).plan)
  {
    hide WhyNot;
  }

  /** A prepared response that carries reservations carries live ones. */
  lemma PreparationLive(catalog: Catalog, e: EngineState, m: MailState, now: nat, q: Ask, rendering: Rendering)
    ensures var d := PrepareDelivery(catalog, e, m, now, q, rendering);
            d.plan.Some? ==> BothLive(d.engine, d.mail, d.plan.value, d.reservation)
  {
    hide Prepare, Cancelled, Live;
    PreparedLive(catalog, e, q, now);
  }

  /** Why a stale plan must never reach the joint commit: undoing it would take the session
      reservation away from the plan that holds it. */
  lemma StalePlanWouldSteal(e: EngineState, m: MailState, stale: Plan, other: Plan, failAt: Option<Point>)
    requires Live(e, other) && stale.token !in e.reservations && stale.sessionId == other.sessionId
    ensures !Succeeds(e, m, stale, None, failAt)
    ensures EngineAfter(e, stale, false).reservations == e.reservations && !Live(EngineAfter(e, stale, false), other)
  {
  }

  // --- All or nothing ---------------------------------------------------------

  lemma UndoneReservation(catalog: Catalog, e: EngineState, q: Ask, now: nat)
    requires Tokens(e) && Prepare(catalog, e, q, now).Reserved?
    ensures Cancelled(Prepare(catalog, e, q, now).after, Prepare(catalog, e, q, now).plan) == e.(nextToken := e.nextToken + 1)
  {
    FreshToken(e);
    hide Tokens;
    var held := Prepare(catalog, e, q, now);
    assert held.after.reservations - {held.plan.token} == e.reservations;
    assert held.after.reserved - {held.plan.sessionId} == e.reserved;
  }

  lemma UndoneMail(m: MailState, message: MailFixture)
    requires MailInv(m)
    ensures MailCancelled(MailReserved(m, message), NextReservation(m, message)) == m.(nextToken := m.nextToken + 1)
    ensures MailCommitted(MailReserved(m, message), NextReservation(m, message)) ==
            m.(messages := m.messages + [message], nextToken := m.nextToken + 1)
  {
    assert MailReserved(m, message).reservations - {m.nextToken} == m.reservations;
  }

  lemma CommittedReservation(catalog: Catalog, e: EngineState, q: Ask, now: nat)
    requires Tokens(e) && Prepare(catalog, e, q, now).Reserved?
    ensures var held := Prepare(catalog, e, q, now);
            Live(held.after, held.plan)
            && Committed(held.after, held.plan) ==
               e.(sessions := e.sessions[q.sessionId := held.after.reservations[held.plan.token].next], nextToken := e.nextToken + 1)
  {
    hide Tokens, WhyNot;
    UndoneReservation(catalog, e, q, now);
  }

  /** Which deliveries commit: the transition can be reserved, a mail it sends has room, it renders,
      goes on the wire, and nothing fails inside the joint commit. */
  predicate Commits(catalog: Catalog, e: EngineState, m: MailState, now: nat, q: Ask, faults: Faults) {
    && Prepare(catalog, e, q, now).Reserved?
    && (Prepare(catalog, e, q, now).plan.result.mail.Some? ==> !Full(m))
    && faults.rendering.RENDERS? && !faults.wireRaises && faults.failAt.None?
  }

  /** The messages a delivery adds when it commits. */
  function Sent(plan: Plan): seq<MailFixture> {
    if plan.result.mail.Some? then [plan.result.mail.value] else []
  }

  /** What is left of a preparation before its plan is committed or given up. */
  lemma PreparationHolds(catalog: Catalog, e: EngineState, m: MailState, now: nat, q: Ask, rendering: Rendering)
    requires Tokens(e) && MailInv(m)
    ensures var d := PrepareDelivery(catalog, e, m, now, q, rendering);
            if d.plan.Some? then
              && Prepare(catalog, e, q, now) == Reserved(d.engine, d.plan.value)
              && BothLive(d.engine, d.mail, d.plan.value, d.reservation)
              && (d.reservation.Some? ==> d.plan.value.result.mail.Some? && !Full(m)
                                          && d.reservation.value == NextReservation(m, d.plan.value.result.mail.value)
                                          && d.mail == MailReserved(m, d.plan.value.result.mail.value))
              && (d.reservation.None? ==> d.mail == m && (d.plan.value.result.mail.None? || d.killed))
            else
              && !d.killed
              && d.engine == e.(nextToken := d.engine.nextToken) && d.mail == m.(nextToken := d.mail.nextToken)
  {
    hide Tokens, MailInv, Prepare, Cancelled, MailCancelled, Live;
    PreparedLive(catalog, e, q, now);
    if Prepare(catalog, e, q, now).Reserved? {
      UndoneReservation(catalog, e, q, now);
      if Prepare(catalog, e, q, now).plan.result.mail.Some? {
        UndoneMail(m, Prepare(catalog, e, q, now).plan.result.mail.value);
      }
    }
  }

  /** A delivery commits exactly under `Commits`. Then the session takes its reserved step and the
      mail of that step is appended, together and before the writer runs; otherwise sessions and
      messages are as they were. */
  lemma DeliveryIsAllOrNothing(catalog: Catalog, e: EngineState, m: MailState, now: nat, q: Ask, faults: Faults)
    requires Tokens(e) && MailInv(m)
    ensures var d := Deliver(catalog, e, m, now, q, faults);
            && (d.committed <==> Commits(catalog, e, m, now, q, faults))
            && (d.committed ==>
                  var held := Prepare(catalog, e, q, now);
                  && d.wrote
                  && held.plan.token in held.after.reservations
                  && d.engine.sessions == e.sessions[q.sessionId := held.after.reservations[held.plan.token].next]
                  && d.mail.messages == m.messages + Sent(held.plan))
            && (!d.committed ==> d.engine.sessions == e.sessions && d.mail.messages == m.messages)
  {
    hide Tokens, MailInv, PrepareDelivery, Prepare, Cancelled, MailCancelled, Committed, MailCommitted, MailReserved, Live, Deliver;
    DeliveryEnds(catalog, e, m, now, q, faults);
    PreparationHolds(catalog, e, m, now, q, faults.rendering);
    PreparationRenders(catalog, e, m, now, q, faults.rendering);
    var d := PrepareDelivery(catalog, e, m, now, q, faults.rendering);
    if d.plan.Some? {
      UndoneReservation(catalog, e, q, now);
      CommittedReservation(catalog, e, q, now);
      PreparedSessions(catalog, e, q, now);
      if d.reservation.Some? {
        UndoneMail(m, d.plan.value.result.mail.value);
        ReservedMessages(m, d.plan.value.result.mail.value);
      }
    }
  }

  /** How a delivery ends, in terms of what it prepared. */
  lemma DeliveryEnds(catalog: Catalog, e: EngineState, m: MailState, now: nat, q: Ask, faults: Faults)
    ensures var d, r := PrepareDelivery(catalog, e, m, now, q, faults.rendering), Deliver(catalog, e, m, now, q, faults);
            && (r.committed <==> d.plan.Some? && !d.killed && !faults.wireRaises && Succeeds(d.engine, d.mail, d.plan.value, d.reservation, faults.failAt))
            && (if r.committed then
                  r.wrote && Live(d.engine, d.plan.value)
                  && r.engine == Committed(d.engine, d.plan.value) && r.mail == MailAfterCommit(d.mail, d.reservation)
                else if d.plan.Some? && !d.killed then
                  r.engine == Cancelled(d.engine, d.plan.value) && r.mail == MailAfterUndo(d.mail, d.reservation)
                else
                  r.engine == d.engine && r.mail == d.mail)
  {
    hide PrepareDelivery, Cancelled, MailCancelled, Committed, MailCommitted, Live;
  }

  lemma PreparedSessions(catalog: Catalog, e: EngineState, q: Ask, now: nat)
    requires Prepare(catalog, e, q, now).Reserved?
    ensures Prepare(catalog, e, q, now).after.sessions == e.sessions
    ensures Prepare(catalog, e, q, now).plan.token in Prepare(catalog, e, q, now).after.reservations
  {
    hide WhyNot;
  }

  lemma ReservedMessages(m: MailState, message: MailFixture)
    ensures MailReserved(m, message).messages == m.messages
  {
  }

  lemma PreparationRenders(catalog: Catalog, e: EngineState, m: MailState, now: nat, q: Ask, rendering: Rendering)
    ensures var d := PrepareDelivery(catalog, e, m, now, q, rendering);
            && ((d.plan.Some? && !d.killed) <==>
                  (rendering.RENDERS? && Prepare(catalog, e, q, now).Reserved? && (Prepare(catalog, e, q, now).plan.result.mail.Some? ==> !Full(m))))
            && (d.killed ==> rendering.KILLED? || rendering.KILLED_BEFORE_MAIL?)
  {
    hide Prepare, Cancelled, MailCancelled, Live;
  }

  lemma KilledExactly(catalog: Catalog, e: EngineState, m: MailState, now: nat, q: Ask, rendering: Rendering)
    ensures PrepareDelivery(catalog, e, m, now, q, rendering).killed <==>
            && Prepare(catalog, e, q, now).Reserved?
            && (rendering == KILLED_BEFORE_MAIL || (rendering == KILLED && (Prepare(catalog, e, q, now).plan.result.mail.None? || !Full(m))))
  {
    hide Prepare, Cancelled, MailCancelled, Live, Full;
  }

  /** Nothing stays reserved after a delivery, exactly unless an uncaught exception struck between
      reserving and rendering; then its reservations stay. */
  lemma DeliveryReleasesExactly(catalog: Catalog, e: EngineState, m: MailState, now: nat, q: Ask, faults: Faults)
    requires Tokens(e) && MailInv(m)
    ensures var d := Deliver(catalog, e, m, now, q, faults);
            d.engine.reservations == e.reservations && d.engine.reserved == e.reserved && d.mail.reservations == m.reservations
            <==> !(&& Prepare(catalog, e, q, now).Reserved?
                   && (faults.rendering == KILLED_BEFORE_MAIL
                       || (faults.rendering == KILLED && (Prepare(catalog, e, q, now).plan.result.mail.None? || !Full(m)))))
  {
    hide Tokens, MailInv, PrepareDelivery, Prepare, Cancelled, MailCancelled, Committed, MailCommitted, MailReserved, Live, Full, Deliver;
    DeliveryEnds(catalog, e, m, now, q, faults);
    PreparationHolds(catalog, e, m, now, q, faults.rendering);
    KilledExactly(catalog, e, m, now, q, faults.rendering);
    var d := PrepareDelivery(catalog, e, m, now, q, faults.rendering);
    if d.plan.Some? {
      UndoneReservation(catalog, e, q, now);
      CommittedReservation(catalog, e, q, now);
      ReservedIsNew(catalog, e, q, now);
      if d.reservation.Some? {
        UndoneMail(m, d.plan.value.result.mail.value);
      }
    }
  }

  lemma ReservedIsNew(catalog: Catalog, e: EngineState, q: Ask, now: nat)
    requires Tokens(e) && Prepare(catalog, e, q, now).Reserved?
    ensures Prepare(catalog, e, q, now).after.reservations != e.reservations
  {
    FreshToken(e);
    hide Tokens, WhyNot;
    assert e.nextToken in Prepare(catalog, e, q, now).after.reservations;
  }

  /** Helper: how the writer ends is only reported, so it can be fixed when a delivery is compared. */
  lemma WriterChangesNothing(catalog: Catalog, e: EngineState, m: MailState, now: nat, q: Ask, faults: Faults)
    ensures var calm, broken := Deliver(catalog, e, m, now, q, faults.(writerRaises := false)), Deliver(catalog, e, m, now, q, faults.(writerRaises := true));
            && calm.engine == broken.engine && calm.mail == broken.mail
            && calm.committed == broken.committed && calm.wrote == broken.wrote
            && (broken.outcome.UnknownDelivery? <==> broken.wrote)
  {
    hide PrepareDelivery, Cancelled, Live, Committed, MailCommitted;
  }

  // --- A delivery, told from the script ------------------------------------------

  /** What the caller is told when the response is ready to be written. */
  function Told(statusCode: int, faults: Faults): Delivery {
    if faults.writerRaises then UnknownDelivery else Responded(statusCode)
  }

  /** A delivery that commits takes the session exactly to the end of the script's step, appends exactly
      the mail of that step, and answers with its status. It commits exactly when the step can be
      reserved, its mail, if it has one, finds room, and nothing fails before the writer. */
  lemma DeliveryFollowsScript(catalog: Catalog, e: EngineState, m: MailState, now: nat, q: Ask, faults: Faults)
    requires Tokens(e) && MailInv(m) && Prepare(catalog, e, q, now).Reserved?
    ensures var d, k := Deliver(catalog, e, m, now, q, faults), StepAsked(e, q);
            && q.scenario in catalog && k < |catalog[q.scenario]|
            && var step := catalog[q.scenario][k];
               && (d.committed <==> faults.rendering == RENDERS && !faults.wireRaises && faults.failAt.None?
                                    && (step.mail.Some? ==> |m.messages| + |m.reservations| < MAX_MAIL_MESSAGES))
               && (d.committed ==>
                     var count := if q.sessionId in e.sessions then e.sessions[q.sessionId].requestCount else 0;
                     && d.engine.sessions == e.sessions[q.sessionId := Session(q.scenario, step.toState, k + 1, count + 1, now)]
                     && d.mail.messages == m.messages + (if step.mail.Some? then [step.mail.value] else [])
                     && d.outcome == Told(step.statusCode, faults))
  {
    hide Tokens, MailInv, PrepareDelivery, Prepare, Cancelled, MailCancelled, Committed, MailCommitted, MailReserved, Live, Deliver;
    ReservationFollowsScript(catalog, e, q, now);
    DeliveryIsAllOrNothing(catalog, e, m, now, q, faults);
    if Deliver(catalog, e, m, now, q, faults).committed {
      CommittedAnswers(catalog, e, m, now, q, faults);
    }
  }

  lemma CommittedAnswers(catalog: Catalog, e: EngineState, m: MailState, now: nat, q: Ask, faults: Faults)
    requires Deliver(catalog, e, m, now, q, faults).committed
    ensures Prepare(catalog, e, q, now).Reserved?
    ensures Deliver(catalog, e, m, now, q, faults).outcome == Told(Prepare(catalog, e, q, now).plan.result.statusCode, faults)
  {
    hide Prepare, Cancelled, MailCancelled, Committed, MailCommitted, MailReserved, NextReservation, Live, Full;
  }

  /** What a delivery that does not commit answers. */
  lemma UncommittedAnswers(catalog: Catalog, e: EngineState, m: MailState, now: nat, q: Ask, faults: Faults)
    requires !Deliver(catalog, e, m, now, q, faults).committed
    ensures var d, r := Deliver(catalog, e, m, now, q, faults), Prepare(catalog, e, q, now);
            if r.Refused? then
              d.outcome ==
              if faults.wireRaises then Raised
              else if r.why == BAD_VALUE then Told(400, faults)
              else if r.why == RESOURCE_LIMIT then Told(429, faults)
              else Told(409, faults)
            else
              d.outcome ==
              if faults.rendering == KILLED_BEFORE_MAIL || faults.wireRaises then Raised
              else if r.plan.result.mail.Some? && |m.messages| + |m.reservations| >= MAX_MAIL_MESSAGES then Told(429, faults)
              else if faults.rendering == TOO_LARGE then Told(429, faults)
              else if faults.rendering == BAD_TEXT then Told(400, faults)
              else if faults.rendering == RAISES then Told(500, faults)
              else Raised
  {
    hide Prepare, Cancelled, MailCancelled, Committed, MailCommitted, MailReserved, NextReservation, Live;
  }
}

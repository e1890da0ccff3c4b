/** The scenario engine: sessions, reserved transitions, and the locked operations on them. */
module SimulatorEngine {
  import opened Identifiers
  import opened SimulatorProtocol

  datatype Session = Session(scenario: ScenarioName, state: ScenarioState, stepIndex: nat, requestCount: nat, transitionedAt: nat)
  datatype Plan = Plan(token: nat, sessionId: string, result: ScenarioResult)
  datatype Reservation = Reservation(plan: Plan, next: Session, isNew: bool)

  datatype EngineState = EngineState(
    sessions: map<string, Session>,
    reservations: map<nat, Reservation>,
    reserved: set<string>,
    nextToken: nat)

  datatype Refusal = BAD_VALUE | RESOURCE_LIMIT | UNKNOWN_SCENARIO | UNKNOWN_TRANSITION | NOT_READY

  /** `idOk` says whether the session identifier is in the closed grammar. */
  datatype Ask = Ask(scenario: ScenarioName, sessionId: string, idOk: bool, expected: ScenarioState)

  datatype Reserving = Reserved(after: EngineState, plan: Plan) | Refused(why: Refusal)

  function NewTokens(reservations: map<nat, Reservation>): set<nat> {
    set t | t in reservations && reservations[t].isNew
  }

  /** The session an ask continues, or the one it would begin. */
  function Current(e: EngineState, q: Ask, now: nat): Session {
    if q.sessionId in e.sessions then e.sessions[q.sessionId] else Session(q.scenario, START, 0, 0, now)
  }

  function After(s: Session, step: ScenarioStep, now: nat): Session {
    Session(s.scenario, step.toState, s.stepIndex + 1, s.requestCount + 1, now)
  }

  function ResultOf(scenario: ScenarioName, step: ScenarioStep, now: nat): ScenarioResult {
    ScenarioResult(scenario, step.toState, step.statusCode, step.body, step.evidence, now, step.mail)
  }

  /** Why a transition cannot be reserved, in the order of the checks. */
  function WhyNot(catalog: Catalog, e: EngineState, q: Ask, now: nat): Option<Refusal> {
    if !q.idOk then Some(BAD_VALUE)
    else if q.sessionId in e.reserved then Some(RESOURCE_LIMIT)
    else if q.scenario !in catalog then Some(UNKNOWN_SCENARIO)
    else if q.sessionId !in e.sessions && |e.sessions| + |NewTokens(e.reservations)| >= MAX_SESSIONS then Some(RESOURCE_LIMIT)
    else
      var s, steps := Current(e, q, now), catalog[q.scenario];
      if s.scenario != q.scenario then Some(UNKNOWN_TRANSITION)
      else if s.requestCount + 1 > MAX_REQUESTS_PER_SESSION then Some(RESOURCE_LIMIT)
      else if s.state != q.expected then Some(UNKNOWN_TRANSITION)
      else if s.stepIndex >= |steps| then Some(UNKNOWN_TRANSITION)
      else if steps[s.stepIndex].fromState != s.state then Some(UNKNOWN_TRANSITION)
      else if now - s.transitionedAt < steps[s.stepIndex].delay then Some(NOT_READY)
      else None
  }

  function Prepare(catalog: Catalog, e: EngineState, q: Ask, now: nat): Reserving {
    match WhyNot(catalog, e, q, now)
    case Some(why) => Refused(why)
    case None =>
      var s := Current(e, q, now);
      var step := catalog[q.scenario][s.stepIndex];
      var plan := Plan(e.nextToken, q.sessionId, ResultOf(q.scenario, step, now));
      Reserved(e.(reservations := e.reservations[e.nextToken := Reservation(plan, After(s, step, now), q.sessionId !in e.sessions)],
                  reserved := e.reserved + {q.sessionId}, nextToken := e.nextToken + 1),
               plan)
  }

  /** The plan's own reservation is still there. */
  predicate Live(e: EngineState, plan: Plan) {
    && plan.token in e.reservations && e.reservations[plan.token].plan == plan
    && plan.sessionId in e.reserved
  }

  function Cancelled(e: EngineState, plan: Plan): EngineState {
    e.(reservations := e.reservations - {plan.token}, reserved := e.reserved - {plan.sessionId})
  }

  function Committed(e: EngineState, plan: Plan): EngineState
    requires Live(e, plan)
  {
    Cancelled(e.(sessions := e.sessions[plan.sessionId := e.reservations[plan.token].next]), plan)
  }

  // --- The engine -------------------------------------------------------------

  class ScenarioEngine {
    const catalog: Catalog
    var sessions: map<string, Session>
    var reservations: map<nat, Reservation>
    var reserved: set<string>
    var nextToken: nat

    constructor (catalog: Catalog)
      ensures this.catalog == catalog && State() == EngineState(map[], map[], {}, 1)
    {
      this.catalog, sessions, reservations, reserved, nextToken := catalog, map[], map[], {}, 1;
    }

    function State(): EngineState
      reads this
    {
      EngineState(sessions, reservations, reserved, nextToken)
    }

    /** How many reservations are for sessions that do not exist yet. */
    method CountNew() returns (n: nat)
      ensures n == |NewTokens(reservations)|
    {
      var rest := reservations.Keys;
      n := 0;
      ghost var counted: set<nat> := {};
      while rest != {}
        invariant rest <= reservations.Keys
        invariant counted == (set t | t in reservations && t !in rest && reservations[t].isNew) && n == |counted|
        decreases |rest|
      {
        var t :| t in rest;
        if reservations[t].isNew {
          n, counted := n + 1, counted + {t};
        }
        rest := rest - {t};
      }
      assert counted == NewTokens(reservations);
    }

    method Reserve(q: Ask, now: nat) returns (outcome: Reserving)
      modifies this
      ensures outcome == Prepare(catalog, old(State()), q, now)
      ensures State() == if outcome.Reserved? then outcome.after else old(State())
    {
      if !q.idOk {
        return Refused(BAD_VALUE);
      }
      if q.sessionId in reserved {
        return Refused(RESOURCE_LIMIT);
      }
      if q.scenario !in catalog {
        return Refused(UNKNOWN_SCENARIO);
      }
      var steps := catalog[q.scenario];
      var isNew := q.sessionId !in sessions;
      var s := Session(q.scenario, START, 0, 0, now);
      if isNew {
        var reservedNew := CountNew();
        if |sessions| + reservedNew >= MAX_SESSIONS {
          return Refused(RESOURCE_LIMIT);
        }
      } else {
        s := sessions[q.sessionId];
      }
      if s.scenario != q.scenario {
        return Refused(UNKNOWN_TRANSITION);
      }
      var nextRequestCount := s.requestCount + 1;
      if nextRequestCount > MAX_REQUESTS_PER_SESSION {
        return Refused(RESOURCE_LIMIT);
      }
      if s.state != q.expected || s.stepIndex >= |steps| {
        return Refused(UNKNOWN_TRANSITION);
      }
      var step := steps[s.stepIndex];
      if step.fromState != s.state {
        return Refused(UNKNOWN_TRANSITION);
      }
      if now - s.transitionedAt < step.delay {
        return Refused(NOT_READY);
      }
      var plan := Plan(nextToken, q.sessionId, ResultOf(q.scenario, step, now));
      nextToken := nextToken + 1;
      reservations := reservations[plan.token := Reservation(plan, Session(q.scenario, step.toState, s.stepIndex + 1, nextRequestCount, now), isNew)];
      reserved := reserved + {q.sessionId};
      outcome := Reserved(State(), plan);
    }

    predicate Validates(plan: Plan)
      reads this
      ensures Validates(plan) == Live(State(), plan)
    {
      plan.token in reservations && reservations[plan.token].plan == plan && plan.sessionId in reserved
    }

    function Snapshot(plan: Plan): (s: Option<Session>)
      reads this
    {
      if plan.sessionId in sessions then Some(sessions[plan.sessionId]) else None
    }

    method CommitReservation(plan: Plan)
      requires Validates(plan)
      modifies this`sessions
      ensures sessions == old(sessions)[plan.sessionId := reservations[plan.token].next]
    {
      sessions := sessions[plan.sessionId := reservations[plan.token].next];
    }

    method RestoreSnapshot(plan: Plan, snapshot: Option<Session>)
      modifies this`sessions
      ensures sessions == if snapshot.Some? then old(sessions)[plan.sessionId := snapshot.value] else old(sessions) - {plan.sessionId}
    {
      sessions := if snapshot.Some? then sessions[plan.sessionId := snapshot.value] else sessions - {plan.sessionId};
    }

    /** Also what finalizing does to a plan that validates. */
    method CancelReservation(plan: Plan)
      modifies this`reservations, this`reserved
      ensures State() == Cancelled(old(State()), plan)
    {
      reservations := reservations - {plan.token};
      reserved := reserved - {plan.sessionId};
    }

    /** A stale plan is refused before anything is touched. */
    method Commit(plan: Plan) returns (ok: bool)
      modifies this
      ensures ok == Live(old(State()), plan)
      ensures State() == if ok then Committed(old(State()), plan) else old(State())
    {
      if !Validates(plan) {
        return false;
      }
      CommitReservation(plan);
      CancelReservation(plan);
      ok := true;
    }

    method Rollback(plan: Plan) returns (ok: bool)
      modifies this
      ensures ok == Live(old(State()), plan)
      ensures State() == if ok then Cancelled(old(State()), plan) else old(State())
    {
      if !Validates(plan) {
        return false;
      }
      CancelReservation(plan);
      ok := true;
    }
  }

  // --- What every locked operation keeps --------------------------------------

  /** A session stands where its script says, and has made one request for each step. */
  predicate OnScript(catalog: Catalog, s: Session, now: nat) {
    && s.scenario in catalog
    && 1 <= s.stepIndex <= |catalog[s.scenario]|
    && s.requestCount == s.stepIndex
    && s.state == StateAfter(catalog[s.scenario], s.stepIndex)
    && s.transitionedAt <= now
    && catalog[s.scenario][0].delay == 0
  }

  /** `next` is the one step that the script allows after `s`, not before its delay. */
  predicate Follows(catalog: Catalog, s: Session, next: Session) {
    && next.scenario == s.scenario && next.stepIndex == s.stepIndex + 1
    && s.scenario in catalog && s.stepIndex < |catalog[s.scenario]|
    && next.transitionedAt >= s.transitionedAt + catalog[s.scenario][s.stepIndex].delay
  }

  /** A reservation was made for the session exactly as it still stands. */
  predicate Pending(catalog: Catalog, e: EngineState, r: Reservation, now: nat) {
    && OnScript(catalog, r.next, now)
    && r.isNew == (r.plan.sessionId !in e.sessions)
    && (if r.isNew then r.next.stepIndex == 1 else Follows(catalog, e.sessions[r.plan.sessionId], r.next))
    && r.plan.result == ResultOf(r.next.scenario, catalog[r.next.scenario][r.next.stepIndex - 1], r.next.transitionedAt)
  }

  predicate Tokens(e: EngineState) {
    && (forall t | t in e.reservations :: t < e.nextToken && e.reservations[t].plan.token == t && e.reservations[t].plan.sessionId in e.reserved)
    && (forall id | id in e.reserved :: exists t | t in e.reservations :: e.reservations[t].plan.sessionId == id)
    && forall t, u | t in e.reservations && u in e.reservations && t != u ::
         e.reservations[t].plan.sessionId != e.reservations[u].plan.sessionId
  }

  ghost predicate EngineInv(catalog: Catalog, e: EngineState, now: nat) {
    && Tokens(e)
    && |e.sessions| + |NewTokens(e.reservations)| <= MAX_SESSIONS
    && (forall t | t in e.reservations :: Pending(catalog, e, e.reservations[t], now))
    && forall id | id in e.sessions :: OnScript(catalog, e.sessions[id], now)
  }

  lemma PreparedTokens(catalog: Catalog, e: EngineState, q: Ask, now: nat)
    requires Tokens(e) && Prepare(catalog, e, q, now).Reserved?
    ensures Tokens(Prepare(catalog, e, q, now).after)
    ensures Live(Prepare(catalog, e, q, now).after, Prepare(catalog, e, q, now).plan)
  {
    var e' := Prepare(catalog, e, q, now).after;
    assert e.nextToken in e'.reservations && e'.reservations[e.nextToken].plan.sessionId == q.sessionId;
    forall id | id in e'.reserved ensures exists t | t in e'.reservations :: e'.reservations[t].plan.sessionId == id {
      if id != q.sessionId {
        var t :| t in e.reservations && e.reservations[t].plan.sessionId == id;
        assert t in e'.reservations && e'.reservations[t].plan.sessionId == id;
      }
    }
  }

  lemma PreparedPending(catalog: Catalog, e: EngineState, q: Ask, now: nat)
    requires CatalogValid(catalog) && WhyNot(catalog, e, q, now).None?
    requires q.sessionId in e.sessions ==> OnScript(catalog, e.sessions[q.sessionId], now)
    ensures var e' := Prepare(catalog, e, q, now).after;
            Pending(catalog, e', e'.reservations[e.nextToken], now)
  {
  }

  lemma NewTokensGrow(reservations: map<nat, Reservation>, t: nat, r: Reservation)
    requires t !in reservations
    ensures |NewTokens(reservations[t := r])| == |NewTokens(reservations)| + (if r.isNew then 1 else 0)
  {
    assert NewTokens(reservations[t := r]) == NewTokens(reservations) + (if r.isNew then {t} else {});
  }

  lemma RoomForNew(catalog: Catalog, e: EngineState, q: Ask, now: nat)
    requires WhyNot(catalog, e, q, now).None? && q.sessionId !in e.sessions
    ensures |e.sessions| + |NewTokens(e.reservations)| < MAX_SESSIONS
  {
    hide NewTokens;
  }

  lemma PreparedRoom(catalog: Catalog, e: EngineState, q: Ask, now: nat)
    requires Tokens(e) && WhyNot(catalog, e, q, now).None?
    requires |e.sessions| + |NewTokens(e.reservations)| <= MAX_SESSIONS
    ensures var e' := Prepare(catalog, e, q, now).after;
            |e'.sessions| + |NewTokens(e'.reservations)| <= MAX_SESSIONS
  {
    FreshToken(e);
    hide Tokens, NewTokens, WhyNot;
    if q.sessionId !in e.sessions {
      RoomForNew(catalog, e, q, now);
    }
    var e' := Prepare(catalog, e, q, now).after;
    NewTokensGrow(e.reservations, e.nextToken, e'.reservations[e.nextToken]);
  }

  /** Reserving keeps the invariant. */
  lemma PrepareKeepsInv(catalog: Catalog, e: EngineState, q: Ask, now: nat)
    requires CatalogValid(catalog) && EngineInv(catalog, e, now) && Prepare(catalog, e, q, now).Reserved?
    ensures EngineInv(catalog, Prepare(catalog, e, q, now).after, now)
    ensures Live(Prepare(catalog, e, q, now).after, Prepare(catalog, e, q, now).plan)
    ensures Prepare(catalog, e, q, now).plan.token !in e.reservations
  {
    hide Tokens, NewTokens, OnScript, WhyNot, CatalogValid;
    PreparedTokens(catalog, e, q, now);
    PreparedPending(catalog, e, q, now);
    PreparedRoom(catalog, e, q, now);
    FreshToken(e);
  }

  lemma FreshToken(e: EngineState)
    requires Tokens(e)
    ensures e.nextToken !in e.reservations
  {
  }

  lemma CancelledTokens(e: EngineState, plan: Plan)
    requires Tokens(e) && Live(e, plan)
    ensures Tokens(Cancelled(e, plan))
  {
    var e' := Cancelled(e, plan);
    forall id | id in e'.reserved ensures exists t | t in e'.reservations :: e'.reservations[t].plan.sessionId == id {
      var t :| t in e.reservations && e.reservations[t].plan.sessionId == id;
      assert t in e'.reservations;
    }
  }

  lemma CancelledRoom(e: EngineState, plan: Plan)
    requires Live(e, plan)
    ensures |NewTokens(Cancelled(e, plan).reservations)| ==
            |NewTokens(e.reservations)| - (if e.reservations[plan.token].isNew then 1 else 0)
  {
    assert NewTokens(Cancelled(e, plan).reservations) == NewTokens(e.reservations) - {plan.token};
  }

  /** Giving up a live plan keeps the invariant and every session. */
  lemma CancelKeepsInv(catalog: Catalog, e: EngineState, plan: Plan, now: nat)
    requires EngineInv(catalog, e, now) && Live(e, plan)
    ensures EngineInv(catalog, Cancelled(e, plan), now)
  {
    hide Tokens, NewTokens, OnScript, Follows;
    CancelledTokens(e, plan);
    CancelledRoom(e, plan);
  }

  lemma OnlyReservation(e: EngineState, plan: Plan, t: nat)
    requires Tokens(e) && Live(e, plan) && t in e.reservations && t != plan.token
    ensures e.reservations[t].plan.sessionId != plan.sessionId
  {
  }

  lemma CommittedPending(catalog: Catalog, e: EngineState, plan: Plan, t: nat, now: nat)
    requires Tokens(e) && Live(e, plan) && t in e.reservations && t != plan.token
    requires Pending(catalog, e, e.reservations[t], now)
    ensures Pending(catalog, Committed(e, plan), e.reservations[t], now)
  {
    hide OnScript, Follows;
    OnlyReservation(e, plan, t);
    hide Tokens;
  }

  lemma CommittedRoom(catalog: Catalog, e: EngineState, plan: Plan, now: nat)
    requires Live(e, plan) && Pending(catalog, e, e.reservations[plan.token], now)
    requires |e.sessions| + |NewTokens(e.reservations)| <= MAX_SESSIONS
    ensures |Committed(e, plan).sessions| + |NewTokens(Committed(e, plan).reservations)| <= MAX_SESSIONS
  {
    hide NewTokens, OnScript, Follows;
    CancelledRoom(e, plan);
    SessionsGrow(e.sessions, plan.sessionId, e.reservations[plan.token].next);
  }

  lemma PendingMeans(catalog: Catalog, e: EngineState, r: Reservation, now: nat)
    requires Pending(catalog, e, r, now)
    ensures OnScript(catalog, r.next, now) && r.isNew == (r.plan.sessionId !in e.sessions)
    ensures if r.isNew then r.next.stepIndex == 1 else Follows(catalog, e.sessions[r.plan.sessionId], r.next)
  {
    hide OnScript, Follows;
  }

  lemma SessionsGrow(sessions: map<string, Session>, id: string, s: Session)
    ensures |sessions[id := s]| == |sessions| + (if id in sessions then 0 else 1)
  {
    if id in sessions {
      assert sessions[id := s].Keys == sessions.Keys;
    } else {
      assert sessions[id := s].Keys == sessions.Keys + {id};
    }
    assert |sessions| == |sessions.Keys| && |sessions[id := s]| == |sessions[id := s].Keys|;
  }

  lemma CommittedTokens(e: EngineState, plan: Plan)
    requires Tokens(e) && Live(e, plan)
    ensures Tokens(Committed(e, plan))
  {
    hide Tokens;
    var moved := e.(sessions := e.sessions[plan.sessionId := e.reservations[plan.token].next]);
    MovedTokens(e, moved);
    CancelledTokens(moved, plan);
  }

  /** Committing a live plan keeps the invariant: it replaces exactly the session its
      reservation was computed from, by that session's next scripted step. */
  lemma CommitKeepsInv(catalog: Catalog, e: EngineState, plan: Plan, now: nat)
    requires EngineInv(catalog, e, now) && Live(e, plan)
    ensures EngineInv(catalog, Committed(e, plan), now)
    ensures plan.sessionId in e.sessions ==> Follows(catalog, e.sessions[plan.sessionId], Committed(e, plan).sessions[plan.sessionId])
    ensures plan.sessionId !in e.sessions ==> Committed(e, plan).sessions[plan.sessionId].stepIndex == 1
  {
    hide Tokens, NewTokens, OnScript, Follows, Pending;
    CommittedTokens(e, plan);
    CommittedRoom(catalog, e, plan, now);
    PendingMeans(catalog, e, e.reservations[plan.token], now);
    var e' := Committed(e, plan);
    forall t | t in e'.reservations ensures Pending(catalog, e', e'.reservations[t], now) {
      CommittedPending(catalog, e, plan, t, now);
    }
  }

  lemma MovedTokens(e: EngineState, moved: EngineState)
    requires Tokens(e) && moved == e.(sessions := moved.sessions)
    ensures Tokens(moved)
  {
  }

  /** Time may pass at any moment. */
  lemma TimeKeepsInv(catalog: Catalog, e: EngineState, now: nat, later: nat)
    requires EngineInv(catalog, e, now) && now <= later
    ensures EngineInv(catalog, e, later)
  {
    hide Tokens, NewTokens, Follows;
  }

  /** The request cap never blocks a step that the script still declares. */
  lemma RequestCapNeverBlocks(catalog: Catalog, e: EngineState, id: string, now: nat)
    requires CatalogValid(catalog) && EngineInv(catalog, e, now) && id in e.sessions
    requires e.sessions[id].stepIndex < |catalog[e.sessions[id].scenario]|
    ensures e.sessions[id].requestCount + 1 <= MAX_REQUESTS_PER_SESSION
  {
    hide Tokens, NewTokens, Pending, Chained;
    assert WellFormed(catalog[e.sessions[id].scenario]);
  }

  /** A running session takes its next step exactly when it is asked under its own script and state,
      is not reserved, has a step left, and has waited that step's delay. */
  lemma ReadyExactly(catalog: Catalog, e: EngineState, q: Ask, now: nat)
    requires CatalogValid(catalog) && EngineInv(catalog, e, now) && q.sessionId in e.sessions
    ensures var s := e.sessions[q.sessionId];
            Prepare(catalog, e, q, now).Reserved? <==>
            && q.idOk && q.scenario == s.scenario && q.expected == s.state && q.sessionId !in e.reserved
            && s.stepIndex < |catalog[s.scenario]|
            && now >= s.transitionedAt + catalog[s.scenario][s.stepIndex].delay
  {
    hide Tokens, NewTokens, Pending;
    var s := e.sessions[q.sessionId];
    assert OnScript(catalog, s, now) && WellFormed(catalog[s.scenario]);
    if s.stepIndex < |catalog[s.scenario]| {
      RequestCapNeverBlocks(catalog, e, q.sessionId, now);
      assert catalog[s.scenario][s.stepIndex].fromState == StateAfter(catalog[s.scenario], s.stepIndex);
    }
  }

  /** A session begins exactly when there is room for it and its script starts without a delay. */
  lemma BeginsExactly(catalog: Catalog, e: EngineState, q: Ask, now: nat)
    requires CatalogValid(catalog) && q.sessionId !in e.sessions
    ensures Prepare(catalog, e, q, now).Reserved? <==>
            && q.idOk && q.scenario in catalog && q.expected == START && q.sessionId !in e.reserved
            && |e.sessions| + |NewTokens(e.reservations)| < MAX_SESSIONS
            && catalog[q.scenario][0].delay == 0
  {
    hide NewTokens;
    if q.scenario in catalog {
      assert WellFormed(catalog[q.scenario]);
      assert catalog[q.scenario][0].fromState == StateAfter(catalog[q.scenario], 0);
    }
  }

  /** A script whose first step has a delay can never begin. */
  lemma DelayedStartNeverBegins(catalog: Catalog, e: EngineState, q: Ask, now: nat)
    requires EngineInv(catalog, e, now) && q.scenario in catalog && |catalog[q.scenario]| > 0 && catalog[q.scenario][0].delay > 0
    ensures Prepare(catalog, e, q, now).Refused?
  {
    hide Tokens, NewTokens, Pending;
    if q.sessionId in e.sessions {
      assert OnScript(catalog, e.sessions[q.sessionId], now);
    }
  }

  // --- What a reservation hands out --------------------------------------------

  /** The index of the step an ask is about: where its session stands, or the first. */
  function StepAsked(e: EngineState, q: Ask): nat {
    if q.sessionId in e.sessions then e.sessions[q.sessionId].stepIndex else 0
  }

  /** A reservation is of the script's own step: its result carries that step's state, status, body,
      evidence and mail and the time of the call, its next session is the step's end, and no session
      changes yet. */
  lemma ReservationFollowsScript(catalog: Catalog, e: EngineState, q: Ask, now: nat)
    requires Prepare(catalog, e, q, now).Reserved?
    ensures var e', plan := Prepare(catalog, e, q, now).after, Prepare(catalog, e, q, now).plan;
            && q.scenario in catalog && StepAsked(e, q) < |catalog[q.scenario]|
            && var step := catalog[q.scenario][StepAsked(e, q)];
               && plan.token == e.nextToken && plan.sessionId == q.sessionId
               && plan.result.scenario == q.scenario && plan.result.state == step.toState && plan.result.statusCode == step.statusCode
               && plan.result.body == step.body && plan.result.evidence == step.evidence && plan.result.mail == step.mail
               && plan.result.occurredAt == now
               && e'.sessions == e.sessions && e'.reserved == e.reserved + {q.sessionId} && e'.nextToken == e.nextToken + 1
               && e'.reservations.Keys == e.reservations.Keys + {e.nextToken}
               && (forall t | t in e.reservations && t != e.nextToken :: e'.reservations[t] == e.reservations[t])
               && e'.reservations[e.nextToken].plan == plan
               && (e'.reservations[e.nextToken].isNew <==> q.sessionId !in e.sessions)
               && var next := e'.reservations[e.nextToken].next;
                  && next.scenario == q.scenario && next.state == step.toState && next.stepIndex == StepAsked(e, q) + 1
                  && next.requestCount == (if q.sessionId in e.sessions then e.sessions[q.sessionId].requestCount else 0) + 1
                  && next.transitionedAt == now
  {
    hide WhyNot;
    ReservedHasStep(catalog, e, q, now);
  }

  lemma ReservedHasStep(catalog: Catalog, e: EngineState, q: Ask, now: nat)
    requires WhyNot(catalog, e, q, now).None?
    ensures q.scenario in catalog && StepAsked(e, q) < |catalog[q.scenario]|
    ensures q.sessionId in e.sessions ==> e.sessions[q.sessionId].scenario == q.scenario
  {
    hide NewTokens;
  }

  /** What each refusal says, in the order in which the reasons are looked for. */
  lemma RefusalMeans(catalog: Catalog, e: EngineState, q: Ask, now: nat)
    requires CatalogValid(catalog) && EngineInv(catalog, e, now)
    ensures var r := Prepare(catalog, e, q, now);
            if !q.idOk then r == Refused(BAD_VALUE)
            else if q.sessionId in e.reserved then r == Refused(RESOURCE_LIMIT)
            else if q.scenario !in catalog then r == Refused(UNKNOWN_SCENARIO)
            else if q.sessionId !in e.sessions then
              if |e.sessions| + |NewTokens(e.reservations)| >= MAX_SESSIONS then r == Refused(RESOURCE_LIMIT)
              else if q.expected != START then r == Refused(UNKNOWN_TRANSITION)
              else if catalog[q.scenario][0].delay > 0 then r == Refused(NOT_READY)
              else r.Reserved?
            else
              var s := e.sessions[q.sessionId];
              if q.scenario != s.scenario then r == Refused(UNKNOWN_TRANSITION)
              else if s.stepIndex >= MAX_REQUESTS_PER_SESSION then r == Refused(RESOURCE_LIMIT)
              else if q.expected != s.state || s.stepIndex >= |catalog[s.scenario]| then r == Refused(UNKNOWN_TRANSITION)
              else if now < s.transitionedAt + catalog[s.scenario][s.stepIndex].delay then r == Refused(NOT_READY)
              else r.Reserved?
  {
    hide Tokens, NewTokens, Pending;
    if q.scenario in catalog {
      assert WellFormed(catalog[q.scenario]);
      assert catalog[q.scenario][0].fromState == StateAfter(catalog[q.scenario], 0);
      if q.sessionId in e.sessions {
        var s := e.sessions[q.sessionId];
        assert OnScript(catalog, s, now);
        if s.scenario == q.scenario && s.stepIndex < |catalog[q.scenario]| {
          assert catalog[q.scenario][s.stepIndex].fromState == StateAfter(catalog[q.scenario], s.stepIndex);
        }
      }
    }
  }
}

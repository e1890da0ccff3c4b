/** Any number of calls on one engine and one mail capture, interleaved at their locked sections. */
module SimulatorInterleaving {
  import opened Identifiers
  import opened SimulatorProtocol
  import opened SimulatorEngine
  import opened SimulatorMail
  import opened SimulatorWeb

  /** Where a call stands between two of its locked sections, and what it holds there. */
  datatype Call =
    | Asking(ask: Ask)
    | Planned(plan: Plan)
    | Preparing(plan: Plan, mail: Option<MailReservation>)
    | Undoing(plan: Plan, mail: Option<MailReservation>)
    | Advancing(ask: Ask)
    | Advanced(plan: Plan)
    | Capturing(message: MailFixture)
    | Captured(reservation: MailReservation)
    | Killed(kept: Option<Plan>, mail: Option<MailReservation>)
    | Ended

  function PlanOf(call: Call): Option<Plan> {
    match call
    case Planned(plan) => Some(plan)
    case Preparing(plan, _) => Some(plan)
    case Undoing(plan, _) => Some(plan)
    case Advanced(plan) => Some(plan)
    case Killed(kept, _) => kept
    case _ => None
  }

  function MailOf(call: Call): Option<MailReservation> {
    match call
    case Preparing(_, mail) => mail
    case Undoing(_, mail) => mail
    case Captured(mail) => Some(mail)
    case Killed(_, mail) => mail
    case _ => None
  }

  /** `times` remembers for each session when each of its transitions was made. */
  datatype World = World(engine: EngineState, mail: MailState, calls: map<nat, Call>, now: nat, times: map<string, seq<nat>>)

  /** What can happen next. `Goes(c, fine, failAt)` is the next locked section of call `c`: `fine`
      says that rendering and wiring succeed, `failAt` where the joint commit fails. */
  datatype Turn =
    | Begins(c: nat, call: Call)
    | Goes(c: nat, fine: bool, failAt: Option<Point>)
    | Dies(c: nat)
    | Ticks(seconds: nat)
    | Clears

  function Put(w: World, c: nat, call: Call): World {
    w.(calls := w.calls[c := call])
  }

  /** The transition times after a commit: those of a session that moved go on with the new one. */
  function Timed(w: World, e: EngineState): map<string, seq<nat>> {
    map id | id in e.sessions ::
      if id !in w.engine.sessions || id !in w.times then [e.sessions[id].transitionedAt]
      else if e.sessions[id] == w.engine.sessions[id] then w.times[id]
      else w.times[id] + [e.sessions[id].transitionedAt]
  }

  function CommitWorld(w: World, c: nat, e: EngineState, m: MailState): World {
    World(e, m, w.calls[c := Ended], w.now, Timed(w, e))
  }

  function Turned(catalog: Catalog, w: World, turn: Turn): World {
    match turn
    case Begins(c, call) =>
      if c !in w.calls && (call.Asking? || call.Advancing? || call.Capturing?) then Put(w, c, call) else w
    case Ticks(seconds) => if seconds <= MAX_ADVANCE_SECONDS then w.(now := w.now + seconds) else w
    case Clears => if w.mail.reservations == map[] then w.(mail := w.mail.(messages := [])) else w
    case Dies(c) =>
      if c !in w.calls then w
      else
        (match w.calls[c]
         case Planned(plan) => Put(w, c, Killed(Some(plan), None))
         case Preparing(plan, mail) => Put(w, c, Killed(Some(plan), mail))
         case Undoing(plan, mail) => Put(w, c, Killed(Some(plan), mail))
         case Advanced(plan) => Put(w, c, Killed(Some(plan), None))
         case Captured(reservation) => Put(w, c, Killed(None, Some(reservation)))
         case _ => w)
    case Goes(c, fine, failAt) =>
      if c !in w.calls then w
      else
        match w.calls[c]
        case Asking(ask) =>
          (match Prepare(catalog, w.engine, ask, w.now)
           case Refused(_) => Put(w, c, Ended)
           case Reserved(e, plan) => Put(w.(engine := e), c, Planned(plan)))
        case Planned(plan) =>
          if plan.result.mail.None? then Put(w, c, Preparing(plan, None))
          else if Full(w.mail) then Put(w, c, Undoing(plan, None))
          else Put(w.(mail := MailReserved(w.mail, plan.result.mail.value)), c, Preparing(plan, Some(NextReservation(w.mail, plan.result.mail.value))))
        case Preparing(plan, mail) =>
          if !fine then Put(w, c, Undoing(plan, mail))
          else
            var ok := Succeeds(w.engine, w.mail, plan, mail, failAt);
            CommitWorld(w, c, EngineAfter(w.engine, plan, ok), MailAfter(w.mail, mail, ok))
        case Undoing(plan, Some(mail)) =>
          Put(if Holds(w.mail, mail) then w.(mail := MailCancelled(w.mail, mail)) else w, c, Undoing(plan, None))
        case Undoing(plan, None) =>
          Put(if Live(w.engine, plan) then w.(engine := Cancelled(w.engine, plan)) else w, c, Ended)
        case Advancing(ask) =>
          (match Prepare(catalog, w.engine, ask, w.now)
           case Refused(_) => Put(w, c, Ended)
           case Reserved(e, plan) => Put(w.(engine := e), c, Advanced(plan)))
        case Advanced(plan) =>
          if Live(w.engine, plan) then CommitWorld(w, c, Committed(w.engine, plan), w.mail) else Put(w, c, Ended)
        case Capturing(message) =>
          if Full(w.mail) then Put(w, c, Ended)
          else Put(w.(mail := MailReserved(w.mail, message)), c, Captured(NextReservation(w.mail, message)))
        case Captured(mail) =>
          Put(if Holds(w.mail, mail) then w.(mail := MailCommitted(w.mail, mail)) else w, c, Ended)
        case Killed(_, _) => w
        case Ended => w
  }

  // --- Ownership --------------------------------------------------------------

  /** Items filed under their tokens, each held by exactly one holder, and nothing held besides. */
  ghost predicate Owned<T(!new)>(filed: map<nat, T>, held: map<nat, T>, token: T -> nat) {
    && (forall c | c in held :: token(held[c]) in filed && filed[token(held[c])] == held[c])
    && (forall c, d | c in held && d in held && c != d :: token(held[c]) != token(held[d]))
    && (forall t | t in filed :: exists c :: c in held && held[c] == filed[t])
    && forall t | t in filed :: token(filed[t]) == t
  }

  lemma OwnedGains<T(!new)>(filed: map<nat, T>, held: map<nat, T>, token: T -> nat, c: nat, item: T)
    requires Owned(filed, held, token) && c !in held && token(item) !in filed
    ensures Owned(filed[token(item) := item], held[c := item], token)
  {
    var filed', held' := filed[token(item) := item], held[c := item];
    forall t | t in filed' ensures exists d :: d in held' && held'[d] == filed'[t] {
      if t in filed {
        var d :| d in held && held[d] == filed[t];
        assert held'[d] == filed'[t];
      } else {
        assert held'[c] == filed'[t];
      }
    }
  }

  lemma OwnedLoses<T(!new)>(filed: map<nat, T>, held: map<nat, T>, token: T -> nat, c: nat)
    requires Owned(filed, held, token) && c in held
    ensures Owned(filed - {token(held[c])}, held - {c}, token)
  {
    var filed', held' := filed - {token(held[c])}, held - {c};
    forall t | t in filed' ensures exists d :: d in held' && held'[d] == filed'[t] {
      var d :| d in held && held[d] == filed[t];
      assert d in held' && held'[d] == filed'[t];
    }
  }

  lemma NothingOwned<T(!new)>(filed: map<nat, T>, held: map<nat, T>, token: T -> nat)
    requires Owned(filed, held, token) && held == map[]
    ensures filed == map[]
  {
  }

  function PlanToken(plan: Plan): nat {
    plan.token
  }

  function MailToken(r: MailReservation): nat {
    r.token
  }

  function FiledPlans(e: EngineState): map<nat, Plan> {
    map t | t in e.reservations :: e.reservations[t].plan
  }

  function Plans(calls: map<nat, Call>): map<nat, Plan> {
    map c | c in calls && PlanOf(calls[c]).Some? :: PlanOf(calls[c]).value
  }

  function Mails(calls: map<nat, Call>): map<nat, MailReservation> {
    map c | c in calls && MailOf(calls[c]).Some? :: MailOf(calls[c]).value
  }

  /** Every reservation of the engine is held by exactly one call. */
  ghost predicate EngineOwned(e: EngineState, calls: map<nat, Call>) {
    Owned(FiledPlans(e), Plans(calls), PlanToken)
  }

  ghost predicate MailOwned(m: MailState, calls: map<nat, Call>) {
    Owned(m.reservations, Mails(calls), MailToken)
  }

  ghost predicate Paced(catalog: Catalog, e: EngineState, times: map<string, seq<nat>>) {
    && times.Keys == e.sessions.Keys
    && forall id | id in e.sessions :: PaceKept(catalog, e.sessions[id], times[id])
  }

  /** The session made one transition per step, the last when it says, and each no sooner after the one
      before than the delay of its step. */
  predicate PaceKept(catalog: Catalog, s: Session, times: seq<nat>) {
    && OnCatalog(catalog, s)
    && |times| == s.stepIndex && times[s.stepIndex - 1] == s.transitionedAt
    && forall k | 1 <= k < |times| :: times[k] >= times[k - 1] + catalog[s.scenario][k].delay
  }

  predicate OnCatalog(catalog: Catalog, s: Session) {
    s.scenario in catalog && 1 <= s.stepIndex <= |catalog[s.scenario]|
  }

  ghost predicate WorldInv(catalog: Catalog, w: World) {
    && EngineInv(catalog, w.engine, w.now)
    && MailInv(w.mail)
    && EngineOwned(w.engine, w.calls)
    && MailOwned(w.mail, w.calls)
    && Paced(catalog, w.engine, w.times)
  }

  // --- How ownership moves ----------------------------------------------------

  lemma SamePlans(e: EngineState, calls: map<nat, Call>, c: nat, call: Call)
    requires EngineOwned(e, calls)
    requires PlanOf(call) == if c in calls then PlanOf(calls[c]) else None
    ensures EngineOwned(e, calls[c := call])
  {
    hide Owned;
    assert Plans(calls[c := call]) == Plans(calls);
  }

  lemma SameMails(m: MailState, calls: map<nat, Call>, c: nat, call: Call)
    requires MailOwned(m, calls)
    requires MailOf(call) == if c in calls then MailOf(calls[c]) else None
    ensures MailOwned(m, calls[c := call])
  {
    hide Owned;
    assert Mails(calls[c := call]) == Mails(calls);
  }

  /** A call gains the plan it just reserved. */
  lemma GainsPlan(catalog: Catalog, e: EngineState, calls: map<nat, Call>, c: nat, call: Call, ask: Ask, now: nat)
    requires Tokens(e) && EngineOwned(e, calls) && c in calls && PlanOf(calls[c]).None?
    requires Prepare(catalog, e, ask, now).Reserved? && PlanOf(call) == Some(Prepare(catalog, e, ask, now).plan)
    ensures EngineOwned(Prepare(catalog, e, ask, now).after, calls[c := call])
  {
    FreshToken(e);
    hide Owned, Tokens, Prepare, PlanOf, FiledPlans, Plans;
    var plan := Prepare(catalog, e, ask, now).plan;
    FiledGains(catalog, e, ask, now);
    PlansGain(calls, c, call);
    OwnedGains(FiledPlans(e), Plans(calls), PlanToken, c, plan);
  }

  lemma FiledGains(catalog: Catalog, e: EngineState, ask: Ask, now: nat)
    requires Prepare(catalog, e, ask, now).Reserved? && e.nextToken !in e.reservations
    ensures var held := Prepare(catalog, e, ask, now);
            held.plan.token !in FiledPlans(e) && FiledPlans(held.after) == FiledPlans(e)[held.plan.token := held.plan]
  {
    hide WhyNot;
  }

  lemma PlansGain(calls: map<nat, Call>, c: nat, call: Call)
    requires (c in calls ==> PlanOf(calls[c]).None?) && PlanOf(call).Some?
    ensures c !in Plans(calls) && Plans(calls[c := call]) == Plans(calls)[c := PlanOf(call).value]
  {
    hide PlanOf;
  }

  lemma PlansLose(calls: map<nat, Call>, c: nat, call: Call)
    requires c in calls && PlanOf(calls[c]).Some? && PlanOf(call).None?
    ensures c in Plans(calls) && Plans(calls)[c] == PlanOf(calls[c]).value && Plans(calls[c := call]) == Plans(calls) - {c}
  {
    hide PlanOf;
  }

  lemma FiledLoses(e: EngineState, plan: Plan)
    ensures FiledPlans(Cancelled(e, plan)) == FiledPlans(e) - {plan.token}
  {
  }

  /** The plan a call holds is live. */
  lemma HeldIsLive(e: EngineState, calls: map<nat, Call>, c: nat)
    requires Tokens(e) && EngineOwned(e, calls) && c in calls && PlanOf(calls[c]).Some?
    ensures Live(e, PlanOf(calls[c]).value)
  {
    assert Plans(calls)[c] == PlanOf(calls[c]).value;
  }

  lemma HeldMailIsThere(m: MailState, calls: map<nat, Call>, c: nat)
    requires MailOwned(m, calls) && c in calls && MailOf(calls[c]).Some?
    ensures Holds(m, MailOf(calls[c]).value)
  {
    assert Mails(calls)[c] == MailOf(calls[c]).value;
  }

  /** A call gives its plan up, or has it committed. */
  lemma LosesPlan(e: EngineState, calls: map<nat, Call>, c: nat, call: Call, plan: Plan)
    requires Tokens(e) && EngineOwned(e, calls) && c in calls && PlanOf(calls[c]) == Some(plan)
    requires PlanOf(call).None?
    ensures Live(e, plan)
    ensures EngineOwned(Cancelled(e, plan), calls[c := call])
  {
    HeldIsLive(e, calls, c);
    hide Owned, Tokens, Live, FiledPlans, Plans, PlanOf, Cancelled;
    PlansLose(calls, c, call);
    FiledLoses(e, plan);
    OwnedLoses(FiledPlans(e), Plans(calls), PlanToken, c);
  }

  lemma GainsMail(m: MailState, calls: map<nat, Call>, c: nat, call: Call, message: MailFixture)
    requires MailInv(m) && MailOwned(m, calls) && c in calls && MailOf(calls[c]).None?
    requires MailOf(call) == Some(NextReservation(m, message))
    ensures MailOwned(MailReserved(m, message), calls[c := call])
  {
    hide Owned;
    var r := NextReservation(m, message);
    OwnedGains(m.reservations, Mails(calls), MailToken, c, r);
    assert Mails(calls[c := call]) == Mails(calls)[c := r];
  }

  lemma LosesMail(m: MailState, calls: map<nat, Call>, c: nat, call: Call, r: MailReservation)
    requires MailOwned(m, calls) && c in calls && MailOf(calls[c]) == Some(r)
    requires MailOf(call).None?
    ensures Holds(m, r)
    ensures MailOwned(MailCancelled(m, r), calls[c := call])
  {
    HeldMailIsThere(m, calls, c);
    hide Owned;
    OwnedLoses(m.reservations, Mails(calls), MailToken, c);
    assert Mails(calls[c := call]) == Mails(calls) - {c};
  }

  lemma MessagesDoNotMatter(m: MailState, m': MailState, calls: map<nat, Call>)
    requires MailOwned(m, calls) && m'.reservations == m.reservations
    ensures MailOwned(m', calls)
  {
  }

  lemma SessionsDoNotMatter(e: EngineState, e': EngineState, calls: map<nat, Call>)
    requires EngineOwned(e, calls) && e'.reservations == e.reservations
    ensures EngineOwned(e', calls)
  {
    hide Owned;
    assert FiledPlans(e') == FiledPlans(e);
  }

  // --- Pacing -----------------------------------------------------------------

  lemma CommitKeepsPace(catalog: Catalog, w: World, plan: Plan)
    requires EngineInv(catalog, w.engine, w.now) && Live(w.engine, plan) && Paced(catalog, w.engine, w.times)
    ensures Paced(catalog, Committed(w.engine, plan), Timed(w, Committed(w.engine, plan)))
  {
    hide Tokens, NewTokens, Pending, Live, OnScript, Follows, PaceKept;
    CommitKeepsInv(catalog, w.engine, plan, w.now);
    var e' := Committed(w.engine, plan);
    forall id | id in e'.sessions ensures PaceKept(catalog, e'.sessions[id], Timed(w, e')[id]) {
      OnScriptPlace(catalog, e'.sessions[id], w.now);
      if id != plan.sessionId {
        assert PaceKept(catalog, w.engine.sessions[id], w.times[id]);
      } else if id in w.engine.sessions {
        assert PaceKept(catalog, w.engine.sessions[id], w.times[id]);
        PaceFollows(catalog, w.engine.sessions[id], e'.sessions[id], w.times[id]);
      } else {
        PaceBegins(catalog, e'.sessions[id]);
      }
    }
  }

  lemma OnScriptPlace(catalog: Catalog, s: Session, now: nat)
    requires OnScript(catalog, s, now)
    ensures OnCatalog(catalog, s)
  {
  }

  lemma PaceFollows(catalog: Catalog, s: Session, next: Session, times: seq<nat>)
    requires PaceKept(catalog, s, times) && Follows(catalog, s, next)
    ensures PaceKept(catalog, next, times + [next.transitionedAt])
    ensures next != s
  {
  }

  lemma PaceBegins(catalog: Catalog, s: Session)
    requires OnCatalog(catalog, s) && s.stepIndex == 1
    ensures PaceKept(catalog, s, [s.transitionedAt])
  {
  }

  lemma SamePace(catalog: Catalog, w: World, e': EngineState)
    requires Paced(catalog, w.engine, w.times) && e'.sessions == w.engine.sessions
    ensures Paced(catalog, e', w.times) && Timed(w, e') == w.times
  {
  }

  // --- Each turn keeps the invariant ------------------------------------------

  lemma PutKeepsInv(catalog: Catalog, w: World, c: nat, call: Call)
    requires WorldInv(catalog, w)
    requires PlanOf(call) == if c in w.calls then PlanOf(w.calls[c]) else None
    requires MailOf(call) == if c in w.calls then MailOf(w.calls[c]) else None
    ensures WorldInv(catalog, Put(w, c, call))
  {
    hide EngineInv, MailInv, EngineOwned, MailOwned, Paced;
    SamePlans(w.engine, w.calls, c, call);
    SameMails(w.mail, w.calls, c, call);
  }

  lemma ReserveKeepsWorld(catalog: Catalog, w: World, c: nat, ask: Ask, call: Call)
    requires CatalogValid(catalog) && WorldInv(catalog, w) && c in w.calls && PlanOf(w.calls[c]).None? && MailOf(w.calls[c]).None?
    requires Prepare(catalog, w.engine, ask, w.now).Reserved?
    requires PlanOf(call) == Some(Prepare(catalog, w.engine, ask, w.now).plan) && MailOf(call).None?
    ensures WorldInv(catalog, Put(w.(engine := Prepare(catalog, w.engine, ask, w.now).after), c, call))
  {
    hide MailInv, EngineOwned, MailOwned, Paced, Prepare, Pending, OnScript, NewTokens, Tokens, CatalogValid;
    PrepareKeepsInv(catalog, w.engine, ask, w.now);
    GainsPlan(catalog, w.engine, w.calls, c, call, ask, w.now);
    SameMails(w.mail, w.calls, c, call);
    PreparedSessions(catalog, w.engine, ask, w.now);
    SamePace(catalog, w, Prepare(catalog, w.engine, ask, w.now).after);
  }

  lemma ReserveMailKeepsWorld(catalog: Catalog, w: World, c: nat, message: MailFixture, call: Call)
    requires WorldInv(catalog, w) && c in w.calls && MailOf(w.calls[c]).None? && !Full(w.mail)
    requires PlanOf(call) == PlanOf(w.calls[c]) && MailOf(call) == Some(NextReservation(w.mail, message))
    ensures WorldInv(catalog, Put(w.(mail := MailReserved(w.mail, message)), c, call))
  {
    hide EngineInv, MailInv, EngineOwned, MailOwned, Paced, Full, MailReserved;
    MailReserveKeepsInv(w.mail, message);
    GainsMail(w.mail, w.calls, c, call, message);
    SamePlans(w.engine, w.calls, c, call);
  }

  lemma DropMailKeepsWorld(catalog: Catalog, w: World, c: nat, r: MailReservation, call: Call)
    requires WorldInv(catalog, w) && c in w.calls && MailOf(w.calls[c]) == Some(r)
    requires PlanOf(call) == PlanOf(w.calls[c]) && MailOf(call).None?
    ensures Holds(w.mail, r)
    ensures WorldInv(catalog, Put(w.(mail := MailCancelled(w.mail, r)), c, call))
    ensures WorldInv(catalog, Put(w.(mail := MailCommitted(w.mail, r)), c, call))
  {
    hide EngineInv, MailInv, EngineOwned, MailOwned, Paced;
    LosesMail(w.mail, w.calls, c, call, r);
    MailCancelKeepsInv(w.mail, r);
    MailCommitKeepsInv(w.mail, r);
    SamePlans(w.engine, w.calls, c, call);
    MessagesDoNotMatter(MailCancelled(w.mail, r), MailCommitted(w.mail, r), w.calls[c := call]);
  }

  lemma DropPlanKeepsWorld(catalog: Catalog, w: World, c: nat, plan: Plan, call: Call)
    requires WorldInv(catalog, w) && c in w.calls && PlanOf(w.calls[c]) == Some(plan)
    requires PlanOf(call).None? && MailOf(call) == MailOf(w.calls[c])
    ensures Live(w.engine, plan)
    ensures WorldInv(catalog, Put(w.(engine := Cancelled(w.engine, plan)), c, call))
  {
    hide MailInv, EngineOwned, MailOwned, Paced, Pending, OnScript, NewTokens, Tokens, Live, Cancelled;
    LosesPlan(w.engine, w.calls, c, call, plan);
    CancelKeepsInv(catalog, w.engine, plan, w.now);
    SameMails(w.mail, w.calls, c, call);
    CancelledSessions(w.engine, plan);
    SamePace(catalog, w, Cancelled(w.engine, plan));
  }

  lemma CancelledSessions(e: EngineState, plan: Plan)
    ensures Cancelled(e, plan).sessions == e.sessions
  {
  }

  lemma CommitPlanKeepsWorld(catalog: Catalog, w: World, c: nat, plan: Plan, call: Call)
    requires WorldInv(catalog, w) && c in w.calls && PlanOf(w.calls[c]) == Some(plan)
    requires PlanOf(call).None? && MailOf(call) == MailOf(w.calls[c])
    ensures Live(w.engine, plan)
    ensures WorldInv(catalog, Put(w, c, call).(engine := Committed(w.engine, plan), times := Timed(w, Committed(w.engine, plan))))
  {
    hide MailInv, EngineOwned, MailOwned, Paced, Pending, OnScript, NewTokens, Tokens, Live, Timed;
    LosesPlan(w.engine, w.calls, c, call, plan);
    CommitKeepsInv(catalog, w.engine, plan, w.now);
    CommitKeepsPace(catalog, w, plan);
    SameMails(w.mail, w.calls, c, call);
    SessionsDoNotMatter(Cancelled(w.engine, plan), Committed(w.engine, plan), w.calls[c := call]);
  }

  /** In a coherent world the joint commit fails only if something fails inside it: no call ever
      reaches it with a stale plan. */
  lemma JointCommitIsNeverStale(catalog: Catalog, w: World, c: nat, plan: Plan, mail: Option<MailReservation>, failAt: Option<Point>)
    requires WorldInv(catalog, w) && c in w.calls && w.calls[c] == Preparing(plan, mail)
    ensures Succeeds(w.engine, w.mail, plan, mail, failAt) <==> failAt.None?
  {
    hide MailInv, Paced, Pending, OnScript, NewTokens, Tokens, EngineOwned, MailOwned;
    HeldIsLive(w.engine, w.calls, c);
    if mail.Some? {
      HeldMailIsThere(w.mail, w.calls, c);
    }
  }

  lemma JointCommitKeepsWorld(catalog: Catalog, w: World, c: nat, plan: Plan, mail: Option<MailReservation>, failAt: Option<Point>)
    requires WorldInv(catalog, w) && c in w.calls && w.calls[c] == Preparing(plan, mail)
    ensures var ok := Succeeds(w.engine, w.mail, plan, mail, failAt);
            WorldInv(catalog, CommitWorld(w, c, EngineAfter(w.engine, plan, ok), MailAfter(w.mail, mail, ok)))
  {
    hide WorldInv, Succeeds, Live, Holds, Timed, Committed, Cancelled, MailCommitted, MailCancelled;
    var ok := Succeeds(w.engine, w.mail, plan, mail, failAt);
    SucceedsInWorld(w, plan, mail, failAt);
    var half := Undoing(plan, None);
    var w1 := w;
    if mail.Some? {
      DropMailKeepsWorld(catalog, w, c, mail.value, half);
      w1 := Put(w.(mail := MailAfter(w.mail, mail, ok)), c, half);
    }
    if ok {
      CommitPlanKeepsWorld(catalog, w1, c, plan, Ended);
      assert w1.calls[c := Ended] == w.calls[c := Ended];
      SameTimes(w, w1, Committed(w.engine, plan));
    } else {
      DropPlanKeepsWorld(catalog, w1, c, plan, Ended);
      assert w1.calls[c := Ended] == w.calls[c := Ended];
      CancelledSessions(w.engine, plan);
      PacedTimes(catalog, w, Cancelled(w.engine, plan));
    }
  }

  lemma SucceedsInWorld(w: World, plan: Plan, mail: Option<MailReservation>, failAt: Option<Point>)
    ensures Succeeds(w.engine, w.mail, plan, mail, failAt) ==> Live(w.engine, plan)
  {
  }

  lemma SameTimes(w: World, w1: World, e: EngineState)
    requires w1.times == w.times && w1.engine == w.engine
    ensures Timed(w1, e) == Timed(w, e)
  {
  }

  lemma PacedTimes(catalog: Catalog, w: World, e: EngineState)
    requires WorldInv(catalog, w) && e.sessions == w.engine.sessions
    ensures Timed(w, e) == w.times
  {
    hide EngineInv, MailInv, EngineOwned, MailOwned;
    SamePace(catalog, w, e);
  }

  lemma GoingKeepsInv(catalog: Catalog, w: World, c: nat, fine: bool, failAt: Option<Point>)
    requires CatalogValid(catalog) && WorldInv(catalog, w) && c in w.calls
    ensures WorldInv(catalog, Turned(catalog, w, Goes(c, fine, failAt)))
  {
    hide WorldInv, Prepare, CatalogValid, Full, Succeeds, Live, Holds, Timed, Committed, Cancelled, MailCommitted, MailCancelled,
      CommitWorld, EngineAfter, MailAfter, MailReserved, NextReservation;
    match w.calls[c]
    case Asking(ask) =>
      if Prepare(catalog, w.engine, ask, w.now).Reserved? {
        ReserveKeepsWorld(catalog, w, c, ask, Planned(Prepare(catalog, w.engine, ask, w.now).plan));
      } else {
        PutKeepsInv(catalog, w, c, Ended);
      }
    case Planned(plan) =>
      if plan.result.mail.None? {
        PutKeepsInv(catalog, w, c, Preparing(plan, None));
      } else if Full(w.mail) {
        PutKeepsInv(catalog, w, c, Undoing(plan, None));
      } else {
        ReserveMailKeepsWorld(catalog, w, c, plan.result.mail.value, Preparing(plan, Some(NextReservation(w.mail, plan.result.mail.value))));
      }
    case Preparing(plan, mail) =>
      if fine {
        JointCommitKeepsWorld(catalog, w, c, plan, mail, failAt);
      } else {
        PutKeepsInv(catalog, w, c, Undoing(plan, mail));
      }
    case Undoing(plan, Some(mail)) => DropMailKeepsWorld(catalog, w, c, mail, Undoing(plan, None));
    case Undoing(plan, None) => DropPlanKeepsWorld(catalog, w, c, plan, Ended);
    case Advancing(ask) =>
      if Prepare(catalog, w.engine, ask, w.now).Reserved? {
        ReserveKeepsWorld(catalog, w, c, ask, Advanced(Prepare(catalog, w.engine, ask, w.now).plan));
      } else {
        PutKeepsInv(catalog, w, c, Ended);
      }
    case Advanced(plan) =>
      CommitPlanKeepsWorld(catalog, w, c, plan, Ended);
      CommitWorldIs(w, c, plan);
    case Capturing(message) =>
      if Full(w.mail) {
        PutKeepsInv(catalog, w, c, Ended);
      } else {
        ReserveMailKeepsWorld(catalog, w, c, message, Captured(NextReservation(w.mail, message)));
      }
    case Captured(mail) => DropMailKeepsWorld(catalog, w, c, mail, Ended);
    case Killed(_, _) =>
    case Ended =>
  }

  lemma CommitWorldIs(w: World, c: nat, plan: Plan)
    requires Live(w.engine, plan)
    ensures CommitWorld(w, c, Committed(w.engine, plan), w.mail) ==
            Put(w, c, Ended).(engine := Committed(w.engine, plan), times := Timed(w, Committed(w.engine, plan)))
  {
    hide Committed, Timed;
  }

  lemma TickingKeepsInv(catalog: Catalog, w: World, seconds: nat)
    requires WorldInv(catalog, w)
    ensures WorldInv(catalog, w.(now := w.now + seconds))
  {
    hide EngineInv, MailInv, EngineOwned, MailOwned, Paced;
    TimeKeepsInv(catalog, w.engine, w.now, w.now + seconds);
  }

  lemma ClearingKeepsInv(catalog: Catalog, w: World)
    requires WorldInv(catalog, w)
    ensures WorldInv(catalog, w.(mail := w.mail.(messages := [])))
  {
    hide EngineInv, EngineOwned, MailOwned, Paced;
    MessagesDoNotMatter(w.mail, w.mail.(messages := []), w.calls);
  }

  /** Whatever happens next, in whatever order, the world stays coherent. */
  lemma TurnKeepsInv(catalog: Catalog, w: World, turn: Turn)
    requires CatalogValid(catalog) && WorldInv(catalog, w)
    ensures WorldInv(catalog, Turned(catalog, w, turn))
  {
    hide WorldInv, CatalogValid;
    match turn
    case Begins(c, call) =>
      if c !in w.calls && (call.Asking? || call.Advancing? || call.Capturing?) {
        PutKeepsInv(catalog, w, c, call);
      }
    case Ticks(seconds) => TickingKeepsInv(catalog, w, seconds);
    case Clears => ClearingKeepsInv(catalog, w);
    case Dies(c) => DyingKeepsInv(catalog, w, c);
    case Goes(c, fine, failAt) =>
      if c in w.calls {
        GoingKeepsInv(catalog, w, c, fine, failAt);
      }
  }

  lemma DyingKeepsInv(catalog: Catalog, w: World, c: nat)
    requires WorldInv(catalog, w)
    ensures WorldInv(catalog, Turned(catalog, w, Dies(c)))
  {
    hide WorldInv, Prepare, Succeeds, Live, Holds, CommitWorld, EngineAfter, MailAfter;
    if c in w.calls {
      match w.calls[c]
      case Planned(plan) => PutKeepsInv(catalog, w, c, Killed(Some(plan), None));
      case Preparing(plan, mail) => PutKeepsInv(catalog, w, c, Killed(Some(plan), mail));
      case Undoing(plan, mail) => PutKeepsInv(catalog, w, c, Killed(Some(plan), mail));
      case Advanced(plan) => PutKeepsInv(catalog, w, c, Killed(Some(plan), None));
      case Captured(reservation) => PutKeepsInv(catalog, w, c, Killed(None, Some(reservation)));
      case _ =>
    }
  }

  // --- Whole runs -------------------------------------------------------------

  const FRESH := World(EngineState(map[], map[], {}, 1), MailState([], map[], 1), map[], 0, map[])

  ghost predicate Execution(catalog: Catalog, worlds: seq<World>, turns: seq<Turn>) {
    && |worlds| == |turns| + 1
    && worlds[0] == FRESH.(now := worlds[0].now)
    && forall i | 0 <= i < |turns| :: worlds[i + 1] == Turned(catalog, worlds[i], turns[i])
  }

  lemma FreshInv(catalog: Catalog, now: nat)
    ensures WorldInv(catalog, FRESH.(now := now))
  {
  }

  /** Every interleaving of any calls stays coherent: at most one reservation per session, each
      owned by one running call, nothing overwritten unseen, scripts and delays obeyed, and
      sessions and messages with their reservations within the caps. */
  lemma {:induction false} ExecutionsKeepInv(catalog: Catalog, worlds: seq<World>, turns: seq<Turn>, i: nat)
    requires CatalogValid(catalog) && Execution(catalog, worlds, turns) && i < |worlds|
    ensures WorldInv(catalog, worlds[i])
  {
    hide CatalogValid, WorldInv, Turned;
    if i == 0 {
      FreshInv(catalog, worlds[0].now);
    } else {
      ExecutionsKeepInv(catalog, worlds, turns, i - 1);
      TurnKeepsInv(catalog, worlds[i - 1], turns[i - 1]);
    }
  }

  /** What that means at any moment of any execution. */
  lemma ReachableWorlds(catalog: Catalog, worlds: seq<World>, turns: seq<Turn>, i: nat)
    requires CatalogValid(catalog) && Execution(catalog, worlds, turns) && i < |worlds|
    ensures var e, m := worlds[i].engine, worlds[i].mail;
            && |e.sessions| + |NewTokens(e.reservations)| <= MAX_SESSIONS
            && |m.messages| + |m.reservations| <= MAX_MAIL_MESSAGES
            && (forall t, u | t in e.reservations && u in e.reservations && t != u ::
                  e.reservations[t].plan.sessionId != e.reservations[u].plan.sessionId)
            && (forall t | t in e.reservations :: Pending(catalog, e, e.reservations[t], worlds[i].now))
            && forall id | id in e.sessions :: OnScript(catalog, e.sessions[id], worlds[i].now)
                                              && id in worlds[i].times && PaceKept(catalog, e.sessions[id], worlds[i].times[id])
  {
    hide CatalogValid, Execution, Pending, OnScript, NewTokens, EngineOwned, MailOwned, PaceKept;
    ExecutionsKeepInv(catalog, worlds, turns, i);
  }

  predicate Idle(w: World) {
    forall c | c in w.calls :: w.calls[c].Ended?
  }

  /** When every call has ended nothing is left reserved. */
  lemma IdleMeansReleased(catalog: Catalog, worlds: seq<World>, turns: seq<Turn>, i: nat)
    requires CatalogValid(catalog) && Execution(catalog, worlds, turns) && i < |worlds|
    requires Idle(worlds[i])
    ensures worlds[i].engine.reservations == map[] && worlds[i].engine.reserved == {} && worlds[i].mail.reservations == map[]
  {
    hide CatalogValid, Execution;
    ExecutionsKeepInv(catalog, worlds, turns, i);
    NothingHeld(catalog, worlds[i]);
  }

  lemma NothingHeld(catalog: Catalog, w: World)
    requires WorldInv(catalog, w) && Idle(w)
    ensures w.engine.reservations == map[] && w.engine.reserved == {} && w.mail.reservations == map[]
  {
    hide Pending, OnScript, NewTokens, Paced, MailInv;
    hide Owned;
    assert Plans(w.calls) == map[] && Mails(w.calls) == map[];
    NothingOwned(FiledPlans(w.engine), Plans(w.calls), PlanToken);
    NothingOwned(w.mail.reservations, Mails(w.calls), MailToken);
    assert FiledPlans(w.engine).Keys == w.engine.reservations.Keys;
  }

  lemma KilledStays(catalog: Catalog, w: World, turn: Turn, c: nat)
    requires c in w.calls && w.calls[c].Killed?
    ensures c in Turned(catalog, w, turn).calls && Turned(catalog, w, turn).calls[c] == w.calls[c]
  {
    hide Prepare, Succeeds, Live, Holds, EngineAfter, MailAfter, Timed, Committed, Cancelled, MailCommitted, MailCancelled, MailReserved;
  }

  /** An uncaught exception between reserving and rendering blocks its session for good: no later
      request for it is ever reserved again. */
  lemma {:induction false} KilledBlocksItsSession(catalog: Catalog, worlds: seq<World>, turns: seq<Turn>, c: nat, plan: Plan, mail: Option<MailReservation>, i: nat, j: nat, q: Ask)
    requires CatalogValid(catalog) && Execution(catalog, worlds, turns) && i <= j < |worlds|
    requires c in worlds[i].calls && worlds[i].calls[c] == Killed(Some(plan), mail) && q.sessionId == plan.sessionId
    ensures c in worlds[j].calls && worlds[j].calls[c] == Killed(Some(plan), mail)
    ensures Prepare(catalog, worlds[j].engine, q, worlds[j].now).Refused?
  {
    hide CatalogValid, Turned, WorldInv, Prepare;
    if i < j {
      KilledBlocksItsSession(catalog, worlds, turns, c, plan, mail, i, j - 1, q);
      KilledStays(catalog, worlds[j - 1], turns[j - 1], c);
    }
    ExecutionsKeepInv(catalog, worlds, turns, j);
    HeldIsRefused(catalog, worlds[j], c, q);
  }

  /** A call killed with a mail reservation, be it a delivery or a capture, keeps that slot for good:
      the reservation stays filed, and from then on the messages can never be cleared. */
  lemma {:induction false} KilledKeepsItsMail(catalog: Catalog, worlds: seq<World>, turns: seq<Turn>, c: nat, kept: Option<Plan>, r: MailReservation, i: nat, j: nat)
    requires CatalogValid(catalog) && Execution(catalog, worlds, turns) && i <= j < |worlds|
    requires c in worlds[i].calls && worlds[i].calls[c] == Killed(kept, Some(r))
    ensures c in worlds[j].calls && worlds[j].calls[c] == Killed(kept, Some(r))
    ensures Holds(worlds[j].mail, r) && Turned(catalog, worlds[j], Clears) == worlds[j]
  {
    hide CatalogValid, WorldInv;
    if i < j {
      hide Turned;
      KilledKeepsItsMail(catalog, worlds, turns, c, kept, r, i, j - 1);
      KilledStays(catalog, worlds[j - 1], turns[j - 1], c);
    }
    ExecutionsKeepInv(catalog, worlds, turns, j);
    KilledMailHeld(catalog, worlds[j], c);
    NothingCleared(catalog, worlds[j], r);
  }

  lemma KilledMailHeld(catalog: Catalog, w: World, c: nat)
    requires WorldInv(catalog, w) && c in w.calls && MailOf(w.calls[c]).Some?
    ensures Holds(w.mail, MailOf(w.calls[c]).value)
  {
    hide EngineInv, EngineOwned, MailOwned, Paced;
    HeldMailIsThere(w.mail, w.calls, c);
  }

  lemma NothingCleared(catalog: Catalog, w: World, r: MailReservation)
    requires Holds(w.mail, r)
    ensures Turned(catalog, w, Clears) == w
  {
  }

  lemma HeldIsRefused(catalog: Catalog, w: World, c: nat, q: Ask)
    requires WorldInv(catalog, w) && c in w.calls && PlanOf(w.calls[c]).Some? && PlanOf(w.calls[c]).value.sessionId == q.sessionId
    ensures Prepare(catalog, w.engine, q, w.now).Refused?
  {
    hide MailInv, MailOwned, Paced, EngineOwned, Tokens, Pending, NewTokens, OnScript;
    HeldIsLive(w.engine, w.calls, c);
  }

  /** How a session may look after one turn: as before, or one scripted step further, not early. */
  ghost predicate Continues(catalog: Catalog, e: EngineState, e': EngineState, id: string) {
    && id in e.sessions && id in e'.sessions
    && (e'.sessions[id] == e.sessions[id] || Follows(catalog, e.sessions[id], e'.sessions[id]))
  }

  lemma CommitContinues(catalog: Catalog, e: EngineState, plan: Plan, now: nat, id: string)
    requires EngineInv(catalog, e, now) && Live(e, plan) && id in e.sessions
    ensures Continues(catalog, e, Committed(e, plan), id)
  {
    hide EngineInv, Follows;
    CommitKeepsInv(catalog, e, plan, now);
  }

  /** No turn of any call loses a session, skips a step, or replaces a transition it did not see. */
  lemma SessionsFollowTheirScripts(catalog: Catalog, w: World, turn: Turn, id: string)
    requires CatalogValid(catalog) && WorldInv(catalog, w) && id in w.engine.sessions
    ensures Continues(catalog, w.engine, Turned(catalog, w, turn).engine, id)
  {
    hide CatalogValid, WorldInv, Continues, Live, Holds, Full, Timed, MailAfter, MailReserved, MailCancelled, MailCommitted, Committed, Cancelled, Prepare, Succeeds;
    EngineOf(catalog, w);
    Unchanged(catalog, w.engine, w.engine, id);
    if turn.Goes? && turn.c in w.calls {
      match w.calls[turn.c]
      case Asking(ask) => ReservingContinues(catalog, w, ask, id);
      case Advancing(ask) => ReservingContinues(catalog, w, ask, id);
      case Preparing(plan, mail) =>
        if Succeeds(w.engine, w.mail, plan, mail, turn.failAt) {
          SucceedsMeansLive(w.engine, w.mail, plan, mail, turn.failAt);
          CommitContinues(catalog, w.engine, plan, w.now, id);
        }
        CancelledSessions(w.engine, plan);
        Unchanged(catalog, w.engine, Cancelled(w.engine, plan), id);
      case Undoing(plan, mail) =>
        CancelledSessions(w.engine, plan);
        Unchanged(catalog, w.engine, Cancelled(w.engine, plan), id);
      case Advanced(plan) =>
        if Live(w.engine, plan) {
          CommitContinues(catalog, w.engine, plan, w.now, id);
        }
      case _ =>
    }
  }

  lemma ReservingContinues(catalog: Catalog, w: World, ask: Ask, id: string)
    requires id in w.engine.sessions
    ensures Prepare(catalog, w.engine, ask, w.now).Reserved? ==> Continues(catalog, w.engine, Prepare(catalog, w.engine, ask, w.now).after, id)
  {
    if Prepare(catalog, w.engine, ask, w.now).Reserved? {
      PreparedSessions(catalog, w.engine, ask, w.now);
    }
  }

  lemma EngineOf(catalog: Catalog, w: World)
    requires WorldInv(catalog, w)
    ensures EngineInv(catalog, w.engine, w.now)
  {
  }

  lemma Unchanged(catalog: Catalog, e: EngineState, e': EngineState, id: string)
    requires id in e.sessions && e'.sessions == e.sessions
    ensures Continues(catalog, e, e', id)
  {
  }

  // --- Mail moves with its transition --------------------------------------------

  /** A call about to commit holds the mail of its plan, reserved, exactly if the plan has one. */
  predicate Matched(call: Call) {
    call.Preparing? ==>
      && (call.mail.Some? <==> call.plan.result.mail.Some?)
      && (call.mail.Some? ==> call.mail.value.message == call.plan.result.mail.value)
  }

  ghost predicate AllMatched(w: World) {
    forall c | c in w.calls :: Matched(w.calls[c])
  }

  lemma TurnKeepsMatched(catalog: Catalog, w: World, turn: Turn)
    requires AllMatched(w)
    ensures AllMatched(Turned(catalog, w, turn))
  {
    hide Prepare, Full, Succeeds, Live, Holds, Timed, Committed, Cancelled, MailCommitted, MailCancelled, EngineAfter, MailAfter, MailReserved;
  }

  lemma {:induction false} ExecutionsKeepMatched(catalog: Catalog, worlds: seq<World>, turns: seq<Turn>, i: nat)
    requires Execution(catalog, worlds, turns) && i < |worlds|
    ensures AllMatched(worlds[i])
  {
    hide Turned, AllMatched;
    if i == 0 {
      FreshMatched(worlds[0].now);
    } else {
      ExecutionsKeepMatched(catalog, worlds, turns, i - 1);
      TurnKeepsMatched(catalog, worlds[i - 1], turns[i - 1]);
    }
  }

  lemma FreshMatched(now: nat)
    ensures AllMatched(FRESH.(now := now))
  {
  }

  lemma PendingIsOfItsStep(catalog: Catalog, e: EngineState, r: Reservation, now: nat)
    requires Pending(catalog, e, r, now)
    ensures OnCatalog(catalog, r.next)
    ensures var step := catalog[r.next.scenario][r.next.stepIndex - 1];
            r.next.state == step.toState && r.plan.result.mail == step.mail
    ensures r.next.stepIndex == (if r.plan.sessionId in e.sessions then e.sessions[r.plan.sessionId].stepIndex else 0) + 1
  {
  }

  lemma PlanFollowsScript(catalog: Catalog, e: EngineState, plan: Plan, now: nat)
    requires EngineInv(catalog, e, now) && Live(e, plan)
    ensures plan.sessionId in Committed(e, plan).sessions
    ensures Committed(e, plan).sessions - {plan.sessionId} == e.sessions - {plan.sessionId}
    ensures var next := Committed(e, plan).sessions[plan.sessionId];
            && OnCatalog(catalog, next)
            && var step := catalog[next.scenario][next.stepIndex - 1];
               && next.state == step.toState && plan.result.mail == step.mail
               && next.stepIndex == (if plan.sessionId in e.sessions then e.sessions[plan.sessionId].stepIndex else 0) + 1
  {
    hide Tokens, NewTokens, Pending, OnScript, OnCatalog;
    PendingIsOfItsStep(catalog, e, e.reservations[plan.token], now);
  }

  lemma SettledStores(e: EngineState, m: MailState, plan: Plan, mail: Option<MailReservation>, ok: bool)
    requires ok ==> Live(e, plan)
    ensures EngineAfter(e, plan, ok).sessions == if ok then Committed(e, plan).sessions else e.sessions
    ensures MailAfter(m, mail, ok).messages == m.messages + (if ok && mail.Some? then [mail.value.message] else [])
  {
    hide Live;
  }

  lemma JointCommitLeaves(catalog: Catalog, w: World, c: nat, plan: Plan, mail: Option<MailReservation>, fine: bool, failAt: Option<Point>)
    requires WorldInv(catalog, w) && c in w.calls && w.calls[c] == Preparing(plan, mail) && Matched(w.calls[c])
    ensures var w' := Turned(catalog, w, Goes(c, fine, failAt));
            if fine && failAt.None? then
              Live(w.engine, plan) && w'.engine.sessions == Committed(w.engine, plan).sessions
              && w'.mail.messages == w.mail.messages + (if plan.result.mail.Some? then [plan.result.mail.value] else [])
            else
              w'.engine.sessions == w.engine.sessions && w'.mail.messages == w.mail.messages
  {
    hide WorldInv, Prepare, Full, Holds, Timed, Live, Succeeds, EngineAfter, MailAfter, Committed;
    JointCommitIsNeverStale(catalog, w, c, plan, mail, failAt);
    SucceedsInWorld(w, plan, mail, failAt);
    SettledStores(w.engine, w.mail, plan, mail, Succeeds(w.engine, w.mail, plan, mail, failAt));
  }

  /** In every interleaving the joint commit of a delivery either moves its session to the end of the
      script's next step and appends exactly that step's mail, in one turn, or moves neither. */
  lemma MailMovesWithItsSession(catalog: Catalog, worlds: seq<World>, turns: seq<Turn>, i: nat, plan: Plan, mail: Option<MailReservation>)
    requires CatalogValid(catalog) && Execution(catalog, worlds, turns) && i < |turns|
    requires turns[i].Goes? && turns[i].c in worlds[i].calls && worlds[i].calls[turns[i].c] == Preparing(plan, mail)
    ensures var before, after, id := worlds[i], worlds[i + 1], plan.sessionId;
            if turns[i].fine && turns[i].failAt.None? then
              && id in after.engine.sessions && after.engine.sessions - {id} == before.engine.sessions - {id}
              && var s := after.engine.sessions[id];
                 && s.scenario in catalog
                 && s.stepIndex == (if id in before.engine.sessions then before.engine.sessions[id].stepIndex else 0) + 1
                 && s.stepIndex <= |catalog[s.scenario]|
                 && var step := catalog[s.scenario][s.stepIndex - 1];
                    && s.state == step.toState
                    && after.mail.messages == before.mail.messages + (if step.mail.Some? then [step.mail.value] else [])
            else
              after.engine.sessions == before.engine.sessions && after.mail.messages == before.mail.messages
  {
    hide CatalogValid, WorldInv, Turned, EngineInv, Live, Matched, Committed;
    ExecutionsKeepInv(catalog, worlds, turns, i);
    ExecutionsKeepMatched(catalog, worlds, turns, i);
    EngineOf(catalog, worlds[i]);
    JointCommitLeaves(catalog, worlds[i], turns[i].c, plan, mail, turns[i].fine, turns[i].failAt);
    if turns[i].fine && turns[i].failAt.None? {
      PlanFollowsScript(catalog, worlds[i].engine, plan, worlds[i].now);
    }
  }

  // --- One call alone ---------------------------------------------------------

  /** `n` sections of call `c` with nothing in between. */
  function Alone(catalog: Catalog, w: World, c: nat, fine: bool, failAt: Option<Point>, n: nat): World {
    if n == 0 then w else Turned(catalog, Alone(catalog, w, c, fine, failAt, n - 1), Goes(c, fine, failAt))
  }

  lemma {:induction false} AloneSplit(catalog: Catalog, w: World, c: nat, fine: bool, failAt: Option<Point>, n: nat)
    ensures Alone(catalog, w, c, fine, failAt, n + 1) == Alone(catalog, Turned(catalog, w, Goes(c, fine, failAt)), c, fine, failAt, n)
  {
    hide Turned;
    if n > 0 {
      AloneSplit(catalog, w, c, fine, failAt, n - 1);
    }
  }

  lemma {:induction false} EndedStays(catalog: Catalog, w: World, c: nat, fine: bool, failAt: Option<Point>, n: nat)
    requires c in w.calls && w.calls[c].Ended?
    ensures Alone(catalog, w, c, fine, failAt, n) == w
  {
    hide Prepare, Live, Holds, Succeeds, EngineAfter, MailAfter, CommitWorld;
    if n > 0 {
      EndedStays(catalog, w, c, fine, failAt, n - 1);
    }
  }

  /** Giving up takes one section for the mail, if there is one, and one for the engine. */
  lemma UndoingAlone(catalog: Catalog, w: World, c: nat, plan: Plan, mail: Option<MailReservation>, fine: bool, failAt: Option<Point>)
    requires c in w.calls && w.calls[c] == Undoing(plan, mail) && BothLive(w.engine, w.mail, plan, mail)
    ensures var w' := Alone(catalog, w, c, fine, failAt, 2);
            w'.engine == Cancelled(w.engine, plan) && w'.mail == MailAfterUndo(w.mail, mail) && c in w'.calls && w'.calls[c].Ended?
  {
    hide Prepare, Live, Holds, Succeeds, EngineAfter, MailAfter, CommitWorld, Cancelled, MailCancelled;
    var w1 := Turned(catalog, w, Goes(c, fine, failAt));
    AloneSplit(catalog, w, c, fine, failAt, 1);
    AloneSplit(catalog, w1, c, fine, failAt, 0);
  }

  lemma PreparingAlone(catalog: Catalog, w: World, c: nat, plan: Plan, mail: Option<MailReservation>, fine: bool, failAt: Option<Point>)
    requires c in w.calls && w.calls[c] == Preparing(plan, mail) && BothLive(w.engine, w.mail, plan, mail)
    ensures var w' := Alone(catalog, w, c, fine, failAt, 3);
            var ok := fine && failAt.None?;
            && w'.engine == EngineAfter(w.engine, plan, ok) && w'.mail == MailAfter(w.mail, mail, ok)
            && c in w'.calls && w'.calls[c].Ended?
  {
    hide Prepare, Live, Holds, Cancelled, MailCancelled, Committed, MailCommitted, Timed, Alone;
    var w1 := Turned(catalog, w, Goes(c, fine, failAt));
    AloneSplit(catalog, w, c, fine, failAt, 2);
    if fine {
      EndedStays(catalog, w1, c, fine, failAt, 2);
    } else {
      UndoingAlone(catalog, w1, c, plan, mail, fine, failAt);
    }
  }

  /** The stores under both reservations that a step needs, while there is room for its mail. */
  lemma PreparationUnderway(catalog: Catalog, w: World, q: Ask, rendering: Rendering, plan: Plan, m: MailState, mail: Option<MailReservation>)
    requires Prepare(catalog, w.engine, q, w.now).Reserved? && plan == Prepare(catalog, w.engine, q, w.now).plan
    requires !rendering.KILLED? && !rendering.KILLED_BEFORE_MAIL?
    requires if plan.result.mail.None? then m == w.mail && mail == None
             else !Full(w.mail) && m == MailReserved(w.mail, plan.result.mail.value) && mail == Some(NextReservation(w.mail, plan.result.mail.value))
    ensures var d := PrepareDelivery(catalog, w.engine, w.mail, w.now, q, rendering);
            var held := Prepare(catalog, w.engine, q, w.now).after;
            && !d.killed
            && (if rendering.RENDERS? then d.engine == held && d.mail == m && d.plan == Some(plan) && d.reservation == mail
                else d.engine == Cancelled(held, plan) && d.mail == MailAfterUndo(m, mail) && d.plan.None?)
  {
    hide Prepare, Live, Full, Cancelled, MailCancelled, MailReserved, NextReservation;
  }

  /** What the rest of a delivery makes of it is what the last sections of the call make of it. */
  lemma UnderwayIsDeliver(catalog: Catalog, w: World, w2: World, c: nat, q: Ask, faults: Faults, plan: Plan, mail: Option<MailReservation>)
    requires Prepare(catalog, w.engine, q, w.now).Reserved? && plan == Prepare(catalog, w.engine, q, w.now).plan
    requires !faults.rendering.KILLED? && !faults.rendering.KILLED_BEFORE_MAIL?
    requires if plan.result.mail.None? then w2.mail == w.mail && mail == None
             else !Full(w.mail) && w2.mail == MailReserved(w.mail, plan.result.mail.value) && mail == Some(NextReservation(w.mail, plan.result.mail.value))
    requires w2.engine == Prepare(catalog, w.engine, q, w.now).after
    requires c in w2.calls && w2.calls[c] == Preparing(plan, mail)
    ensures var w' := Alone(catalog, w2, c, faults.rendering.RENDERS? && !faults.wireRaises, faults.failAt, 3);
            var d := Deliver(catalog, w.engine, w.mail, w.now, q, faults);
            w'.engine == d.engine && w'.mail == d.mail && c in w'.calls && w'.calls[c].Ended?
  {
    hide Prepare, Live, Full, Cancelled, MailCancelled, Committed, MailCommitted, MailReserved, NextReservation, Alone, Deliver, PrepareDelivery, Turned;
    var fine := faults.rendering.RENDERS? && !faults.wireRaises;
    PreparedLive(catalog, w.engine, q, w.now);
    if mail.Some? {
      NewMailHeld(w.mail, plan.result.mail.value);
    }
    PreparationUnderway(catalog, w, q, faults.rendering, plan, w2.mail, mail);
    DeliveryEnds(catalog, w.engine, w.mail, w.now, q, faults);
    PreparingAlone(catalog, w2, c, plan, mail, fine, faults.failAt);
  }

  /** A call that nobody interrupts does to the two stores exactly what a whole delivery does. */
  lemma AloneIsDeliver(catalog: Catalog, w: World, c: nat, q: Ask, faults: Faults)
    requires c in w.calls && w.calls[c] == Asking(q)
    requires !faults.rendering.KILLED? && !faults.rendering.KILLED_BEFORE_MAIL?
    ensures var w' := Alone(catalog, w, c, faults.rendering.RENDERS? && !faults.wireRaises, faults.failAt, 5);
            var d := Deliver(catalog, w.engine, w.mail, w.now, q, faults);
            w'.engine == d.engine && w'.mail == d.mail && c in w'.calls && w'.calls[c].Ended?
  {
    hide Prepare, Live, Holds, Full, MailInv, Cancelled, MailCancelled, Committed, MailCommitted, MailReserved, NextReservation, Timed, Alone, Deliver;
    var fine := faults.rendering.RENDERS? && !faults.wireRaises;
    var w1 := Turned(catalog, w, Goes(c, fine, faults.failAt));
    AloneSplit(catalog, w, c, fine, faults.failAt, 4);
    PreparedLive(catalog, w.engine, q, w.now);
    if Prepare(catalog, w.engine, q, w.now).Refused? {
      DeliveryEnds(catalog, w.engine, w.mail, w.now, q, faults);
      EndedStays(catalog, w1, c, fine, faults.failAt, 4);
    } else {
      var plan := Prepare(catalog, w.engine, q, w.now).plan;
      var w2 := Turned(catalog, w1, Goes(c, fine, faults.failAt));
      AloneSplit(catalog, w1, c, fine, faults.failAt, 3);
      if plan.result.mail.None? {
        UnderwayIsDeliver(catalog, w, w2, c, q, faults, plan, None);
      } else if Full(w.mail) {
        DeliveryEnds(catalog, w.engine, w.mail, w.now, q, faults);
        UndoingAlone(catalog, w2, c, plan, None, fine, faults.failAt);
        AloneSplit(catalog, w2, c, fine, faults.failAt, 2);
        EndedStays(catalog, Alone(catalog, w2, c, fine, faults.failAt, 2), c, fine, faults.failAt, 1);
        AloneLast(catalog, w2, c, fine, faults.failAt);
      } else {
        UnderwayIsDeliver(catalog, w, w2, c, q, faults, plan, Some(NextReservation(w.mail, plan.result.mail.value)));
      }
    }
  }

  lemma AloneLast(catalog: Catalog, w: World, c: nat, fine: bool, failAt: Option<Point>)
    ensures Alone(catalog, w, c, fine, failAt, 3) == Alone(catalog, Alone(catalog, w, c, fine, failAt, 2), c, fine, failAt, 1)
  {
    hide Turned;
  }

  lemma NewMailHeld(m: MailState, message: MailFixture)
    ensures Holds(MailReserved(m, message), NextReservation(m, message))
  {
  }
}

/** Any number of logins, views and logouts on one web shell, interleaved at the shell's locked
    sections and at its calls into the auth service. */
module WebShellRuns {
  import opened Identifiers
  import opened WebShell

  // --- One place for everything -----------------------------------------------

  /** Every item is listed in the shell, held by exactly one call, or done with: one of them and
      only one. */
  ghost predicate OnePlace<T(!new)>(listed: set<T>, held: map<nat, set<T>>, over: set<T>, all: set<T>) {
    && listed <= all && over <= all && listed !! over
    && (forall c | c in held :: held[c] <= all && held[c] !! listed && held[c] !! over)
    && (forall c, d | c in held && d in held && c != d :: held[c] !! held[d])
    && forall x | x in all && x !in listed && x !in over :: exists c :: c in held && x in held[c]
  }

  lemma StillHeld<T(!new)>(held: map<nat, set<T>>, held': map<nat, set<T>>, x: T)
    requires exists c :: c in held && x in held[c]
    requires forall c | c in held && x in held[c] :: c in held' && x in held'[c]
    ensures exists c :: c in held' && x in held'[c]
  {
    var c :| c in held && x in held[c];
    assert c in held' && x in held'[c];
  }

  /** Call `c` takes listed items, gives items back, finishes items, and takes up a new one. */
  lemma Moves<T(!new)>(listed: set<T>, held: map<nat, set<T>>, over: set<T>, all: set<T>, c: nat,
                       taken: set<T>, given: set<T>, finished: set<T>, added: set<T>)
    requires OnePlace(listed, held, over, all) && c in held
    requires taken <= listed && added !! all
    requires given <= held[c] && finished <= held[c] + taken && given !! finished
    ensures OnePlace(listed - taken + given, held[c := held[c] + taken + added - given - finished], over + finished, all + added)
  {
    var mine := held[c] + taken + added - given - finished;
    var held' := held[c := mine];
    forall x | x in all + added && x !in listed - taken + given && x !in over + finished
      ensures exists d :: d in held' && x in held'[d]
    {
      if x in taken || x in added || x in held[c] {
        assert c in held' && x in held'[c];
      } else {
        StillHeld(held, held', x);
      }
    }
  }

  lemma NewHolder<T(!new)>(listed: set<T>, held: map<nat, set<T>>, over: set<T>, all: set<T>, c: nat, added: set<T>)
    requires OnePlace(listed, held, over, all) && c !in held && added !! all
    ensures OnePlace(listed, held[c := added], over, all + added)
  {
    var held' := held[c := added];
    forall x | x in all + added && x !in listed && x !in over ensures exists d :: d in held' && x in held'[d] {
      if x in added {
        assert c in held' && x in held'[c];
      } else {
        StillHeld(held, held', x);
      }
    }
  }

  /** The shell drops listed items without any call: they are over. */
  lemma Drops<T(!new)>(listed: set<T>, held: map<nat, set<T>>, over: set<T>, all: set<T>, dropped: set<T>)
    requires OnePlace(listed, held, over, all) && dropped <= listed
    ensures OnePlace(listed - dropped, held, over + dropped, all)
  {
  }

  // --- The calls --------------------------------------------------------------

  /** Where a call stands between two of its sections, and what it carries. */
  datatype Call =
    | Beginning(challenge: Challenge, now: int)
    | Revoking(rest: seq<Credential>, after: Option<Challenge>)
    | Submitting(id: Id, token: Token, now: int)
    | Checking(taken: Challenge, token: Token, now: int)
    | Installing(credential: Credential, token: Token, now: int)
    | Viewing(id: Id, token: Token, now: int)
    | Judging(id: Id, expires: int, token: Token, now: int)
    | Dropping(id: Id)
    | Refreshing(id: Id, token: Token)
    | LoggingOut(id: Id, token: Token)
    | Counting(now: int)
    | Killed(rest: seq<Credential>, kept: Option<Challenge>)
    | Ended

  /** The credentials a call is about to install or to revoke. */
  function Holding(call: Call): set<Credential> {
    match call
    case Revoking(rest, _) => Elements(rest)
    case Installing(credential, _, _) => {credential}
    case Killed(rest, _) => Elements(rest)
    case _ => {}
  }

  function IdOf(c: Option<Challenge>): set<Id> {
    if c.Some? then {c.value.id} else {}
  }

  /** The challenges a call is about to insert, or has taken out. */
  function HoldingIds(call: Call): set<Id> {
    match call
    case Beginning(challenge, _) => {challenge.id}
    case Revoking(_, after) => IdOf(after)
    case Checking(taken, _, _) => {taken.id}
    case Killed(_, kept) => IdOf(kept)
    case _ => {}
  }

  /** `issued` and `drawn` remember every credential and challenge identifier there ever was;
      `revoked` the credentials the shell revoked, `spent` the challenges that are out of use, and
      `exchanged`, `inserts` and `installs` the challenges that reached an exchange, the challenges
      inserted and the credentials installed, in order. */
  datatype World = World(
    challenges: seq<Challenge>,
    sessions: seq<Session>,
    calls: map<nat, Call>,
    issued: set<Credential>,
    revoked: set<Credential>,
    drawn: set<Id>,
    spent: set<Id>,
    exchanged: seq<Id>,
    inserts: seq<Id>,
    installs: seq<Credential>,
    ttl: int)

  function Listed(challenges: seq<Challenge>): set<Id> {
    set c | c in challenges :: c.id
  }

  /** `Goes(c, answer, denied)` is the next section of call `c`, with what the auth service
      answers if it is asked. */
  datatype Turn =
    | Begins(c: nat, call: Call)
    | Goes(c: nat, answer: Option<Credential>, denied: bool)
    | Dies(c: nat)

  predicate Opening(call: Call) {
    call.Beginning? || call.Submitting? || call.Viewing? || call.LoggingOut? || call.Counting?
  }

  /** Randomness: challenge identifiers are never drawn twice, and the auth service never issues a
      handle twice. */
  predicate FreshTurn(w: World, turn: Turn) {
    && (turn.Begins? && turn.call.Beginning? ==> turn.call.challenge.id !in w.drawn)
    && (turn.Goes? && turn.answer.Some? ==> forall k | k in w.issued :: k.handle != turn.answer.value.handle)
  }

  function Put(w: World, c: nat, call: Call): World {
    w.(calls := w.calls[c := call])
  }

  /** Purging takes expired sessions out for revocation and lets expired challenges go. */
  function Purged(w: World, c: nat, now: int, after: Option<Challenge>): World {
    var kept := LiveChallenges(w.challenges, now);
    Put(w.(challenges := kept, sessions := LiveSessions(w.sessions, now), spent := w.spent + (Listed(w.challenges) - Listed(kept))),
        c, Revoking(CredentialsOf(ExpiredSessions(w.sessions, now)), after))
  }

  function InsertedWorld(w: World, c: nat, challenge: Challenge): World {
    Put(w.(challenges := Inserted(w.challenges, challenge), spent := w.spent + Listed(Oldest(w.challenges, MAX_LOGIN_CHALLENGES)),
           inserts := w.inserts + [challenge.id]),
        c, Ended)
  }

  function InstalledWorld(w: World, c: nat, credential: Credential, token: Token, now: int): World {
    Put(w.(sessions := Installed(w.sessions, Session(credential, [token], now + w.ttl)), installs := w.installs + [credential]),
        c, Revoking(CredentialsOf(Oldest(w.sessions, MAX_SESSIONS)), None))
  }

  function SpentWorld(w: World, c: nat, id: Id, call: Call): World {
    Put(w.(spent := w.spent + {id}), c, call)
  }

  function ExchangedWorld(w: World, c: nat, id: Id, answer: Option<Credential>, token: Token, now: int): World {
    var w' := w.(spent := w.spent + {id}, exchanged := w.exchanged + [id]);
    match answer
    case None => Put(w', c, Ended)
    case Some(credential) => Put(w'.(issued := w.issued + {credential}), c, Installing(credential, token, now))
  }

  function TakenOut(w: World, c: nat, s: Session): World {
    Put(w.(sessions := WithoutSession(w.sessions, SessionKey(s))), c, Revoking([s.credential], None))
  }

  function Gone(w: World, c: nat, turn: Turn): World
    requires turn.Goes? && c in w.calls
  {
    match w.calls[c]
    case Beginning(challenge, now) => Purged(w, c, now, Some(challenge))
    case Counting(now) => Purged(w, c, now, None)
    case Revoking(rest, after) =>
      if rest != [] then Put(w.(revoked := w.revoked + {rest[0]}), c, Revoking(rest[1..], after))
      else if after.None? then Put(w, c, Ended)
      else InsertedWorld(w, c, after.value)
    case Submitting(id, token, now) =>
      (match Find(w.challenges, id, ChallengeKey)
       case None => Put(w, c, Ended)
       case Some(challenge) => Put(w.(challenges := WithoutChallenge(w.challenges, id)), c, Checking(challenge, token, now)))
    case Checking(taken, token, now) =>
      if now >= taken.expires || taken.csrf != token then SpentWorld(w, c, taken.id, Ended)
      else ExchangedWorld(w, c, taken.id, turn.answer, token, now)
    case Installing(credential, token, now) => InstalledWorld(w, c, credential, token, now)
    case Viewing(id, token, now) =>
      (match Find(w.sessions, id, SessionKey)
       case None => Put(w, c, Ended)
       case Some(s) => Put(w, c, Judging(id, s.expires, token, now)))
    case Judging(id, expires, token, now) =>
      if now >= expires || turn.denied then Put(w, c, Dropping(id)) else Put(w, c, Refreshing(id, token))
    case Dropping(id) =>
      (match Find(w.sessions, id, SessionKey)
       case None => Put(w, c, Ended)
       case Some(s) => TakenOut(w, c, s))
    case Refreshing(id, token) => Put(w.(sessions := Refreshed(w.sessions, id, token)), c, Ended)
    case LoggingOut(id, token) =>
      (match Find(w.sessions, id, SessionKey)
       case None => Put(w, c, Ended)
       case Some(s) => if token in s.csrf then TakenOut(w, c, s) else Put(w, c, Ended))
    case Killed(_, _) => w
    case Ended => w
  }

  function Died(w: World, c: nat): World
    requires c in w.calls
  {
    match w.calls[c]
    case Beginning(challenge, _) => Put(w, c, Killed([], Some(challenge)))
    case Revoking(rest, after) => Put(w, c, Killed(rest, after))
    case Checking(taken, _, _) => Put(w, c, Killed([], Some(taken)))
    case Installing(credential, _, _) => Put(w, c, Killed([credential], None))
    case _ => Put(w, c, Ended)
  }

  function Turned(w: World, turn: Turn): World {
    match turn
    case Begins(c, call) =>
      if c in w.calls || !Opening(call) then w
      else if call.Beginning? then Put(w.(drawn := w.drawn + {call.challenge.id}), c, call)
      else Put(w, c, call)
    case Dies(c) => if c in w.calls && !w.calls[c].Killed? then Died(w, c) else w
    case Goes(c, _, _) => if c in w.calls then Gone(w, c, turn) else w
  }

  // --- The invariant ----------------------------------------------------------

  function HeldCredentials(calls: map<nat, Call>): map<nat, set<Credential>> {
    map c | c in calls :: Holding(calls[c])
  }

  function HeldIds(calls: map<nat, Call>): map<nat, set<Id>> {
    map c | c in calls :: HoldingIds(calls[c])
  }

  predicate CallWellFormed(call: Call) {
    (call.Revoking? || call.Killed?) ==> Distinct(call.rest)
  }

  /** Active, revoked, or on the way to it: every credential ever issued, in one place. */
  ghost predicate SessionsConserved(w: World) {
    OnePlace(Active(w.sessions), HeldCredentials(w.calls), w.revoked, w.issued)
  }

  ghost predicate ChallengesOnce(w: World) {
    OnePlace(Listed(w.challenges), HeldIds(w.calls), w.spent, w.drawn)
  }

  ghost predicate Bounded(w: World) {
    && |w.sessions| <= MAX_SESSIONS && DistinctKeys(w.sessions, SessionKey)
    && |w.challenges| <= MAX_LOGIN_CHALLENGES && DistinctKeys(w.challenges, ChallengeKey)
    && (forall s | s in w.sessions :: 0 < |s.csrf| <= MAX_CSRF_TOKENS)
  }

  ghost predicate Bookkeeping(w: World) {
    && (forall a, b | a in w.issued && b in w.issued && a.handle == b.handle :: a == b)
    && (forall c | c in w.calls :: CallWellFormed(w.calls[c]))
    && Distinct(w.exchanged) && Elements(w.exchanged) <= w.spent
  }

  ghost predicate WorldInv(w: World) {
    Bounded(w) && SessionsConserved(w) && ChallengesOnce(w) && Bookkeeping(w)
  }

  // --- Sections move credentials ----------------------------------------------

  lemma CredentialsMove(w: World, w': World, c: nat, call: Call, taken: set<Credential>, given: set<Credential>,
                        finished: set<Credential>, added: set<Credential>)
    requires SessionsConserved(w) && c in w.calls && w'.calls == w.calls[c := call]
    requires taken <= Active(w.sessions) && added !! w.issued
    requires given <= Holding(w.calls[c]) && finished <= Holding(w.calls[c]) + taken && given !! finished
    requires Active(w'.sessions) == Active(w.sessions) - taken + given
    requires Holding(call) == Holding(w.calls[c]) + taken + added - given - finished
    requires w'.revoked == w.revoked + finished && w'.issued == w.issued + added
    ensures SessionsConserved(w')
  {
    hide OnePlace, Active, Holding;
    Moves(Active(w.sessions), HeldCredentials(w.calls), w.revoked, w.issued, c, taken, given, finished, added);
    assert HeldCredentials(w'.calls) == HeldCredentials(w.calls)[c := Holding(call)];
  }

  /** A section that neither lists, revokes nor hands over a credential. */
  lemma CredentialsStay(w: World, w': World, c: nat, call: Call)
    requires SessionsConserved(w) && c in w.calls && w'.calls == w.calls[c := call]
    requires Active(w'.sessions) == Active(w.sessions) && Holding(call) == Holding(w.calls[c])
    requires w'.revoked == w.revoked && w'.issued == w.issued
    ensures SessionsConserved(w')
  {
    hide OnePlace, Active, Holding;
    assert HeldCredentials(w'.calls) == HeldCredentials(w.calls);
  }

  lemma HeldIsNotActive(w: World, c: nat)
    requires SessionsConserved(w) && c in w.calls
    ensures Holding(w.calls[c]) !! Active(w.sessions) && Holding(w.calls[c]) <= w.issued
  {
    hide Active, Holding;
    assert HeldCredentials(w.calls)[c] == Holding(w.calls[c]);
  }

  lemma ElementsOfCredentials(sessions: seq<Session>)
    ensures Elements(CredentialsOf(sessions)) == Active(sessions)
  {
    forall s | s in sessions ensures s.credential in CredentialsOf(sessions) {
      var i :| 0 <= i < |sessions| && sessions[i] == s;
      assert CredentialsOf(sessions)[i] == s.credential;
    }
  }

  lemma PurgeSplits(sessions: seq<Session>, now: int)
    requires DistinctKeys(sessions, SessionKey)
    ensures Active(ExpiredSessions(sessions, now)) <= Active(sessions)
    ensures Active(LiveSessions(sessions, now)) == Active(sessions) - Active(ExpiredSessions(sessions, now))
  {
    forall s, t | s in LiveSessions(sessions, now) && t in ExpiredSessions(sessions, now) ensures s.credential != t.credential {
      if s.credential == t.credential {
        OneUnderKey(sessions, SessionKey, s, t);
      }
    }
  }

  lemma WithoutActive(sessions: seq<Session>, s: Session)
    requires DistinctKeys(sessions, SessionKey) && s in sessions
    ensures Active(WithoutSession(sessions, SessionKey(s))) == Active(sessions) - {s.credential}
    ensures s.credential in Active(sessions)
  {
    forall t | t in sessions && t.credential == s.credential ensures t == s {
      OneUnderKey(sessions, SessionKey, s, t);
    }
    forall t | t in sessions && t.credential != s.credential ensures t in WithoutSession(sessions, SessionKey(s)) {
      if SessionKey(t) == SessionKey(s) {
        OneUnderKey(sessions, SessionKey, s, t);
      }
    }
  }

  lemma RefreshedActive(sessions: seq<Session>, id: Id, token: Token)
    requires DistinctKeys(sessions, SessionKey)
    ensures Active(Refreshed(sessions, id, token)) == Active(sessions)
  {
    hide Upsert;
    var found := Find(sessions, id, SessionKey);
    if found.Some? {
      var s := found.value.(csrf := Recent(found.value.csrf + [token]));
      forall t | t in sessions && SessionKey(t) == SessionKey(s) ensures t.credential == s.credential {
        OneUnderKey(sessions, SessionKey, t, found.value);
      }
      UpsertActive(sessions, s);
      assert s.credential in Active(sessions);
    }
  }

  /** A credential the auth service just issued has a handle that no session uses. */
  lemma HeldHandleIsFree(w: World, c: nat, credential: Credential, s: Session)
    requires SessionsConserved(w) && Bookkeeping(w) && c in w.calls && Holding(w.calls[c]) == {credential} && s.credential == credential
    ensures HandleFree(w.sessions, s)
  {
    HeldIsNotActive(w, c);
    forall t | t in w.sessions && SessionKey(t) == SessionKey(s) ensures t.credential == s.credential {
      assert t.credential in Active(w.sessions);
    }
  }

  lemma InstallMoves(w: World, c: nat, credential: Credential, token: Token, now: int)
    requires Bounded(w) && SessionsConserved(w) && Bookkeeping(w) && c in w.calls && w.calls[c] == Installing(credential, token, now)
    ensures SessionsConserved(InstalledWorld(w, c, credential, token, now))
  {
    var s := Session(credential, [token], now + w.ttl);
    var gone, kept := Oldest(w.sessions, MAX_SESSIONS), Newest(w.sessions, MAX_SESSIONS);
    assert Holding(w.calls[c]) == {credential};
    HeldIsNotActive(w, c);
    HeldHandleIsFree(w, c, credential, s);
    hide SessionsConserved, Bookkeeping, Active, Oldest, Newest, Upsert;
    ActiveSplits(w.sessions);
    KeptHandleIsFree(w.sessions, s);
    UpsertActive(kept, s);
    ElementsOfCredentials(gone);
    CredentialsMove(w, InstalledWorld(w, c, credential, token, now), c, Revoking(CredentialsOf(gone), None), Active(gone), {credential}, {}, {});
  }

  lemma KeptHandleIsFree(sessions: seq<Session>, s: Session)
    requires HandleFree(sessions, s)
    ensures HandleFree(Newest(sessions, MAX_SESSIONS), s)
  {
  }

  lemma PurgeMoves(w: World, c: nat, now: int, after: Option<Challenge>)
    requires Bounded(w) && SessionsConserved(w) && c in w.calls && Holding(w.calls[c]) == {}
    ensures SessionsConserved(Purged(w, c, now, after))
  {
    var gone := ExpiredSessions(w.sessions, now);
    hide SessionsConserved, Active, ExpiredSessions, LiveSessions;
    PurgeSplits(w.sessions, now);
    ElementsOfCredentials(gone);
    CredentialsMove(w, Purged(w, c, now, after), c, Revoking(CredentialsOf(gone), after), Active(gone), {}, {}, {});
  }

  lemma TakingMoves(w: World, c: nat, s: Session)
    requires Bounded(w) && SessionsConserved(w) && c in w.calls && Holding(w.calls[c]) == {} && s in w.sessions
    ensures SessionsConserved(TakenOut(w, c, s))
  {
    hide SessionsConserved, Active, WithoutSession;
    WithoutActive(w.sessions, s);
    assert Elements([s.credential]) == {s.credential};
    CredentialsMove(w, TakenOut(w, c, s), c, Revoking([s.credential], None), {s.credential}, {}, {}, {});
  }

  lemma RevokingMoves(w: World, c: nat, rest: seq<Credential>, after: Option<Challenge>)
    requires SessionsConserved(w) && c in w.calls && w.calls[c] == Revoking(rest, after) && rest != [] && Distinct(rest)
    ensures SessionsConserved(Put(w.(revoked := w.revoked + {rest[0]}), c, Revoking(rest[1..], after)))
  {
    hide SessionsConserved, Active;
    HeadAndTail(rest);
    CredentialsMove(w, Put(w.(revoked := w.revoked + {rest[0]}), c, Revoking(rest[1..], after)), c, Revoking(rest[1..], after), {}, {}, {rest[0]}, {});
  }

  lemma HeadAndTail(rest: seq<Credential>)
    requires rest != [] && Distinct(rest)
    ensures rest[0] in Elements(rest) && Elements(rest[1..]) == Elements(rest) - {rest[0]} && Distinct(rest[1..])
  {
    assert rest == [rest[0]] + rest[1..];
    assert forall i | 0 < i < |rest| :: rest[i] != rest[0];
  }

  lemma ExchangeMoves(w: World, c: nat, id: Id, answer: Option<Credential>, token: Token, now: int)
    requires SessionsConserved(w) && c in w.calls && Holding(w.calls[c]) == {}
    requires answer.Some? ==> answer.value !in w.issued
    ensures SessionsConserved(ExchangedWorld(w, c, id, answer, token, now))
  {
    hide SessionsConserved, Active;
    if answer.None? {
      CredentialsStay(w, ExchangedWorld(w, c, id, answer, token, now), c, Ended);
    } else {
      CredentialsMove(w, ExchangedWorld(w, c, id, answer, token, now), c, Installing(answer.value, token, now), {}, {}, {}, {answer.value});
    }
  }

  /** Sections that only look, or only touch challenges and form tokens. */
  lemma LookingConserves(w: World, c: nat, turn: Turn)
    requires Bounded(w) && SessionsConserved(w) && turn.Goes? && c in w.calls
    requires w.calls[c].Submitting? || w.calls[c].Viewing? || w.calls[c].Judging? || w.calls[c].Refreshing?
    ensures SessionsConserved(Gone(w, c, turn))
  {
    DistinctSessions(w);
    hide SessionsConserved, Bounded, Active, Refreshed, WithoutChallenge;
    if w.calls[c].Refreshing? {
      RefreshedActive(w.sessions, w.calls[c].id, w.calls[c].token);
    }
    CredentialsStay(w, Gone(w, c, turn), c, Gone(w, c, turn).calls[c]);
  }

  lemma ClosingConserves(w: World, c: nat, turn: Turn)
    requires SessionsConserved(w) && turn.Goes? && c in w.calls && w.calls[c].Revoking? && CallWellFormed(w.calls[c])
    ensures SessionsConserved(Gone(w, c, turn))
  {
    var rest := w.calls[c].rest;
    hide SessionsConserved, Active, Inserted, Listed;
    if rest != [] {
      RevokingMoves(w, c, rest, w.calls[c].after);
    } else {
      assert Elements(rest) == {};
      CredentialsStay(w, Gone(w, c, turn), c, Ended);
    }
  }

  lemma CheckingConserves(w: World, c: nat, turn: Turn)
    requires SessionsConserved(w) && turn.Goes? && FreshTurn(w, turn) && c in w.calls && w.calls[c].Checking?
    ensures SessionsConserved(Gone(w, c, turn))
  {
    hide SessionsConserved, Active, ExchangedWorld;
    var taken, token, now := w.calls[c].taken, w.calls[c].token, w.calls[c].now;
    if now >= taken.expires || taken.csrf != token {
      CredentialsStay(w, Gone(w, c, turn), c, Ended);
    } else {
      ExchangeMoves(w, c, taken.id, turn.answer, token, now);
    }
  }

  lemma WellFormedCall(w: World, c: nat)
    requires Bookkeeping(w) && c in w.calls
    ensures CallWellFormed(w.calls[c])
  {
  }

  lemma GoingConserves(w: World, c: nat, turn: Turn)
    requires WorldInv(w) && turn.Goes? && FreshTurn(w, turn) && c in w.calls
    ensures SessionsConserved(Gone(w, c, turn))
  {
    hide SessionsConserved, ChallengesOnce, Bookkeeping, Bounded, TakenOut, Purged, InstalledWorld, ExchangedWorld, InsertedWorld, SpentWorld,
      Refreshed, CallWellFormed, FreshTurn, WithoutChallenge;
    WellFormedCall(w, c);
    match w.calls[c]
    case Beginning(challenge, now) => PurgeMoves(w, c, now, Some(challenge));
    case Counting(now) => PurgeMoves(w, c, now, None);
    case Revoking(_, _) => ClosingConserves(w, c, turn);
    case Checking(_, _, _) => CheckingConserves(w, c, turn);
    case Installing(credential, token, now) => InstallMoves(w, c, credential, token, now);
    case Dropping(id) => TakingOrNot(w, c, turn, id);
    case LoggingOut(id, token) => TakingOrNot(w, c, turn, id);
    case Killed(_, _) =>
    case Ended =>
    case _ => LookingConserves(w, c, turn);
  }

  lemma TakingOrNot(w: World, c: nat, turn: Turn, id: Id)
    requires Bounded(w) && SessionsConserved(w) && turn.Goes? && c in w.calls
    requires w.calls[c] == Dropping(id) || (w.calls[c].LoggingOut? && w.calls[c].id == id)
    ensures SessionsConserved(Gone(w, c, turn))
  {
    hide SessionsConserved, Bounded, TakenOut, Active;
    var found := Find(w.sessions, id, SessionKey);
    if found.Some? && (w.calls[c].Dropping? || w.calls[c].token in found.value.csrf) {
      TakingMoves(w, c, found.value);
    } else {
      CredentialsStay(w, Gone(w, c, turn), c, Ended);
    }
  }

  lemma DistinctSessions(w: World)
    requires Bounded(w)
    ensures DistinctKeys(w.sessions, SessionKey) && DistinctKeys(w.challenges, ChallengeKey)
  {
  }

  /** A call that dies keeps what it held, for good. */
  lemma DyingHoldsOn(w: World, c: nat)
    requires c in w.calls && !w.calls[c].Killed?
    ensures Holding(Died(w, c).calls[c]) == Holding(w.calls[c]) && HoldingIds(Died(w, c).calls[c]) == HoldingIds(w.calls[c])
    ensures CallWellFormed(w.calls[c]) ==> CallWellFormed(Died(w, c).calls[c])
  {
  }

  lemma DyingConserves(w: World, c: nat)
    requires SessionsConserved(w) && ChallengesOnce(w) && c in w.calls && !w.calls[c].Killed?
    ensures SessionsConserved(Died(w, c)) && ChallengesOnce(Died(w, c))
  {
    hide SessionsConserved, ChallengesOnce, Active, Listed;
    var call := Died(w, c).calls[c];
    DyingHoldsOn(w, c);
    hide Holding, HoldingIds;
    CredentialsStay(w, Died(w, c), c, call);
    IdsStay(w, Died(w, c), c, call);
  }

  // --- Sections move challenges -----------------------------------------------

  lemma IdsMove(w: World, w': World, c: nat, call: Call, dropped: set<Id>, taken: set<Id>, given: set<Id>, finished: set<Id>)
    requires ChallengesOnce(w) && c in w.calls && w'.calls == w.calls[c := call]
    requires dropped <= Listed(w.challenges) && taken <= Listed(w.challenges) - dropped
    requires given <= HoldingIds(w.calls[c]) && finished <= HoldingIds(w.calls[c]) + taken && given !! finished
    requires Listed(w'.challenges) == Listed(w.challenges) - dropped - taken + given
    requires HoldingIds(call) == HoldingIds(w.calls[c]) + taken - given - finished
    requires w'.spent == w.spent + dropped + finished && w'.drawn == w.drawn
    ensures ChallengesOnce(w')
  {
    hide OnePlace, Listed, HoldingIds;
    Drops(Listed(w.challenges), HeldIds(w.calls), w.spent, w.drawn, dropped);
    Moves(Listed(w.challenges) - dropped, HeldIds(w.calls), w.spent + dropped, w.drawn, c, taken, given, finished, {});
    assert HeldIds(w'.calls) == HeldIds(w.calls)[c := HoldingIds(call)];
    assert HoldingIds(w.calls[c]) + taken + {} - given - finished == HoldingIds(call);
    assert w.drawn + {} == w.drawn;
  }

  lemma IdsStay(w: World, w': World, c: nat, call: Call)
    requires ChallengesOnce(w) && c in w.calls && w'.calls == w.calls[c := call]
    requires Listed(w'.challenges) == Listed(w.challenges) && HoldingIds(call) == HoldingIds(w.calls[c])
    requires w'.spent == w.spent && w'.drawn == w.drawn
    ensures ChallengesOnce(w')
  {
    hide OnePlace, Listed, HoldingIds;
    assert HeldIds(w'.calls) == HeldIds(w.calls);
  }

  lemma HeldIdIsNotListed(w: World, c: nat)
    requires ChallengesOnce(w) && c in w.calls
    ensures HoldingIds(w.calls[c]) !! Listed(w.challenges) && HoldingIds(w.calls[c]) !! w.spent
  {
    hide Listed, HoldingIds;
    assert HeldIds(w.calls)[c] == HoldingIds(w.calls[c]);
  }

  lemma PurgeMovesIds(w: World, c: nat, now: int, after: Option<Challenge>)
    requires ChallengesOnce(w) && c in w.calls && HoldingIds(w.calls[c]) == IdOf(after)
    ensures ChallengesOnce(Purged(w, c, now, after))
  {
    hide ChallengesOnce;
    var kept := LiveChallenges(w.challenges, now);
    assert Listed(kept) <= Listed(w.challenges);
    IdsMove(w, Purged(w, c, now, after), c, Purged(w, c, now, after).calls[c], Listed(w.challenges) - Listed(kept), {}, {}, {});
  }

  lemma ListedSplits(challenges: seq<Challenge>)
    requires DistinctKeys(challenges, ChallengeKey)
    ensures var gone, kept := Oldest(challenges, MAX_LOGIN_CHALLENGES), Newest(challenges, MAX_LOGIN_CHALLENGES);
            Listed(challenges) == Listed(gone) + Listed(kept) && Listed(gone) !! Listed(kept) && DistinctKeys(kept, ChallengeKey)
  {
    EvictionSplits(challenges, MAX_LOGIN_CHALLENGES, ChallengeKey);
    hide Oldest, Newest;
    var gone, kept := Oldest(challenges, MAX_LOGIN_CHALLENGES), Newest(challenges, MAX_LOGIN_CHALLENGES);
    forall a, b | a in gone && b in kept ensures a.id != b.id {
      assert ChallengeKey(a) != ChallengeKey(b);
    }
  }

  lemma UpsertListed(challenges: seq<Challenge>, challenge: Challenge)
    requires DistinctKeys(challenges, ChallengeKey)
    ensures Listed(Upsert(challenges, challenge, ChallengeKey)) == Listed(challenges) + {challenge.id}
  {
    UpsertDistinct(challenges, challenge, ChallengeKey);
    hide Upsert;
    var r := Upsert(challenges, challenge, ChallengeKey);
    assert challenge in r;
    forall x | x in challenges ensures x.id in Listed(r) {
      if ChallengeKey(x) != ChallengeKey(challenge) {
        assert x in r;
      }
    }
  }

  lemma InsertMovesIds(w: World, c: nat, challenge: Challenge)
    requires Bounded(w) && ChallengesOnce(w) && c in w.calls && HoldingIds(w.calls[c]) == {challenge.id}
    ensures ChallengesOnce(InsertedWorld(w, c, challenge))
  {
    HeldIdIsNotListed(w, c);
    hide ChallengesOnce, Listed, Oldest, Newest, Upsert;
    ListedSplits(w.challenges);
    UpsertListed(Newest(w.challenges, MAX_LOGIN_CHALLENGES), challenge);
    IdsMove(w, InsertedWorld(w, c, challenge), c, Ended, Listed(Oldest(w.challenges, MAX_LOGIN_CHALLENGES)), {}, {challenge.id}, {});
  }

  lemma WithoutListed(challenges: seq<Challenge>, challenge: Challenge)
    requires challenge in challenges
    ensures Listed(WithoutChallenge(challenges, challenge.id)) == Listed(challenges) - {challenge.id}
    ensures challenge.id in Listed(challenges)
  {
    var r := WithoutChallenge(challenges, challenge.id);
    forall x | x in challenges && x.id != challenge.id ensures x.id in Listed(r) {
      assert x in r;
    }
  }

  lemma GoingKeepsChallenges(w: World, c: nat, turn: Turn)
    requires WorldInv(w) && turn.Goes? && c in w.calls
    ensures ChallengesOnce(Gone(w, c, turn))
  {
    hide SessionsConserved, ChallengesOnce, Bookkeeping, Bounded, Listed, Purged, InsertedWorld, WithoutChallenge;
    var w' := Gone(w, c, turn);
    match w.calls[c]
    case Beginning(challenge, now) => PurgeMovesIds(w, c, now, Some(challenge));
    case Counting(now) => PurgeMovesIds(w, c, now, None);
    case Revoking(rest, after) =>
      if rest == [] && after.Some? {
        InsertMovesIds(w, c, after.value);
      } else {
        IdsStay(w, w', c, w'.calls[c]);
      }
    case Submitting(id, token, now) =>
      var found := Find(w.challenges, id, ChallengeKey);
      if found.None? {
        IdsStay(w, w', c, Ended);
      } else {
        WithoutListed(w.challenges, found.value);
        IdsMove(w, w', c, Checking(found.value, token, now), {}, {id}, {}, {});
      }
    case Checking(taken, token, now) =>
      IdsMove(w, w', c, w'.calls[c], {}, {}, {}, {taken.id});
    case Killed(_, _) =>
    case Ended =>
    case _ => IdsStay(w, w', c, w'.calls[c]);
  }

  // --- Bounds and bookkeeping -------------------------------------------------

  lemma SectionsStayBounded(w: World, c: nat, turn: Turn)
    requires Bounded(w) && turn.Goes? && c in w.calls
    ensures Bounded(Gone(w, c, turn))
  {
    hide Bounded, Purged, InsertedWorld, InstalledWorld, TakenOut, Refreshed, WithoutChallenge;
    match w.calls[c]
    case Beginning(challenge, now) => PurgeBounded(w, c, now, Some(challenge));
    case Counting(now) => PurgeBounded(w, c, now, None);
    case Revoking(rest, after) =>
      if rest == [] && after.Some? {
        InsertBounded(w, c, after.value);
      } else {
        SameBounds(w, Gone(w, c, turn));
      }
    case Submitting(id, token, now) => TakeChallengeBounded(w, Gone(w, c, turn), id);
    case Installing(credential, token, now) => InstallBounded(w, c, credential, token, now);
    case Refreshing(id, token) => RefreshBounded(w, Gone(w, c, turn), id, token);
    case Dropping(id) => TakeBounded(w, c, turn, id);
    case LoggingOut(id, _) => TakeBounded(w, c, turn, id);
    case _ => SameBounds(w, Gone(w, c, turn));
  }

  lemma SameBounds(w: World, w': World)
    requires Bounded(w) && w'.sessions == w.sessions && w'.challenges == w.challenges
    ensures Bounded(w')
  {
  }

  lemma PurgeBounded(w: World, c: nat, now: int, after: Option<Challenge>)
    requires Bounded(w)
    ensures Bounded(Purged(w, c, now, after))
  {
    FilterDistinct(w.sessions, (s: Session) => now < s.expires, SessionKey);
    FilterDistinct(w.challenges, (x: Challenge) => now < x.expires, ChallengeKey);
  }

  lemma InsertBounded(w: World, c: nat, challenge: Challenge)
    requires Bounded(w)
    ensures Bounded(InsertedWorld(w, c, challenge))
  {
    hide Upsert, Oldest, Newest;
    EvictionSplits(w.challenges, MAX_LOGIN_CHALLENGES, ChallengeKey);
    UpsertDistinct(Newest(w.challenges, MAX_LOGIN_CHALLENGES), challenge, ChallengeKey);
  }

  lemma InstallBounded(w: World, c: nat, credential: Credential, token: Token, now: int)
    requires Bounded(w)
    ensures Bounded(InstalledWorld(w, c, credential, token, now))
  {
    hide Upsert, Oldest, Newest;
    EvictionSplits(w.sessions, MAX_SESSIONS, SessionKey);
    UpsertDistinct(Newest(w.sessions, MAX_SESSIONS), Session(credential, [token], now + w.ttl), SessionKey);
  }

  lemma TakeChallengeBounded(w: World, w': World, id: Id)
    requires Bounded(w) && w'.sessions == w.sessions
    requires w'.challenges == w.challenges || w'.challenges == WithoutChallenge(w.challenges, id)
    ensures Bounded(w')
  {
    FilterDistinct(w.challenges, (x: Challenge) => ChallengeKey(x) != id, ChallengeKey);
  }

  lemma RefreshBounded(w: World, w': World, id: Id, token: Token)
    requires Bounded(w) && w'.challenges == w.challenges && w'.sessions == Refreshed(w.sessions, id, token)
    ensures Bounded(w')
  {
    var found := Find(w.sessions, id, SessionKey);
    if found.Some? {
      var s := found.value.(csrf := Recent(found.value.csrf + [token]));
      UpsertDistinct(w.sessions, s, SessionKey);
      assert |Upsert(w.sessions, s, SessionKey)| == |w.sessions|;
    }
  }

  lemma TakeBounded(w: World, c: nat, turn: Turn, id: Id)
    requires Bounded(w) && turn.Goes? && c in w.calls
    requires w.calls[c] == Dropping(id) || (w.calls[c].LoggingOut? && w.calls[c].id == id)
    ensures Bounded(Gone(w, c, turn))
  {
    FilterDistinct(w.sessions, (s: Session) => SessionKey(s) != id, SessionKey);
  }

  lemma CredentialsDistinct(sessions: seq<Session>)
    requires DistinctKeys(sessions, SessionKey)
    ensures Distinct(CredentialsOf(sessions))
  {
    forall i, j | 0 <= i < j < |sessions| ensures CredentialsOf(sessions)[i] != CredentialsOf(sessions)[j] {
      assert SessionKey(sessions[i]) != SessionKey(sessions[j]);
    }
  }

  /** A section of one call leaves the other calls alone. */
  lemma OtherCallsStay(w: World, c: nat, turn: Turn)
    requires turn.Goes? && c in w.calls
    ensures Gone(w, c, turn).calls == w.calls[c := Gone(w, c, turn).calls[c]]
  {
    hide Installed, Inserted, Refreshed, WithoutSession, WithoutChallenge, Oldest, LiveSessions, LiveChallenges, ExpiredSessions, Listed;
  }

  lemma SectionCallWellFormed(w: World, c: nat, turn: Turn)
    requires Bounded(w) && turn.Goes? && c in w.calls && CallWellFormed(w.calls[c])
    ensures CallWellFormed(Gone(w, c, turn).calls[c])
  {
    DistinctSessions(w);
    hide Bounded, DistinctKeys, Installed, Inserted, Refreshed, WithoutSession, WithoutChallenge, Oldest, LiveSessions, LiveChallenges,
      ExpiredSessions, Listed, CredentialsOf;
    match w.calls[c]
    case Beginning(_, now) => ExpiredDistinct(w.sessions, now);
    case Counting(now) => ExpiredDistinct(w.sessions, now);
    case Installing(_, _, _) => EvictedDistinct(w.sessions);
    case _ =>
  }

  lemma ExpiredDistinct(sessions: seq<Session>, now: int)
    requires DistinctKeys(sessions, SessionKey)
    ensures Distinct(CredentialsOf(ExpiredSessions(sessions, now)))
  {
    FilterDistinct(sessions, (s: Session) => now >= s.expires, SessionKey);
    CredentialsDistinct(ExpiredSessions(sessions, now));
  }

  lemma EvictedDistinct(sessions: seq<Session>)
    requires DistinctKeys(sessions, SessionKey)
    ensures Distinct(CredentialsOf(Oldest(sessions, MAX_SESSIONS)))
  {
    EvictionSplits(sessions, MAX_SESSIONS, SessionKey);
    CredentialsDistinct(Oldest(sessions, MAX_SESSIONS));
  }

  lemma ExchangeBooks(w: World, c: nat, turn: Turn)
    requires ChallengesOnce(w) && Bookkeeping(w) && turn.Goes? && FreshTurn(w, turn) && c in w.calls
    ensures var w' := Gone(w, c, turn);
            && (forall a, b | a in w'.issued && b in w'.issued && a.handle == b.handle :: a == b)
            && Distinct(w'.exchanged) && Elements(w'.exchanged) <= w'.spent
  {
    HeldIdIsNotListed(w, c);
    hide ChallengesOnce, Installed, Inserted, Refreshed, WithoutSession, WithoutChallenge, Oldest, LiveSessions, LiveChallenges, ExpiredSessions, Listed;
    if w.calls[c].Checking? {
      assert w.calls[c].taken.id !in Elements(w.exchanged);
    }
  }

  lemma GoingKeepsBooks(w: World, c: nat, turn: Turn)
    requires WorldInv(w) && turn.Goes? && FreshTurn(w, turn) && c in w.calls
    ensures Bookkeeping(Gone(w, c, turn))
  {
    hide Bounded, SessionsConserved, ChallengesOnce, Gone, CallWellFormed, Distinct, FreshTurn;
    ExchangeBooks(w, c, turn);
    OtherCallsStay(w, c, turn);
    SectionCallWellFormed(w, c, turn);
  }

  lemma BeginningKeepsInv(w: World, c: nat, call: Call)
    requires WorldInv(w) && FreshTurn(w, Begins(c, call)) && c !in w.calls && Opening(call)
    ensures WorldInv(Turned(w, Begins(c, call)))
  {
    var w' := Turned(w, Begins(c, call));
    hide OnePlace, Bounded, Active, Listed, Distinct, SessionsConserved, ChallengesOnce;
    SameBounds(w, w');
    BeginningConserves(w, w', c, call);
    BeginningDraws(w, w', c, call);
  }

  lemma BeginningConserves(w: World, w': World, c: nat, call: Call)
    requires SessionsConserved(w) && c !in w.calls && Opening(call) && w'.calls == w.calls[c := call]
    requires w'.sessions == w.sessions && w'.revoked == w.revoked && w'.issued == w.issued
    ensures SessionsConserved(w')
  {
    hide OnePlace, Active;
    assert HeldCredentials(w'.calls) == HeldCredentials(w.calls)[c := {}];
    NewHolder(Active(w.sessions), HeldCredentials(w.calls), w.revoked, w.issued, c, {});
    assert w.issued + {} == w.issued;
  }

  lemma BeginningDraws(w: World, w': World, c: nat, call: Call)
    requires ChallengesOnce(w) && c !in w.calls && Opening(call) && w'.calls == w.calls[c := call]
    requires HoldingIds(call) !! w.drawn && w'.drawn == w.drawn + HoldingIds(call)
    requires w'.challenges == w.challenges && w'.spent == w.spent
    ensures ChallengesOnce(w')
  {
    hide OnePlace, Listed, HoldingIds;
    assert HeldIds(w'.calls) == HeldIds(w.calls)[c := HoldingIds(call)];
    NewHolder(Listed(w.challenges), HeldIds(w.calls), w.spent, w.drawn, c, HoldingIds(call));
  }

  lemma DyingKeepsInv(w: World, c: nat)
    requires WorldInv(w) && c in w.calls && !w.calls[c].Killed?
    ensures WorldInv(Died(w, c))
  {
    hide SessionsConserved, ChallengesOnce, Bounded, CallWellFormed;
    DyingConserves(w, c);
    DyingHoldsOn(w, c);
    SameBounds(w, Died(w, c));
  }

  /** Whatever happens next, nothing is lost and nothing is in two places. */
  lemma TurnKeepsInv(w: World, turn: Turn)
    requires WorldInv(w) && FreshTurn(w, turn)
    ensures WorldInv(Turned(w, turn))
  {
    match turn
    case Begins(c, call) =>
      hide WorldInv, FreshTurn;
      if c !in w.calls && Opening(call) {
        BeginningKeepsInv(w, c, call);
      }
    case Dies(c) =>
      hide WorldInv, Died;
      if c in w.calls && !w.calls[c].Killed? {
        DyingKeepsInv(w, c);
      }
    case Goes(c, _, _) =>
      hide Bounded, SessionsConserved, ChallengesOnce, Bookkeeping, Gone, FreshTurn;
      if c in w.calls {
        SectionsStayBounded(w, c, turn);
        GoingConserves(w, c, turn);
        GoingKeepsChallenges(w, c, turn);
        GoingKeepsBooks(w, c, turn);
      }
  }

  // --- Whole runs -------------------------------------------------------------

  ghost predicate Execution(worlds: seq<World>, turns: seq<Turn>) {
    && |worlds| == |turns| + 1
    && worlds[0] == World([], [], map[], {}, {}, {}, {}, [], [], [], worlds[0].ttl)
    && forall i | 0 <= i < |turns| :: FreshTurn(worlds[i], turns[i]) && worlds[i + 1] == Turned(worlds[i], turns[i])
  }

  /** In any interleaving every credential ever issued is active, revoked, or held by exactly one
      call; every challenge is in one place; and the caps hold. */
  lemma {:induction false} ExecutionsKeepInv(worlds: seq<World>, turns: seq<Turn>, i: nat)
    requires Execution(worlds, turns) && i < |worlds|
    ensures WorldInv(worlds[i])
  {
    hide Turned, FreshTurn;
    if i == 0 {
      assert WorldInv(worlds[0]);
    } else {
      hide WorldInv;
      ExecutionsKeepInv(worlds, turns, i - 1);
      TurnKeepsInv(worlds[i - 1], turns[i - 1]);
    }
  }

  /** What that means for one credential, and for the sizes of the stores. */
  lemma CredentialsAreAccountedFor(worlds: seq<World>, turns: seq<Turn>, i: nat, credential: Credential)
    requires Execution(worlds, turns) && i < |worlds| && credential in worlds[i].issued
    ensures credential in Active(worlds[i].sessions) || credential in worlds[i].revoked
            || exists c :: c in worlds[i].calls && credential in Holding(worlds[i].calls[c])
    ensures credential in Active(worlds[i].sessions) ==> credential !in worlds[i].revoked
    ensures |worlds[i].sessions| <= MAX_SESSIONS && |worlds[i].challenges| <= MAX_LOGIN_CHALLENGES
    ensures forall s | s in worlds[i].sessions :: |s.csrf| <= MAX_CSRF_TOKENS
  {
    hide Execution, ChallengesOnce, Bookkeeping, Active, Holding;
    ExecutionsKeepInv(worlds, turns, i);
    if credential !in Active(worlds[i].sessions) && credential !in worlds[i].revoked {
      var held := HeldCredentials(worlds[i].calls);
      var c :| c in held && credential in held[c];
    }
  }

  /** Each challenge reaches at most one exchange. */
  lemma ChallengesAreOneUse(worlds: seq<World>, turns: seq<Turn>, i: nat)
    requires Execution(worlds, turns) && i < |worlds|
    ensures Distinct(worlds[i].exchanged)
  {
    hide Execution, Bounded, SessionsConserved, ChallengesOnce;
    ExecutionsKeepInv(worlds, turns, i);
  }

  predicate AllEnded(w: World) {
    forall c | c in w.calls :: w.calls[c].Ended?
  }

  /** Once every call has ended, a credential is either active or revoked. */
  lemma NothingLeavesUnrevoked(worlds: seq<World>, turns: seq<Turn>, i: nat, credential: Credential)
    requires Execution(worlds, turns) && i < |worlds| && AllEnded(worlds[i]) && credential in worlds[i].issued
    ensures credential in worlds[i].revoked <==> credential !in Active(worlds[i].sessions)
  {
    hide Execution, Bounded, ChallengesOnce, Bookkeeping;
    ExecutionsKeepInv(worlds, turns, i);
  }
}

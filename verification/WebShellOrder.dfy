/** First in, first out, and why anything leaves: what the interleaved web shell does to the order of
    its stores and to single sessions and challenges. */
module WebShellOrder {
  import opened Identifiers
  import opened WebShell
  import opened WebShellRuns

  // --- Lists in the order of a history ------------------------------------------

  /** All keys of `xs` are in `all`, and `xs` lists them in that order. */
  ghost predicate InOrder<T(!new), K(!new)>(xs: seq<T>, key: T -> K, all: seq<K>) {
    && (forall i | 0 <= i < |xs| :: key(xs[i]) in all)
    && forall i, j, m, n | 0 <= i < j < |xs| && 0 <= m < |all| && 0 <= n < |all| && all[m] == key(xs[i]) && all[n] == key(xs[j]) :: m < n
  }

  lemma OrderAppend<T(!new), K(!new)>(xs: seq<T>, x: T, key: T -> K, all: seq<K>)
    requires InOrder(xs, key, all) && key(x) !in all
    ensures InOrder(xs + [x], key, all + [key(x)])
  {
  }

  lemma OrderSuffix<T(!new), K(!new)>(xs: seq<T>, key: T -> K, all: seq<K>, n: nat)
    requires InOrder(xs, key, all) && n <= |xs|
    ensures InOrder(xs[n..], key, all)
  {
  }

  lemma OrderExtend<T(!new), K(!new)>(xs: seq<T>, x: T, key: T -> K, all: seq<K>)
    requires InOrder(xs, key, all) && key(x) in all
    requires forall y, m, n | y in xs && 0 <= m < |all| && 0 <= n < |all| && all[m] == key(y) && all[n] == key(x) :: m < n
    ensures InOrder(xs + [x], key, all)
  {
    forall i, j, m, n | 0 <= i < j < |xs| + 1 && 0 <= m < |all| && 0 <= n < |all| && all[m] == key((xs + [x])[i]) && all[n] == key((xs + [x])[j])
      ensures m < n
    {
      assert xs[i] in xs;
    }
  }

  lemma {:induction false} OrderFilter<T(!new), K(!new)>(xs: seq<T>, keep: T -> bool, key: T -> K, all: seq<K>)
    requires InOrder(xs, key, all)
    ensures InOrder(Filter(xs, keep), key, all)
  {
    if xs != [] {
      var front, last := xs[..|xs| - 1], xs[|xs| - 1];
      OrderFilter(front, keep, key, all);
      if keep(last) {
        forall y, m, n | y in Filter(front, keep) && 0 <= m < |all| && 0 <= n < |all| && all[m] == key(y) && all[n] == key(last) ensures m < n {
          var i :| 0 <= i < |front| && front[i] == y;
          assert xs[i] == y;
        }
        OrderExtend(Filter(front, keep), last, key, all);
      }
    }
  }

  function CredentialOf(s: Session): Credential {
    s.credential
  }

  // --- The invariant --------------------------------------------------------------

  /** The challenge a call has drawn and not yet inserted. */
  function Awaiting(call: Call): Option<Id> {
    match call
    case Beginning(challenge, _) => Some(challenge.id)
    case Revoking(_, Some(challenge)) => Some(challenge.id)
    case _ => None
  }

  ghost predicate SessionsOrdered(w: World) {
    && Distinct(w.installs) && Elements(w.installs) <= w.issued
    && InOrder(w.sessions, CredentialOf, w.installs)
    && forall c | c in w.calls && w.calls[c].Installing? :: w.calls[c].credential !in w.installs
  }

  ghost predicate ChallengesOrdered(w: World) {
    && Distinct(w.inserts) && Elements(w.inserts) <= w.drawn
    && InOrder(w.challenges, ChallengeKey, w.inserts)
    && forall c | c in w.calls && Awaiting(w.calls[c]).Some? :: Awaiting(w.calls[c]).value !in w.inserts
  }

  // --- Sections keep the order of sessions -------------------------------------------

  lemma SameInstalls(w: World, w': World, c: nat, call: Call)
    requires SessionsOrdered(w) && w'.calls == w.calls[c := call] && w'.installs == w.installs && w.issued <= w'.issued
    requires InOrder(w'.sessions, CredentialOf, w.installs)
    requires call.Installing? ==> call.credential !in w.installs
    ensures SessionsOrdered(w')
  {
    hide InOrder, Distinct;
  }

  lemma RefreshedOrdered(sessions: seq<Session>, id: Id, token: Token, all: seq<Credential>)
    requires DistinctKeys(sessions, SessionKey) && InOrder(sessions, CredentialOf, all)
    ensures InOrder(Refreshed(sessions, id, token), CredentialOf, all)
  {
    var found := Find(sessions, id, SessionKey);
    if found.Some? {
      var t := found.value.(csrf := Recent(found.value.csrf + [token]));
      var n :| 0 <= n < |sessions| && sessions[n] == found.value;
      UpsertKeepsPlace(sessions, t, SessionKey, n);
      SameKeysSameOrder(sessions, sessions[n := t], CredentialOf, all);
    }
  }

  lemma SameKeysSameOrder<T(!new), K(!new)>(xs: seq<T>, ys: seq<T>, key: T -> K, all: seq<K>)
    requires InOrder(xs, key, all) && |ys| == |xs| && forall i | 0 <= i < |xs| :: key(ys[i]) == key(xs[i])
    ensures InOrder(ys, key, all)
  {
  }

  lemma InstallOrdered(w: World, c: nat, credential: Credential, token: Token, now: int)
    requires WorldInv(w) && SessionsOrdered(w) && c in w.calls && w.calls[c] == Installing(credential, token, now)
    ensures SessionsOrdered(InstalledWorld(w, c, credential, token, now))
    ensures var n := if |w.sessions| < 16 then 0 else |w.sessions| - 15;
            InstalledWorld(w, c, credential, token, now).sessions == w.sessions[n..] + [Session(credential, [token], now + w.ttl)]
  {
    hide Bounded, ChallengesOnce, InOrder, Distinct, Active, Upsert, Oldest, Newest;
    var s := Session(credential, [token], now + w.ttl);
    var n := if |w.sessions| < 16 then 0 else |w.sessions| - 15;
    HandleUnused(w, c, credential);
    InstallAppends(w.sessions, s);
    OrderSuffix(w.sessions, CredentialOf, w.installs, n);
    OrderAppend(w.sessions[n..], s, CredentialOf, w.installs);
    DistinctExtends(w.installs, credential);
    OthersInstall(w, c, credential);
  }

  lemma HandleUnused(w: World, c: nat, credential: Credential)
    requires WorldInv(w) && SessionsOrdered(w) && c in w.calls && w.calls[c].Installing? && w.calls[c].credential == credential
    ensures credential in w.issued
    ensures forall t | t in w.sessions :: t.credential.handle != credential.handle
  {
    hide Bounded, ChallengesOnce, InOrder, Distinct, Active;
    HeldIsNotActive(w, c);
    forall t | t in w.sessions ensures t.credential.handle != credential.handle {
      ActiveHas(w.sessions, t);
      IssuedHas(w, t.credential);
    }
  }

  lemma ActiveHas(sessions: seq<Session>, t: Session)
    requires t in sessions
    ensures t.credential in Active(sessions)
  {
  }

  lemma IssuedHas(w: World, credential: Credential)
    requires SessionsConserved(w) && credential in Active(w.sessions)
    ensures credential in w.issued
  {
    hide Active;
  }

  lemma OthersInstall(w: World, c: nat, credential: Credential)
    requires SessionsConserved(w) && c in w.calls && w.calls[c].Installing? && w.calls[c].credential == credential
    ensures forall d | d in w.calls && d != c && w.calls[d].Installing? :: w.calls[d].credential != credential
  {
    hide Active;
    var held := HeldCredentials(w.calls);
    forall d | d in w.calls && d != c && w.calls[d].Installing? ensures w.calls[d].credential != credential {
      assert held[c] == {credential} && held[d] == {w.calls[d].credential};
      assert held[c] !! held[d];
    }
  }

  /** What a section other than an installation does to the sessions. */
  lemma SectionSessions(w: World, c: nat, turn: Turn)
    requires turn.Goes? && c in w.calls && !w.calls[c].Installing?
    ensures var w' := Gone(w, c, turn);
            match w.calls[c]
            case Beginning(_, now) => w'.sessions == LiveSessions(w.sessions, now)
            case Counting(now) => w'.sessions == LiveSessions(w.sessions, now)
            case Dropping(id) => w'.sessions == w.sessions || w'.sessions == WithoutSession(w.sessions, id)
            case LoggingOut(id, _) => w'.sessions == w.sessions || w'.sessions == WithoutSession(w.sessions, id)
            case Refreshing(id, token) => w'.sessions == Refreshed(w.sessions, id, token)
            case _ => w'.sessions == w.sessions
  {
    hide Installed, Inserted, Refreshed, WithoutSession, WithoutChallenge, Oldest, LiveSessions, LiveChallenges, ExpiredSessions, Listed;
  }

  /** Only an installation installs, and only an exchange leads to one. */
  lemma SectionInstalls(w: World, c: nat, turn: Turn)
    requires turn.Goes? && FreshTurn(w, turn) && c in w.calls && !w.calls[c].Installing?
    ensures var w' := Gone(w, c, turn);
            && w'.installs == w.installs && w.issued <= w'.issued
            && (w'.calls[c].Installing? ==> w'.calls[c].credential !in w.issued)
  {
    hide Installed, Inserted, Refreshed, WithoutSession, WithoutChallenge, Oldest, LiveSessions, LiveChallenges, ExpiredSessions, Listed, Find;
  }

  lemma GoingKeepsSessionOrder(w: World, c: nat, turn: Turn)
    requires WorldInv(w) && SessionsOrdered(w) && turn.Goes? && FreshTurn(w, turn) && c in w.calls
    ensures SessionsOrdered(Gone(w, c, turn))
  {
    if w.calls[c].Installing? {
      hide WorldInv, SessionsOrdered, InstalledWorld;
      InstallOrdered(w, c, w.calls[c].credential, w.calls[c].token, w.calls[c].now);
    } else {
      hide WorldInv, InOrder, Distinct, Gone, FreshTurn;
      OtherCallsStay(w, c, turn);
      GoingListsInOrder(w, c, turn);
      SectionInstalls(w, c, turn);
      SameInstalls(w, Gone(w, c, turn), c, Gone(w, c, turn).calls[c]);
    }
  }

  lemma GoingListsInOrder(w: World, c: nat, turn: Turn)
    requires WorldInv(w) && SessionsOrdered(w) && turn.Goes? && c in w.calls && !w.calls[c].Installing?
    ensures InOrder(Gone(w, c, turn).sessions, CredentialOf, w.installs)
  {
    hide ChallengesOnce, SessionsConserved, Bookkeeping;
    DistinctSessions(w);
    SectionSessions(w, c, turn);
    hide WorldInv, InOrder, Distinct, Filter, Refreshed, Gone;
    match w.calls[c]
    case Beginning(_, now) => OrderFilter(w.sessions, (s: Session) => now < s.expires, CredentialOf, w.installs);
    case Counting(now) => OrderFilter(w.sessions, (s: Session) => now < s.expires, CredentialOf, w.installs);
    case Dropping(id) => OrderFilter(w.sessions, (s: Session) => SessionKey(s) != id, CredentialOf, w.installs);
    case LoggingOut(id, _) => OrderFilter(w.sessions, (s: Session) => SessionKey(s) != id, CredentialOf, w.installs);
    case Refreshing(id, token) => RefreshedOrdered(w.sessions, id, token, w.installs);
    case _ =>
  }

  // --- Sections keep the order of challenges ------------------------------------------

  lemma SameInserts(w: World, w': World, c: nat, call: Call)
    requires ChallengesOrdered(w) && w'.calls == w.calls[c := call] && w'.inserts == w.inserts && w.drawn <= w'.drawn
    requires InOrder(w'.challenges, ChallengeKey, w.inserts)
    requires Awaiting(call).Some? ==> Awaiting(call).value !in w.inserts
    ensures ChallengesOrdered(w')
  {
    hide InOrder, Distinct, Awaiting;
  }

  lemma InsertOrdered(w: World, c: nat, challenge: Challenge)
    requires WorldInv(w) && ChallengesOrdered(w) && c in w.calls && w.calls[c] == Revoking([], Some(challenge))
    ensures ChallengesOrdered(InsertedWorld(w, c, challenge))
    ensures var n := if |w.challenges| < 32 then 0 else |w.challenges| - 31;
            InsertedWorld(w, c, challenge).challenges == w.challenges[n..] + [challenge]
  {
    hide Bounded, SessionsConserved, InOrder, Distinct, Listed, Upsert, Oldest, Newest;
    var n := if |w.challenges| < 32 then 0 else |w.challenges| - 31;
    IdUnused(w, c, challenge);
    InsertAppends(w.challenges, challenge);
    OrderSuffix(w.challenges, ChallengeKey, w.inserts, n);
    OrderAppend(w.challenges[n..], challenge, ChallengeKey, w.inserts);
    DistinctExtends(w.inserts, challenge.id);
    OthersInsert(w, c, challenge.id);
  }

  lemma IdUnused(w: World, c: nat, challenge: Challenge)
    requires ChallengesOnce(w) && c in w.calls && w.calls[c] == Revoking([], Some(challenge))
    ensures challenge.id in w.drawn
    ensures forall x | x in w.challenges :: x.id != challenge.id
  {
    assert HoldingIds(w.calls[c]) == {challenge.id};
    assert HeldIds(w.calls)[c] == {challenge.id};
    HeldIdIsNotListed(w, c);
  }

  lemma OthersInsert(w: World, c: nat, id: Id)
    requires ChallengesOnce(w) && c in w.calls && Awaiting(w.calls[c]) == Some(id)
    ensures forall d | d in w.calls && d != c && Awaiting(w.calls[d]).Some? :: Awaiting(w.calls[d]).value != id
  {
    hide Listed;
    var held := HeldIds(w.calls);
    forall d | d in w.calls && d != c && Awaiting(w.calls[d]).Some? ensures Awaiting(w.calls[d]).value != id {
      assert held[c] == {id} && held[d] == {Awaiting(w.calls[d]).value};
      assert held[c] !! held[d];
    }
  }

  /** What a section other than an insertion does to the challenges. */
  lemma SectionChallenges(w: World, c: nat, turn: Turn)
    requires turn.Goes? && c in w.calls && !(w.calls[c].Revoking? && w.calls[c].rest == [])
    ensures var w' := Gone(w, c, turn);
            && w'.inserts == w.inserts && w'.drawn == w.drawn
            && (Awaiting(w'.calls[c]).Some? ==> Awaiting(w'.calls[c]) == Awaiting(w.calls[c]))
            && match w.calls[c]
               case Beginning(_, now) => w'.challenges == LiveChallenges(w.challenges, now)
               case Counting(now) => w'.challenges == LiveChallenges(w.challenges, now)
               case Submitting(id, _, _) => w'.challenges == w.challenges || w'.challenges == WithoutChallenge(w.challenges, id)
               case _ => w'.challenges == w.challenges
  {
    hide Installed, Inserted, Refreshed, WithoutSession, WithoutChallenge, Oldest, LiveSessions, LiveChallenges, ExpiredSessions, Listed;
  }

  lemma GoingKeepsChallengeOrder(w: World, c: nat, turn: Turn)
    requires WorldInv(w) && ChallengesOrdered(w) && turn.Goes? && c in w.calls
    ensures ChallengesOrdered(Gone(w, c, turn))
  {
    if w.calls[c].Revoking? && w.calls[c].rest == [] {
      hide WorldInv, InOrder, Distinct, InsertedWorld;
      if w.calls[c].after.Some? {
        InsertOrdered(w, c, w.calls[c].after.value);
      } else {
        SameInserts(w, Gone(w, c, turn), c, Ended);
      }
    } else {
      hide WorldInv, InOrder, Distinct, Gone;
      OtherCallsStay(w, c, turn);
      GoingListsChallenges(w, c, turn);
      SectionChallenges(w, c, turn);
      SameInserts(w, Gone(w, c, turn), c, Gone(w, c, turn).calls[c]);
    }
  }

  lemma GoingListsChallenges(w: World, c: nat, turn: Turn)
    requires ChallengesOrdered(w) && turn.Goes? && c in w.calls && !(w.calls[c].Revoking? && w.calls[c].rest == [])
    ensures InOrder(Gone(w, c, turn).challenges, ChallengeKey, w.inserts)
  {
    SectionChallenges(w, c, turn);
    hide InOrder, Distinct, Filter, Gone, Awaiting;
    match w.calls[c]
    case Beginning(_, now) => OrderFilter(w.challenges, (x: Challenge) => now < x.expires, ChallengeKey, w.inserts);
    case Counting(now) => OrderFilter(w.challenges, (x: Challenge) => now < x.expires, ChallengeKey, w.inserts);
    case Submitting(id, _, _) => OrderFilter(w.challenges, (x: Challenge) => ChallengeKey(x) != id, ChallengeKey, w.inserts);
    case _ =>
  }

  // --- Whole runs -------------------------------------------------------------------------

  ghost predicate Ordered(w: World) {
    SessionsOrdered(w) && ChallengesOrdered(w)
  }

  lemma BeginningKeepsOrder(w: World, c: nat, call: Call)
    requires WorldInv(w) && Ordered(w) && FreshTurn(w, Begins(c, call)) && c !in w.calls && Opening(call)
    ensures Ordered(Turned(w, Begins(c, call)))
  {
    hide WorldInv, InOrder, Distinct;
    SameInstalls(w, Turned(w, Begins(c, call)), c, call);
    SameInserts(w, Turned(w, Begins(c, call)), c, call);
  }

  lemma DyingKeepsOrder(w: World, c: nat)
    requires Ordered(w) && c in w.calls
    ensures Ordered(Died(w, c))
  {
    hide InOrder, Distinct;
    SameInstalls(w, Died(w, c), c, Died(w, c).calls[c]);
    SameInserts(w, Died(w, c), c, Died(w, c).calls[c]);
  }

  lemma TurnKeepsOrder(w: World, turn: Turn)
    requires WorldInv(w) && Ordered(w) && FreshTurn(w, turn)
    ensures Ordered(Turned(w, turn))
  {
    hide WorldInv, SessionsOrdered, ChallengesOrdered, Gone, Died, FreshTurn;
    match turn
    case Begins(c, call) =>
      if c !in w.calls && Opening(call) {
        BeginningKeepsOrder(w, c, call);
      }
    case Dies(c) =>
      if c in w.calls {
        DyingKeepsOrder(w, c);
      }
    case Goes(c, _, _) =>
      if c in w.calls {
        GoingKeepsSessionOrder(w, c, turn);
        GoingKeepsChallengeOrder(w, c, turn);
      }
  }

  /** In any interleaving sessions are listed in the order of their installations, and challenges in that
      of their insertions, and no credential or challenge comes in twice. */
  lemma {:induction false} ExecutionsKeepOrder(worlds: seq<World>, turns: seq<Turn>, i: nat)
    requires Execution(worlds, turns) && i < |worlds|
    ensures Distinct(worlds[i].installs) && InOrder(worlds[i].sessions, CredentialOf, worlds[i].installs)
    ensures Distinct(worlds[i].inserts) && InOrder(worlds[i].challenges, ChallengeKey, worlds[i].inserts)
    ensures Ordered(worlds[i])
  {
    hide Turned, FreshTurn, WorldInv, InOrder, Distinct;
    if i == 0 {
      NothingOrdered(worlds[0]);
    } else {
      ExecutionsKeepOrder(worlds, turns, i - 1);
      ExecutionsKeepInv(worlds, turns, i - 1);
      TurnKeepsOrder(worlds[i - 1], turns[i - 1]);
    }
  }

  lemma NothingOrdered(w: World)
    requires w == World([], [], map[], {}, {}, {}, {}, [], [], [], w.ttl)
    ensures Ordered(w)
  {
  }

  /** Cutting the oldest entries and adding one at the end is first in, first out. */
  lemma CutIsFirstInFirstOut<T(!new), K(!new)>(xs: seq<T>, x: T, key: T -> K, all: seq<K>, n: nat)
    requires InOrder(xs, key, all) && Distinct(all) && key(x) !in all && n <= |xs|
    requires forall i, j | 0 <= i < j < |xs| :: key(xs[i]) != key(xs[j])
    ensures var ys, all' := xs[n..] + [x], all + [key(x)];
            && (forall y | y in xs :: y !in ys <==> y in xs[..n])
            && forall g, t, a, b | g in xs && g !in ys && t in ys && 0 <= a < |all'| && 0 <= b < |all'| && all'[a] == key(g) && all'[b] == key(t) :: a < b
  {
    var ys, all' := xs[n..] + [x], all + [key(x)];
    forall y | y in xs ensures y !in ys <==> y in xs[..n] {
      CutSplits(xs, x, key, all, n, y);
    }
    forall g, t, a, b | g in xs && g !in ys && t in ys && 0 <= a < |all'| && 0 <= b < |all'| && all'[a] == key(g) && all'[b] == key(t)
      ensures a < b
    {
      CutBefore(xs, x, key, all, n, g, t, a, b);
    }
  }

  lemma CutSplits<T(!new), K(!new)>(xs: seq<T>, x: T, key: T -> K, all: seq<K>, n: nat, y: T)
    requires InOrder(xs, key, all) && key(x) !in all && n <= |xs| && y in xs
    requires forall i, j | 0 <= i < j < |xs| :: key(xs[i]) != key(xs[j])
    ensures y !in xs[n..] + [x] <==> y in xs[..n]
  {
    var i :| 0 <= i < |xs| && xs[i] == y;
    if i < n {
      assert xs[..n][i] == y;
    } else {
      assert xs[n..][i - n] == y;
    }
  }

  lemma CutBefore<T(!new), K(!new)>(xs: seq<T>, x: T, key: T -> K, all: seq<K>, n: nat, g: T, t: T, a: nat, b: nat)
    requires InOrder(xs, key, all) && key(x) !in all && n <= |xs|
    requires g in xs && g !in xs[n..] && t in xs[n..] + [x]
    requires a < |all + [key(x)]| && b < |all + [key(x)]| && (all + [key(x)])[a] == key(g) && (all + [key(x)])[b] == key(t)
    ensures a < b
  {
    forall k | n <= k < |xs| ensures xs[k] in xs[n..] {
      assert xs[n..][k - n] == xs[k];
    }
    var i :| 0 <= i < |xs| && xs[i] == g;
    assert i < n && a < |all|;
    if b < |all| {
      var j :| 0 <= j < |xs[n..] + [x]| && (xs[n..] + [x])[j] == t;
      assert all[b] == key(t) && key(t) != key(x);
      assert xs[n + j] == t;
    }
  }

  /** An installation evicts nothing below sixteen sessions, and else just enough to make room for the new
      one, which goes last; whatever is evicted was installed before all that stay, and is revoked next. */
  lemma SessionsLeaveFirstInFirstOut(worlds: seq<World>, turns: seq<Turn>, i: nat, credential: Credential, token: Token, now: int)
    requires Execution(worlds, turns) && i < |turns| && turns[i].Goes? && turns[i].c in worlds[i].calls
    requires worlds[i].calls[turns[i].c] == Installing(credential, token, now)
    ensures var w, w', n := worlds[i], worlds[i + 1], if |worlds[i].sessions| < 16 then 0 else |worlds[i].sessions| - 15;
            && w'.installs == w.installs + [credential]
            && w'.sessions == w.sessions[n..] + [Session(credential, [token], now + w.ttl)]
            && w'.calls[turns[i].c] == Revoking(CredentialsOf(w.sessions[..n]), None)
            && (forall g, t, a, b | g in w.sessions && g !in w'.sessions && t in w'.sessions
                                    && 0 <= a < |w'.installs| && 0 <= b < |w'.installs|
                                    && w'.installs[a] == g.credential && w'.installs[b] == t.credential :: a < b)
  {
    hide Execution, WorldInv, InOrder, Distinct, Installed, Oldest;
    StepOf(worlds, turns, i);
    ExecutionsKeepInv(worlds, turns, i);
    ExecutionsKeepOrder(worlds, turns, i);
    var w, c := worlds[i], turns[i].c;
    var n := if |w.sessions| < 16 then 0 else |w.sessions| - 15;
    InstallOrdered(w, c, credential, token, now);
    HandleUnused(w, c, credential);
    InstallAppends(w.sessions, Session(credential, [token], now + w.ttl));
    CredentialsDiffer(w);
    CutIsFirstInFirstOut(w.sessions, Session(credential, [token], now + w.ttl), CredentialOf, w.installs, n);
  }

  lemma StepOf(worlds: seq<World>, turns: seq<Turn>, i: nat)
    requires Execution(worlds, turns) && i < |turns|
    ensures |worlds| == |turns| + 1 && worlds[i + 1] == Turned(worlds[i], turns[i]) && FreshTurn(worlds[i], turns[i])
  {
    hide Turned, FreshTurn;
  }

  lemma CredentialsDiffer(w: World)
    requires WorldInv(w)
    ensures forall i, j | 0 <= i < j < |w.sessions| :: CredentialOf(w.sessions[i]) != CredentialOf(w.sessions[j])
    ensures forall i, j | 0 <= i < j < |w.challenges| :: ChallengeKey(w.challenges[i]) != ChallengeKey(w.challenges[j])
  {
    hide SessionsConserved, ChallengesOnce, Bookkeeping;
    forall i, j | 0 <= i < j < |w.sessions| ensures CredentialOf(w.sessions[i]) != CredentialOf(w.sessions[j]) {
      assert SessionKey(w.sessions[i]) != SessionKey(w.sessions[j]);
    }
  }

  /** The same for challenges, of which thirty-two are kept. */
  lemma ChallengesLeaveFirstInFirstOut(worlds: seq<World>, turns: seq<Turn>, i: nat, challenge: Challenge)
    requires Execution(worlds, turns) && i < |turns| && turns[i].Goes? && turns[i].c in worlds[i].calls
    requires worlds[i].calls[turns[i].c] == Revoking([], Some(challenge))
    ensures var w, w', n := worlds[i], worlds[i + 1], if |worlds[i].challenges| < 32 then 0 else |worlds[i].challenges| - 31;
            && w'.inserts == w.inserts + [challenge.id]
            && w'.challenges == w.challenges[n..] + [challenge]
            && (forall g, t, a, b | g in w.challenges && g !in w'.challenges && t in w'.challenges
                                    && 0 <= a < |w'.inserts| && 0 <= b < |w'.inserts|
                                    && w'.inserts[a] == g.id && w'.inserts[b] == t.id :: a < b)
  {
    hide Execution, WorldInv, InOrder, Distinct, Inserted, Oldest, Listed;
    StepOf(worlds, turns, i);
    ExecutionsKeepInv(worlds, turns, i);
    ExecutionsKeepOrder(worlds, turns, i);
    var w, c := worlds[i], turns[i].c;
    var n := if |w.challenges| < 32 then 0 else |w.challenges| - 31;
    InsertOrdered(w, c, challenge);
    CredentialsDiffer(w);
    CutIsFirstInFirstOut(w.challenges, challenge, ChallengeKey, w.inserts, n);
  }

  // --- Why anything leaves, and what an exchange needs --------------------------------------

  lemma RefreshedKeeps(sessions: seq<Session>, id: Id, token: Token, s: Session)
    requires DistinctKeys(sessions, SessionKey) && s in sessions
    ensures s.credential in Active(Refreshed(sessions, id, token))
  {
    hide Refreshed;
    RefreshedActive(sessions, id, token);
  }

  lemma LogoutTakes(w: World, c: nat, turn: Turn, s: Session)
    requires WorldInv(w) && turn.Goes? && c in w.calls && w.calls[c].LoggingOut?
    requires s in w.sessions && s.credential !in Active(Gone(w, c, turn).sessions)
    ensures s.credential.handle == w.calls[c].id && w.calls[c].token in s.csrf
  {
    DistinctSessions(w);
    hide WorldInv;
    var found := Find(w.sessions, w.calls[c].id, SessionKey);
    if SessionKey(s) == w.calls[c].id {
      OneUnderKey(w.sessions, SessionKey, s, found.value);
    }
  }

  lemma SectionLetsGo(w: World, c: nat, turn: Turn, s: Session)
    requires WorldInv(w) && SessionsOrdered(w) && turn.Goes? && c in w.calls && !w.calls[c].LoggingOut? && !w.calls[c].Installing?
    requires s in w.sessions && s.credential !in Active(Gone(w, c, turn).sessions)
    ensures match w.calls[c]
            case Beginning(_, now) => now >= s.expires
            case Counting(now) => now >= s.expires
            case Dropping(id) => s.credential.handle == id
            case _ => false
  {
    DistinctSessions(w);
    SectionSessions(w, c, turn);
    hide WorldInv, SessionsOrdered, Gone, Refreshed;
    if w.calls[c].Refreshing? {
      RefreshedKeeps(w.sessions, w.calls[c].id, w.calls[c].token, s);
    }
  }

  lemma InstallLetsGo(w: World, c: nat, s: Session)
    requires WorldInv(w) && SessionsOrdered(w) && c in w.calls && w.calls[c].Installing? && s in w.sessions
    requires s.credential !in Active(InstalledWorld(w, c, w.calls[c].credential, w.calls[c].token, w.calls[c].now).sessions)
    ensures |w.sessions| >= 16
  {
    assert w.sessions[0..] == w.sessions;
    InstallOrdered(w, c, w.calls[c].credential, w.calls[c].token, w.calls[c].now);
    hide WorldInv, SessionsOrdered, Installed, Oldest;
  }

  /** A session stops being listed only if it has expired, if sixteen are listed and one is installed, if
      a call that saw its handle expired or denied drops it, or if it is logged out with one of its form
      tokens. */
  lemma SessionsLeaveForAReason(worlds: seq<World>, turns: seq<Turn>, i: nat, s: Session)
    requires Execution(worlds, turns) && i < |turns| && s in worlds[i].sessions && s.credential !in Active(worlds[i + 1].sessions)
    ensures turns[i].Goes? && turns[i].c in worlds[i].calls
    ensures match worlds[i].calls[turns[i].c]
            case Beginning(_, now) => now >= s.expires
            case Counting(now) => now >= s.expires
            case Installing(_, _, _) => |worlds[i].sessions| >= 16
            case Dropping(id) => s.credential.handle == id
            case LoggingOut(id, token) => s.credential.handle == id && token in s.csrf
            case _ => false
  {
    StepOf(worlds, turns, i);
    hide Execution, WorldInv, SessionsOrdered, ChallengesOrdered, InOrder, Distinct, InstalledWorld, FreshTurn;
    ExecutionsKeepInv(worlds, turns, i);
    ExecutionsKeepOrder(worlds, turns, i);
    ActiveHas(worlds[i].sessions, s);
    OnlySectionsTouchSessions(worlds[i], turns[i]);
    var w, c := worlds[i], turns[i].c;
    if w.calls[c].LoggingOut? {
      LogoutTakes(w, c, turns[i], s);
    } else if w.calls[c].Installing? {
      InstallLetsGo(w, c, s);
    } else {
      SectionLetsGo(w, c, turns[i], s);
    }
  }

  lemma OnlySectionsTouchSessions(w: World, turn: Turn)
    ensures Turned(w, turn).sessions == w.sessions || (turn.Goes? && turn.c in w.calls && Turned(w, turn) == Gone(w, turn.c, turn))
  {
    hide Gone;
  }

  /** A call drops a session only after it saw a session of that handle that had expired by then, or
      the auth service denied its credential. */
  lemma DropsOnlyExpiredOrDenied(w: World, turn: Turn, c: nat, id: Id)
    requires c in Turned(w, turn).calls && Turned(w, turn).calls[c] == Dropping(id) && !(c in w.calls && w.calls[c] == Dropping(id))
    ensures turn.Goes? && turn.c == c && c in w.calls && w.calls[c].Judging? && w.calls[c].id == id
    ensures w.calls[c].now >= w.calls[c].expires || turn.denied
  {
    TouchesOneCall(w, turn, c);
    hide Installed, Inserted, Refreshed, WithoutSession, WithoutChallenge, Oldest, LiveSessions, LiveChallenges, ExpiredSessions, Listed, Find;
  }

  /** What it saw is a listed session's own expiry. */
  lemma JudgesWhatItSaw(w: World, turn: Turn, c: nat)
    requires c in Turned(w, turn).calls && Turned(w, turn).calls[c].Judging? && !(c in w.calls && w.calls[c].Judging?)
    ensures exists s :: s in w.sessions && s.credential.handle == Turned(w, turn).calls[c].id && s.expires == Turned(w, turn).calls[c].expires
  {
    TouchesOneCall(w, turn, c);
    hide Installed, Inserted, Refreshed, WithoutSession, WithoutChallenge, Oldest, LiveSessions, LiveChallenges, ExpiredSessions, Listed;
  }

  /** A turn leaves every other call alone. */
  lemma TouchesOneCall(w: World, turn: Turn, c: nat)
    requires c in Turned(w, turn).calls
    ensures turn.c != c ==> c in w.calls && Turned(w, turn).calls[c] == w.calls[c]
  {
    if turn.Goes? && turn.c in w.calls {
      OtherCallsStay(w, turn.c, turn);
    }
    hide Gone;
  }

  /** The auth service is asked only for a challenge whose form token was presented before it expired;
      only then can a credential be issued, and only that credential is installed. */
  lemma ExchangeNeedsMatchingChallenge(w: World, turn: Turn)
    requires Turned(w, turn).exchanged != w.exchanged || Turned(w, turn).issued != w.issued
    ensures turn.Goes? && turn.c in w.calls && w.calls[turn.c].Checking?
    ensures var call := w.calls[turn.c];
            && call.now < call.taken.expires && call.token == call.taken.csrf
            && Turned(w, turn).exchanged == w.exchanged + [call.taken.id]
            && Turned(w, turn).issued == w.issued + (if turn.answer.Some? then {turn.answer.value} else {})
  {
    hide Installed, Inserted, Refreshed, WithoutSession, WithoutChallenge, Oldest, LiveSessions, LiveChallenges, ExpiredSessions, Listed, Find;
  }

  /** A call gets to check a challenge only by taking it, listed under the submitted identifier, out of
      the store. */
  lemma SubmittedChallengeIsTaken(w: World, turn: Turn, c: nat)
    requires c in Turned(w, turn).calls && Turned(w, turn).calls[c].Checking? && !(c in w.calls && w.calls[c].Checking?)
    ensures c in w.calls && w.calls[c].Submitting?
    ensures var call := Turned(w, turn).calls[c];
            && call.taken in w.challenges && call.taken.id == w.calls[c].id
            && call.token == w.calls[c].token && call.now == w.calls[c].now
            && forall x | x in Turned(w, turn).challenges :: x.id != call.taken.id
  {
    TouchesOneCall(w, turn, c);
    hide Installed, Inserted, Refreshed, WithoutSession, Oldest, LiveSessions, LiveChallenges, ExpiredSessions, Listed;
  }
}

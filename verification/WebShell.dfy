/** The synthetic web shell's bounded stores of login challenges and sessions, oldest first. */
module WebShell {
  import opened Identifiers

  const LOGIN_CHALLENGE_TTL := 300
  const MAX_LOGIN_CHALLENGES := 32
  const MAX_SESSIONS := 16
  const MAX_CSRF_TOKENS := 4

  type Id = nat
  type Token = string

  /** A credential of the auth service; the shell files a session under its handle. */
  datatype Credential = Credential(handle: Id, secret: string)
  datatype Challenge = Challenge(id: Id, csrf: Token, expires: int)
  datatype Session = Session(credential: Credential, csrf: seq<Token>, expires: int)

  function SessionKey(s: Session): Id {
    s.credential.handle
  }

  function ChallengeKey(c: Challenge): Id {
    c.id
  }

  // --- Insertion-ordered dictionaries -----------------------------------------

  ghost predicate DistinctKeys<T>(xs: seq<T>, key: T -> Id) {
    forall i, j | 0 <= i < j < |xs| :: key(xs[i]) != key(xs[j])
  }

  function Filter<T(!new)>(xs: seq<T>, keep: T -> bool): (r: seq<T>)
    ensures |r| <= |xs|
    ensures forall x :: x in r <==> x in xs && keep(x)
  {
    if xs == [] then []
    else
      var last := xs[|xs| - 1];
      assert xs == xs[..|xs| - 1] + [last];
      Filter(xs[..|xs| - 1], keep) + (if keep(last) then [last] else [])
  }

  lemma {:induction false} FilterDistinct<T(!new)>(xs: seq<T>, keep: T -> bool, key: T -> Id)
    requires DistinctKeys(xs, key)
    ensures DistinctKeys(Filter(xs, keep), key)
  {
    if xs != [] {
      var rest := xs[..|xs| - 1];
      FilterDistinct(rest, keep, key);
      forall x | x in rest ensures key(x) != key(xs[|xs| - 1]) {
        var i :| 0 <= i < |rest| && rest[i] == x;
      }
    }
  }

  function Find<T(!new)>(xs: seq<T>, id: Id, key: T -> Id): (r: Option<T>)
    ensures r.Some? ==> r.value in xs && key(r.value) == id
    ensures r.None? ==> forall x | x in xs :: key(x) != id
  {
    if xs == [] then None
    else if key(xs[|xs| - 1]) == id then Some(xs[|xs| - 1])
    else
      assert xs == xs[..|xs| - 1] + [xs[|xs| - 1]];
      Find(xs[..|xs| - 1], id, key)
  }

  lemma OneUnderKey<T(!new)>(xs: seq<T>, key: T -> Id, x: T, y: T)
    requires DistinctKeys(xs, key) && x in xs && y in xs && key(x) == key(y)
    ensures x == y
  {
    var i :| 0 <= i < |xs| && xs[i] == x;
    var j :| 0 <= j < |xs| && xs[j] == y;
  }

  /** What has to go, oldest first, before one more entry fits. */
  function Oldest<T>(xs: seq<T>, cap: nat): seq<T> {
    if |xs| >= cap > 0 then xs[..|xs| - cap + 1] else []
  }

  function Newest<T>(xs: seq<T>, cap: nat): seq<T> {
    if |xs| >= cap > 0 then xs[|xs| - cap + 1..] else xs
  }

  /** A present key keeps its place and gets the new value. */
  function Upsert<T(!new)>(xs: seq<T>, x: T, key: T -> Id): seq<T> {
    if Find(xs, key(x), key).None? then xs + [x]
    else seq(|xs|, i requires 0 <= i < |xs| => if key(xs[i]) == key(x) then x else xs[i])
  }

  // --- What the locked sections do --------------------------------------------

  function LiveChallenges(challenges: seq<Challenge>, now: int): seq<Challenge> {
    Filter(challenges, (c: Challenge) => now < c.expires)
  }

  function LiveSessions(sessions: seq<Session>, now: int): seq<Session> {
    Filter(sessions, (s: Session) => now < s.expires)
  }

  function ExpiredSessions(sessions: seq<Session>, now: int): seq<Session> {
    Filter(sessions, (s: Session) => now >= s.expires)
  }

  function CredentialsOf(sessions: seq<Session>): (r: seq<Credential>)
    ensures |r| == |sessions| && forall i | 0 <= i < |r| :: r[i] == sessions[i].credential
  {
    seq(|sessions|, i requires 0 <= i < |sessions| => sessions[i].credential)
  }

  lemma CredentialsAre(sessions: seq<Session>)
    ensures forall k :: k in CredentialsOf(sessions) <==> exists s :: s in sessions && s.credential == k
  {
    forall s | s in sessions ensures s.credential in CredentialsOf(sessions) {
      var i :| 0 <= i < |sessions| && sessions[i] == s;
      assert CredentialsOf(sessions)[i] == s.credential;
    }
  }

  function WithoutSession(sessions: seq<Session>, id: Id): seq<Session> {
    Filter(sessions, (s: Session) => SessionKey(s) != id)
  }

  function WithoutChallenge(challenges: seq<Challenge>, id: Id): seq<Challenge> {
    Filter(challenges, (c: Challenge) => ChallengeKey(c) != id)
  }

  /** The last four form tokens. */
  function Recent(tokens: seq<Token>): seq<Token> {
    if |tokens| > MAX_CSRF_TOKENS then tokens[|tokens| - MAX_CSRF_TOKENS..] else tokens
  }

  function Refreshed(sessions: seq<Session>, id: Id, token: Token): seq<Session> {
    match Find(sessions, id, SessionKey)
    case None => sessions
    case Some(s) => Upsert(sessions, s.(csrf := Recent(s.csrf + [token])), SessionKey)
  }

  function Installed(sessions: seq<Session>, s: Session): seq<Session> {
    Upsert(Newest(sessions, MAX_SESSIONS), s, SessionKey)
  }

  function Inserted(challenges: seq<Challenge>, c: Challenge): seq<Challenge> {
    Upsert(Newest(challenges, MAX_LOGIN_CHALLENGES), c, ChallengeKey)
  }

  // --- The shell --------------------------------------------------------------

  /** The auth service as far as the shell changes it. */
  class AuthService {
    var revoked: seq<Credential>

    constructor ()
      ensures revoked == []
    {
      revoked := [];
    }

    method RevokeSession(credential: Credential)
      modifies this
      ensures revoked == old(revoked) + [credential]
    {
      revoked := revoked + [credential];
    }
  }

  class SyntheticWebShell {
    const auth: AuthService
    var challenges: seq<Challenge>
    var sessions: seq<Session>

    constructor (auth: AuthService)
      ensures this.auth == auth && challenges == [] && sessions == []
    {
      this.auth, challenges, sessions := auth, [], [];
    }

    method PurgeExpired(now: int) returns (credentials: seq<Credential>)
      modifies this
      ensures challenges == LiveChallenges(old(challenges), now)
      ensures sessions == LiveSessions(old(sessions), now)
      ensures credentials == CredentialsOf(ExpiredSessions(old(sessions), now))
    {
      var keptChallenges: seq<Challenge> := [];
      for i := 0 to |challenges|
        invariant keptChallenges == LiveChallenges(challenges[..i], now)
      {
        assert challenges[..i + 1][..i] == challenges[..i];
        if now < challenges[i].expires {
          keptChallenges := keptChallenges + [challenges[i]];
        }
      }
      assert challenges[..|challenges|] == challenges;
      var kept: seq<Session> := [];
      credentials := [];
      for i := 0 to |sessions|
        invariant kept == LiveSessions(sessions[..i], now)
        invariant credentials == CredentialsOf(ExpiredSessions(sessions[..i], now))
      {
        assert sessions[..i + 1][..i] == sessions[..i];
        if now >= sessions[i].expires {
          credentials := credentials + [sessions[i].credential];
        } else {
          kept := kept + [sessions[i]];
        }
      }
      assert sessions[..|sessions|] == sessions;
      challenges, sessions := keptChallenges, kept;
    }

    method RevokeSessions(credentials: seq<Credential>)
      modifies auth
      ensures auth.revoked == old(auth.revoked) + credentials
    {
      for i := 0 to |credentials|
        invariant auth.revoked == old(auth.revoked) + credentials[..i]
      {
        auth.RevokeSession(credentials[i]);
      }
      assert credentials[..|credentials|] == credentials;
    }

    method InsertChallenge(challenge: Challenge)
      modifies this`challenges
      ensures challenges == Inserted(old(challenges), challenge)
    {
      ghost var n := 0;
      while |challenges| >= MAX_LOGIN_CHALLENGES
        invariant n <= |old(challenges)| && challenges == old(challenges)[n..]
        invariant n == 0 || |old(challenges)| - n >= MAX_LOGIN_CHALLENGES - 1
      {
        challenges := challenges[1..];
        n := n + 1;
      }
      assert challenges == Newest(old(challenges), MAX_LOGIN_CHALLENGES);
      challenges := Upsert(challenges, challenge, ChallengeKey);
    }

    method InstallSession(credential: Credential, token: Token, now: int, ttl: int)
      modifies this`sessions, auth
      ensures sessions == Installed(old(sessions), Session(credential, [token], now + ttl))
      ensures auth.revoked == old(auth.revoked) + CredentialsOf(Oldest(old(sessions), MAX_SESSIONS))
    {
      var evicted: seq<Credential> := [];
      while |sessions| >= MAX_SESSIONS
        invariant |evicted| <= |old(sessions)| && sessions == old(sessions)[|evicted|..]
        invariant evicted == CredentialsOf(old(sessions)[..|evicted|])
        invariant evicted == [] || |sessions| >= MAX_SESSIONS - 1
        invariant auth.revoked == old(auth.revoked)
        decreases |sessions|
      {
        evicted := evicted + [sessions[0].credential];
        sessions := sessions[1..];
      }
      assert sessions == Newest(old(sessions), MAX_SESSIONS);
      assert evicted == CredentialsOf(Oldest(old(sessions), MAX_SESSIONS));
      sessions := Upsert(sessions, Session(credential, [token], now + ttl), SessionKey);
      RevokeSessions(evicted);
    }

    method BeginLogin(id: Id, token: Token, now: int)
      modifies this, auth
      ensures sessions == LiveSessions(old(sessions), now)
      ensures challenges == Inserted(LiveChallenges(old(challenges), now), Challenge(id, token, now + LOGIN_CHALLENGE_TTL))
      ensures auth.revoked == old(auth.revoked) + CredentialsOf(ExpiredSessions(old(sessions), now))
    {
      var expired := PurgeExpired(now);
      RevokeSessions(expired);
      InsertChallenge(Challenge(id, token, now + LOGIN_CHALLENGE_TTL));
    }

    /** `exchanged` is what the auth service would answer to the operator code. The challenge is
        gone whatever happens. */
    method AuthenticateLogin(id: Id, token: Token, now: int, ttl: int, exchanged: Option<Credential>, next: Token) returns (ok: bool)
      modifies this, auth
      ensures challenges == WithoutChallenge(old(challenges), id)
      ensures var c := Find(old(challenges), id, ChallengeKey);
              ok == (c.Some? && now < c.value.expires && c.value.csrf == token && exchanged.Some?)
      ensures sessions == if ok then Installed(old(sessions), Session(exchanged.value, [next], now + ttl)) else old(sessions)
      ensures auth.revoked == old(auth.revoked) + if ok then CredentialsOf(Oldest(old(sessions), MAX_SESSIONS)) else []
    {
      var c := Find(challenges, id, ChallengeKey);
      challenges := WithoutChallenge(challenges, id);
      if c.None? || now >= c.value.expires || c.value.csrf != token || exchanged.None? {
        return false;
      }
      InstallSession(exchanged.value, next, now, ttl);
      ok := true;
    }

    /** `denied` is the answer of the auth service for the session's credential. */
    method View(id: Id, now: int, denied: bool, next: Token) returns (shown: bool)
      modifies this, auth
      ensures challenges == old(challenges)
      ensures var s := Find(old(sessions), id, SessionKey);
              && shown == (s.Some? && now < s.value.expires && !denied)
              && sessions == (if shown then Refreshed(old(sessions), id, next) else if s.Some? then WithoutSession(old(sessions), id) else old(sessions))
              && auth.revoked == old(auth.revoked) + (if s.Some? && !shown then [s.value.credential] else [])
    {
      var s := Find(sessions, id, SessionKey);
      if s.None? {
        return false;
      }
      if now >= s.value.expires || denied {
        sessions := WithoutSession(sessions, id);
        RevokeSessions([s.value.credential]);
        return false;
      }
      sessions := Refreshed(sessions, id, next);
      shown := true;
    }

    method Logout(id: Id, token: Token) returns (ok: bool)
      modifies this, auth
      ensures challenges == old(challenges)
      ensures var s := Find(old(sessions), id, SessionKey);
              && ok == (s.Some? && token in s.value.csrf)
              && sessions == (if ok then WithoutSession(old(sessions), id) else old(sessions))
              && auth.revoked == old(auth.revoked) + (if ok then [s.value.credential] else [])
    {
      var s := Find(sessions, id, SessionKey);
      if s.None? || token !in s.value.csrf {
        return false;
      }
      sessions := WithoutSession(sessions, id);
      auth.RevokeSession(s.value.credential);
      ok := true;
    }
  }

  // --- Bounds and conservation of one section ---------------------------------

  function Active(sessions: seq<Session>): set<Credential> {
    set s | s in sessions :: s.credential
  }

  lemma UpsertDistinct<T(!new)>(xs: seq<T>, x: T, key: T -> Id)
    requires DistinctKeys(xs, key)
    ensures DistinctKeys(Upsert(xs, x, key), key)
    ensures |Upsert(xs, x, key)| <= |xs| + 1
    ensures forall y :: y in Upsert(xs, x, key) <==> y == x || (y in xs && key(y) != key(x))
  {
    var r := Upsert(xs, x, key);
    forall y ensures y in r <==> y == x || (y in xs && key(y) != key(x)) {
      if y in xs && key(y) != key(x) {
        var i :| 0 <= i < |xs| && xs[i] == y;
        assert r[i] == y;
      }
      var found := Find(xs, key(x), key);
      if found.Some? {
        var i :| 0 <= i < |xs| && xs[i] == found.value;
        assert r[i] == x;
      } else {
        assert r[|xs|] == x;
      }
    }
  }

  /** Evicting splits the entries, and leaves room for one. */
  lemma EvictionSplits<T(!new)>(xs: seq<T>, cap: nat, key: T -> Id)
    requires DistinctKeys(xs, key) && cap > 0
    ensures xs == Oldest(xs, cap) + Newest(xs, cap)
    ensures DistinctKeys(Oldest(xs, cap), key) && DistinctKeys(Newest(xs, cap), key)
    ensures |Newest(xs, cap)| == if |xs| < cap then |xs| else cap - 1
    ensures forall x :: x in xs <==> x in Oldest(xs, cap) || x in Newest(xs, cap)
    ensures forall x, y | x in Oldest(xs, cap) && y in Newest(xs, cap) :: key(x) != key(y)
  {
    assert xs == Oldest(xs, cap) + Newest(xs, cap);
  }

  /** After a view its form token is accepted, next to at most the three tokens before it, and the
      other sessions are as they were. */
  lemma RefreshedAccepts(sessions: seq<Session>, id: Id, token: Token, s: Session)
    requires DistinctKeys(sessions, SessionKey) && s in sessions && SessionKey(s) == id
    ensures var n := if |s.csrf| < MAX_CSRF_TOKENS then |s.csrf| else MAX_CSRF_TOKENS - 1;
            var t := s.(csrf := s.csrf[|s.csrf| - n..] + [token]);
            t in Refreshed(sessions, id, token) && token in t.csrf && |t.csrf| <= MAX_CSRF_TOKENS
    ensures forall o | SessionKey(o) != id :: o in Refreshed(sessions, id, token) <==> o in sessions
  {
    var found := Find(sessions, id, SessionKey);
    OneUnderKey(sessions, SessionKey, found.value, s);
    var t := s.(csrf := Recent(s.csrf + [token]));
    UpsertDistinct(sessions, t, SessionKey);
    var n := if |s.csrf| < MAX_CSRF_TOKENS then |s.csrf| else MAX_CSRF_TOKENS - 1;
    assert t.csrf == s.csrf[|s.csrf| - n..] + [token];
  }

  // --- Order ------------------------------------------------------------------

  /** What is kept of a list is what is kept of its parts, in the same order. */
  lemma {:induction false} FilterConcat<T(!new)>(xs: seq<T>, ys: seq<T>, keep: T -> bool)
    ensures Filter(xs + ys, keep) == Filter(xs, keep) + Filter(ys, keep)
  {
    if ys == [] {
      assert xs + ys == xs;
    } else {
      assert (xs + ys)[..|xs + ys| - 1] == xs + ys[..|ys| - 1];
      FilterConcat(xs, ys[..|ys| - 1], keep);
    }
  }

  lemma FilterDecidesEach<T(!new)>(before: seq<T>, x: T, after: seq<T>, keep: T -> bool)
    ensures Filter(before + [x] + after, keep) == Filter(before, keep) + (if keep(x) then [x] else []) + Filter(after, keep)
  {
    FilterConcat(before + [x], after, keep);
    FilterConcat(before, [x], keep);
    FilterOne(x, keep);
  }

  lemma FilterOne<T(!new)>(x: T, keep: T -> bool)
    ensures Filter([x], keep) == if keep(x) then [x] else []
  {
    assert [x][..0] == [];
  }

  lemma CredentialsConcat(xs: seq<Session>, ys: seq<Session>)
    ensures CredentialsOf(xs + ys) == CredentialsOf(xs) + CredentialsOf(ys)
  {
  }

  /** A purge keeps exactly what has not expired, and answers exactly the credentials of what has. */
  lemma PurgeMeans(challenges: seq<Challenge>, sessions: seq<Session>, now: int)
    ensures forall c :: c in LiveChallenges(challenges, now) <==> c in challenges && now < c.expires
    ensures forall s :: s in LiveSessions(sessions, now) <==> s in sessions && now < s.expires
    ensures forall k :: k in CredentialsOf(ExpiredSessions(sessions, now)) <==> exists s :: s in sessions && s.credential == k && now >= s.expires
  {
    CredentialsAre(ExpiredSessions(sessions, now));
  }

  /** A purge decides session by session and leaves the order alone: wherever a session stands, it stays
      between the same neighbours if it has not expired, and else its credential is answered there. */
  lemma PurgeDecidesEach(before: seq<Session>, s: Session, after: seq<Session>, now: int)
    ensures LiveSessions(before + [s] + after, now) ==
            LiveSessions(before, now) + (if now < s.expires then [s] else []) + LiveSessions(after, now)
    ensures CredentialsOf(ExpiredSessions(before + [s] + after, now)) ==
            CredentialsOf(ExpiredSessions(before, now)) + (if now < s.expires then [] else [s.credential]) + CredentialsOf(ExpiredSessions(after, now))
  {
    hide Filter;
    FilterDecidesEach(before, s, after, (s: Session) => now < s.expires);
    FilterDecidesEach(before, s, after, (s: Session) => now >= s.expires);
    var gone := if now < s.expires then [] else [s];
    CredentialsConcat(ExpiredSessions(before, now) + gone, ExpiredSessions(after, now));
    CredentialsConcat(ExpiredSessions(before, now), gone);
  }

  /** The same for challenges. */
  lemma PurgeDecidesEachChallenge(before: seq<Challenge>, c: Challenge, after: seq<Challenge>, now: int)
    ensures LiveChallenges(before + [c] + after, now) ==
            LiveChallenges(before, now) + (if now < c.expires then [c] else []) + LiveChallenges(after, now)
  {
    hide Filter;
    FilterDecidesEach(before, c, after, (c: Challenge) => now < c.expires);
  }

  /** With a free handle a new session goes to the end, after the fifteen newest of those before it if
      there were sixteen, and exactly the others are evicted, in order. */
  lemma InstallAppends(sessions: seq<Session>, s: Session)
    requires forall t | t in sessions :: t.credential.handle != s.credential.handle
    ensures var n := if |sessions| < 16 then 0 else |sessions| - 15;
            Installed(sessions, s) == sessions[n..] + [s] && CredentialsOf(Oldest(sessions, MAX_SESSIONS)) == CredentialsOf(sessions[..n])
  {
    var kept := Newest(sessions, MAX_SESSIONS);
    forall t | t in kept ensures SessionKey(t) != SessionKey(s) {
      assert t in sessions;
    }
  }

  /** With a fresh identifier a new challenge goes to the end, after the thirty-one newest of those
      before it if there were thirty-two. */
  lemma InsertAppends(challenges: seq<Challenge>, c: Challenge)
    requires forall x | x in challenges :: x.id != c.id
    ensures Inserted(challenges, c) == challenges[if |challenges| < 32 then 0 else |challenges| - 31..] + [c]
    ensures Oldest(challenges, MAX_LOGIN_CHALLENGES) == challenges[..if |challenges| < 32 then 0 else |challenges| - 31]
  {
    var kept := Newest(challenges, MAX_LOGIN_CHALLENGES);
    forall x | x in kept ensures ChallengeKey(x) != ChallengeKey(c) {
      assert x in challenges;
    }
  }

  /** A key that is in use keeps its place, and everything else is left alone. */
  lemma UpsertKeepsPlace<T(!new)>(xs: seq<T>, x: T, key: T -> Id, n: nat)
    requires DistinctKeys(xs, key) && n < |xs| && key(xs[n]) == key(x)
    ensures Upsert(xs, x, key) == xs[n := x]
  {
    assert xs[n] in xs;
  }

  lemma ActiveSplits(sessions: seq<Session>)
    requires DistinctKeys(sessions, SessionKey)
    ensures Active(sessions) == Active(Oldest(sessions, MAX_SESSIONS)) + Active(Newest(sessions, MAX_SESSIONS))
    ensures Active(Oldest(sessions, MAX_SESSIONS)) !! Active(Newest(sessions, MAX_SESSIONS))
    ensures DistinctKeys(Newest(sessions, MAX_SESSIONS), SessionKey)
  {
    hide Oldest, Newest;
    EvictionSplits(sessions, MAX_SESSIONS, SessionKey);
  }

  /** No other credential is filed under the handle of `s`. */
  ghost predicate HandleFree(sessions: seq<Session>, s: Session) {
    forall t | t in sessions && SessionKey(t) == SessionKey(s) :: t.credential == s.credential
  }

  lemma UpsertActive(sessions: seq<Session>, s: Session)
    requires DistinctKeys(sessions, SessionKey) && HandleFree(sessions, s)
    ensures Active(Upsert(sessions, s, SessionKey)) == Active(sessions) + {s.credential}
  {
    UpsertDistinct(sessions, s, SessionKey);
    hide Upsert;
    var r := Upsert(sessions, s, SessionKey);
    assert s in r;
    forall t | t in sessions ensures t.credential in Active(r) {
      if SessionKey(t) != SessionKey(s) {
        assert t in r;
      }
    }
  }

  lemma UpsertOverwrites(sessions: seq<Session>, s: Session) returns (lost: Credential)
    requires DistinctKeys(sessions, SessionKey) && !HandleFree(sessions, s)
    ensures lost in Active(sessions) && lost != s.credential && lost !in Active(Upsert(sessions, s, SessionKey))
  {
    UpsertDistinct(sessions, s, SessionKey);
    hide Upsert;
    var t :| t in sessions && SessionKey(t) == SessionKey(s) && t.credential != s.credential;
    lost := t.credential;
    OnlyHandle(Upsert(sessions, s, SessionKey), s, lost);
  }

  /** Installing loses no credential, exactly unless another session that survives the eviction is
      already filed under the same handle: that one is overwritten without being revoked. */
  lemma InstallConservesExactly(sessions: seq<Session>, s: Session)
    requires DistinctKeys(sessions, SessionKey)
    ensures Active(Installed(sessions, s)) + Active(Oldest(sessions, MAX_SESSIONS)) == Active(sessions) + {s.credential}
            <==> HandleFree(Newest(sessions, MAX_SESSIONS), s)
  {
    hide Active, HandleFree, Oldest, Newest, Upsert;
    ActiveSplits(sessions);
    if HandleFree(Newest(sessions, MAX_SESSIONS), s) {
      UpsertActive(Newest(sessions, MAX_SESSIONS), s);
    } else {
      var lost := UpsertOverwrites(Newest(sessions, MAX_SESSIONS), s);
      assert lost in Active(sessions) + {s.credential};
    }
  }

  lemma OnlyHandle(sessions: seq<Session>, s: Session, other: Credential)
    requires s in sessions && DistinctKeys(sessions, SessionKey) && other.handle == s.credential.handle && other != s.credential
    ensures other !in Active(sessions)
  {
    if other in Active(sessions) {
      var t :| t in sessions && t.credential == other;
      OneUnderKey(sessions, SessionKey, s, t);
    }
  }
}

/** A call on the web shell that nobody interrupts does what the shell's own method does. */
module WebShellAlone {
  import opened Identifiers
  import opened WebShell
  import opened WebShellRuns

  /** `n` sections of call `c` with nothing in between. */
  function Alone(w: World, c: nat, answer: Option<Credential>, denied: bool, n: nat): World {
    if n == 0 then w else Turned(Alone(w, c, answer, denied, n - 1), Goes(c, answer, denied))
  }

  lemma {:induction false} AloneSplit(w: World, c: nat, answer: Option<Credential>, denied: bool, n: nat, m: nat)
    ensures Alone(Alone(w, c, answer, denied, n), c, answer, denied, m) == Alone(w, c, answer, denied, n + m)
  {
    hide Turned;
    if m > 0 {
      AloneSplit(w, c, answer, denied, n, m - 1);
    }
  }

  /** The first section, and then the others. */
  lemma AloneNext(w: World, c: nat, answer: Option<Credential>, denied: bool, m: nat)
    ensures Alone(Turned(w, Goes(c, answer, denied)), c, answer, denied, m) == Alone(w, c, answer, denied, 1 + m)
  {
    hide Turned;
    assert Alone(w, c, answer, denied, 0) == w;
    assert Alone(w, c, answer, denied, 1) == Turned(w, Goes(c, answer, denied));
    AloneSplit(w, c, answer, denied, 1, m);
  }

  /** Call `c` has ended and left these stores; `gone` are the credentials it revoked. */
  ghost predicate EndsWith(w: World, w': World, c: nat, challenges: seq<Challenge>, sessions: seq<Session>, gone: set<Credential>) {
    && c in w'.calls && w'.calls[c].Ended?
    && w'.challenges == challenges && w'.sessions == sessions && w'.revoked == w.revoked + gone
  }

  /** Whatever is to be revoked is, one section each; then the challenge goes in, if there is one. */
  lemma {:induction false} RevokesAlone(w: World, c: nat, answer: Option<Credential>, denied: bool, rest: seq<Credential>, after: Option<Challenge>)
    requires c in w.calls && w.calls[c] == Revoking(rest, after)
    ensures EndsWith(w, Alone(w, c, answer, denied, |rest| + 1), c,
                     if after.Some? then Inserted(w.challenges, after.value) else w.challenges, w.sessions, Elements(rest))
    decreases |rest|
  {
    hide Inserted, Oldest, Listed;
    var next := Turned(w, Goes(c, answer, denied));
    if rest == [] {
      assert Elements(rest) == {};
      AloneNext(w, c, answer, denied, 0);
      assert Alone(next, c, answer, denied, 0) == next;
    } else {
      RevokesAlone(next, c, answer, denied, rest[1..], after);
      AloneNext(w, c, answer, denied, |rest|);
      assert rest == [rest[0]] + rest[1..];
      assert Elements(rest) == {rest[0]} + Elements(rest[1..]);
    }
  }

  /** Ends after one section more than another call state does. */
  lemma OneMore(w: World, c: nat, answer: Option<Credential>, denied: bool, n: nat,
                challenges: seq<Challenge>, sessions: seq<Session>, gone: set<Credential>)
    requires var next := Turned(w, Goes(c, answer, denied));
             next.revoked == w.revoked && EndsWith(next, Alone(next, c, answer, denied, n), c, challenges, sessions, gone)
    ensures EndsWith(w, Alone(w, c, answer, denied, 1 + n), c, challenges, sessions, gone)
  {
    hide Turned;
    AloneNext(w, c, answer, denied, n);
  }

  lemma EndsAtOnce(w: World, c: nat, answer: Option<Credential>, denied: bool)
    requires var next := Turned(w, Goes(c, answer, denied));
             next.revoked == w.revoked && c in next.calls && next.calls[c].Ended?
    ensures var next := Turned(w, Goes(c, answer, denied));
            EndsWith(w, Alone(w, c, answer, denied, 1), c, next.challenges, next.sessions, {})
  {
    hide Turned;
    AloneNext(w, c, answer, denied, 0);
    assert Alone(Turned(w, Goes(c, answer, denied)), c, answer, denied, 0) == Turned(w, Goes(c, answer, denied));
  }

  /** Beginning a login. */
  lemma BeginAlone(w: World, c: nat, challenge: Challenge, now: int, answer: Option<Credential>, denied: bool) returns (n: nat)
    requires c in w.calls && w.calls[c] == Beginning(challenge, now)
    ensures EndsWith(w, Alone(w, c, answer, denied, n), c, Inserted(LiveChallenges(w.challenges, now), challenge), LiveSessions(w.sessions, now),
                     Elements(CredentialsOf(ExpiredSessions(w.sessions, now))))
  {
    hide Inserted, LiveChallenges, LiveSessions, ExpiredSessions, CredentialsOf, Listed, Alone, EndsWith;
    var next := Turned(w, Goes(c, answer, denied));
    var gone := CredentialsOf(ExpiredSessions(w.sessions, now));
    RevokesAlone(next, c, answer, denied, gone, Some(challenge));
    OneMore(w, c, answer, denied, |gone| + 1, Inserted(next.challenges, challenge), next.sessions, Elements(gone));
    n := 1 + (|gone| + 1);
  }

  /** Submitting the login form: the challenge is gone whatever happens, and a session is installed exactly
      for an unexpired challenge, its own form token, and a successful exchange. */
  lemma LoginAlone(w: World, c: nat, id: Id, token: Token, now: int, answer: Option<Credential>, denied: bool) returns (n: nat)
    requires c in w.calls && w.calls[c] == Submitting(id, token, now)
    ensures var found := Find(w.challenges, id, ChallengeKey);
            if found.Some? && now < found.value.expires && found.value.csrf == token && answer.Some? then
              EndsWith(w, Alone(w, c, answer, denied, n), c, WithoutChallenge(w.challenges, id),
                       Installed(w.sessions, Session(answer.value, [token], now + w.ttl)), Elements(CredentialsOf(Oldest(w.sessions, MAX_SESSIONS))))
            else
              EndsWith(w, Alone(w, c, answer, denied, n), c, if found.Some? then WithoutChallenge(w.challenges, id) else w.challenges, w.sessions, {})
  {
    hide Installed, Oldest, CredentialsOf, WithoutChallenge, Alone, EndsWith, Find;
    var found := Find(w.challenges, id, ChallengeKey);
    var next := Turned(w, Goes(c, answer, denied));
    if found.None? {
      EndsAtOnce(w, c, answer, denied);
      n := 1;
    } else {
      var m := CheckAlone(next, c, found.value, token, now, answer, denied);
      if now < found.value.expires && found.value.csrf == token && answer.Some? {
        OneMore(w, c, answer, denied, m, next.challenges, Installed(w.sessions, Session(answer.value, [token], now + w.ttl)),
                Elements(CredentialsOf(Oldest(w.sessions, MAX_SESSIONS))));
      } else {
        OneMore(w, c, answer, denied, m, next.challenges, w.sessions, {});
      }
      n := 1 + m;
    }
  }

  lemma CheckAlone(w: World, c: nat, taken: Challenge, token: Token, now: int, answer: Option<Credential>, denied: bool) returns (n: nat)
    requires c in w.calls && w.calls[c] == Checking(taken, token, now)
    ensures if now < taken.expires && taken.csrf == token && answer.Some? then
              EndsWith(w, Alone(w, c, answer, denied, n), c, w.challenges,
                       Installed(w.sessions, Session(answer.value, [token], now + w.ttl)), Elements(CredentialsOf(Oldest(w.sessions, MAX_SESSIONS))))
            else
              EndsWith(w, Alone(w, c, answer, denied, n), c, w.challenges, w.sessions, {})
  {
    hide Installed, Oldest, CredentialsOf, Alone, EndsWith;
    var next := Turned(w, Goes(c, answer, denied));
    if now < taken.expires && taken.csrf == token && answer.Some? {
      var last := Turned(next, Goes(c, answer, denied));
      var gone := CredentialsOf(Oldest(w.sessions, MAX_SESSIONS));
      RevokesAlone(last, c, answer, denied, gone, None);
      OneMore(next, c, answer, denied, |gone| + 1, w.challenges, last.sessions, Elements(gone));
      OneMore(w, c, answer, denied, 1 + (|gone| + 1), w.challenges, last.sessions, Elements(gone));
      n := 1 + (1 + (|gone| + 1));
    } else {
      EndsAtOnce(w, c, answer, denied);
      n := 1;
    }
  }

  lemma TakenOutAlone(w: World, c: nat, s: Session, answer: Option<Credential>, denied: bool)
    requires Turned(w, Goes(c, answer, denied)) == TakenOut(w, c, s)
    ensures EndsWith(w, Alone(w, c, answer, denied, 3), c, w.challenges, WithoutSession(w.sessions, SessionKey(s)), {s.credential})
  {
    hide WithoutSession, Alone, EndsWith, Turned;
    var next := TakenOut(w, c, s);
    assert Elements([s.credential]) == {s.credential};
    RevokesAlone(next, c, answer, denied, [s.credential], None);
    OneMore(w, c, answer, denied, 2, w.challenges, next.sessions, {s.credential});
  }

  /** Viewing: the session is shown and gets the new form token, or it goes and is revoked. */
  lemma ViewAlone(w: World, c: nat, id: Id, token: Token, now: int, answer: Option<Credential>, denied: bool) returns (n: nat)
    requires c in w.calls && w.calls[c] == Viewing(id, token, now)
    ensures var s := Find(w.sessions, id, SessionKey);
            var shown := s.Some? && now < s.value.expires && !denied;
            EndsWith(w, Alone(w, c, answer, denied, n), c, w.challenges,
                     if shown then Refreshed(w.sessions, id, token) else if s.Some? then WithoutSession(w.sessions, id) else w.sessions,
                     if s.Some? && !shown then {s.value.credential} else {})
  {
    hide Refreshed, WithoutSession, TakenOut, Alone, EndsWith, Find;
    var s := Find(w.sessions, id, SessionKey);
    var next := Turned(w, Goes(c, answer, denied));
    if s.None? {
      EndsAtOnce(w, c, answer, denied);
      n := 1;
    } else {
      FoundUnder(w.sessions, id);
      var last := Turned(next, Goes(c, answer, denied));
      if now < s.value.expires && !denied {
        EndsAtOnce(last, c, answer, denied);
        OneMore(next, c, answer, denied, 1, w.challenges, Refreshed(w.sessions, id, token), {});
        OneMore(w, c, answer, denied, 2, w.challenges, Refreshed(w.sessions, id, token), {});
        n := 3;
      } else {
        TakenOutAlone(last, c, s.value, answer, denied);
        OneMore(next, c, answer, denied, 3, w.challenges, WithoutSession(w.sessions, id), {s.value.credential});
        OneMore(w, c, answer, denied, 4, w.challenges, WithoutSession(w.sessions, id), {s.value.credential});
        n := 5;
      }
    }
  }

  lemma FoundUnder(sessions: seq<Session>, id: Id)
    ensures Find(sessions, id, SessionKey).Some? ==> SessionKey(Find(sessions, id, SessionKey).value) == id
  {
  }

  /** Logging out: the session goes and is revoked, exactly if one of its form tokens is presented. */
  lemma LogoutAlone(w: World, c: nat, id: Id, token: Token, answer: Option<Credential>, denied: bool) returns (n: nat)
    requires c in w.calls && w.calls[c] == LoggingOut(id, token)
    ensures var s := Find(w.sessions, id, SessionKey);
            var ok := s.Some? && token in s.value.csrf;
            EndsWith(w, Alone(w, c, answer, denied, n), c, w.challenges, if ok then WithoutSession(w.sessions, id) else w.sessions,
                     if ok then {s.value.credential} else {})
  {
    hide WithoutSession, TakenOut, Alone, EndsWith, Find;
    var s := Find(w.sessions, id, SessionKey);
    if s.Some? && token in s.value.csrf {
      FoundUnder(w.sessions, id);
      TakenOutAlone(w, c, s.value, answer, denied);
      n := 3;
    } else {
      EndsAtOnce(w, c, answer, denied);
      n := 1;
    }
  }
}

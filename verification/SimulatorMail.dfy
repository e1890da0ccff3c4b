/** The in-memory mail capture: messages, reserved capacity, and the locked operations on them. */
module SimulatorMail {
  import opened Identifiers
  import opened SimulatorProtocol

  datatype MailReservation = MailReservation(token: nat, message: MailFixture)

  datatype MailState = MailState(messages: seq<MailFixture>, reservations: map<nat, MailReservation>, nextToken: nat)

  predicate Holds(m: MailState, r: MailReservation) {
    r.token in m.reservations && m.reservations[r.token] == r
  }

  predicate Full(m: MailState) {
    |m.messages| + |m.reservations| >= MAX_MAIL_MESSAGES
  }

  function NextReservation(m: MailState, message: MailFixture): MailReservation {
    MailReservation(m.nextToken, message)
  }

  function MailReserved(m: MailState, message: MailFixture): MailState {
    m.(reservations := m.reservations[m.nextToken := NextReservation(m, message)], nextToken := m.nextToken + 1)
  }

  function MailCancelled(m: MailState, r: MailReservation): MailState {
    m.(reservations := m.reservations - {r.token})
  }

  function MailCommitted(m: MailState, r: MailReservation): MailState {
    MailCancelled(m.(messages := m.messages + [r.message]), r)
  }

  predicate MailInv(m: MailState) {
    && (forall t | t in m.reservations :: t < m.nextToken && m.reservations[t].token == t)
    && |m.messages| + |m.reservations| <= MAX_MAIL_MESSAGES
  }

  class InMemoryMailCapture {
    var messages: seq<MailFixture>
    var reservations: map<nat, MailReservation>
    var nextToken: nat

    constructor ()
      ensures State() == MailState([], map[], 1)
    {
      messages, reservations, nextToken := [], map[], 1;
    }

    function State(): MailState
      reads this
    {
      MailState(messages, reservations, nextToken)
    }

    method Reserve(message: MailFixture) returns (reservation: Option<MailReservation>)
      modifies this
      ensures reservation == if Full(old(State())) then None else Some(NextReservation(old(State()), message))
      ensures State() == if Full(old(State())) then old(State()) else MailReserved(old(State()), message)
    {
      if |messages| + |reservations| >= MAX_MAIL_MESSAGES {
        return None;
      }
      var r := MailReservation(nextToken, message);
      nextToken := nextToken + 1;
      reservations := reservations[r.token := r];
      reservation := Some(r);
    }

    predicate Validates(r: MailReservation)
      reads this
      ensures Validates(r) == Holds(State(), r)
    {
      r.token in reservations && reservations[r.token] == r
    }

    method CommitReservation(r: MailReservation)
      modifies this`messages
      ensures messages == old(messages) + [r.message]
    {
      messages := messages + [r.message];
    }

    /** Drops every message captured after the snapshot was taken. */
    method RestoreSnapshot(snapshot: nat)
      modifies this`messages
      ensures messages == if snapshot <= |old(messages)| then old(messages)[..snapshot] else old(messages)
    {
      if snapshot <= |messages| {
        messages := messages[..snapshot];
      }
    }

    method CancelReservation(r: MailReservation)
      modifies this`reservations
      ensures State() == MailCancelled(old(State()), r)
    {
      reservations := reservations - {r.token};
    }

    method Commit(r: MailReservation) returns (ok: bool)
      modifies this
      ensures ok == Holds(old(State()), r)
      ensures State() == if ok then MailCommitted(old(State()), r) else old(State())
    {
      if !Validates(r) {
        return false;
      }
      CommitReservation(r);
      CancelReservation(r);
      ok := true;
    }

    method Rollback(r: MailReservation) returns (ok: bool)
      modifies this
      ensures ok == Holds(old(State()), r)
      ensures State() == if ok then MailCancelled(old(State()), r) else old(State())
    {
      if !Validates(r) {
        return false;
      }
      CancelReservation(r);
      ok := true;
    }

    method Clear() returns (ok: bool)
      modifies this
      ensures ok == (old(reservations) == map[])
      ensures State() == if ok then old(State()).(messages := []) else old(State())
    {
      if reservations != map[] {
        return false;
      }
      messages := [];
      ok := true;
    }
  }

  lemma MailReserveKeepsInv(m: MailState, message: MailFixture)
    requires MailInv(m) && !Full(m)
    ensures MailInv(MailReserved(m, message)) && Holds(MailReserved(m, message), NextReservation(m, message))
    ensures m.nextToken !in m.reservations
  {
    assert MailReserved(m, message).reservations.Keys == m.reservations.Keys + {m.nextToken};
    assert |MailReserved(m, message).reservations| == |MailReserved(m, message).reservations.Keys|;
  }

  lemma MailCancelKeepsInv(m: MailState, r: MailReservation)
    requires MailInv(m) && Holds(m, r)
    ensures MailInv(MailCancelled(m, r)) && |MailCancelled(m, r).reservations| == |m.reservations| - 1
  {
    assert m.reservations.Keys == MailCancelled(m, r).reservations.Keys + {r.token};
    assert |MailCancelled(m, r).reservations| == |MailCancelled(m, r).reservations.Keys|;
    assert |m.reservations| == |m.reservations.Keys|;
  }

  /** A message takes the place of its reservation, so the cap never grows tighter or looser. */
  lemma MailCommitKeepsInv(m: MailState, r: MailReservation)
    requires MailInv(m) && Holds(m, r)
    ensures MailInv(MailCommitted(m, r))
    ensures |MailCommitted(m, r).messages| + |MailCommitted(m, r).reservations| == |m.messages| + |m.reservations|
  {
    MailCancelKeepsInv(m, r);
    assert MailCommitted(m, r).reservations == MailCancelled(m, r).reservations;
  }
}

/** The one-process repository: records, tombstones and a time high-water mark updated
    in place, with three running byte totals that are never recomputed.

    Every operation is proved to follow the mailbox machine, whose quotas are stated over
    sums recomputed from the records; the running totals stay equal to those sums. */
module VolatileRepository {
  import opened Identifiers
  import opened MailboxDomain
  import opened MailboxCrypto
  import opened MailboxMachine
  import opened MailboxInvariant

  lemma TalliesUpdate(records: map<Uuid, Record>, id: Uuid, r: Record)
    requires id in records
    ensures SumOver(records[id := r], ActiveBytes) == SumOver(records, ActiveBytes) - ActiveBytes(records[id]) + ActiveBytes(r)
    ensures SumOver(records[id := r], EvidenceBytes) == SumOver(records, EvidenceBytes) - EvidenceBytes(records[id]) + EvidenceBytes(r)
    ensures SumOver(records[id := r], CommittedBytes) == SumOver(records, CommittedBytes) - CommittedBytes(records[id]) + CommittedBytes(r)
  {
    hide SumOver, ActiveBytes, EvidenceBytes, CommittedBytes;
    SumUpdate(records, id, r, ActiveBytes);
    SumUpdate(records, id, r, EvidenceBytes);
    SumUpdate(records, id, r, CommittedBytes);
  }

  lemma TalliesRemove(records: map<Uuid, Record>, id: Uuid)
    requires id in records
    ensures SumOver(records - {id}, ActiveBytes) == SumOver(records, ActiveBytes) - ActiveBytes(records[id])
    ensures SumOver(records - {id}, EvidenceBytes) == SumOver(records, EvidenceBytes) - EvidenceBytes(records[id])
    ensures SumOver(records - {id}, CommittedBytes) == SumOver(records, CommittedBytes) - CommittedBytes(records[id])
  {
    hide SumOver, ActiveBytes, EvidenceBytes, CommittedBytes;
    SumRemove(records, id, ActiveBytes);
    SumRemove(records, id, EvidenceBytes);
    SumRemove(records, id, CommittedBytes);
  }

  /** Before an offer nothing is active, and before a commit nothing is committed. */
  lemma NothingHeldYet(c: Config, p: Primitives, s: Installation, id: Uuid)
    requires Inv(c, p, s) && id in s.records
    ensures s.records[id].state == EMPTY ==> ActiveBytes(s.records[id]) == 0 && s.records[id].committedAt.None?
    ensures s.records[id].state == CLAIMED_ONCE ==> s.records[id].committedAt.None? && s.records[id].result.None?
  {
    hide ValidatedMaterial, CredentialsDistinct, TotalsOf, WithinQuota, OwnCredentialsDistinct, EvidenceBounded;
  }

  lemma TerminatedKeepsBinding(r: Record, state: MailboxState, now: Instant)
    ensures Terminated(r, state, now).binding == r.binding
  {
  }

  /** Observing again, at the same time, a record the expiry check found already expired. */
  lemma ObservedTwice(p: Primitives, r: Record, now: Instant)
    requires r.state == EXPIRED
    ensures Moved(p, Moved(p, r, Expiry, now), Observing, now) == Moved(p, r, Expiry, now)
    ensures DueNow(r, now)
  {
  }

  lemma AdvanceTwice(highWater: Option<Instant>, now: Instant)
    ensures Advance(Advance(highWater, now), now) == Advance(highWater, now)
  {
  }

  // --- How far a sweep has come ----------------------------------------------

  ghost function PartlySwept(p: Primitives, records: map<Uuid, Record>, rest: set<Uuid>, now: Instant): map<Uuid, Record> {
    map id | id in records :: if id in rest then records[id] else SweptRecord(p, records[id], now)
  }

  ghost function PartlyExpired(records: map<Uuid, Record>, rest: set<Uuid>, now: Instant): set<Uuid> {
    NewlyExpired(records, now) - rest
  }

  predicate Expiring(r: Record, now: Instant) {
    r.state != EXPIRED && DueNow(r, now)
  }

  lemma SweepStarts(p: Primitives, records: map<Uuid, Record>, now: Instant)
    ensures PartlySwept(p, records, records.Keys, now) == records
    ensures PartlyExpired(records, records.Keys, now) == {}
  {
    hide SweptRecord, DueNow;
  }

  lemma SweepTurn(p: Primitives, records: map<Uuid, Record>, rest: set<Uuid>, id: Uuid, now: Instant)
    requires id in rest && id in records
    ensures id in PartlySwept(p, records, rest, now) && PartlySwept(p, records, rest, now)[id] == records[id]
    ensures PartlySwept(p, records, rest, now)[id := SweptRecord(p, records[id], now)] == PartlySwept(p, records, rest - {id}, now)
    ensures PartlyExpired(records, rest - {id}, now) == PartlyExpired(records, rest, now) + (if Expiring(records[id], now) then {id} else {})
  {
    hide SweptRecord, DueNow;
  }

  lemma SweepEnds(p: Primitives, s: Installation, now: Instant)
    ensures PartlySwept(p, s.records, {}, now) == SweptAll(p, s, now).records
    ensures PartlyExpired(s.records, {}, now) == NewlyExpired(s.records, now)
  {
    hide SweptRecord, DueNow;
  }

  // --- How far a collection has come -----------------------------------------

  ghost function Until(c: Config, now: Instant): Instant {
    if now + c.limits.tombstoneRetention <= MAX_INSTANT then now + c.limits.tombstoneRetention else MAX_INSTANT
  }

  ghost function RecordsWithout(records: map<Uuid, Record>, removed: set<Uuid>, now: Instant): map<Uuid, Record> {
    map id | id in records && id !in removed :: records[id].(lastSeen := now)
  }

  ghost function TombstonesWith(live: map<Uuid, Tombstone>, removed: set<Uuid>, now: Instant, until: Instant): map<Uuid, Tombstone> {
    live + map id | id in removed :: Tombstone(now, until)
  }

  ghost function PartlyTouched(records: map<Uuid, Record>, rest: set<Uuid>, now: Instant): map<Uuid, Record> {
    map id | id in records :: if id in rest then records[id] else records[id].(lastSeen := now)
  }

  lemma TouchTurn(records: map<Uuid, Record>, rest: set<Uuid>, id: Uuid, now: Instant)
    requires id in rest && id in records
    ensures id in PartlyTouched(records, rest, now) && PartlyTouched(records, rest, now)[id] == records[id]
    ensures PartlyTouched(records, rest, now)[id := records[id].(lastSeen := now)] == PartlyTouched(records, rest - {id}, now)
  {
  }

  lemma TouchEnds(records: map<Uuid, Record>, now: Instant)
    ensures PartlyTouched(records, records.Keys, now) == records
    ensures PartlyTouched(records, {}, now) == RecordsWithout(records, {}, now)
  {
  }

  lemma RecordsTurn(records: map<Uuid, Record>, removed: set<Uuid>, id: Uuid, now: Instant)
    requires id in records && id !in removed
    ensures id in RecordsWithout(records, removed, now)
    ensures RecordsWithout(records, removed, now)[id] == records[id].(lastSeen := now)
    ensures RecordsWithout(records, removed + {id}, now) == RecordsWithout(records, removed, now) - {id}
  {
  }

  lemma TombstonesTurn(live: map<Uuid, Tombstone>, removed: set<Uuid>, id: Uuid, now: Instant, until: Instant)
    ensures TombstonesWith(live, removed + {id}, now, until) == TombstonesWith(live, removed, now, until)[id := Tombstone(now, until)]
  {
  }

  lemma TombstonesCount(live: map<Uuid, Tombstone>, removed: set<Uuid>, now: Instant, until: Instant)
    requires removed !! live.Keys
    ensures |TombstonesWith(live, removed, now, until)| == |live| + |removed|
  {
    var t := TombstonesWith(live, removed, now, until);
    assert t.Keys == live.Keys + removed;
    hide TombstonesWith;
    assert |t.Keys| == |live.Keys| + |removed|;
  }

  lemma CollectionEnds(c: Config, s: Installation, now: Instant)
    ensures CollectedAll(c, s, now).records == RecordsWithout(s.records, Removed(c, s, now), now)
    ensures CollectedAll(c, s, now).tombstones == TombstonesWith(LiveTombstones(s, now), Removed(c, s, now), now, Until(c, now))
  {
    hide Removed;
  }

  /** The removal order: terminal time, or the present for a record that has none, then the identifier. */
  function SortTime(r: Record, now: Instant): Instant {
    if r.terminalAt.Some? then r.terminalAt.value else now
  }

  predicate SortsBefore(records: map<Uuid, Record>, a: Uuid, b: Uuid, now: Instant)
    requires a in records && b in records
  {
    var t, u := SortTime(records[a], now), SortTime(records[b], now);
    t < u || (t == u && a < b)
  }

  ghost predicate SortedListing(records: map<Uuid, Record>, order: seq<Uuid>, now: Instant) {
    && (forall id :: id in order <==> id in records)
    && (forall i, j | 0 <= i < j < |order| :: order[i] in records && order[j] in records && SortsBefore(records, order[i], order[j], now))
  }

  ghost function DueAmong(c: Config, records: map<Uuid, Record>, order: seq<Uuid>, cut: nat, now: Instant): set<Uuid>
    requires cut <= |order|
  {
    set id | id in order[..cut] && id in DueIds(c, records, now)
  }

  /** After `k` entries the due ones up to `cut` are gone, and only a full store stops the cut. */
  ghost predicate CollectedUpTo(c: Config, records: map<Uuid, Record>, order: seq<Uuid>, k: nat, cut: nat, removed: set<Uuid>, room: nat, now: Instant)
    requires k <= |order|
  {
    && cut <= k
    && removed == DueAmong(c, records, order, cut, now)
    && |removed| <= room
    && (|removed| < room ==> cut == k)
  }

  lemma ListedOnce(records: map<Uuid, Record>, order: seq<Uuid>, k: nat, now: Instant)
    requires k < |order| && SortedListing(records, order, now)
    ensures order[k] in records && order[k] !in order[..k]
  {
    assert order[k] in order;
    forall i | 0 <= i < k ensures order[i] != order[k] {
      assert SortsBefore(records, order[i], order[k], now);
    }
  }

  lemma DueAmongTurn(c: Config, records: map<Uuid, Record>, order: seq<Uuid>, k: nat, now: Instant)
    requires k < |order| && order[k] in records
    ensures DueAmong(c, records, order, k + 1, now) ==
            DueAmong(c, records, order, k, now) + (if Due(c, records[order[k]], now) then {order[k]} else {})
  {
    hide Due;
    assert order[..k + 1] == order[..k] + [order[k]];
  }

  lemma DueAmongFresh(c: Config, records: map<Uuid, Record>, order: seq<Uuid>, cut: nat, k: nat, now: Instant)
    requires cut <= k < |order| && order[k] !in order[..k]
    ensures order[k] !in DueAmong(c, records, order, cut, now)
  {
    hide DueIds;
    assert order[..cut] == order[..k][..cut];
  }

  lemma CollectedUpToTurn(c: Config, records: map<Uuid, Record>, order: seq<Uuid>, k: nat, cut: nat, removed: set<Uuid>, room: nat, now: Instant)
    requires k < |order| && SortedListing(records, order, now)
    requires CollectedUpTo(c, records, order, k, cut, removed, room, now)
    ensures order[k] in records && order[k] !in removed
    ensures |removed| >= room ==> CollectedUpTo(c, records, order, k + 1, cut, removed, room, now)
    ensures |removed| < room && !Due(c, records[order[k]], now) ==> CollectedUpTo(c, records, order, k + 1, k + 1, removed, room, now)
    ensures |removed| < room && Due(c, records[order[k]], now) ==> CollectedUpTo(c, records, order, k + 1, k + 1, removed + {order[k]}, room, now)
  {
    hide Due, DueAmong, SortedListing;
    ListedOnce(records, order, k, now);
    DueAmongTurn(c, records, order, k, now);
    DueAmongFresh(c, records, order, cut, k, now);
  }

  lemma CutIsOldestPart(c: Config, records: map<Uuid, Record>, order: seq<Uuid>, cut: nat, now: Instant)
    requires SortedListing(records, order, now) && cut <= |order|
    ensures IsOldestPart(records, DueIds(c, records, now), DueAmong(c, records, order, cut, now))
  {
    hide Due, SortsBefore;
    var due, chosen := DueIds(c, records, now), DueAmong(c, records, order, cut, now);
    forall a, b | a in chosen && b in due - chosen ensures Before(records, a, b) {
      var i :| 0 <= i < cut && order[..cut][i] == a;
      assert order == order[..cut] + order[cut..];
      assert b in order && b !in order[..cut];
      assert b in order[cut..];
      var j :| cut <= j < |order| && order[j] == b;
      assert SortsBefore(records, order[i], order[j], now);
      SortsBeforeIsBefore(records, a, b, now);
    }
  }

  lemma SortsBeforeIsBefore(records: map<Uuid, Record>, a: Uuid, b: Uuid, now: Instant)
    requires a in records && b in records && SortsBefore(records, a, b, now)
    requires records[a].terminalAt.Some? && records[b].terminalAt.Some?
    ensures Before(records, a, b)
  {
  }

  /** At the end of the listing exactly the oldest due records that fit are gone. */
  lemma CollectedUpToEnds(c: Config, s: Installation, order: seq<Uuid>, cut: nat, removed: set<Uuid>, room: nat, now: Instant)
    requires SortedListing(s.records, order, now)
    requires CollectedUpTo(c, s.records, order, |order|, cut, removed, room, now)
    requires |LiveTombstones(s, now)| + room == c.limits.maxTombstones
    ensures removed == Removed(c, s, now)
  {
    hide Due, SortsBefore, LiveTombstones, Oldest, IsOldestPart;
    var due := DueIds(c, s.records, now);
    CutIsOldestPart(c, s.records, order, cut, now);
    SubsetSize(removed, due);
    if |removed| < room {
      assert order[..cut] == order;
      assert removed == due;
    }
    OldestIsOldest(s.records, due, room);
    OldestUnique(s.records, due, removed, Oldest(s.records, due, room));
  }


  lemma BuriedWeighsNothing(r: Record)
    requires r.envelope.None? && r.actionKey.None? && r.resultCredential.None? && r.evidence == map[] && r.result.None?
    ensures ActiveBytes(r) == EvidenceBytes(r) == CommittedBytes(r) == 0
  {
  }

  lemma DueStill(c: Config, r: Record, now: Instant)
    ensures Due(c, r.(lastSeen := now), now) == Due(c, r, now)
  {
  }

  lemma BurialStarts(c: Config, s: Installation, order: seq<Uuid>, room: nat, now: Instant)
    ensures CollectedUpTo(c, s.records, order, 0, 0, {}, room, now)
  {
  }

  lemma NothingBuried(s: Installation, now: Instant, until: Instant)
    requires forall id | id in s.records :: s.records[id].lastSeen == now
    ensures s.records == RecordsWithout(s.records, {}, now)
    ensures s.tombstones == TombstonesWith(s.tombstones, {}, now, until)
  {
  }

  /** `middle` is `before` with every record observed and the expired tombstones dropped. */
  ghost predicate Prepared(before: Installation, middle: Installation, now: Instant) {
    && middle.records == RecordsWithout(before.records, {}, now)
    && middle.tombstones == LiveTombstones(before, now)
    && middle.highWater == Advance(before.highWater, now)
  }

  lemma LiveFollowsTombstones(s: Installation, s': Installation, now: Instant)
    requires s'.tombstones == s.tombstones
    ensures LiveTombstones(s', now) == LiveTombstones(s, now)
  {
  }

  lemma LiveTwice(s: Installation, middle: Installation, now: Instant)
    requires middle.tombstones == LiveTombstones(s, now)
    ensures LiveTombstones(middle, now) == middle.tombstones
  {
  }

  lemma SameDue(c: Config, before: Installation, middle: Installation, now: Instant)
    requires Prepared(before, middle, now)
    ensures middle.records.Keys == before.records.Keys
    ensures forall id | id in before.records :: middle.records[id].terminalAt == before.records[id].terminalAt
    ensures DueIds(c, middle.records, now) == DueIds(c, before.records, now)
  {
  }

  /** Observing the records does not change which of them a collection removes. */
  lemma SameRemoved(c: Config, before: Installation, middle: Installation, now: Instant)
    requires Prepared(before, middle, now)
    ensures Removed(c, middle, now) == Removed(c, before, now)
  {
    hide Prepared, DueIds, LiveTombstones;
    SameDue(c, before, middle, now);
    assert LiveTombstones(middle, now) == LiveTombstones(before, now) by {
      PreparedTombstones(before, middle, now);
    }
    var due, live := DueIds(c, before.records, now), |LiveTombstones(before, now)|;
    var room := if live < c.limits.maxTombstones then c.limits.maxTombstones - live else 0;
    SameOldest(before.records, middle.records, due, room);
  }

  lemma PreparedTombstones(before: Installation, middle: Installation, now: Instant)
    requires Prepared(before, middle, now)
    ensures LiveTombstones(middle, now) == LiveTombstones(before, now)
  {
    LiveTwice(before, middle, now);
  }

  lemma SameOldest(records: map<Uuid, Record>, records': map<Uuid, Record>, ids: set<Uuid>, room: nat)
    requires Terminal(records, ids) && Terminal(records', ids)
    requires forall id | id in ids :: records[id].terminalAt == records'[id].terminalAt
    ensures Oldest(records, ids, room) == Oldest(records', ids, room)
  {
    hide Oldest;
    OldestIsOldest(records, ids, room);
    OldestIsOldest(records', ids, room);
    var a, b := Oldest(records, ids, room), Oldest(records', ids, room);
    forall x, y | x in b && y in ids - b ensures Before(records, x, y) {
      assert Before(records', x, y);
    }
    OldestUnique(records, ids, a, b);
  }

  lemma CollectionPrepared(c: Config, p: Primitives, before: Installation, middle: Installation, now: Instant)
    requires Inv(c, p, before) && Prepared(before, middle, now)
    ensures middle.records.Keys !! middle.tombstones.Keys
    ensures |middle.tombstones| <= c.limits.maxTombstones
    ensures forall id | id in middle.tombstones :: middle.tombstones[id].expiresAt > now
    ensures forall id | id in middle.records :: middle.records[id].lastSeen == now
  {
    hide Inv, WithinQuota, TotalsOf;
    InvQuota(c, p, before);
    assert middle.records.Keys == before.records.Keys;
    assert middle.tombstones.Keys <= before.tombstones.Keys;
    SubsetSize(middle.tombstones.Keys, before.tombstones.Keys);
  }

  lemma CollectionDone(c: Config, before: Installation, middle: Installation, now: Instant)
    requires Prepared(before, middle, now)
    ensures Removed(c, middle, now) == Removed(c, before, now)
    ensures CollectedAll(c, before, now).records == RecordsWithout(middle.records, Removed(c, before, now), now)
    ensures CollectedAll(c, before, now).tombstones == TombstonesWith(middle.tombstones, Removed(c, before, now), now, Until(c, now))
    ensures CollectedAll(c, before, now).highWater == middle.highWater
  {
    hide Removed;
    SameRemoved(c, before, middle, now);
    CollectionEnds(c, before, now);
    assert RecordsWithout(middle.records, Removed(c, before, now), now) == RecordsWithout(before.records, Removed(c, before, now), now);
  }

  // --- Loops over a record's evidence and over the records -------------------

  /** The bytes of a record's evidence, added up slot by slot. */
  method RecordEvidenceBytes(r: Record) returns (total: nat)
    ensures total == EvidenceBytes(r)
  {
    total := 0;
    var rest := r.evidence;
    while rest.Keys != {}
      invariant rest.Keys <= r.evidence.Keys
      invariant total + SumOver(rest, ItemBytes) == SumOver(r.evidence, ItemBytes)
      decreases |rest.Keys|
    {
      var slot :| slot in rest.Keys;
      SumRemove(rest, slot, ItemBytes);
      total := total + rest[slot].byteCount;
      rest := rest - {slot};
    }
  }

  /** Unwraps slot after slot and stops at the first that fails. */
  method ValidateEvidenceSlots(p: Primitives, r: Record) returns (validated: Option<map<Uuid, EvidenceUpload>>)
    ensures validated == EvidenceSlots(p, r)
  {
    hide Unwrap;
    var found: map<Uuid, EvidenceUpload> := map[];
    var rest := r.evidence.Keys;
    while rest != {}
      invariant rest <= r.evidence.Keys
      invariant found.Keys == r.evidence.Keys - rest
      invariant forall slot | slot in found :: Unwrap(p, r.binding.mailboxId, slot, r.evidence[slot]) == Some(found[slot])
      decreases |rest|
    {
      var slot :| slot in rest;
      var upload := Unwrap(p, r.binding.mailboxId, slot, r.evidence[slot]);
      if upload.None? {
        return None;
      }
      found := found[slot := upload.value];
      rest := rest - {slot};
    }
    validated := Some(found);
    assert found == map slot | slot in r.evidence :: Unwrap(p, r.binding.mailboxId, slot, r.evidence[slot]).value;
  }

  method CredentialInUse(records: map<Uuid, Record>, digest: Digest, excluding: Option<Uuid>) returns (used: bool)
    ensures used == InUse(records, digest, excluding)
  {
    hide Credentials;
    var rest := records.Keys;
    while rest != {}
      invariant rest <= records.Keys
      invariant forall id | id in records.Keys - rest && Some(id) != excluding :: digest !in Credentials(records[id])
      decreases |rest|
    {
      var id :| id in rest;
      if Some(id) != excluding && digest in Credentials(records[id]) {
        return true;
      }
      rest := rest - {id};
    }
    used := false;
  }

  method ValidateAllMaterial(p: Primitives, records: map<Uuid, Record>) returns (ok: bool)
    ensures ok == !exists id :: id in records && ValidatedMaterial(p, records[id]).None?
  {
    hide ValidatedMaterial;
    var rest := records.Keys;
    while rest != {}
      invariant rest <= records.Keys
      invariant forall id | id in records.Keys - rest :: ValidatedMaterial(p, records[id]).Some?
      decreases |rest|
    {
      var id :| id in rest;
      if ValidatedMaterial(p, records[id]).None? {
        return false;
      }
      rest := rest - {id};
    }
    ok := true;
  }

  method SomeRecordAhead(records: map<Uuid, Record>, now: Instant) returns (ahead: bool)
    ensures ahead == exists id :: id in records && now < records[id].lastSeen
  {
    var rest := records.Keys;
    while rest != {}
      invariant rest <= records.Keys
      invariant forall id | id in records.Keys - rest :: records[id].lastSeen <= now
      decreases |rest|
    {
      var id :| id in rest;
      if now < records[id].lastSeen {
        return true;
      }
      rest := rest - {id};
    }
    ahead := false;
  }

  method CheckSeals(seals: seq<EvidenceSeal>, evidence: map<Uuid, EvidenceUpload>) returns (matching: bool)
    requires SealIds(seals) <= evidence.Keys
    ensures matching == SealsMatch(seals, evidence)
  {
    for i := 0 to |seals|
      invariant forall j | 0 <= j < i :: SealMatches(seals[j], evidence[seals[j].objectId])
    {
      assert seals[i].objectId in SealIds(seals);
      if !SealMatches(seals[i], evidence[seals[i].objectId]) {
        return false;
      }
    }
    matching := true;
  }

  /** All records listed in removal order, by repeated selection of the first. */
  method SortRecords(records: map<Uuid, Record>, now: Instant) returns (order: seq<Uuid>)
    ensures SortedListing(records, order, now)
  {
    hide SortTime;
    order := [];
    var rest := records.Keys;
    while rest != {}
      invariant rest <= records.Keys
      invariant forall id :: id in order <==> id in records.Keys - rest
      invariant forall i, j | 0 <= i < j < |order| :: order[i] in records && order[j] in records && SortsBefore(records, order[i], order[j], now)
      invariant forall i, id | 0 <= i < |order| && id in rest :: order[i] in records && SortsBefore(records, order[i], id, now)
      decreases |rest|
    {
      var first := FirstOf(records, rest, now);
      order := order + [first];
      rest := rest - {first};
    }
    assert forall id :: id in order <==> id in records;
  }

  method FirstOf(records: map<Uuid, Record>, ids: set<Uuid>, now: Instant) returns (first: Uuid)
    requires ids != {} && ids <= records.Keys
    ensures first in ids
    ensures forall id | id in ids && id != first :: SortsBefore(records, first, id, now)
  {
    first :| first in ids;
    var rest := ids - {first};
    while rest != {}
      invariant rest <= ids && first in ids - rest
      invariant forall id | id in ids - rest && id != first :: SortsBefore(records, first, id, now)
      decreases |rest|
    {
      var id :| id in rest;
      ghost var previous := first;
      if SortsBefore(records, id, first, now) {
        first := id;
        forall other | other in ids - rest && other != previous ensures SortsBefore(records, first, other, now) {
          assert SortsBefore(records, previous, other, now);
        }
      }
      rest := rest - {id};
    }
  }

  method PurgeTombstones(tombstones: map<Uuid, Tombstone>, now: Instant) returns (live: map<Uuid, Tombstone>)
    ensures live == map id | id in tombstones && tombstones[id].expiresAt > now :: tombstones[id]
  {
    live := tombstones;
    var rest := tombstones.Keys;
    while rest != {}
      invariant rest <= tombstones.Keys
      invariant live == map id | id in tombstones && (id in rest || tombstones[id].expiresAt > now) :: tombstones[id]
      decreases |rest|
    {
      var id :| id in rest;
      if tombstones[id].expiresAt <= now {
        live := live - {id};
      }
      rest := rest - {id};
    }
  }

  // --- What the tallies become -----------------------------------------------

  lemma TalliesInsert(records: map<Uuid, Record>, id: Uuid, r: Record)
    requires id !in records
    requires r.envelope.None? && r.actionKey.None? && r.resultCredential.None? && r.evidence == map[] && r.committedAt.None?
    ensures SumOver(records[id := r], ActiveBytes) == SumOver(records, ActiveBytes)
    ensures SumOver(records[id := r], EvidenceBytes) == SumOver(records, EvidenceBytes)
    ensures SumOver(records[id := r], CommittedBytes) == SumOver(records, CommittedBytes)
  {
    EmptyEvidenceWeighsNothing();
    hide SumOver;
    SumUpdate(records, id, r, ActiveBytes);
    SumUpdate(records, id, r, EvidenceBytes);
    SumUpdate(records, id, r, CommittedBytes);
  }

  lemma StagedTallies(records: map<Uuid, Record>, r: Record, objectId: Uuid, item: WrappedEvidence, now: Instant)
    requires r.binding.mailboxId in records && records[r.binding.mailboxId] == r
    requires objectId !in r.evidence && r.committedAt.None?
    ensures var records' := records[r.binding.mailboxId := Staged(r, objectId, item, now)];
            && SumOver(records', ActiveBytes) == SumOver(records, ActiveBytes)
            && SumOver(records', EvidenceBytes) == SumOver(records, EvidenceBytes) + item.byteCount
            && SumOver(records', CommittedBytes) == SumOver(records, CommittedBytes)
  {
    hide SumOver;
    SumUpdate(r.evidence, objectId, item, ItemBytes);
    TalliesUpdate(records, r.binding.mailboxId, Staged(r, objectId, item, now));
  }

  lemma CommittedTallies(p: Primitives, records: map<Uuid, Record>, r: Record, json: Bytes, nonce: Nonce, now: Instant)
    requires r.binding.mailboxId in records && records[r.binding.mailboxId] == r
    requires r.committedAt.None?
    ensures var records' := records[r.binding.mailboxId := Committed(p, r, json, nonce, now)];
            && SumOver(records', ActiveBytes) == SumOver(records, ActiveBytes)
            && SumOver(records', EvidenceBytes) == SumOver(records, EvidenceBytes)
            && SumOver(records', CommittedBytes) == SumOver(records, CommittedBytes) + |json| + EvidenceBytes(r)
    ensures Committed(p, r, json, nonce, now).binding == r.binding
  {
    hide SumOver;
    TalliesUpdate(records, r.binding.mailboxId, Committed(p, r, json, nonce, now));
  }

  // --- The repository --------------------------------------------------------

  class Repository {
    const c: Config
    const p: Primitives
    var records: map<Uuid, Record>
    var tombstones: map<Uuid, Tombstone>
    var highWater: Option<Instant>
    var totalActive: nat
    var totalEvidence: nat
    var totalCommitted: nat

    ghost function State(): Installation
      reads this
    {
      Installation(records, tombstones, highWater)
    }

    /** The running totals are the sums; records sit under their own identifier. */
    ghost predicate Valid()
      reads this
    {
      && totalActive == SumOver(records, ActiveBytes)
      && totalEvidence == SumOver(records, EvidenceBytes)
      && totalCommitted == SumOver(records, CommittedBytes)
      && records.Keys !! tombstones.Keys
      && forall id | id in records :: records[id].binding.mailboxId == id
    }

    /** The repository did what the machine decided in `before`, and answered that. */
    ghost predicate Follows(before: Installation, d: Decision, reply: Reply)
      reads this
    {
      State() == Apply(c, p, before, d.effect) && reply == d.reply
    }

    /** Record `id` made this one move, and nothing else changed but the high-water mark. */
    ghost predicate DidMove(before: Installation, id: Uuid, move: Move, now: Instant)
      reads this
    {
      && id in before.records
      && State() == Put(before, Moved(p, before.records[id], move, now), now)
      && id in records && records[id] == Moved(p, before.records[id], move, now)
    }

    /** Valid, and holding a state the protocol can reach. */
    ghost predicate Consistent()
      reads this
    {
      Valid() && Inv(c, p, State())
    }

    constructor (c: Config, p: Primitives)
      ensures Valid() && State() == EMPTY_INSTALLATION
      ensures this.c == c && this.p == p
    {
      this.c, this.p := c, p;
      records, tombstones, highWater := map[], map[], None;
      totalActive, totalEvidence, totalCommitted := 0, 0, 0;
    }

    /** A repository holding a loaded state with the totals that were saved with it. */
    constructor Restored(c: Config, p: Primitives, s: Installation, totals: Totals)
      requires Inv(c, p, s) && totals == TotalsOf(s.records)
      ensures Consistent() && State() == s
      ensures this.c == c && this.p == p
    {
      this.c, this.p := c, p;
      records, tombstones, highWater := s.records, s.tombstones, s.highWater;
      totalActive, totalEvidence, totalCommitted := totals.active, totals.evidence, totals.committed;
      new;
      hide Inv, SumOver, WithinQuota;
      InvQuota(c, p, s);
    }

    lemma TotalsAreSums()
      requires Valid()
      ensures Totals(totalActive, totalEvidence, totalCommitted) == TotalsOf(records)
    {
    }

    // --- Private steps ---

    method AdvanceInstallationTime(now: Instant)
      modifies this`highWater
      ensures old(Valid()) ==> Valid()
      ensures highWater == Advance(old(highWater), now)
    {
      if highWater.None? || now > highWater.value {
        highWater := Some(now);
      }
    }

    /** Updates fields of a record that weigh nothing. */
    method Update(id: Uuid, r: Record)
      requires Valid() && id in records
      requires r.binding == records[id].binding
      requires r.envelope == records[id].envelope && r.actionKey == records[id].actionKey && r.resultCredential == records[id].resultCredential
      requires r.evidence == records[id].evidence && r.result == records[id].result && r.committedAt == records[id].committedAt
      modifies this`records
      ensures Valid()
      ensures records == old(records)[id := r]
    {
      hide SumOver;
      TalliesUpdate(records, id, r);
      records := records[id := r];
    }

    method ObserveTime(id: Uuid, now: Instant)
      requires Valid() && id in records
      modifies this`records, this`highWater
      ensures Valid()
      ensures records == old(records)[id := old(records)[id].(lastSeen := now)]
      ensures highWater == Advance(old(highWater), now)
    {
      hide SumOver;
      Update(id, records[id].(lastSeen := now));
      AdvanceInstallationTime(now);
    }

    method ClearClaimDeliveryMaterial(id: Uuid)
      requires Valid() && id in records
      modifies this`records, this`totalActive
      ensures Valid()
      ensures records == old(records)[id := ClearClaimMaterial(old(records)[id])]
    {
      hide SumOver;
      var r := records[id];
      var active := Length(r.envelope) + Length(r.actionKey) + Length(r.resultCredential);
      TalliesUpdate(records, id, ClearClaimMaterial(r));
      SumRemove(records, id, ActiveBytes);
      totalActive := totalActive - active;
      records := records[id := ClearClaimMaterial(r)];
    }

    method ReleaseRecordPayloads(id: Uuid)
      requires Valid() && id in records
      modifies this`records, this`totalEvidence, this`totalCommitted
      ensures Valid()
      ensures records == old(records)[id := ReleasePayloads(old(records)[id])]
    {
      EmptyEvidenceWeighsNothing();
      hide SumOver;
      var r := records[id];
      var evidenceBytes := RecordEvidenceBytes(r);
      var committedBytes := (if r.result.Some? then r.result.value.byteCount else 0) + evidenceBytes;
      TalliesUpdate(records, id, ReleasePayloads(r));
      SumRemove(records, id, EvidenceBytes);
      SumRemove(records, id, CommittedBytes);
      totalEvidence := totalEvidence - evidenceBytes;
      if r.committedAt.Some? {
        totalCommitted := totalCommitted - committedBytes;
      }
      records := records[id := ReleasePayloads(r)];
    }

    method ClearActionMaterialOf(id: Uuid)
      requires Valid() && id in records
      modifies this`records, this`totalActive, this`totalEvidence, this`totalCommitted
      ensures Valid()
      ensures records == old(records)[id := ClearActionMaterial(old(records)[id])]
    {
      hide SumOver;
      ClearClaimDeliveryMaterial(id);
      Update(id, records[id].(resultDigest := None));
      ReleaseRecordPayloads(id);
    }

    /** Releases a record's material and gives it its terminal state. */
    method Terminate(id: Uuid, state: MailboxState, now: Instant)
      requires Valid() && id in records
      modifies this
      ensures Valid() && tombstones == old(tombstones)
      ensures records == old(records)[id := Terminated(old(records)[id], state, now)]
      ensures highWater == Advance(old(highWater), now)
    {
      hide SumOver, ClearActionMaterial;
      ClearActionMaterialOf(id);
      Update(id, records[id].(state := state, terminalAt := Some(now)));
      ObserveTime(id, now);
    }

    method ExpireIfDue(id: Uuid, now: Instant) returns (expired: bool)
      requires Valid() && id in records
      modifies this
      ensures Valid()
      ensures expired == DueNow(old(records)[id], now)
      ensures if expired then DidMove(old(State()), id, Expiry, now) else State() == old(State())
    {
      hide SumOver;
      var r := records[id];
      if r.state == EXPIRED {
        ObserveTime(id, now);
        return true;
      }
      var deadline := if r.state == EMPTY || r.state == OFFERED then r.binding.claimDeadline else r.binding.deadline;
      if (r.state == EMPTY || r.state == OFFERED || r.state == CLAIMED_ONCE) && now >= deadline {
        Terminate(id, EXPIRED, now);
        return true;
      }
      return false;
    }

    method Insert(r: Record, now: Instant)
      requires Valid() && r.binding.mailboxId !in records && r.binding.mailboxId !in tombstones
      requires r.envelope.None? && r.actionKey.None? && r.resultCredential.None? && r.evidence == map[] && r.committedAt.None?
      modifies this
      ensures Valid() && State() == Put(old(State()), r, now)
    {
      hide SumOver;
      TalliesInsert(records, r.binding.mailboxId, r);
      records := records[r.binding.mailboxId := r];
      AdvanceInstallationTime(now);
    }

    method Observe(id: Uuid, now: Instant)
      requires Valid() && id in records
      modifies this
      ensures Valid() && DidMove(old(State()), id, Observing, now)
    {
      hide SumOver;
      ObserveTime(id, now);
    }

    method Retire(id: Uuid, now: Instant)
      requires Valid() && id in records
      modifies this
      ensures Valid() && DidMove(old(State()), id, Abandonment, now)
    {
      hide SumOver, Terminated;
      TerminatedKeepsBinding(records[id], ABANDONED, now);
      Terminate(id, ABANDONED, now);
    }

    /** The offer's material enters the record and the running total together. */
    method TakeOffer(id: Uuid, envelope: Bytes, actionKey: Bytes, resultCredential: Bytes, resultDigest: Digest, now: Instant)
      requires Valid() && id in records && ActiveBytes(records[id]) == 0 && records[id].committedAt.None?
      modifies this
      ensures Valid() && DidMove(old(State()), id, Offering(envelope, actionKey, resultCredential, resultDigest), now)
    {
      hide SumOver;
      var r := records[id].(envelope := Some(envelope), actionKey := Some(actionKey), resultCredential := Some(resultCredential),
                            resultDigest := Some(resultDigest), state := OFFERED, lastSeen := now);
      TalliesUpdate(records, id, r);
      records := records[id := r];
      AdvanceInstallationTime(now);
      totalActive := totalActive + |envelope| + |actionKey| + |resultCredential|;
    }

    method TakeClaim(id: Uuid, now: Instant)
      requires Valid() && id in records
      modifies this
      ensures Valid() && DidMove(old(State()), id, Claiming, now)
    {
      hide SumOver;
      Update(id, records[id].(state := CLAIMED_ONCE));
      ObserveTime(id, now);
      ClearClaimDeliveryMaterial(id);
    }

    method TakeEvidence(id: Uuid, u: EvidenceUpload, nonce: Nonce, now: Instant)
      requires Valid() && id in records && u.objectId !in records[id].evidence && records[id].committedAt.None?
      modifies this
      ensures Valid() && DidMove(old(State()), id, Staging(u, nonce), now)
    {
      hide SumOver, EvidenceAad;
      var r, item := records[id], Wrap(p, id, u, nonce);
      StagedTallies(records, r, u.objectId, item, now);
      records := records[id := r.(evidence := r.evidence[u.objectId := item], lastSeen := now)];
      AdvanceInstallationTime(now);
      totalEvidence := totalEvidence + item.byteCount;
    }

    method TakeResult(id: Uuid, json: Bytes, nonce: Nonce, response: nat, now: Instant)
      requires Valid() && id in records && records[id].committedAt.None?
      requires response == |json| + EvidenceBytes(records[id])
      modifies this
      ensures Valid() && DidMove(old(State()), id, Committing(json, nonce), now)
    {
      hide SumOver, EvidenceBytes, WrapResult, BuildManifest;
      var r := records[id];
      var result := WrapResult(p, r.binding, json, nonce);
      var manifest := BuildManifest(p, r.binding, r.evidence.Keys, result);
      CommittedTallies(p, records, r, json, nonce, now);
      records := records[id := r.(result := Some(result), manifest := Some(manifest), state := RESULT_COMMITTED,
                                  collection := READY, resultDigest := None, committedAt := Some(now), lastSeen := now)];
      AdvanceInstallationTime(now);
      totalCommitted := totalCommitted + response;
    }

    method StartDelivery(id: Uuid, now: Instant)
      requires Valid() && id in records
      modifies this
      ensures Valid() && DidMove(old(State()), id, Delivering, now)
    {
      hide SumOver;
      Update(id, records[id].(collection := DELIVERING));
      ObserveTime(id, now);
    }

    method FinishDelivery(id: Uuid, now: Instant)
      requires Valid() && id in records
      modifies this
      ensures Valid() && DidMove(old(State()), id, Acknowledging, now)
    {
      hide SumOver;
      ReleaseRecordPayloads(id);
      Update(id, records[id].(collection := ACKNOWLEDGED, terminalAt := Some(now)));
      ObserveTime(id, now);
    }

    method RetainedMaterial(r: Record) returns (material: Option<Material>)
      ensures material == ValidatedMaterial(p, r)
    {
      hide UnwrapResult, ReferencesValid, BuildManifest;
      var slots := ValidateEvidenceSlots(p, r);
      hide EvidenceSlots;
      if slots.None? {
        return None;
      }
      var evidence := slots.value;
      if r.state == RESULT_COMMITTED {
        if r.committedAt.None? {
          return None;
        }
        if r.collection == ACKNOWLEDGED {
          if evidence != map[] || r.result.Some? || r.manifest.Some? {
            return None;
          }
          return Some(Material(evidence, None));
        }
        if r.collection != READY && r.collection != DELIVERING {
          return None;
        }
        if r.result.None? || r.manifest.None? {
          return None;
        }
        var json := UnwrapResult(p, r.binding, r.result.value);
        if json.None? || !ReferencesValid(p, r.binding, json.value, evidence) {
          return None;
        }
        if r.manifest.value != BuildManifest(p, r.binding, evidence.Keys, r.result.value) {
          return None;
        }
        return Some(Material(evidence, json));
      }
      if r.collection != NONE || r.result.Some? || r.manifest.Some? || r.committedAt.Some?
         || (r.state != CLAIMED_ONCE && evidence != map[]) {
        return None;
      }
      return Some(Material(evidence, None));
    }

    /** Material first, then the installation's clock, then the record's own. */
    method AdmitRecord(r: Record, clock: Option<Instant>) returns (a: Admission)
      ensures a == Admit(p, State(), r, clock)
      ensures a.Admitted? ==> a.record == r
    {
      hide ValidatedMaterial;
      var material := RetainedMaterial(r);
      if material.None? {
        return Refused(INTERNAL_UNCERTAINTY);
      }
      if clock.None? || (highWater.Some? && clock.value < highWater.value) || clock.value < r.lastSeen {
        return Refused(INTERNAL_UNCERTAINTY);
      }
      return Admitted(r, clock.value, material.value);
    }

    method AdmitByOffer(binding: ActionBinding, action: Digest, collection: Digest, clock: Option<Instant>) returns (a: Admission)
      ensures a == AdmitOffer(p, State(), binding, action, collection, clock)
      ensures a.Admitted? ==> binding.mailboxId in records && a.record == records[binding.mailboxId]
    {
      hide Admit;
      var id := binding.mailboxId;
      if id !in records {
        return Refused(if id in tombstones then REPLAY else NOT_FOUND);
      }
      var r := records[id];
      if r.binding != binding {
        return Refused(BINDING_MISMATCH);
      }
      if r.collectionDigest != collection || r.actionDigest != action {
        return Refused(UNAUTHORIZED);
      }
      a := AdmitRecord(r, clock);
    }

    method AdmitByClaim(binding: ActionBinding, claim: Digest, clock: Option<Instant>) returns (a: Admission)
      ensures a == AdmitClaim(p, State(), binding, claim, clock)
      ensures a.Admitted? ==> binding.mailboxId in records && a.record == records[binding.mailboxId]
    {
      hide Admit;
      var id := binding.mailboxId;
      if id !in records {
        return Refused(if id in tombstones then REPLAY else NOT_FOUND);
      }
      var r := records[id];
      if r.claimDigest != claim {
        return Refused(UNAUTHORIZED);
      }
      if r.binding != binding {
        return Refused(BINDING_MISMATCH);
      }
      a := AdmitRecord(r, clock);
    }

    method AdmitByCollector(id: Uuid, collection: Digest, clock: Option<Instant>) returns (a: Admission)
      ensures a == AdmitCollector(p, State(), id, collection, clock)
      ensures a.Admitted? ==> id in records && a.record == records[id]
    {
      hide Admit;
      if id !in records {
        return Refused(if id in tombstones then REPLAY else NOT_FOUND);
      }
      if records[id].collectionDigest != collection {
        return Refused(UNAUTHORIZED);
      }
      a := AdmitRecord(records[id], clock);
    }

    method AdmitByResult(binding: ActionBinding, resultDigest: Digest, clock: Option<Instant>) returns (a: Admission)
      ensures a == AdmitResult(p, State(), binding, resultDigest, clock)
      ensures a.Admitted? ==> binding.mailboxId in records && a.record == records[binding.mailboxId] && a.record.state == CLAIMED_ONCE
    {
      hide Admit;
      var id := binding.mailboxId;
      if id !in records {
        return Refused(if id in tombstones then REPLAY else NOT_FOUND);
      }
      var r := records[id];
      if r.binding != binding {
        return Refused(BINDING_MISMATCH);
      }
      if r.state != CLAIMED_ONCE {
        return Refused(REPLAY);
      }
      if r.resultDigest.None? {
        return Refused(INTERNAL_UNCERTAINTY);
      }
      if r.resultDigest.value != resultDigest {
        return Refused(UNAUTHORIZED);
      }
      a := AdmitRecord(r, clock);
    }

    // --- Operations ---

    method Create(binding: ActionBinding, action: Digest, claim: Digest, collection: Digest, clock: Option<Instant>) returns (reply: Reply)
      requires Consistent()
      modifies this
      ensures Valid()
      ensures Follows(old(State()), DecideCreate(c, old(State()), binding, action, claim, collection, clock), reply)
    {
      hide Inv, SumOver, Moved, Put, SweptAll, CollectedAll, ViewOf, DueNow, EvidenceBytes, InUse, AdmitOffer, AdmitClaim, AdmitResult,
        AdmitCollector, ActionFits, BundleFits, Wrap, Unwrap, ReferencesValid, SealsMatch, SealIds, ActiveBytes, CommittedBytes;
      if clock.None? || (highWater.Some? && clock.value < highWater.value) {
        return Denied(INTERNAL_UNCERTAINTY);
      }
      var now, id := clock.value, binding.mailboxId;
      if id in records {
        return Denied(ALREADY_EXISTS);
      }
      if id in tombstones {
        return Denied(REPLAY);
      }
      if |records| >= c.limits.maxMailboxes {
        return Denied(QUOTA_EXCEEDED);
      }
      if |{action, claim, collection}| != 3 {
        return Denied(INVALID_INPUT);
      }
      if c.maintenance == action || c.maintenance == claim || c.maintenance == collection {
        return Denied(INVALID_INPUT);
      }
      var used := CredentialInUse(records, action, None);
      if !used {
        used := CredentialInUse(records, claim, None);
      }
      if !used {
        used := CredentialInUse(records, collection, None);
      }
      if used {
        return Denied(REPLAY);
      }
      if now >= binding.claimDeadline {
        return Denied(DENIED_EXPIRED);
      }
      var r := NewRecord(binding, now, action, claim, collection);
      Insert(r, now);
      reply := Snapshot(ViewOf(r));
    }

    method Offer(binding: ActionBinding, envelope: Bytes, actionKey: Bytes, action: Digest, collection: Digest,
                 resultCredential: Bytes, resultDigest: Digest, clock: Option<Instant>) returns (reply: Reply)
      requires Consistent()
      modifies this
      ensures Valid()
      ensures Follows(old(State()), DecideOffer(c, p, old(State()), binding, envelope, actionKey, action, collection, resultCredential, resultDigest, clock), reply)
    {
      hide Inv, SumOver, Moved, Put, SweptAll, CollectedAll, ViewOf, DueNow, EvidenceBytes, InUse, AdmitOffer, AdmitClaim, AdmitResult,
        AdmitCollector, ActionFits, BundleFits, Wrap, Unwrap, ReferencesValid, SealsMatch, SealIds, ActiveBytes, CommittedBytes;
      var admission := AdmitByOffer(binding, action, collection, clock);
      if admission.Refused? {
        return Denied(admission.denial);
      }
      var id, r, now := binding.mailboxId, admission.record, admission.now;
      if |{r.actionDigest, r.claimDigest, r.collectionDigest, resultDigest}| != 4 {
        return Denied(INVALID_INPUT);
      }
      if c.maintenance == resultDigest {
        return Denied(INVALID_INPUT);
      }
      var used := CredentialInUse(records, resultDigest, Some(id));
      if used {
        return Denied(REPLAY);
      }
      var expired := ExpireIfDue(id, now);
      if expired {
        return Denied(DENIED_EXPIRED);
      }
      if r.state != EMPTY {
        return Denied(REPLAY);
      }
      if totalActive + |envelope| + |actionKey| + |resultCredential| > c.limits.maxActiveBytes {
        return Denied(QUOTA_EXCEEDED);
      }
      NothingHeldYet(c, p, State(), id);
      TakeOffer(id, envelope, actionKey, resultCredential, resultDigest, now);
      reply := Snapshot(ViewOf(records[id]));
    }

    method Claim(binding: ActionBinding, claim: Digest, clock: Option<Instant>, crashes: set<CrashPoint>) returns (reply: Reply)
      requires Consistent()
      modifies this
      ensures Valid()
      ensures Follows(old(State()), DecideClaim(p, old(State()), binding, claim, clock, crashes), reply)
    {
      hide Inv, SumOver, Moved, Put, SweptAll, CollectedAll, ViewOf, DueNow, EvidenceBytes, InUse, AdmitOffer, AdmitClaim, AdmitResult,
        AdmitCollector, ActionFits, BundleFits, Wrap, Unwrap, ReferencesValid, SealsMatch, SealIds, ActiveBytes, CommittedBytes;
      var admission := AdmitByClaim(binding, claim, clock);
      if admission.Refused? {
        return Denied(admission.denial);
      }
      var id, r, now := binding.mailboxId, admission.record, admission.now;
      var expired := ExpireIfDue(id, now);
      if expired {
        return Denied(DENIED_EXPIRED);
      }
      if r.state != OFFERED {
        return Denied(REPLAY);
      }
      if r.envelope.None? || r.actionKey.None? || r.resultCredential.None? {
        return Denied(INTERNAL_UNCERTAINTY);
      }
      if BEFORE_CLAIM_COMMIT in crashes {
        return Crashed(BEFORE_CLAIM_COMMIT);
      }
      TakeClaim(id, now);
      if AFTER_CLAIM_COMMIT in crashes {
        reply := Crashed(AFTER_CLAIM_COMMIT);
      } else if !ActionFits(r.envelope.value, r.actionKey.value, r.resultCredential.value) {
        reply := Fault;
      } else {
        reply := Claimed(r.binding, r.envelope.value, r.actionKey.value, r.resultCredential.value);
      }
    }

    method StageEvidence(binding: ActionBinding, resultDigest: Digest, u: EvidenceUpload, nonce: Nonce,
                         clock: Option<Instant>, crashes: set<CrashPoint>) returns (reply: Reply)
      requires Consistent()
      modifies this
      ensures Valid()
      ensures Follows(old(State()), DecideStage(c, p, old(State()), binding, resultDigest, u, nonce, clock, crashes), reply)
    {
      hide Inv, SumOver, Moved, Put, SweptAll, CollectedAll, ViewOf, DueNow, EvidenceBytes, InUse, AdmitOffer, AdmitClaim, AdmitResult,
        AdmitCollector, ActionFits, BundleFits, Wrap, Unwrap, ReferencesValid, SealsMatch, SealIds, ActiveBytes, CommittedBytes;
      var admission := AdmitByResult(binding, resultDigest, clock);
      if admission.Refused? {
        return Denied(admission.denial);
      }
      var id, r, now := binding.mailboxId, admission.record, admission.now;
      NothingHeldYet(c, p, State(), id);
      var expired := ExpireIfDue(id, now);
      if expired {
        return Denied(DENIED_EXPIRED);
      }
      if u.objectId in r.evidence {
        return Denied(REPLAY);
      }
      if |r.evidence| >= MAX_EVIDENCE_ITEMS {
        return Denied(EVIDENCE_LIMIT);
      }
      var aggregate := RecordEvidenceBytes(r);
      if aggregate + |u.payload| > r.binding.responseBytes {
        return Denied(EVIDENCE_LIMIT);
      }
      if totalEvidence + |u.payload| > c.limits.maxEvidenceBytes {
        return Denied(QUOTA_EXCEEDED);
      }
      if p.hash(u.payload) != u.payloadDigest {
        return Denied(DIGEST_MISMATCH);
      }
      if Unwrap(p, id, u.objectId, Wrap(p, id, u, nonce)).None? {
        return Denied(INTERNAL_UNCERTAINTY);
      }
      if BEFORE_EVIDENCE_COMMIT in crashes {
        return Crashed(BEFORE_EVIDENCE_COMMIT);
      }
      TakeEvidence(id, u, nonce, now);
      if AFTER_EVIDENCE_COMMIT in crashes {
        return Crashed(AFTER_EVIDENCE_COMMIT);
      }
      reply := Snapshot(ViewOf(records[id]));
    }

    method CommitResult(binding: ActionBinding, resultDigest: Digest, json: Bytes, seals: seq<EvidenceSeal>, nonce: Nonce,
                        clock: Option<Instant>, crashes: set<CrashPoint>) returns (reply: Reply)
      requires Consistent()
      modifies this
      ensures Valid()
      ensures Follows(old(State()), DecideCommit(c, p, old(State()), binding, resultDigest, json, seals, nonce, clock, crashes), reply)
    {
      hide Inv, SumOver, Moved, Put, SweptAll, CollectedAll, ViewOf, DueNow, EvidenceBytes, InUse, AdmitOffer, AdmitClaim, AdmitResult,
        AdmitCollector, ActionFits, BundleFits, Wrap, Unwrap, ReferencesValid, SealsMatch, SealIds, ActiveBytes, CommittedBytes;
      var admission := AdmitByResult(binding, resultDigest, clock);
      if admission.Refused? {
        return Denied(admission.denial);
      }
      var id, r, now, evidence := binding.mailboxId, admission.record, admission.now, admission.material.evidence;
      NothingHeldYet(c, p, State(), id);
      var expired := ExpireIfDue(id, now);
      if expired {
        return Denied(DENIED_EXPIRED);
      }
      var referenced := SealIds(seals);
      if !(referenced <= evidence.Keys) {
        return Denied(EVIDENCE_MISSING);
      }
      if !(evidence.Keys <= referenced) {
        return Denied(EVIDENCE_UNREFERENCED);
      }
      var matching := CheckSeals(seals, evidence);
      if !matching {
        return Denied(DIGEST_MISMATCH);
      }
      var aggregate := RecordEvidenceBytes(r);
      var response := |json| + aggregate;
      if response > r.binding.responseBytes {
        return Denied(EVIDENCE_LIMIT);
      }
      if totalCommitted + response > c.limits.maxCommittedBytes {
        return Denied(QUOTA_EXCEEDED);
      }
      if !ReferencesValid(p, r.binding, json, evidence) {
        return Denied(INTERNAL_UNCERTAINTY);
      }
      if BEFORE_RESULT_COMMIT in crashes {
        return Crashed(BEFORE_RESULT_COMMIT);
      }
      TakeResult(id, json, nonce, response, now);
      if AFTER_RESULT_COMMIT in crashes {
        return Crashed(AFTER_RESULT_COMMIT);
      }
      reply := Snapshot(ViewOf(records[id]));
    }

    method Collect(id: Uuid, collection: Digest, clock: Option<Instant>) returns (reply: Reply)
      requires Consistent()
      modifies this
      ensures Valid()
      ensures Follows(old(State()), DecideCollect(p, old(State()), id, collection, clock), reply)
    {
      hide Inv, SumOver, Moved, Put, SweptAll, CollectedAll, ViewOf, DueNow, EvidenceBytes, InUse, AdmitOffer, AdmitClaim, AdmitResult,
        AdmitCollector, ActionFits, BundleFits, Wrap, Unwrap, ReferencesValid, SealsMatch, SealIds, ActiveBytes, CommittedBytes;
      var admission := AdmitByCollector(id, collection, clock);
      if admission.Refused? {
        return Denied(admission.denial);
      }
      var r, now, material := admission.record, admission.now, admission.material;
      if r.collection == ACKNOWLEDGED {
        return Denied(REPLAY);
      }
      if r.state != RESULT_COMMITTED || r.result.None? {
        return Denied(INVALID_STATE);
      }
      if (r.collection != READY && r.collection != DELIVERING) || material.result.None? {
        return Denied(INTERNAL_UNCERTAINTY);
      }
      StartDelivery(id, now);
      if BundleFits(r.binding, material.result.value, material.evidence) {
        reply := Bundle(r.binding, material.result.value, material.evidence);
      } else {
        reply := Fault;
      }
    }

    method AcknowledgeCollection(id: Uuid, collection: Digest, clock: Option<Instant>, crashes: set<CrashPoint>) returns (reply: Reply)
      requires Consistent()
      modifies this
      ensures Valid()
      ensures Follows(old(State()), DecideAcknowledge(p, old(State()), id, collection, clock, crashes), reply)
    {
      hide Inv, SumOver, Moved, Put, SweptAll, CollectedAll, ViewOf, DueNow, EvidenceBytes, InUse, AdmitOffer, AdmitClaim, AdmitResult,
        AdmitCollector, ActionFits, BundleFits, Wrap, Unwrap, ReferencesValid, SealsMatch, SealIds, ActiveBytes, CommittedBytes;
      var admission := AdmitByCollector(id, collection, clock);
      if admission.Refused? {
        return Denied(admission.denial);
      }
      var r, now := admission.record, admission.now;
      if r.collection == ACKNOWLEDGED {
        Observe(id, now);
        return Snapshot(ViewOf(records[id]));
      }
      if r.state != RESULT_COMMITTED || r.collection != DELIVERING {
        return Denied(INVALID_STATE);
      }
      if BEFORE_COLLECTION_ACK in crashes {
        return Crashed(BEFORE_COLLECTION_ACK);
      }
      FinishDelivery(id, now);
      if AFTER_COLLECTION_ACK in crashes {
        return Crashed(AFTER_COLLECTION_ACK);
      }
      reply := Snapshot(ViewOf(records[id]));
    }

    method AbandonMailbox(id: Uuid, collection: Digest, clock: Option<Instant>) returns (reply: Reply)
      requires Consistent()
      modifies this
      ensures Valid()
      ensures Follows(old(State()), DecideAbandon(p, old(State()), id, collection, clock), reply)
    {
      hide Inv, SumOver, Moved, Put, SweptAll, CollectedAll, ViewOf, DueNow, EvidenceBytes, InUse, AdmitOffer, AdmitClaim, AdmitResult,
        AdmitCollector, ActionFits, BundleFits, Wrap, Unwrap, ReferencesValid, SealsMatch, SealIds, ActiveBytes, CommittedBytes;
      var admission := AdmitByCollector(id, collection, clock);
      if admission.Refused? {
        return Denied(admission.denial);
      }
      var r, now := admission.record, admission.now;
      var expired := ExpireIfDue(id, now);
      if expired {
        return Denied(DENIED_EXPIRED);
      }
      if r.state != EMPTY && r.state != OFFERED && r.state != CLAIMED_ONCE {
        return Denied(INVALID_STATE);
      }
      Retire(id, now);
      reply := Snapshot(ViewOf(records[id]));
    }

    method InspectMailbox(id: Uuid, collection: Digest, clock: Option<Instant>) returns (reply: Reply)
      requires Consistent()
      modifies this
      ensures Valid()
      ensures Follows(old(State()), DecideInspect(p, old(State()), id, collection, clock), reply)
    {
      hide Inv, SumOver, Moved, Put, SweptAll, CollectedAll, ViewOf, DueNow, EvidenceBytes, InUse, AdmitOffer, AdmitClaim, AdmitResult,
        AdmitCollector, ActionFits, BundleFits, Wrap, Unwrap, ReferencesValid, SealsMatch, SealIds, ActiveBytes, CommittedBytes;
      var admission := AdmitByCollector(id, collection, clock);
      if admission.Refused? {
        return Denied(admission.denial);
      }
      var expired := ExpireIfDue(id, admission.now);
      if !expired {
        Observe(id, admission.now);
      }
      reply := Snapshot(ViewOf(records[id]));
    }

    /** Stops a sweep before it changes anything, or gives the reading it works at. */
    method StartSweep(maintenance: Digest, clock: Option<Instant>) returns (sweep: Sweep)
      ensures sweep == SweepNow(c, p, State(), maintenance, clock)
    {
      hide ValidatedMaterial;
      if c.maintenance != maintenance {
        return Stopped(UNAUTHORIZED);
      }
      var authentic := ValidateAllMaterial(p, records);
      if !authentic {
        return Stopped(INTERNAL_UNCERTAINTY);
      }
      if clock.None? || (highWater.Some? && clock.value < highWater.value) {
        return Stopped(INTERNAL_UNCERTAINTY);
      }
      var ahead := SomeRecordAhead(records, clock.value);
      if ahead {
        return Stopped(INTERNAL_UNCERTAINTY);
      }
      return Proceed(clock.value);
    }

    /** One turn of the sweep: expire the record if due, otherwise observe it. */
    method SweepOne(id: Uuid, now: Instant) returns (newly: bool)
      requires Valid() && id in records
      modifies this
      ensures Valid() && tombstones == old(tombstones)
      ensures records == old(records)[id := SweptRecord(p, old(records)[id], now)]
      ensures highWater == Advance(old(highWater), now)
      ensures newly == Expiring(old(records)[id], now)
    {
      hide SumOver, Moved, DueNow;
      ghost var r := records[id];
      var wasExpired := records[id].state == EXPIRED;
      var due := ExpireIfDue(id, now);
      newly := due && !wasExpired;
      if !newly {
        Observe(id, now);
      }
      MovedKeepsBinding(p, r, if DueNow(r, now) then Expiry else Observing, now);
      if due && wasExpired {
        ObservedTwice(p, r, now);
      }
    }

    /** Record after record, in whatever order the dictionary yields them. */
    method SweepRecords(now: Instant) returns (expired: set<Uuid>)
      requires Valid()
      modifies this
      ensures Valid() && State() == SweptAll(p, old(State()), now)
      ensures expired == NewlyExpired(old(records), now)
    {
      hide Valid, SumOver, SweptRecord, Expiring, PartlySwept, PartlyExpired, NewlyExpired, Advance;
      ghost var before := State();
      var rest := records.Keys;
      expired := {};
      SweepStarts(p, before.records, now);
      while rest != {}
        invariant Valid() && tombstones == before.tombstones
        invariant rest <= before.records.Keys
        invariant records == PartlySwept(p, before.records, rest, now)
        invariant expired == PartlyExpired(before.records, rest, now)
        invariant highWater == before.highWater || highWater == Advance(before.highWater, now)
        decreases |rest|
      {
        var id :| id in rest;
        SweepTurn(p, before.records, rest, id, now);
        AdvanceTwice(before.highWater, now);
        var newly := SweepOne(id, now);
        if newly {
          expired := expired + {id};
        }
        rest := rest - {id};
      }
      AdvanceTwice(before.highWater, now);
      AdvanceInstallationTime(now);
      assert Valid();
      SweepEnds(p, before, now);
    }

    method ExpireAll(maintenance: Digest, clock: Option<Instant>) returns (reply: Reply)
      requires Consistent()
      modifies this
      ensures Valid()
      ensures Follows(old(State()), DecideExpire(c, p, old(State()), maintenance, clock), reply)
    {
      hide Inv, Valid, SumOver, SweepNow, SweptAll, NewlyExpired;
      var sweep := StartSweep(maintenance, clock);
      if sweep.Stopped? {
        return Denied(sweep.denial);
      }
      var expired := SweepRecords(sweep.now);
      reply := Swept(Ascending(expired));
    }

    /** Every record is marked as last seen at the sweep's time; nothing else about it changes. */
    method TouchRecords(now: Instant)
      requires Valid()
      modifies this`records
      ensures Valid() && records == RecordsWithout(old(records), {}, now)
    {
      hide Valid, SumOver, PartlyTouched, RecordsWithout;
      ghost var before := records;
      var rest := records.Keys;
      TouchEnds(before, now);
      while rest != {}
        invariant Valid() && tombstones == old(tombstones)
        invariant rest <= before.Keys
        invariant records == PartlyTouched(before, rest, now)
        decreases |rest|
      {
        var id :| id in rest;
        TouchTurn(before, rest, id, now);
        Update(id, records[id].(lastSeen := now));
        rest := rest - {id};
      }
    }

    /** Releases whatever a record still holds, deletes it and leaves a tombstone. */
    method Bury(id: Uuid, now: Instant, until: Instant)
      requires Valid() && id in records
      modifies this
      ensures Valid() && highWater == old(highWater)
      ensures records == old(records) - {id}
      ensures tombstones == old(tombstones)[id := Tombstone(now, until)]
    {
      hide SumOver;
      ClearActionMaterialOf(id);
      BuriedWeighsNothing(records[id]);
      TalliesRemove(records, id);
      records := records - {id};
      tombstones := tombstones[id := Tombstone(now, until)];
    }

    /** Oldest terminal record first, while a tombstone slot is free. */
    method BuryDue(now: Instant, until: Instant) returns (removed: set<Uuid>)
      requires Valid() && until == Until(c, now) && records.Keys !! tombstones.Keys
      requires forall id | id in tombstones :: tombstones[id].expiresAt > now
      requires |tombstones| <= c.limits.maxTombstones
      requires forall id | id in records :: records[id].lastSeen == now
      modifies this
      ensures Valid() && highWater == old(highWater)
      ensures removed == Removed(c, old(State()), now)
      ensures records == RecordsWithout(old(records), removed, now)
      ensures tombstones == TombstonesWith(old(tombstones), removed, now, until)
    {
      hide Valid, Due, RecordsWithout, TombstonesWith, CollectedUpTo, Removed, SortsBefore;
      ghost var s, room := State(), c.limits.maxTombstones - |tombstones|;
      var order := SortRecords(records, now);
      removed := {};
      ghost var cut := 0;
      BurialStarts(c, s, order, room, now);
      NothingBuried(s, now, until);
      for k := 0 to |order|
        invariant Valid() && highWater == s.highWater
        invariant removed <= s.records.Keys
        invariant CollectedUpTo(c, s.records, order, k, cut, removed, room, now)
        invariant records == RecordsWithout(s.records, removed, now)
        invariant tombstones == TombstonesWith(s.tombstones, removed, now, until)
      {
        var id := order[k];
        CollectedUpToTurn(c, s.records, order, k, cut, removed, room, now);
        RecordsTurn(s.records, removed, id, now);
        TombstonesTurn(s.tombstones, removed, id, now, until);
        TombstonesCount(s.tombstones, removed, now, until);
        DueStill(c, s.records[id], now);
        if Due(c, records[id], now) && |tombstones| < c.limits.maxTombstones {
          Bury(id, now, until);
          removed := removed + {id};
          cut := k + 1;
        } else if |removed| < room {
          cut := k + 1;
        }
      }
      assert LiveTombstones(s, now) == s.tombstones;
      CollectedUpToEnds(c, s, order, cut, removed, room, now);
    }

    method DropExpiredTombstones(now: Instant)
      requires Valid()
      modifies this`tombstones
      ensures Valid() && tombstones == LiveTombstones(old(State()), now)
    {
      hide SumOver;
      tombstones := PurgeTombstones(tombstones, now);
    }

    method GarbageCollectAll(maintenance: Digest, clock: Option<Instant>) returns (reply: Reply)
      requires Consistent()
      modifies this
      ensures Valid()
      ensures Follows(old(State()), DecideCollection(c, p, old(State()), maintenance, clock), reply)
    {
      hide Inv, Valid, SumOver, SweepNow, CollectedAll, Removed, RecordsWithout, TombstonesWith, LiveTombstones;
      ghost var before := State();
      var sweep := StartSweep(maintenance, clock);
      if sweep.Stopped? {
        return Denied(sweep.denial);
      }
      var now := sweep.now;
      if now + c.limits.tombstoneRetention > MAX_INSTANT {
        return Denied(INTERNAL_UNCERTAINTY);
      }
      TouchRecords(now);
      AdvanceInstallationTime(now);
      LiveFollowsTombstones(before, State(), now);
      DropExpiredTombstones(now);
      ghost var middle := State();
      CollectionPrepared(c, p, before, middle, now);
      var removed := BuryDue(now, now + c.limits.tombstoneRetention);
      CollectionDone(c, before, middle, now);
      reply := Swept(Ascending(removed));
    }

    // --- Dispatch ---

    /** Any operation takes the repository exactly one step of the machine, and it stays consistent. */
    method Perform(q: Request) returns (reply: Reply)
      requires Sound(p) && Consistent()
      modifies this
      ensures Consistent()
      ensures Outcome(State(), reply) == Step(c, p, old(State()), q)
    {
      hide Sound, Inv, Valid, Apply, DecideCreate, DecideOffer, DecideClaim, DecideStage, DecideCommit, DecideCollect,
        DecideAcknowledge, DecideAbandon, DecideInspect, DecideExpire, DecideCollection;
      StepKeepsInv(c, p, State(), q);
      match q.op
      case Create(binding, action, claim, collection) => reply := Create(binding, action, claim, collection, q.clock);
      case Offer(binding, envelope, actionKey, action, collection, resultCredential, resultDigest) =>
        reply := Offer(binding, envelope, actionKey, action, collection, resultCredential, resultDigest, q.clock);
      case Claim(binding, claim) => reply := Claim(binding, claim, q.clock, q.crashes);
      case Stage(binding, resultDigest, upload, nonce) =>
        reply := StageEvidence(binding, resultDigest, upload, nonce, q.clock, q.crashes);
      case Commit(binding, resultDigest, resultJson, seals, nonce) =>
        reply := CommitResult(binding, resultDigest, resultJson, seals, nonce, q.clock, q.crashes);
      case Collect(id, collection) => reply := Collect(id, collection, q.clock);
      case Acknowledge(id, collection) => reply := AcknowledgeCollection(id, collection, q.clock, q.crashes);
      case Abandon(id, collection) => reply := AbandonMailbox(id, collection, q.clock);
      case Expire(maintenance) => reply := ExpireAll(maintenance, q.clock);
      case GarbageCollect(maintenance) => reply := GarbageCollectAll(maintenance, q.clock);
      case Inspect(id, collection) => reply := InspectMailbox(id, collection, q.clock);
    }
  }
}

/** The guarantees of a chain of accepted revisions, read off the rows of the documents themselves. */
module RevisionRows {
  import opened Identifiers
  import opened RevisionHistory
  import opened RevisionChains

  // --- Rows -------------------------------------------------------------------

  /** `row` is the last of the rows under its identifier: the one that counts. */
  ghost predicate Standing<T(!new)>(rows: seq<T>, key: T -> Name, row: T) {
    exists n :: 0 <= n < |rows| && rows[n] == row && forall m :: n < m < |rows| ==> key(rows[m]) != key(row)
  }

  lemma {:induction false} IndexIsStanding<T(!new)>(rows: seq<T>, key: T -> Name, row: T)
    ensures Standing(rows, key, row) <==> key(row) in Index(rows, key) && Index(rows, key)[key(row)] == row
  {
    if rows != [] {
      var last, front := rows[|rows| - 1], rows[..|rows| - 1];
      IndexIsStanding(front, key, row);
      StandingInFront(rows, key, row);
    }
  }

  lemma StandingInFront<T(!new)>(rows: seq<T>, key: T -> Name, row: T)
    requires rows != []
    ensures var last := rows[|rows| - 1];
            Standing(rows, key, row) <==> if key(last) == key(row) then last == row else Standing(rows[..|rows| - 1], key, row)
  {
    var last, front := rows[|rows| - 1], rows[..|rows| - 1];
    if last == row {
      assert rows[|rows| - 1] == row;
    }
    if Standing(front, key, row) && key(last) != key(row) {
      var n :| 0 <= n < |front| && front[n] == row && forall m :: n < m < |front| ==> key(front[m]) != key(row);
      forall m | n < m < |rows| ensures key(rows[m]) != key(row) {
        assert m < |front| ==> rows[m] == front[m];
      }
      assert rows[n] == row;
    }
    if Standing(rows, key, row) && key(last) != key(row) {
      var n :| 0 <= n < |rows| && rows[n] == row && forall m :: n < m < |rows| ==> key(rows[m]) != key(row);
      assert front[n] == row;
      forall m | n < m < |front| ensures key(front[m]) != key(row) {
        assert rows[m] == front[m];
      }
    }
  }

  /** The identifier has a row. */
  ghost predicate Listed<T(!new)>(rows: seq<T>, key: T -> Name, id: Name) {
    exists n :: 0 <= n < |rows| && key(rows[n]) == id
  }

  lemma IndexIsListed<T(!new)>(rows: seq<T>, key: T -> Name, id: Name)
    ensures Listed(rows, key, id) <==> id in Index(rows, key)
    ensures id in Index(rows, key) ==> Standing(rows, key, Index(rows, key)[id])
  {
    if Listed(rows, key, id) {
      var n :| 0 <= n < |rows| && key(rows[n]) == id;
      assert rows[n] in rows;
    }
    if id in Index(rows, key) {
      var row := Index(rows, key)[id];
      var n :| 0 <= n < |rows| && rows[n] == row;
      IndexIsStanding(rows, key, row);
    }
  }

  // --- Versions ---------------------------------------------------------------

  /** Both versions parse, and the later is not before the earlier in any of the three numbers that decides. */
  predicate AtLeast(later: Option<Semver>, earlier: Option<Semver>) {
    && later.Some? && earlier.Some?
    && later.value.major >= earlier.value.major
    && (later.value.major == earlier.value.major ==> later.value.minor >= earlier.value.minor)
    && (later.value.major == earlier.value.major && later.value.minor == earlier.value.minor ==> later.value.patch >= earlier.value.patch)
  }

  lemma NoLowerIsAtLeast(a: Option<Semver>, b: Option<Semver>)
    ensures NoLower(a, b) <==> AtLeast(b, a)
  {
  }

  /** The version numbers of all four documents only rise along the chain, major number first. */
  lemma VersionsOnlyRise(h: Hashes, revisions: seq<Revision>, approvals: seq<Approvals>, i: nat, j: nat)
    requires Accepted(h, revisions, approvals) && i < j < |revisions|
    ensures AtLeast(revisions[j].manifest.version, revisions[i].manifest.version)
    ensures AtLeast(revisions[j].status.version, revisions[i].status.version)
    ensures AtLeast(revisions[j].acceptance.version, revisions[i].acceptance.version)
    ensures AtLeast(revisions[j].reviews.version, revisions[i].reviews.version)
  {
    hide Accepts, NoLower, AtLeast;
    forall d: Document ensures AtLeast(VersionOf(revisions[j], d), VersionOf(revisions[i], d)) {
      VersionsNeverRegress(h, revisions, approvals, d, i, j);
      NoLowerIsAtLeast(VersionOf(revisions[i], d), VersionOf(revisions[j], d));
    }
    assert VersionOf(revisions[j], MANIFEST) == revisions[j].manifest.version && VersionOf(revisions[j], STATUS) == revisions[j].status.version;
    assert VersionOf(revisions[j], ACCEPTANCE) == revisions[j].acceptance.version && VersionOf(revisions[j], REVIEWS) == revisions[j].reviews.version;
  }

  /** Each document changed between two revisions exactly if its version did. */
  lemma DocumentsFollowVersions(h: Hashes, revisions: seq<Revision>, approvals: seq<Approvals>, i: nat, j: nat)
    requires Accepted(h, revisions, approvals) && i <= j < |revisions|
    ensures revisions[i].manifest == revisions[j].manifest <==> revisions[i].manifest.version == revisions[j].manifest.version
    ensures revisions[i].status == revisions[j].status <==> revisions[i].status.version == revisions[j].status.version
    ensures revisions[i].acceptance == revisions[j].acceptance <==> revisions[i].acceptance.version == revisions[j].acceptance.version
    ensures revisions[i].reviews == revisions[j].reviews <==> revisions[i].reviews.version == revisions[j].reviews.version
  {
    hide Accepts;
    EqualVersionsEqualContent(h, revisions, approvals, MANIFEST, i, j);
    EqualVersionsEqualContent(h, revisions, approvals, STATUS, i, j);
    EqualVersionsEqualContent(h, revisions, approvals, ACCEPTANCE, i, j);
    EqualVersionsEqualContent(h, revisions, approvals, REVIEWS, i, j);
  }

  // --- Entries ----------------------------------------------------------------

  /** A package that ever had a status row has one in every later revision. */
  lemma PackagesStay(h: Hashes, revisions: seq<Revision>, approvals: seq<Approvals>, id: Name, i: nat, j: nat)
    requires Accepted(h, revisions, approvals) && i <= j < |revisions|
    requires Listed(revisions[i].status.packages, RowId, id)
    ensures Listed(revisions[j].status.packages, RowId, id)
  {
    hide Accepts, Index, Listed;
    IndexIsListed(revisions[i].status.packages, RowId, id);
    EntriesNeverDisappear(h, revisions, approvals, PACKAGE_STATUS, id, i, j);
    IndexIsListed(revisions[j].status.packages, RowId, id);
  }

  /** A trace record stays, with its package, mappings, criteria and evidence; only its attestation and
      the rest of it may change. */
  lemma RecordsStay(h: Hashes, revisions: seq<Revision>, approvals: seq<Approvals>, row: Record, i: nat, j: nat) returns (later: Record)
    requires Accepted(h, revisions, approvals) && i <= j < |revisions|
    requires Standing(revisions[i].manifest.records, RecordId, row)
    ensures Standing(revisions[j].manifest.records, RecordId, later)
    ensures later.id == row.id && later.package == row.package && later.mappings == row.mappings
    ensures later.criteria == row.criteria && later.evidenceIds == row.evidenceIds
  {
    hide Accepts, Index, Standing;
    IndexIsStanding(revisions[i].manifest.records, RecordId, row);
    EntriesNeverRebound(h, revisions, approvals, TRACE_RECORD, row.id, i, j);
    later := Records(revisions[j])[row.id];
    IndexIsStanding(revisions[j].manifest.records, RecordId, later);
  }

  /** An acceptance criterion stays as it is. */
  lemma CriteriaStay(h: Hashes, revisions: seq<Revision>, approvals: seq<Approvals>, row: Item, i: nat, j: nat)
    requires Accepted(h, revisions, approvals) && i <= j < |revisions|
    requires Standing(revisions[i].acceptance.criteria, ItemId, row)
    ensures Standing(revisions[j].acceptance.criteria, ItemId, row)
  {
    hide Accepts, Index, Standing;
    IndexIsStanding(revisions[i].acceptance.criteria, ItemId, row);
    EntriesNeverRebound(h, revisions, approvals, CRITERION, row.id, i, j);
    IndexIsStanding(revisions[j].acceptance.criteria, ItemId, row);
  }

  /** Evidence stays; it stays as it is while every revision on the way has schema version 2. */
  lemma EvidenceStays(h: Hashes, revisions: seq<Revision>, approvals: seq<Approvals>, row: Item, i: nat, j: nat)
    requires Accepted(h, revisions, approvals) && i <= j < |revisions|
    requires Standing(revisions[i].acceptance.evidence, ItemId, row)
    ensures Listed(revisions[j].acceptance.evidence, ItemId, row.id)
    ensures (forall k | i <= k < j :: revisions[k].acceptance.schemaVersion == 2) ==> Standing(revisions[j].acceptance.evidence, ItemId, row)
  {
    hide Accepts, Index, Standing, Listed;
    IndexIsStanding(revisions[i].acceptance.evidence, ItemId, row);
    EntriesNeverDisappear(h, revisions, approvals, EVIDENCE, row.id, i, j);
    IndexIsListed(revisions[j].acceptance.evidence, ItemId, row.id);
    if forall k | i <= k < j :: revisions[k].acceptance.schemaVersion == 2 {
      EntriesNeverRebound(h, revisions, approvals, EVIDENCE, row.id, i, j);
    }
    IndexIsStanding(revisions[j].acceptance.evidence, ItemId, row);
  }

  /** A milestone definition stays as it is. */
  lemma DefinitionsStay(h: Hashes, revisions: seq<Revision>, approvals: seq<Approvals>, row: Definition, i: nat, j: nat)
    requires Accepted(h, revisions, approvals) && i <= j < |revisions|
    requires Standing(revisions[i].status.definitions, DefinitionId, row)
    ensures Standing(revisions[j].status.definitions, DefinitionId, row)
  {
    hide Accepts, Index, Standing;
    IndexIsStanding(revisions[i].status.definitions, DefinitionId, row);
    EntriesNeverRebound(h, revisions, approvals, MILESTONE_DEFINITION, row.id, i, j);
    IndexIsStanding(revisions[j].status.definitions, DefinitionId, row);
  }

  /** An attestation, of a package or of a milestone, stays as it is. */
  lemma AttestationsStay(h: Hashes, revisions: seq<Revision>, approvals: seq<Approvals>, i: nat, j: nat)
    requires Accepted(h, revisions, approvals) && i <= j < |revisions|
    ensures forall a | Standing(revisions[i].reviews.attestations, AttestationId, a) :: Standing(revisions[j].reviews.attestations, AttestationId, a)
    ensures forall m | Standing(revisions[i].status.milestones, MilestoneId, m) :: Standing(revisions[j].status.milestones, MilestoneId, m)
  {
    hide Accepts, Index, Standing;
    forall a | Standing(revisions[i].reviews.attestations, AttestationId, a) ensures Standing(revisions[j].reviews.attestations, AttestationId, a) {
      IndexIsStanding(revisions[i].reviews.attestations, AttestationId, a);
      EntriesNeverRebound(h, revisions, approvals, ATTESTATION, a.id, i, j);
      IndexIsStanding(revisions[j].reviews.attestations, AttestationId, a);
    }
    forall m | Standing(revisions[i].status.milestones, MilestoneId, m) ensures Standing(revisions[j].status.milestones, MilestoneId, m) {
      IndexIsStanding(revisions[i].status.milestones, MilestoneId, m);
      EntriesNeverRebound(h, revisions, approvals, MILESTONE_ATTESTATION, m.id, i, j);
      IndexIsStanding(revisions[j].status.milestones, MilestoneId, m);
    }
  }

  /** While the planning tables are available, a work package stays as it is and a row of the completion
      matrix stays. */
  lemma ScopeStays(h: Hashes, revisions: seq<Revision>, approvals: seq<Approvals>, i: nat, j: nat)
    requires Accepted(h, revisions, approvals) && i <= j < |revisions|
    requires forall k | i <= k <= j :: revisions[k].scope.Some?
    ensures var before, after := revisions[i].scope.value, revisions[j].scope.value;
            && before.matrix.Keys <= after.matrix.Keys
            && forall id | id in before.workPackages :: id in after.workPackages && after.workPackages[id] == before.workPackages[id]
  {
    hide Accepts, Statuses, Records, Criteria, Evidence, Definitions, Attestations, Milestones;
    forall id | id in revisions[i].scope.value.workPackages
      ensures id in revisions[j].scope.value.workPackages && revisions[j].scope.value.workPackages[id] == revisions[i].scope.value.workPackages[id]
    {
      EntriesNeverRebound(h, revisions, approvals, WORK_PACKAGE, id, i, j);
    }
    forall id | id in revisions[i].scope.value.matrix ensures id in revisions[j].scope.value.matrix {
      EntriesNeverDisappear(h, revisions, approvals, COMPLETION_MATRIX, id, i, j);
    }
  }

  // --- Promotions ---------------------------------------------------------------

  /** The package's status row says this. */
  ghost predicate Has(r: Revision, package: Name, status: Status) {
    exists row :: Standing(r.status.packages, RowId, row) && row.id == package && row.status == status
  }

  ghost predicate Finished(r: Revision, package: Name) {
    Has(r, package, COMPLETE) || Has(r, package, VERIFIED)
  }

  /** The package's trace record names an attestation that was approved outside. */
  ghost predicate Attested(r: Revision, approvals: Approvals, package: Name) {
    exists row :: Standing(r.manifest.records, RecordPackage, row) && row.package == package && row.attestation.Some? && row.attestation.value in approvals
  }

  /** Exactly one milestone covers the package, and it was approved outside. */
  ghost predicate Sponsored(r: Revision, approvals: Approvals, package: Name) {
    exists m ::
      && Standing(r.status.milestones, MilestoneId, m) && package in m.packages && m.id in approvals
      && forall other | Standing(r.status.milestones, MilestoneId, other) && package in other.packages :: other == m
  }

  lemma HasExactly(r: Revision, package: Name, status: Status)
    ensures Has(r, package, status) <==> package in Statuses(r) && Statuses(r)[package].status == status
  {
    hide Index, Standing;
    if Has(r, package, status) {
      var row :| Standing(r.status.packages, RowId, row) && row.id == package && row.status == status;
      IndexIsStanding(r.status.packages, RowId, row);
    }
    if package in Statuses(r) {
      IndexIsListed(r.status.packages, RowId, package);
    }
  }

  lemma AttestedExactly(r: Revision, approvals: Approvals, package: Name)
    ensures Attested(r, approvals, package) <==> PackageAuthorized(r, approvals, package)
  {
    hide Index, Standing;
    if Attested(r, approvals, package) {
      var row :| Standing(r.manifest.records, RecordPackage, row) && row.package == package && row.attestation.Some? && row.attestation.value in approvals;
      IndexIsStanding(r.manifest.records, RecordPackage, row);
    }
    if package in RecordsByPackage(r) {
      IndexIsListed(r.manifest.records, RecordPackage, package);
    }
  }

  lemma OneOnly(s: set<Name>, m: Name)
    requires m in s && forall x | x in s :: x == m
    ensures |s| == 1
  {
    assert s == {m};
  }

  lemma {:induction false} OnlyOne(s: set<Name>, m: Name)
    requires |s| == 1 && m in s
    ensures forall x | x in s :: x == m
  {
    assert |s - {m}| == 0;
  }

  lemma SponsoredExactly(r: Revision, approvals: Approvals, package: Name)
    ensures Sponsored(r, approvals, package) <==> MilestoneAuthorized(r, approvals, package)
  {
    hide Index, Standing;
    forall m ensures Standing(r.status.milestones, MilestoneId, m) <==> m.id in Milestones(r) && Milestones(r)[m.id] == m {
      IndexIsStanding(r.status.milestones, MilestoneId, m);
    }
    forall id | id in Milestones(r) ensures Milestones(r)[id].id == id {
      IndexIsListed(r.status.milestones, MilestoneId, id);
    }
    if Sponsored(r, approvals, package) {
      SponsoredAuthorizes(r, approvals, package);
    }
    if MilestoneAuthorized(r, approvals, package) {
      AuthorizedIsSponsored(r, approvals, package);
    }
  }

  lemma SponsoredAuthorizes(r: Revision, approvals: Approvals, package: Name)
    requires Sponsored(r, approvals, package)
    requires forall m :: Standing(r.status.milestones, MilestoneId, m) <==> m.id in Milestones(r) && Milestones(r)[m.id] == m
    requires forall id | id in Milestones(r) :: Milestones(r)[id].id == id
    ensures MilestoneAuthorized(r, approvals, package)
  {
    hide Standing, Milestones;
    var m :| && Standing(r.status.milestones, MilestoneId, m) && package in m.packages && m.id in approvals
             && forall other | Standing(r.status.milestones, MilestoneId, other) && package in other.packages :: other == m;
    forall id | id in Covering(r, package) ensures id == m.id {
      assert Standing(r.status.milestones, MilestoneId, Milestones(r)[id]);
    }
    OneOnly(Covering(r, package), m.id);
  }

  lemma AuthorizedIsSponsored(r: Revision, approvals: Approvals, package: Name)
    requires MilestoneAuthorized(r, approvals, package)
    requires forall m :: Standing(r.status.milestones, MilestoneId, m) <==> m.id in Milestones(r) && Milestones(r)[m.id] == m
    requires forall id | id in Milestones(r) :: Milestones(r)[id].id == id
    ensures Sponsored(r, approvals, package)
  {
    hide Standing, Milestones;
    var id :| id in Covering(r, package);
    var m := Milestones(r)[id];
    OnlyOne(Covering(r, package), id);
    forall other | Standing(r.status.milestones, MilestoneId, other) && package in other.packages ensures other == m {
      assert other.id in Covering(r, package);
    }
    assert Standing(r.status.milestones, MilestoneId, m);
  }

  /** A promotion is reported exactly when a package newly turns COMPLETE or VERIFIED, or goes from
      COMPLETE to VERIFIED, and no approved attestation stands behind it; for VERIFIED also exactly when
      not one approved milestone alone covers it. */
  lemma PromotionReportedExactly(h: Hashes, now: Revision, base: Revision, approvals: Approvals, p: Name)
    ensures Reported(h, now, base, approvals, PromotionUnauthorized(p)) <==>
            && Finished(now, p) && (!Finished(base, p) || (Has(base, p, COMPLETE) && Has(now, p, VERIFIED)))
            && !Attested(now, approvals, p)
    ensures Reported(h, now, base, approvals, VerifiedUnauthorized(p)) <==>
            Has(now, p, VERIFIED) && !Has(base, p, VERIFIED) && !Sponsored(now, approvals, p)
  {
    hide Has, Attested, Sponsored, PackageAuthorized, MilestoneAuthorized, Statuses;
    HasExactly(now, p, COMPLETE);
    HasExactly(now, p, VERIFIED);
    HasExactly(base, p, COMPLETE);
    HasExactly(base, p, VERIFIED);
    AttestedExactly(now, approvals, p);
    SponsoredExactly(now, approvals, p);
  }

  /** A package that is COMPLETE or VERIFIED at `j` and was neither at `i` became so at some step of the
      chain, whose revision has a trace record naming an attestation approved for that step. */
  lemma {:induction false} FinishingWasAttested(h: Hashes, revisions: seq<Revision>, approvals: seq<Approvals>, p: Name, i: nat, j: nat) returns (k: nat)
    requires Accepted(h, revisions, approvals) && i <= j < |revisions|
    requires Finished(revisions[j], p) && !Finished(revisions[i], p)
    ensures i < k <= j && Finished(revisions[k], p) && !Finished(revisions[k - 1], p)
    ensures Attested(revisions[k], approvals[k - 1], p)
  {
    hide Finished, Attested, Has, Reported;
    if Finished(revisions[j - 1], p) {
      k := FinishingWasAttested(h, revisions, approvals, p, i, j - 1);
    } else {
      k := j;
      PromotionReportedExactly(h, revisions[j], revisions[j - 1], approvals[j - 1], p);
      assert !Reported(h, revisions[j], revisions[j - 1], approvals[j - 1], PromotionUnauthorized(p));
    }
  }

  /** A package that is VERIFIED at `j` and was not at `i`, COMPLETE or less, became VERIFIED at some step
      of the chain, with an approved attestation and with one approved milestone alone covering it. */
  lemma {:induction false} VerificationWasSponsored(h: Hashes, revisions: seq<Revision>, approvals: seq<Approvals>, p: Name, i: nat, j: nat) returns (k: nat)
    requires Accepted(h, revisions, approvals) && i <= j < |revisions|
    requires Has(revisions[j], p, VERIFIED) && !Has(revisions[i], p, VERIFIED)
    ensures i < k <= j && Has(revisions[k], p, VERIFIED) && !Has(revisions[k - 1], p, VERIFIED)
    ensures Attested(revisions[k], approvals[k - 1], p) && Sponsored(revisions[k], approvals[k - 1], p)
  {
    hide Attested, Sponsored, Has, Reported;
    if Has(revisions[j - 1], p, VERIFIED) {
      k := VerificationWasSponsored(h, revisions, approvals, p, i, j - 1);
    } else {
      k := j;
      PromotionReportedExactly(h, revisions[j], revisions[j - 1], approvals[j - 1], p);
      assert !Reported(h, revisions[j], revisions[j - 1], approvals[j - 1], PromotionUnauthorized(p));
      assert !Reported(h, revisions[j], revisions[j - 1], approvals[j - 1], VerifiedUnauthorized(p));
    }
  }

  // --- Approvals ----------------------------------------------------------------

  /** `entries` are the registered ones under these names, in this order. */
  ghost predicate Lists(registry: map<Name, Item>, order: seq<Name>, entries: seq<Item>) {
    |entries| == |order| && forall i | 0 <= i < |order| :: order[i] in registry && registry[order[i]] == entries[i]
  }

  /** What a selection hashes to: its entries in the order of their identifiers, unless one of them
      repeats or is unknown. */
  lemma SelectionMeans(h: Hashes, registry: map<Name, Item>, ids: seq<Name>)
    ensures SelectedHash(h, registry, ids).Some? <==> Distinct(ids) && forall id | id in ids :: id in registry
    ensures forall order, entries | Rising(order) && (forall id :: id in order <==> id in ids) && Lists(registry, order, entries) ::
              SelectedHash(h, registry, ids) == if Distinct(ids) then Some(h.items(entries)) else None
  {
    hide Distinct, Rising, Lists;
    assert Elements(ids) == set id | id in ids;
    DistinctCount(ids);
    forall order, entries | Rising(order) && (forall id :: id in order <==> id in ids) && Lists(registry, order, entries)
      ensures SelectedHash(h, registry, ids) == if Distinct(ids) then Some(h.items(entries)) else None
    {
      var chosen := Elements(ids);
      ListedAreKnown(registry, order, entries);
      AscendingIsRising(chosen);
      OneRising(order, Ascending(chosen));
      if Distinct(ids) {
        PickedIs(registry, order, entries);
      }
    }
  }

  lemma AscendingIsRising(chosen: set<Name>)
    ensures Rising(Ascending(chosen)) && forall id :: id in Ascending(chosen) <==> id in chosen
  {
  }

  lemma ListedAreKnown(registry: map<Name, Item>, order: seq<Name>, entries: seq<Item>)
    requires Lists(registry, order, entries)
    ensures forall id | id in order :: id in registry
  {
  }

  lemma PickedIs(registry: map<Name, Item>, order: seq<Name>, entries: seq<Item>)
    requires Lists(registry, order, entries) && forall id | id in order :: id in registry
    ensures Picked(registry, order) == entries
  {
  }

  ghost predicate Rising(order: seq<Name>) {
    forall i, j | 0 <= i < j < |order| :: order[i] < order[j]
  }

  /** There is only one ascending listing of the same names. */
  lemma {:induction false} OneRising(a: seq<Name>, b: seq<Name>)
    requires Rising(a) && Rising(b) && forall id :: id in a <==> id in b
    ensures a == b
    decreases |a|
  {
    BothEmpty(a, b);
    if a != [] {
      assert a[0] in b && b[0] in a;
      RisingTail(a);
      RisingTail(b);
      OneRising(a[1..], b[1..]);
      assert a == [a[0]] + a[1..] && b == [b[0]] + b[1..];
    }
  }

  lemma BothEmpty(a: seq<Name>, b: seq<Name>)
    requires forall id :: id in a <==> id in b
    ensures a == [] <==> b == []
  {
    if a != [] {
      assert a[0] in b;
    }
    if b != [] {
      assert b[0] in a;
    }
  }

  lemma RisingTail(a: seq<Name>)
    requires Rising(a) && a != []
    ensures Rising(a[1..]) && forall id :: id in a[1..] <==> id in a && id != a[0]
    ensures forall id | id in a :: a[0] <= id
  {
    forall id ensures id in a[1..] <==> id in a && id != a[0] {
      if id in a && id != a[0] {
        var n :| 0 <= n < |a| && a[n] == id;
        assert a[1..][n - 1] == id;
      }
    }
  }

  /** The approval is adequate and names this subject, this reviewer and these three hashes. */
  predicate NamesExactly(a: Approval, subjectType: Subject, subject: Name, reviewer: Option<Name>,
                         subjectHash: Content, criteriaHash: Option<Content>, evidenceHash: Option<Content>) {
    && a.adequate && a.subjectType == subjectType && a.subject == subject && a.reviewer == reviewer
    && a.subjectHash == Some(subjectHash) && a.criteriaHash == criteriaHash && a.evidenceHash == evidenceHash
  }

  /** A package attestation that was not there at the start entered at one step, under an adequate
      approval of that step for the attestation itself, its reviewer, its criteria and its evidence. */
  lemma AttestationEntered(h: Hashes, revisions: seq<Revision>, approvals: seq<Approvals>, a: Attestation, j: nat) returns (k: nat)
    requires Accepted(h, revisions, approvals) && j < |revisions|
    requires Standing(revisions[j].reviews.attestations, AttestationId, a) && !Listed(revisions[0].reviews.attestations, AttestationId, a.id)
    ensures 0 < k <= j && !Listed(revisions[k - 1].reviews.attestations, AttestationId, a.id)
    ensures Standing(revisions[k].reviews.attestations, AttestationId, a)
    ensures a.id in approvals[k - 1]
    ensures NamesExactly(approvals[k - 1][a.id], PACKAGE_ATTESTATION, a.id, a.reviewer, h.attestation(a),
                         SelectedHash(h, Criteria(revisions[k]), a.criteria), SelectedHash(h, Evidence(revisions[k]), a.evidence))
  {
    hide Accepts, Index, Standing, Listed, SelectedHash;
    IndexIsStanding(revisions[j].reviews.attestations, AttestationId, a);
    IndexIsListed(revisions[0].reviews.attestations, AttestationId, a.id);
    k := AttestationWasApproved(h, revisions, approvals, a.id, j);
    IndexIsListed(revisions[k - 1].reviews.attestations, AttestationId, a.id);
    IndexIsStanding(revisions[k].reviews.attestations, AttestationId, a);
  }

  /** The same of a milestone: the approval is for the milestone, its reviewer, its definition and the
      evidence of the definition's gates. */
  lemma MilestoneEntered(h: Hashes, revisions: seq<Revision>, approvals: seq<Approvals>, m: Milestone, j: nat) returns (k: nat)
    requires Accepted(h, revisions, approvals) && j < |revisions|
    requires Standing(revisions[j].status.milestones, MilestoneId, m) && !Listed(revisions[0].status.milestones, MilestoneId, m.id)
    ensures 0 < k <= j && !Listed(revisions[k - 1].status.milestones, MilestoneId, m.id)
    ensures Standing(revisions[k].status.milestones, MilestoneId, m)
    ensures m.id in approvals[k - 1]
    ensures forall d | Standing(revisions[k].status.definitions, DefinitionId, d) && d.id == m.definition ::
              NamesExactly(approvals[k - 1][m.id], MILESTONE_SUBJECT, m.id, m.reviewer, h.milestone(m),
                           Some(h.definition(d)), SelectedHash(h, Evidence(revisions[k]), d.gateEvidence))
    ensures !Listed(revisions[k].status.definitions, DefinitionId, m.definition) ==>
              NamesExactly(approvals[k - 1][m.id], MILESTONE_SUBJECT, m.id, m.reviewer, h.milestone(m), None, SelectedHash(h, Evidence(revisions[k]), []))
  {
    hide Accepts, Index, Standing, Listed, SelectedHash;
    IndexIsStanding(revisions[j].status.milestones, MilestoneId, m);
    IndexIsListed(revisions[0].status.milestones, MilestoneId, m.id);
    k := MilestoneWasApproved(h, revisions, approvals, m.id, j);
    IndexIsListed(revisions[k - 1].status.milestones, MilestoneId, m.id);
    IndexIsStanding(revisions[k].status.milestones, MilestoneId, m);
    IndexIsListed(revisions[k].status.definitions, DefinitionId, m.definition);
    forall d | Standing(revisions[k].status.definitions, DefinitionId, d) && d.id == m.definition
      ensures m.definition in Definitions(revisions[k]) && Definitions(revisions[k])[m.definition] == d
    {
      IndexIsStanding(revisions[k].status.definitions, DefinitionId, d);
    }
  }

  // --- One step, told from the rows ------------------------------------------------

  /** Every version is at least the base's, and no document changed under the version it had. */
  ghost predicate Versioned(now: Revision, base: Revision) {
    && AtLeast(now.manifest.version, base.manifest.version) && (now.manifest.version == base.manifest.version ==> now.manifest == base.manifest)
    && AtLeast(now.status.version, base.status.version) && (now.status.version == base.status.version ==> now.status == base.status)
    && AtLeast(now.acceptance.version, base.acceptance.version) && (now.acceptance.version == base.acceptance.version ==> now.acceptance == base.acceptance)
    && AtLeast(now.reviews.version, base.reviews.version) && (now.reviews.version == base.reviews.version ==> now.reviews == base.reviews)
  }

  /** The record is still there for the same package, mappings, criteria and evidence. */
  ghost predicate Continued(now: Revision, row: Record) {
    exists later ::
      && Standing(now.manifest.records, RecordId, later) && later.id == row.id && later.package == row.package
      && later.mappings == row.mappings && later.criteria == row.criteria && later.evidenceIds == row.evidenceIds
  }

  /** Whatever the base has is still there; what is frozen is as it was. */
  ghost predicate Kept(now: Revision, base: Revision) {
    && (forall id | Listed(base.status.packages, RowId, id) :: Listed(now.status.packages, RowId, id))
    && (forall row | Standing(base.manifest.records, RecordId, row) :: Continued(now, row))
    && (forall row | Standing(base.acceptance.criteria, ItemId, row) :: Standing(now.acceptance.criteria, ItemId, row))
    && (forall row | Standing(base.acceptance.evidence, ItemId, row) ::
          Listed(now.acceptance.evidence, ItemId, row.id) && (base.acceptance.schemaVersion == 2 ==> Standing(now.acceptance.evidence, ItemId, row)))
    && (forall row | Standing(base.status.definitions, DefinitionId, row) :: Standing(now.status.definitions, DefinitionId, row))
    && (forall a | Standing(base.reviews.attestations, AttestationId, a) :: Standing(now.reviews.attestations, AttestationId, a))
    && (forall m | Standing(base.status.milestones, MilestoneId, m) :: Standing(now.status.milestones, MilestoneId, m))
    && (base.scope.Some? && now.scope.Some? ==>
          && base.scope.value.matrix.Keys <= now.scope.value.matrix.Keys
          && forall id | id in base.scope.value.workPackages ::
               id in now.scope.value.workPackages && now.scope.value.workPackages[id] == base.scope.value.workPackages[id])
  }

  /** A new attestation of a package has its adequate approval. */
  ghost predicate AttestationsEarned(h: Hashes, now: Revision, base: Revision, approvals: Approvals) {
    forall a | Standing(now.reviews.attestations, AttestationId, a) && !Listed(base.reviews.attestations, AttestationId, a.id) ::
      && a.id in approvals
      && NamesExactly(approvals[a.id], PACKAGE_ATTESTATION, a.id, a.reviewer, h.attestation(a),
                      SelectedHash(h, Criteria(now), a.criteria), SelectedHash(h, Evidence(now), a.evidence))
  }

  /** A new milestone has its adequate approval. */
  ghost predicate MilestonesEarned(h: Hashes, now: Revision, base: Revision, approvals: Approvals) {
    forall m | Standing(now.status.milestones, MilestoneId, m) && !Listed(base.status.milestones, MilestoneId, m.id) ::
      && m.id in approvals
      && NamesExactly(approvals[m.id], MILESTONE_SUBJECT, m.id, m.reviewer, h.milestone(m),
                      DefinitionHash(h, now, m), SelectedHash(h, Evidence(now), GateEvidence(now, m)))
  }

  /** Whatever was finished or verified anew has its approvals. */
  ghost predicate PromotionsEarned(now: Revision, base: Revision, approvals: Approvals) {
    forall p ::
      && (Finished(now, p) && (!Finished(base, p) || (Has(base, p, COMPLETE) && Has(now, p, VERIFIED))) ==> Attested(now, approvals, p))
      && (Has(now, p, VERIFIED) && !Has(base, p, VERIFIED) ==> Sponsored(now, approvals, p))
  }

  ghost predicate NoneReported(h: Hashes, now: Revision, base: Revision, approvals: Approvals, kind: Kind) {
    forall id :: !Reported(h, now, base, approvals, Disappeared(kind, id)) && !Reported(h, now, base, approvals, Rebound(kind, id))
  }

  lemma VersionsExactly(h: Hashes, now: Revision, base: Revision, approvals: Approvals)
    ensures Versioned(now, base) <==>
            forall d :: !Reported(h, now, base, approvals, VersionRegressed(d)) && !Reported(h, now, base, approvals, ContentChanged(d))
  {
    hide AtLeast, Below;
    forall d: Document
      ensures !Reported(h, now, base, approvals, VersionRegressed(d)) <==> AtLeast(VersionOf(now, d), VersionOf(base, d))
      ensures !Reported(h, now, base, approvals, ContentChanged(d)) <==> (VersionOf(now, d) == VersionOf(base, d) ==> SameDocument(now, base, d))
    {
      NoLowerIsAtLeast(VersionOf(base, d), VersionOf(now, d));
    }
    VersionedByDocument(now, base);
  }

  lemma VersionedByDocument(now: Revision, base: Revision)
    ensures Versioned(now, base) <==>
            forall d :: AtLeast(VersionOf(now, d), VersionOf(base, d)) && (VersionOf(now, d) == VersionOf(base, d) ==> SameDocument(now, base, d))
  {
    hide AtLeast;
    if forall d :: AtLeast(VersionOf(now, d), VersionOf(base, d)) && (VersionOf(now, d) == VersionOf(base, d) ==> SameDocument(now, base, d)) {
      assert AtLeast(VersionOf(now, MANIFEST), VersionOf(base, MANIFEST)) && AtLeast(VersionOf(now, STATUS), VersionOf(base, STATUS));
      assert AtLeast(VersionOf(now, ACCEPTANCE), VersionOf(base, ACCEPTANCE)) && AtLeast(VersionOf(now, REVIEWS), VersionOf(base, REVIEWS));
    }
  }

  /** Every entry of `m` is in `m'`, unchanged. */
  ghost predicate Extends<T(!new)>(m: map<Name, T>, m': map<Name, T>) {
    forall id | id in m :: id in m' && m'[id] == m[id]
  }

  /** Rows all stand later, in terms of the dictionaries. */
  lemma AllStanding<T(!new)>(before: seq<T>, after: seq<T>, key: T -> Name)
    ensures (forall row | Standing(before, key, row) :: Standing(after, key, row)) <==> Extends(Index(before, key), Index(after, key))
  {
    hide Index, Standing;
    var m, m' := Index(before, key), Index(after, key);
    if forall row | Standing(before, key, row) :: Standing(after, key, row) {
      forall id | id in m ensures id in m' && m'[id] == m[id] {
        IndexIsListed(before, key, id);
        assert Standing(after, key, m[id]);
        IndexIsStanding(after, key, m[id]);
      }
    }
    if Extends(m, m') {
      forall row | Standing(before, key, row) ensures Standing(after, key, row) {
        IndexIsStanding(before, key, row);
        assert key(row) in m;
        IndexIsStanding(after, key, row);
      }
    }
  }

  lemma PackagesExactly(h: Hashes, now: Revision, base: Revision, approvals: Approvals)
    ensures NoneReported(h, now, base, approvals, PACKAGE_STATUS) <==>
            (forall id | Listed(base.status.packages, RowId, id) :: Listed(now.status.packages, RowId, id))
  {
    hide Index, Listed;
    forall id
      ensures Listed(base.status.packages, RowId, id) <==> id in Statuses(base)
      ensures Listed(now.status.packages, RowId, id) <==> id in Statuses(now)
      ensures Reported(h, now, base, approvals, Disappeared(PACKAGE_STATUS, id)) <==> id in Statuses(base) && id !in Statuses(now)
    {
      IndexIsListed(base.status.packages, RowId, id);
      IndexIsListed(now.status.packages, RowId, id);
    }
  }

  lemma RecordsExactly(h: Hashes, now: Revision, base: Revision, approvals: Approvals)
    ensures NoneReported(h, now, base, approvals, TRACE_RECORD) <==>
            (forall row | Standing(base.manifest.records, RecordId, row) :: Continued(now, row))
  {
    hide Index, Standing, Continued;
    forall row
      ensures Standing(base.manifest.records, RecordId, row) <==> row.id in Records(base) && Records(base)[row.id] == row
      ensures Continued(now, row) <==> row.id in Records(now) && SameBinding(row, Records(now)[row.id])
    {
      IndexIsStanding(base.manifest.records, RecordId, row);
      ContinuedExactly(now, row);
    }
    if forall row | Standing(base.manifest.records, RecordId, row) :: Continued(now, row) {
      forall id ensures !Reported(h, now, base, approvals, Disappeared(TRACE_RECORD, id)) && !Reported(h, now, base, approvals, Rebound(TRACE_RECORD, id)) {
        if id in Records(base) {
          assert Standing(base.manifest.records, RecordId, Records(base)[id]);
        }
      }
    }
    if NoneReported(h, now, base, approvals, TRACE_RECORD) {
      forall row | Standing(base.manifest.records, RecordId, row) ensures Continued(now, row) {
        assert !Reported(h, now, base, approvals, Disappeared(TRACE_RECORD, row.id)) && !Reported(h, now, base, approvals, Rebound(TRACE_RECORD, row.id));
      }
    }
  }

  lemma ContinuedExactly(now: Revision, row: Record)
    ensures Continued(now, row) <==> row.id in Records(now) && SameBinding(row, Records(now)[row.id])
  {
    hide Index, Standing;
    if Continued(now, row) {
      var later :| && Standing(now.manifest.records, RecordId, later) && later.id == row.id && later.package == row.package
                   && later.mappings == row.mappings && later.criteria == row.criteria && later.evidenceIds == row.evidenceIds;
      IndexIsStanding(now.manifest.records, RecordId, later);
    }
    if row.id in Records(now) {
      IndexIsListed(now.manifest.records, RecordId, row.id);
    }
  }

  lemma EvidenceExactly(h: Hashes, now: Revision, base: Revision, approvals: Approvals)
    ensures NoneReported(h, now, base, approvals, EVIDENCE) <==>
            (forall row | Standing(base.acceptance.evidence, ItemId, row) ::
              Listed(now.acceptance.evidence, ItemId, row.id) && (base.acceptance.schemaVersion == 2 ==> Standing(now.acceptance.evidence, ItemId, row)))
  {
    hide Index, Standing, Listed;
    forall row: Item
      ensures Standing(base.acceptance.evidence, ItemId, row) <==> row.id in Evidence(base) && Evidence(base)[row.id] == row
      ensures Standing(now.acceptance.evidence, ItemId, row) <==> row.id in Evidence(now) && Evidence(now)[row.id] == row
      ensures Listed(now.acceptance.evidence, ItemId, row.id) <==> row.id in Evidence(now)
    {
      IndexIsStanding(base.acceptance.evidence, ItemId, row);
      IndexIsStanding(now.acceptance.evidence, ItemId, row);
      IndexIsListed(now.acceptance.evidence, ItemId, row.id);
    }
    if NoneReported(h, now, base, approvals, EVIDENCE) {
      forall row | Standing(base.acceptance.evidence, ItemId, row)
        ensures row.id in Evidence(now) && (base.acceptance.schemaVersion == 2 ==> Evidence(now)[row.id] == row)
      {
        assert !Reported(h, now, base, approvals, Disappeared(EVIDENCE, row.id)) && !Reported(h, now, base, approvals, Rebound(EVIDENCE, row.id));
      }
    } else {
      var id :| Reported(h, now, base, approvals, Disappeared(EVIDENCE, id)) || Reported(h, now, base, approvals, Rebound(EVIDENCE, id));
      assert Standing(base.acceptance.evidence, ItemId, Evidence(base)[id]);
    }
  }

  lemma CriteriaExactly(h: Hashes, now: Revision, base: Revision, approvals: Approvals)
    ensures NoneReported(h, now, base, approvals, CRITERION) <==>
            (forall row | Standing(base.acceptance.criteria, ItemId, row) :: Standing(now.acceptance.criteria, ItemId, row))
  {
    hide Index, Standing;
    AllStanding(base.acceptance.criteria, now.acceptance.criteria, ItemId);
    if NoneReported(h, now, base, approvals, CRITERION) {
      forall id | id in Criteria(base) ensures id in Criteria(now) && Criteria(now)[id] == Criteria(base)[id] {
        assert !Reported(h, now, base, approvals, Disappeared(CRITERION, id)) && !Reported(h, now, base, approvals, Rebound(CRITERION, id));
      }
      assert Extends(Criteria(base), Criteria(now));
    } else {
      var id :| Reported(h, now, base, approvals, Disappeared(CRITERION, id)) || Reported(h, now, base, approvals, Rebound(CRITERION, id));
      assert id in Criteria(base) && !(id in Criteria(now) && Criteria(now)[id] == Criteria(base)[id]);
      assert !Extends(Criteria(base), Criteria(now));
    }
  }

  lemma DefinitionsExactly(h: Hashes, now: Revision, base: Revision, approvals: Approvals)
    ensures NoneReported(h, now, base, approvals, MILESTONE_DEFINITION) <==>
            (forall row | Standing(base.status.definitions, DefinitionId, row) :: Standing(now.status.definitions, DefinitionId, row))
  {
    hide Index, Standing;
    AllStanding(base.status.definitions, now.status.definitions, DefinitionId);
    if NoneReported(h, now, base, approvals, MILESTONE_DEFINITION) {
      forall id | id in Definitions(base) ensures id in Definitions(now) && Definitions(now)[id] == Definitions(base)[id] {
        assert !Reported(h, now, base, approvals, Disappeared(MILESTONE_DEFINITION, id)) && !Reported(h, now, base, approvals, Rebound(MILESTONE_DEFINITION, id));
      }
      assert Extends(Definitions(base), Definitions(now));
    } else {
      var id :| Reported(h, now, base, approvals, Disappeared(MILESTONE_DEFINITION, id)) || Reported(h, now, base, approvals, Rebound(MILESTONE_DEFINITION, id));
      assert id in Definitions(base) && !(id in Definitions(now) && Definitions(now)[id] == Definitions(base)[id]);
      assert !Extends(Definitions(base), Definitions(now));
    }
  }

  lemma AttestationsExactly(h: Hashes, now: Revision, base: Revision, approvals: Approvals)
    ensures NoneReported(h, now, base, approvals, ATTESTATION) <==>
            (forall row | Standing(base.reviews.attestations, AttestationId, row) :: Standing(now.reviews.attestations, AttestationId, row))
  {
    hide Index, Standing;
    AllStanding(base.reviews.attestations, now.reviews.attestations, AttestationId);
    if NoneReported(h, now, base, approvals, ATTESTATION) {
      forall id | id in Attestations(base) ensures id in Attestations(now) && Attestations(now)[id] == Attestations(base)[id] {
        assert !Reported(h, now, base, approvals, Disappeared(ATTESTATION, id)) && !Reported(h, now, base, approvals, Rebound(ATTESTATION, id));
      }
      assert Extends(Attestations(base), Attestations(now));
    } else {
      var id :| Reported(h, now, base, approvals, Disappeared(ATTESTATION, id)) || Reported(h, now, base, approvals, Rebound(ATTESTATION, id));
      assert id in Attestations(base) && !(id in Attestations(now) && Attestations(now)[id] == Attestations(base)[id]);
      assert !Extends(Attestations(base), Attestations(now));
    }
  }

  lemma MilestonesExactly(h: Hashes, now: Revision, base: Revision, approvals: Approvals)
    ensures NoneReported(h, now, base, approvals, MILESTONE_ATTESTATION) <==>
            (forall row | Standing(base.status.milestones, MilestoneId, row) :: Standing(now.status.milestones, MilestoneId, row))
  {
    hide Index, Standing;
    AllStanding(base.status.milestones, now.status.milestones, MilestoneId);
    if NoneReported(h, now, base, approvals, MILESTONE_ATTESTATION) {
      forall id | id in Milestones(base) ensures id in Milestones(now) && Milestones(now)[id] == Milestones(base)[id] {
        assert !Reported(h, now, base, approvals, Disappeared(MILESTONE_ATTESTATION, id)) && !Reported(h, now, base, approvals, Rebound(MILESTONE_ATTESTATION, id));
      }
      assert Extends(Milestones(base), Milestones(now));
    } else {
      var id :| Reported(h, now, base, approvals, Disappeared(MILESTONE_ATTESTATION, id)) || Reported(h, now, base, approvals, Rebound(MILESTONE_ATTESTATION, id));
      assert id in Milestones(base) && !(id in Milestones(now) && Milestones(now)[id] == Milestones(base)[id]);
      assert !Extends(Milestones(base), Milestones(now));
    }
  }

  lemma WorkPackagesExactly(h: Hashes, now: Revision, base: Revision, approvals: Approvals)
    requires base.scope.Some? && now.scope.Some?
    ensures var before, after := base.scope.value.workPackages, now.scope.value.workPackages;
            NoneReported(h, now, base, approvals, WORK_PACKAGE) <==> forall id | id in before :: id in after && after[id] == before[id]
  {
    var before, after := base.scope.value.workPackages, now.scope.value.workPackages;
    if NoneReported(h, now, base, approvals, WORK_PACKAGE) {
      forall id | id in before ensures id in after && after[id] == before[id] {
        assert !Reported(h, now, base, approvals, Disappeared(WORK_PACKAGE, id)) && !Reported(h, now, base, approvals, Rebound(WORK_PACKAGE, id));
      }
    } else {
      var id :| Reported(h, now, base, approvals, Disappeared(WORK_PACKAGE, id)) || Reported(h, now, base, approvals, Rebound(WORK_PACKAGE, id));
      assert id in before && !(id in after && after[id] == before[id]);
    }
  }

  lemma MatrixExactly(h: Hashes, now: Revision, base: Revision, approvals: Approvals)
    requires base.scope.Some? && now.scope.Some?
    ensures NoneReported(h, now, base, approvals, COMPLETION_MATRIX) <==> base.scope.value.matrix.Keys <= now.scope.value.matrix.Keys
  {
    var before, after := base.scope.value.matrix.Keys, now.scope.value.matrix.Keys;
    if NoneReported(h, now, base, approvals, COMPLETION_MATRIX) {
      forall id | id in before ensures id in after {
        assert !Reported(h, now, base, approvals, Disappeared(COMPLETION_MATRIX, id));
      }
    } else {
      var id :| Reported(h, now, base, approvals, Disappeared(COMPLETION_MATRIX, id)) || Reported(h, now, base, approvals, Rebound(COMPLETION_MATRIX, id));
      assert id in before && id !in after;
    }
  }

  lemma ScopeExactly(h: Hashes, now: Revision, base: Revision, approvals: Approvals)
    ensures NoneReported(h, now, base, approvals, WORK_PACKAGE) && NoneReported(h, now, base, approvals, COMPLETION_MATRIX) <==>
            (base.scope.Some? && now.scope.Some? ==>
              && base.scope.value.matrix.Keys <= now.scope.value.matrix.Keys
              && forall id | id in base.scope.value.workPackages ::
                   id in now.scope.value.workPackages && now.scope.value.workPackages[id] == base.scope.value.workPackages[id])
  {
    if base.scope.Some? && now.scope.Some? {
      hide NoneReported;
      WorkPackagesExactly(h, now, base, approvals);
      MatrixExactly(h, now, base, approvals);
    }
  }

  lemma KeptExactly(h: Hashes, now: Revision, base: Revision, approvals: Approvals)
    ensures Kept(now, base) <==> forall kind :: NoneReported(h, now, base, approvals, kind)
  {
    hide Index, Standing, Listed, NoneReported, Continued;
    PackagesExactly(h, now, base, approvals);
    RecordsExactly(h, now, base, approvals);
    EvidenceExactly(h, now, base, approvals);
    CriteriaExactly(h, now, base, approvals);
    DefinitionsExactly(h, now, base, approvals);
    AttestationsExactly(h, now, base, approvals);
    MilestonesExactly(h, now, base, approvals);
    ScopeExactly(h, now, base, approvals);
    EveryKind(h, now, base, approvals);
  }

  lemma EveryKind(h: Hashes, now: Revision, base: Revision, approvals: Approvals)
    ensures (forall kind :: NoneReported(h, now, base, approvals, kind)) <==>
            && NoneReported(h, now, base, approvals, PACKAGE_STATUS) && NoneReported(h, now, base, approvals, TRACE_RECORD)
            && NoneReported(h, now, base, approvals, CRITERION) && NoneReported(h, now, base, approvals, EVIDENCE)
            && NoneReported(h, now, base, approvals, MILESTONE_DEFINITION) && NoneReported(h, now, base, approvals, WORK_PACKAGE)
            && NoneReported(h, now, base, approvals, COMPLETION_MATRIX) && NoneReported(h, now, base, approvals, ATTESTATION)
            && NoneReported(h, now, base, approvals, MILESTONE_ATTESTATION)
  {
    hide NoneReported;
    forall kind
      ensures kind == PACKAGE_STATUS || kind == TRACE_RECORD || kind == CRITERION || kind == EVIDENCE || kind == MILESTONE_DEFINITION
              || kind == WORK_PACKAGE || kind == COMPLETION_MATRIX || kind == ATTESTATION || kind == MILESTONE_ATTESTATION
              || NoneReported(h, now, base, approvals, kind)
    {
    }
  }

  lemma EarnedExactly(h: Hashes, now: Revision, base: Revision, approvals: Approvals)
    ensures AttestationsEarned(h, now, base, approvals) <==> forall id :: !Reported(h, now, base, approvals, AttestationUnapproved(id))
    ensures MilestonesEarned(h, now, base, approvals) <==> forall id :: !Reported(h, now, base, approvals, MilestoneUnapproved(id))
  {
    hide Index, Standing, Listed, SelectedHash, DefinitionHash, GateEvidence;
    forall a: Attestation
      ensures Standing(now.reviews.attestations, AttestationId, a) <==> a.id in Attestations(now) && Attestations(now)[a.id] == a
      ensures Listed(base.reviews.attestations, AttestationId, a.id) <==> a.id in Attestations(base)
    {
      IndexIsStanding(now.reviews.attestations, AttestationId, a);
      IndexIsListed(base.reviews.attestations, AttestationId, a.id);
    }
    forall m: Milestone
      ensures Standing(now.status.milestones, MilestoneId, m) <==> m.id in Milestones(now) && Milestones(now)[m.id] == m
      ensures Listed(base.status.milestones, MilestoneId, m.id) <==> m.id in Milestones(base)
    {
      IndexIsStanding(now.status.milestones, MilestoneId, m);
      IndexIsListed(base.status.milestones, MilestoneId, m.id);
    }
    AttestationsByDictionary(h, now, base, approvals);
    MilestonesByDictionary(h, now, base, approvals);
  }

  lemma AttestationsByDictionary(h: Hashes, now: Revision, base: Revision, approvals: Approvals)
    ensures (forall id :: !Reported(h, now, base, approvals, AttestationUnapproved(id))) <==>
            forall id | id in Attestations(now) && id !in Attestations(base) :: AttestationApproved(h, now, approvals, Attestations(now)[id])
  {
    hide Attestations, AttestationApproved;
    if forall id :: !Reported(h, now, base, approvals, AttestationUnapproved(id)) {
      forall id | id in Attestations(now) && id !in Attestations(base) ensures AttestationApproved(h, now, approvals, Attestations(now)[id]) {
        assert !Reported(h, now, base, approvals, AttestationUnapproved(id));
      }
    }
  }

  lemma MilestonesByDictionary(h: Hashes, now: Revision, base: Revision, approvals: Approvals)
    ensures (forall id :: !Reported(h, now, base, approvals, MilestoneUnapproved(id))) <==>
            forall id | id in Milestones(now) && id !in Milestones(base) :: MilestoneApproved(h, now, approvals, Milestones(now)[id])
  {
    hide Milestones, MilestoneApproved;
    if forall id :: !Reported(h, now, base, approvals, MilestoneUnapproved(id)) {
      forall id | id in Milestones(now) && id !in Milestones(base) ensures MilestoneApproved(h, now, approvals, Milestones(now)[id]) {
        assert !Reported(h, now, base, approvals, MilestoneUnapproved(id));
      }
    }
  }

  lemma PromotionsExactly(h: Hashes, now: Revision, base: Revision, approvals: Approvals)
    ensures PromotionsEarned(now, base, approvals) <==>
            forall p :: !Reported(h, now, base, approvals, PromotionUnauthorized(p)) && !Reported(h, now, base, approvals, VerifiedUnauthorized(p))
  {
    hide Finished, Has, Attested, Sponsored, Reported;
    forall p
      ensures Reported(h, now, base, approvals, PromotionUnauthorized(p)) <==>
              && Finished(now, p) && (!Finished(base, p) || (Has(base, p, COMPLETE) && Has(now, p, VERIFIED)))
              && !Attested(now, approvals, p)
      ensures Reported(h, now, base, approvals, VerifiedUnauthorized(p)) <==>
              Has(now, p, VERIFIED) && !Has(base, p, VERIFIED) && !Sponsored(now, approvals, p)
    {
      PromotionReportedExactly(h, now, base, approvals, p);
    }
  }

  /** A revision is accepted exactly when its versions rise with every change, it keeps what the base
      has, and whatever it adds or promotes was approved outside. */
  lemma AcceptsExactly(h: Hashes, now: Revision, base: Revision, approvals: Approvals)
    ensures Accepts(h, now, base, approvals) <==>
            && Versioned(now, base) && Kept(now, base)
            && AttestationsEarned(h, now, base, approvals) && MilestonesEarned(h, now, base, approvals) && PromotionsEarned(now, base, approvals)
  {
    hide Reported, Versioned, Kept, AttestationsEarned, MilestonesEarned, PromotionsEarned;
    VersionsExactly(h, now, base, approvals);
    KeptExactly(h, now, base, approvals);
    EarnedExactly(h, now, base, approvals);
    PromotionsExactly(h, now, base, approvals);
    if Versioned(now, base) && Kept(now, base) && AttestationsEarned(h, now, base, approvals) && MilestonesEarned(h, now, base, approvals)
       && PromotionsEarned(now, base, approvals) {
      forall f ensures !Reported(h, now, base, approvals, f) {
        match f
        case Disappeared(kind, id) => assert NoneReported(h, now, base, approvals, kind);
        case Rebound(kind, id) => assert NoneReported(h, now, base, approvals, kind);
        case _ =>
      }
    }
  }
}

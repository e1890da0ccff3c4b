/** Governance documents against a trusted base: the checks of one revision, and what they
    guarantee over a whole chain of accepted revisions. */
module RevisionHistory {
  import opened Identifiers

  /** An identifier; only equality and the order matter. */
  type Name = Uuid
  /** Text or a nested document, compared as a whole. */
  type Content = string

  // --- Documents --------------------------------------------------------------

  /** The numeric core of a semantic version; `None` is a version that does not parse. */
  datatype Semver = Semver(major: nat, minor: nat, patch: nat)

  predicate Below(a: Semver, b: Semver) {
    a.major < b.major
    || (a.major == b.major && (a.minor < b.minor || (a.minor == b.minor && a.patch < b.patch)))
  }

  datatype Status = NOT_TEXT | UNKNOWN | NOT_STARTED | BLOCKED | IN_PROGRESS | COMPLETE | VERIFIED

  datatype StatusRow = StatusRow(id: Name, status: Status, rest: Content)
  datatype Record = Record(id: Name, package: Name, mappings: Content, criteria: Content, evidenceIds: Content,
                           attestation: Option<Name>, rest: Content)
  datatype Item = Item(id: Name, body: Content)
  datatype Definition = Definition(id: Name, gateEvidence: seq<Name>, rest: Content)
  datatype Attestation = Attestation(id: Name, reviewer: Option<Name>, criteria: seq<Name>, evidence: seq<Name>, rest: Content)
  datatype Milestone = Milestone(id: Name, definition: Name, reviewer: Option<Name>, packages: seq<Name>, rest: Content)

  datatype Manifest = Manifest(version: Option<Semver>, records: seq<Record>, rest: Content)
  datatype Registry = Registry(version: Option<Semver>, packages: seq<StatusRow>, definitions: seq<Definition>,
                               milestones: seq<Milestone>, rest: Content)
  datatype Acceptance = Acceptance(version: Option<Semver>, schemaVersion: int, criteria: seq<Item>, evidence: seq<Item>, rest: Content)
  datatype Reviews = Reviews(version: Option<Semver>, attestations: seq<Attestation>, rest: Content)

  /** The rows of the two planning tables, which may not be available. */
  datatype Scope = Scope(workPackages: map<Name, Content>, matrix: map<Name, Content>)

  datatype Revision = Revision(manifest: Manifest, status: Registry, acceptance: Acceptance, reviews: Reviews, scope: Option<Scope>)

  datatype Document = MANIFEST | STATUS | ACCEPTANCE | REVIEWS

  const DOCUMENTS: seq<Document> := [MANIFEST, STATUS, ACCEPTANCE, REVIEWS]

  function VersionOf(r: Revision, d: Document): Option<Semver> {
    match d
    case MANIFEST => r.manifest.version
    case STATUS => r.status.version
    case ACCEPTANCE => r.acceptance.version
    case REVIEWS => r.reviews.version
  }

  predicate SameDocument(a: Revision, b: Revision, d: Document) {
    match d
    case MANIFEST => a.manifest == b.manifest
    case STATUS => a.status == b.status
    case ACCEPTANCE => a.acceptance == b.acceptance
    case REVIEWS => a.reviews == b.reviews
  }

  /** The last row under an identifier is the one that counts. */
  function Index<T>(rows: seq<T>, key: T -> Name): (m: map<Name, T>)
    ensures forall k | k in m :: key(m[k]) == k && m[k] in rows
    ensures forall row | row in rows :: key(row) in m
  {
    if rows == [] then map[]
    else
      var last := rows[|rows| - 1];
      assert rows == rows[..|rows| - 1] + [last];
      Index(rows[..|rows| - 1], key)[key(last) := last]
  }

  function RowId(row: StatusRow): Name {
    row.id
  }

  function RecordId(row: Record): Name {
    row.id
  }

  function RecordPackage(row: Record): Name {
    row.package
  }

  function ItemId(row: Item): Name {
    row.id
  }

  function DefinitionId(row: Definition): Name {
    row.id
  }

  function AttestationId(row: Attestation): Name {
    row.id
  }

  function MilestoneId(row: Milestone): Name {
    row.id
  }

  function Statuses(r: Revision): map<Name, StatusRow> {
    Index(r.status.packages, RowId)
  }

  function Records(r: Revision): map<Name, Record> {
    Index(r.manifest.records, RecordId)
  }

  function RecordsByPackage(r: Revision): map<Name, Record> {
    Index(r.manifest.records, RecordPackage)
  }

  function Criteria(r: Revision): map<Name, Item> {
    Index(r.acceptance.criteria, ItemId)
  }

  function Evidence(r: Revision): map<Name, Item> {
    Index(r.acceptance.evidence, ItemId)
  }

  function Definitions(r: Revision): map<Name, Definition> {
    Index(r.status.definitions, DefinitionId)
  }

  function Attestations(r: Revision): map<Name, Attestation> {
    Index(r.reviews.attestations, AttestationId)
  }

  function Milestones(r: Revision): map<Name, Milestone> {
    Index(r.status.milestones, MilestoneId)
  }

  datatype Kind =
    | PACKAGE_STATUS | TRACE_RECORD | CRITERION | EVIDENCE | MILESTONE_DEFINITION
    | WORK_PACKAGE | COMPLETION_MATRIX | ATTESTATION | MILESTONE_ATTESTATION

  predicate Scoped(kind: Kind) {
    kind == WORK_PACKAGE || kind == COMPLETION_MATRIX
  }

  function Ids(r: Revision, kind: Kind): set<Name> {
    match kind
    case PACKAGE_STATUS => Statuses(r).Keys
    case TRACE_RECORD => Records(r).Keys
    case CRITERION => Criteria(r).Keys
    case EVIDENCE => Evidence(r).Keys
    case MILESTONE_DEFINITION => Definitions(r).Keys
    case WORK_PACKAGE => if r.scope.Some? then r.scope.value.workPackages.Keys else {}
    case COMPLETION_MATRIX => if r.scope.Some? then r.scope.value.matrix.Keys else {}
    case ATTESTATION => Attestations(r).Keys
    case MILESTONE_ATTESTATION => Milestones(r).Keys
  }

  /** The planning tables are compared only when both revisions have them. */
  predicate Compared(base: Revision, now: Revision, kind: Kind) {
    Scoped(kind) ==> base.scope.Some? && now.scope.Some?
  }

  predicate SameBinding(a: Record, b: Record) {
    a.package == b.package && a.mappings == b.mappings && a.criteria == b.criteria && a.evidenceIds == b.evidenceIds
  }

  /** What may not change about an entry that both revisions have. */
  predicate Bound(a: Revision, b: Revision, kind: Kind, id: Name)
    requires id in Ids(a, kind) && id in Ids(b, kind)
  {
    match kind
    case PACKAGE_STATUS => true
    case TRACE_RECORD => SameBinding(Records(a)[id], Records(b)[id])
    case CRITERION => Criteria(a)[id] == Criteria(b)[id]
    case EVIDENCE => Evidence(a)[id] == Evidence(b)[id]
    case MILESTONE_DEFINITION => Definitions(a)[id] == Definitions(b)[id]
    case WORK_PACKAGE => a.scope.value.workPackages[id] == b.scope.value.workPackages[id]
    case COMPLETION_MATRIX => true
    case ATTESTATION => Attestations(a)[id] == Attestations(b)[id]
    case MILESTONE_ATTESTATION => Milestones(a)[id] == Milestones(b)[id]
  }

  /** Evidence entries are frozen only from schema version 2 of the base on. */
  predicate Frozen(base: Revision, kind: Kind) {
    kind == EVIDENCE ==> base.acceptance.schemaVersion == 2
  }

  // --- Approvals --------------------------------------------------------------

  datatype Hashes = Hashes(
    attestation: Attestation -> Content,
    milestone: Milestone -> Content,
    definition: Definition -> Content,
    items: seq<Item> -> Content)

  datatype Subject = PACKAGE_ATTESTATION | MILESTONE_SUBJECT

  datatype Approval = Approval(
    subjectType: Subject,
    subject: Name,
    reviewer: Option<Name>,
    subjectHash: Option<Content>,
    criteriaHash: Option<Content>,
    evidenceHash: Option<Content>,
    adequate: bool)

  type Approvals = map<Name, Approval>

  function Picked(registry: map<Name, Item>, ids: seq<Name>): seq<Item>
    requires forall id | id in ids :: id in registry
  {
    seq(|ids|, i requires 0 <= i < |ids| => registry[ids[i]])
  }

  /** The hash of the selected entries in the order of their identifiers, unless an identifier
      repeats or is unknown. */
  function SelectedHash(h: Hashes, registry: map<Name, Item>, ids: seq<Name>): Option<Content> {
    var chosen := set id | id in ids;
    if |chosen| != |ids| || !(chosen <= registry.Keys) then None
    else Some(h.items(Picked(registry, Ascending(chosen))))
  }

  predicate Authorizes(approvals: Approvals, id: Name, subjectType: Subject, reviewer: Option<Name>,
                       subjectHash: Content, criteriaHash: Option<Content>, evidenceHash: Option<Content>) {
    && id in approvals
    && var a := approvals[id];
       && a.subjectType == subjectType && a.subject == id && a.reviewer == reviewer
       && a.subjectHash == Some(subjectHash) && a.criteriaHash == criteriaHash && a.evidenceHash == evidenceHash
       && a.adequate
  }

  predicate AttestationApproved(h: Hashes, r: Revision, approvals: Approvals, a: Attestation) {
    Authorizes(approvals, a.id, PACKAGE_ATTESTATION, a.reviewer, h.attestation(a),
               SelectedHash(h, Criteria(r), a.criteria), SelectedHash(h, Evidence(r), a.evidence))
  }

  function DefinitionHash(h: Hashes, r: Revision, m: Milestone): Option<Content> {
    if m.definition in Definitions(r) then Some(h.definition(Definitions(r)[m.definition])) else None
  }

  function GateEvidence(r: Revision, m: Milestone): seq<Name> {
    if m.definition in Definitions(r) then Definitions(r)[m.definition].gateEvidence else []
  }

  predicate MilestoneApproved(h: Hashes, r: Revision, approvals: Approvals, m: Milestone) {
    Authorizes(approvals, m.id, MILESTONE_SUBJECT, m.reviewer, h.milestone(m),
               DefinitionHash(h, r, m), SelectedHash(h, Evidence(r), GateEvidence(r, m)))
  }

  // --- Promotions -------------------------------------------------------------

  function Rank(status: Status): int {
    match status
    case NOT_TEXT => 0
    case UNKNOWN => -1
    case NOT_STARTED => 0
    case BLOCKED => 1
    case IN_PROGRESS => 1
    case COMPLETE => 2
    case VERIFIED => 3
  }

  /** A package without a row has not started. */
  function RankOf(r: Revision, package: Name): int {
    if package in Statuses(r) then Rank(Statuses(r)[package].status) else 0
  }

  predicate Promoted(base: Revision, now: Revision, package: Name) {
    RankOf(now, package) >= 2 && RankOf(now, package) > RankOf(base, package)
  }

  predicate PackageAuthorized(now: Revision, approvals: Approvals, package: Name) {
    && package in RecordsByPackage(now)
    && RecordsByPackage(now)[package].attestation.Some?
    && RecordsByPackage(now)[package].attestation.value in approvals
  }

  function Covering(now: Revision, package: Name): set<Name> {
    set id | id in Milestones(now) && package in Milestones(now)[id].packages
  }

  /** Exactly one milestone attestation covers the package, and it is approved. */
  predicate MilestoneAuthorized(now: Revision, approvals: Approvals, package: Name) {
    |Covering(now, package)| == 1 && Covering(now, package) <= approvals.Keys
  }

  function NewAttestations(now: Revision, base: Revision): (ids: set<Name>)
    ensures ids <= Attestations(now).Keys
  {
    Attestations(now).Keys - Attestations(base).Keys
  }

  function NewMilestones(now: Revision, base: Revision): (ids: set<Name>)
    ensures ids <= Milestones(now).Keys
  {
    Milestones(now).Keys - Milestones(base).Keys
  }

  // --- Findings ---------------------------------------------------------------

  datatype Finding =
    | VersionRegressed(document: Document)
    | ContentChanged(document: Document)
    | Disappeared(kind: Kind, id: Name)
    | Rebound(kind: Kind, id: Name)
    | AttestationUnapproved(id: Name)
    | MilestoneUnapproved(id: Name)
    | PromotionUnauthorized(package: Name)
    | VerifiedUnauthorized(package: Name)

  /** What each finding means. */
  predicate Reported(h: Hashes, now: Revision, base: Revision, approvals: Approvals, f: Finding) {
    match f
    case VersionRegressed(d) =>
      VersionOf(now, d).None? || VersionOf(base, d).None? || Below(VersionOf(now, d).value, VersionOf(base, d).value)
    case ContentChanged(d) => !SameDocument(now, base, d) && VersionOf(now, d) == VersionOf(base, d)
    case Disappeared(kind, id) => Compared(base, now, kind) && id in Ids(base, kind) - Ids(now, kind)
    case Rebound(kind, id) => Compared(base, now, kind) && id in Ids(base, kind) * Ids(now, kind) && Frozen(base, kind) && !Bound(base, now, kind, id)
    case AttestationUnapproved(id) => id in NewAttestations(now, base) && !AttestationApproved(h, now, approvals, Attestations(now)[id])
    case MilestoneUnapproved(id) => id in NewMilestones(now, base) && !MilestoneApproved(h, now, approvals, Milestones(now)[id])
    case PromotionUnauthorized(p) => Promoted(base, now, p) && !PackageAuthorized(now, approvals, p)
    case VerifiedUnauthorized(p) => Promoted(base, now, p) && RankOf(now, p) == 3 && !MilestoneAuthorized(now, approvals, p)
  }

  ghost predicate Accepts(h: Hashes, now: Revision, base: Revision, approvals: Approvals) {
    forall f :: !Reported(h, now, base, approvals, f)
  }

  lemma AllDocuments()
    ensures forall d: Document :: d in DOCUMENTS[..|DOCUMENTS|]
  {
    var all := DOCUMENTS[..|DOCUMENTS|];
    assert all[0] == MANIFEST && all[1] == STATUS && all[2] == ACCEPTANCE && all[3] == REVIEWS;
    forall d: Document ensures d in all {
      match d
      case MANIFEST => assert all[0] in all;
      case STATUS => assert all[1] in all;
      case ACCEPTANCE => assert all[2] in all;
      case REVIEWS => assert all[3] in all;
    }
  }

  method CheckVersions(h: Hashes, now: Revision, base: Revision, approvals: Approvals) returns (found: seq<Finding>)
    ensures forall f :: f in found <==> (f.VersionRegressed? || f.ContentChanged?) && Reported(h, now, base, approvals, f)
  {
    hide SameDocument, Below;
    found := [];
    for i := 0 to |DOCUMENTS|
      invariant forall f :: f in found <==> (f.VersionRegressed? || f.ContentChanged?) && f.document in DOCUMENTS[..i] && Reported(h, now, base, approvals, f)
    {
      var d := DOCUMENTS[i];
      assert DOCUMENTS[..i + 1] == DOCUMENTS[..i] + [d];
      if VersionOf(now, d).None? || VersionOf(base, d).None? || Below(VersionOf(now, d).value, VersionOf(base, d).value) {
        found := found + [VersionRegressed(d)];
      }
      if !SameDocument(now, base, d) && VersionOf(now, d) == VersionOf(base, d) {
        found := found + [ContentChanged(d)];
      }
    }
    AllDocuments();
  }

  method CheckKind(h: Hashes, now: Revision, base: Revision, approvals: Approvals, kind: Kind) returns (found: seq<Finding>)
    ensures forall f :: f in found <==> (f.Disappeared? || f.Rebound?) && f.kind == kind && Reported(h, now, base, approvals, f)
  {
    hide Ids, Bound, Frozen, Compared;
    found := [];
    if Compared(base, now, kind) {
      var gone := FindGone(base, now, kind);
      var rebound := FindRebound(base, now, kind);
      found := gone + rebound;
    }
  }

  /** Takes the identifiers in ascending order. */
  method FindGone(base: Revision, now: Revision, kind: Kind) returns (found: seq<Finding>)
    ensures forall f :: f in found <==> f.Disappeared? && f.kind == kind && f.id in Ids(base, kind) - Ids(now, kind)
  {
    hide Ids;
    var all := Ids(base, kind) - Ids(now, kind);
    var rest := all;
    found := [];
    while rest != {}
      invariant rest <= all
      invariant forall f :: f in found <==> f.Disappeared? && f.kind == kind && f.id in all - rest
      decreases |rest|
    {
      var id := Least(rest);
      found := found + [Disappeared(kind, id)];
      rest := rest - {id};
    }
  }

  method FindRebound(base: Revision, now: Revision, kind: Kind) returns (found: seq<Finding>)
    ensures forall f :: f in found <==> f.Rebound? && f.kind == kind && f.id in Ids(base, kind) * Ids(now, kind)
                                        && Frozen(base, kind) && !Bound(base, now, kind, f.id)
  {
    hide Ids, Bound, Frozen;
    var all := Ids(base, kind) * Ids(now, kind);
    var rest := all;
    found := [];
    while rest != {}
      invariant rest <= all
      invariant forall f :: f in found <==> f.Rebound? && f.kind == kind && f.id in all - rest
                                            && Frozen(base, kind) && !Bound(base, now, kind, f.id)
      decreases |rest|
    {
      var id := Least(rest);
      if !Bound(base, now, kind, id) && Frozen(base, kind) {
        found := found + [Rebound(kind, id)];
      }
      rest := rest - {id};
    }
  }

  method CheckNewAttestations(h: Hashes, now: Revision, base: Revision, approvals: Approvals) returns (found: seq<Finding>)
    ensures forall f :: f in found <==> f.AttestationUnapproved? && Reported(h, now, base, approvals, f)
  {
    hide NewAttestations, Attestations, AttestationApproved;
    var rest := NewAttestations(now, base);
    found := [];
    while rest != {}
      invariant rest <= NewAttestations(now, base)
      invariant forall f :: f in found <==> f.AttestationUnapproved? && f.id !in rest && Reported(h, now, base, approvals, f)
      decreases |rest|
    {
      var id := Least(rest);
      if !AttestationApproved(h, now, approvals, Attestations(now)[id]) {
        found := found + [AttestationUnapproved(id)];
      }
      rest := rest - {id};
    }
  }

  method CheckNewMilestones(h: Hashes, now: Revision, base: Revision, approvals: Approvals) returns (found: seq<Finding>)
    ensures forall f :: f in found <==> f.MilestoneUnapproved? && Reported(h, now, base, approvals, f)
  {
    hide NewMilestones, Milestones, MilestoneApproved;
    var rest := NewMilestones(now, base);
    found := [];
    while rest != {}
      invariant rest <= NewMilestones(now, base)
      invariant forall f :: f in found <==> f.MilestoneUnapproved? && f.id !in rest && Reported(h, now, base, approvals, f)
      decreases |rest|
    {
      var id := Least(rest);
      if !MilestoneApproved(h, now, approvals, Milestones(now)[id]) {
        found := found + [MilestoneUnapproved(id)];
      }
      rest := rest - {id};
    }
  }

  lemma PromotedHasRow(base: Revision, now: Revision, package: Name)
    requires Promoted(base, now, package)
    ensures package in Statuses(now).Keys
  {
    hide Statuses;
  }

  method CheckPromotions(h: Hashes, now: Revision, base: Revision, approvals: Approvals) returns (found: seq<Finding>)
    ensures forall f :: f in found <==> (f.PromotionUnauthorized? || f.VerifiedUnauthorized?) && Reported(h, now, base, approvals, f)
  {
    hide Statuses, Promoted, RankOf, PackageAuthorized, MilestoneAuthorized;
    var rest := Statuses(now).Keys;
    found := [];
    while rest != {}
      invariant rest <= Statuses(now).Keys
      invariant forall f :: f in found <==> (f.PromotionUnauthorized? || f.VerifiedUnauthorized?) && f.package in Statuses(now).Keys - rest && Reported(h, now, base, approvals, f)
      decreases |rest|
    {
      var p :| p in rest;
      if Promoted(base, now, p) {
        if !PackageAuthorized(now, approvals, p) {
          found := found + [PromotionUnauthorized(p)];
        }
        if RankOf(now, p) == 3 && !MilestoneAuthorized(now, approvals, p) {
          found := found + [VerifiedUnauthorized(p)];
        }
      }
      rest := rest - {p};
    }
    forall p | Promoted(base, now, p) ensures p in Statuses(now).Keys {
      PromotedHasRow(base, now, p);
    }
  }

  const ENTRY_KINDS: seq<Kind> :=
    [PACKAGE_STATUS, TRACE_RECORD, CRITERION, EVIDENCE, MILESTONE_DEFINITION, WORK_PACKAGE, COMPLETION_MATRIX]

  method CheckEntries(h: Hashes, now: Revision, base: Revision, approvals: Approvals) returns (found: seq<Finding>)
    ensures forall f :: f in found <==> (f.Disappeared? || f.Rebound?) && f.kind != ATTESTATION && f.kind != MILESTONE_ATTESTATION && Reported(h, now, base, approvals, f)
  {
    hide Reported;
    found := [];
    for i := 0 to |ENTRY_KINDS|
      invariant forall f :: f in found <==> (f.Disappeared? || f.Rebound?) && f.kind in ENTRY_KINDS[..i] && Reported(h, now, base, approvals, f)
    {
      assert ENTRY_KINDS[..i + 1] == ENTRY_KINDS[..i] + [ENTRY_KINDS[i]];
      var more := CheckKind(h, now, base, approvals, ENTRY_KINDS[i]);
      found := found + more;
    }
    assert forall l: Kind :: l in ENTRY_KINDS[..|ENTRY_KINDS|] <==> l != ATTESTATION && l != MILESTONE_ATTESTATION by {
      var all := ENTRY_KINDS[..|ENTRY_KINDS|];
      assert all[0] == PACKAGE_STATUS && all[1] == TRACE_RECORD && all[2] == CRITERION && all[3] == EVIDENCE;
      assert all[4] == MILESTONE_DEFINITION && all[5] == WORK_PACKAGE && all[6] == COMPLETION_MATRIX;
    }
  }

  /** Everything the current documents do against the trusted base, and nothing else. */
  method ValidateAgainstBase(h: Hashes, now: Revision, base: Revision, approvals: Approvals) returns (errors: seq<Finding>)
    ensures forall f :: f in errors <==> Reported(h, now, base, approvals, f)
    ensures errors == [] <==> Accepts(h, now, base, approvals)
  {
    hide Reported;
    var versions := CheckVersions(h, now, base, approvals);
    var entries := CheckEntries(h, now, base, approvals);
    var attestations := CheckKind(h, now, base, approvals, ATTESTATION);
    var added := CheckNewAttestations(h, now, base, approvals);
    var milestones := CheckKind(h, now, base, approvals, MILESTONE_ATTESTATION);
    var addedMilestones := CheckNewMilestones(h, now, base, approvals);
    var promotions := CheckPromotions(h, now, base, approvals);
    errors := versions + entries + attestations + added + milestones + addedMilestones + promotions;
    if errors != [] {
      assert errors[0] in errors;
    }
  }
}

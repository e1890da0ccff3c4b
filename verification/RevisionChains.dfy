/** What a chain of revisions, each accepted against the one before it, guarantees as a whole. */
module RevisionChains {
  import opened Identifiers
  import opened RevisionHistory

  /** `approvals[i]` are the external approvals in force when revision `i + 1` was checked. */
  ghost predicate Accepted(h: Hashes, revisions: seq<Revision>, approvals: seq<Approvals>) {
    && |revisions| == |approvals| + 1
    && forall i | 0 <= i < |approvals| :: Accepts(h, revisions[i + 1], revisions[i], approvals[i])
  }

  // --- Versions ---------------------------------------------------------------

  predicate NoLower(a: Option<Semver>, b: Option<Semver>) {
    a.Some? && b.Some? && !Below(b.value, a.value)
  }

  lemma StepVersions(h: Hashes, now: Revision, base: Revision, approvals: Approvals, d: Document)
    requires Accepts(h, now, base, approvals)
    ensures NoLower(VersionOf(base, d), VersionOf(now, d))
    ensures VersionOf(now, d) == VersionOf(base, d) ==> SameDocument(now, base, d)
  {
    hide SameDocument, VersionOf;
    assert !Reported(h, now, base, approvals, VersionRegressed(d));
    assert !Reported(h, now, base, approvals, ContentChanged(d));
  }

  /** Versions never decrease, in the precedence of section 11 of Semantic Versioning 2.0.0. */
  lemma {:induction false} VersionsNeverRegress(h: Hashes, revisions: seq<Revision>, approvals: seq<Approvals>, d: Document, i: nat, j: nat)
    requires Accepted(h, revisions, approvals) && i < j < |revisions|
    ensures NoLower(VersionOf(revisions[i], d), VersionOf(revisions[j], d))
  {
    hide Accepts, VersionOf;
    StepVersions(h, revisions[j], revisions[j - 1], approvals[j - 1], d);
    if i < j - 1 {
      VersionsNeverRegress(h, revisions, approvals, d, i, j - 1);
    }
  }

  lemma SandwichedVersion(a: Option<Semver>, b: Option<Semver>, c: Option<Semver>)
    requires NoLower(a, b) && NoLower(b, c) && a == c
    ensures a == b
  {
  }

  /** Over any distance, equal versions mean equal content. */
  lemma {:induction false} EqualVersionsEqualContent(h: Hashes, revisions: seq<Revision>, approvals: seq<Approvals>, d: Document, i: nat, j: nat)
    requires Accepted(h, revisions, approvals) && i <= j < |revisions|
    ensures VersionOf(revisions[i], d) == VersionOf(revisions[j], d) <==> SameDocument(revisions[i], revisions[j], d)
  {
    hide Accepts;
    if i < j && VersionOf(revisions[i], d) == VersionOf(revisions[j], d) {
      StepVersions(h, revisions[j], revisions[j - 1], approvals[j - 1], d);
      if i < j - 1 {
        VersionsNeverRegress(h, revisions, approvals, d, i, j - 1);
        SandwichedVersion(VersionOf(revisions[i], d), VersionOf(revisions[j - 1], d), VersionOf(revisions[j], d));
      }
      EqualVersionsEqualContent(h, revisions, approvals, d, i, j - 1);
    }
  }

  // --- Entries ----------------------------------------------------------------

  ghost predicate ComparedThroughout(revisions: seq<Revision>, kind: Kind, i: nat, j: nat)
    requires i <= j < |revisions|
  {
    forall k | i <= k < j :: Compared(revisions[k], revisions[k + 1], kind)
  }

  /** Every base on the way freezes this kind of entry. */
  ghost predicate FrozenThroughout(revisions: seq<Revision>, kind: Kind, i: nat, j: nat)
    requires i <= j < |revisions|
  {
    forall k | i <= k < j :: Frozen(revisions[k], kind)
  }

  lemma StepKeepsEntry(h: Hashes, now: Revision, base: Revision, approvals: Approvals, kind: Kind, id: Name)
    requires Accepts(h, now, base, approvals) && Compared(base, now, kind) && id in Ids(base, kind)
    ensures id in Ids(now, kind)
    ensures Frozen(base, kind) ==> Bound(base, now, kind, id)
  {
    hide Ids, Bound, Frozen, Compared;
    assert !Reported(h, now, base, approvals, Disappeared(kind, id));
    assert !Reported(h, now, base, approvals, Rebound(kind, id));
  }

  /** Nothing that was ever accepted disappears: packages, trace records, criteria, evidence,
      milestone definitions, attestations, and the rows of the planning tables while they exist. */
  lemma {:induction false} EntriesNeverDisappear(h: Hashes, revisions: seq<Revision>, approvals: seq<Approvals>, kind: Kind, id: Name, i: nat, j: nat)
    requires Accepted(h, revisions, approvals) && i <= j < |revisions|
    requires ComparedThroughout(revisions, kind, i, j) && id in Ids(revisions[i], kind)
    ensures id in Ids(revisions[j], kind)
  {
    hide Accepts, Ids, Compared;
    if i < j {
      EntriesNeverDisappear(h, revisions, approvals, kind, id, i, j - 1);
      StepKeepsEntry(h, revisions[j], revisions[j - 1], approvals[j - 1], kind, id);
    }
  }

  lemma BoundIsAnEquivalence(a: Revision, b: Revision, c: Revision, kind: Kind, id: Name)
    requires id in Ids(a, kind) && id in Ids(b, kind) && id in Ids(c, kind)
    ensures Bound(a, a, kind, id)
    ensures Bound(a, b, kind, id) && Bound(b, c, kind, id) ==> Bound(a, c, kind, id)
  {
    hide Records, Criteria, Evidence, Definitions, Attestations, Milestones, Statuses;
  }

  /** Nothing accepted is ever rebound either, evidence only as long as every base on the way is
      of schema version 2. */
  lemma {:induction false} EntriesNeverRebound(h: Hashes, revisions: seq<Revision>, approvals: seq<Approvals>, kind: Kind, id: Name, i: nat, j: nat)
    requires Accepted(h, revisions, approvals) && i <= j < |revisions|
    requires ComparedThroughout(revisions, kind, i, j) && FrozenThroughout(revisions, kind, i, j)
    requires id in Ids(revisions[i], kind)
    ensures id in Ids(revisions[j], kind) && Bound(revisions[i], revisions[j], kind, id)
  {
    hide Accepts, Ids, Compared, Bound, Frozen;
    if i < j {
      EntriesNeverRebound(h, revisions, approvals, kind, id, i, j - 1);
      StepKeepsEntry(h, revisions[j], revisions[j - 1], approvals[j - 1], kind, id);
      BoundIsAnEquivalence(revisions[i], revisions[j - 1], revisions[j], kind, id);
    } else {
      BoundIsAnEquivalence(revisions[i], revisions[i], revisions[i], kind, id);
    }
  }

  // --- What the checks leave open ---------------------------------------------

  function Bumped(v: Option<Semver>): Option<Semver> {
    if v.None? then None else Some(v.value.(patch := v.value.patch + 1))
  }

  /** `base` with one more evidence row, under a new version. */
  function WithEvidence(base: Revision, item: Item): Revision {
    base.(acceptance := base.acceptance.(version := Bumped(base.acceptance.version), evidence := base.acceptance.evidence + [item]))
  }

  lemma AddedEvidence(base: Revision, item: Item)
    ensures Evidence(WithEvidence(base, item)) == Evidence(base)[item.id := item]
  {
    var rows := base.acceptance.evidence + [item];
    assert rows[..|rows| - 1] == base.acceptance.evidence;
  }

  ghost predicate AllVersioned(r: Revision) {
    forall d :: VersionOf(r, d).Some?
  }

  /** Evidence is frozen exactly when the base has schema version 2: with any other schema an
      evidence entry can be rebound to anything, without any approval. */
  lemma EvidenceFrozenExactly(h: Hashes, base: Revision, item: Item)
    requires AllVersioned(base) && item.id in Evidence(base) && Evidence(base)[item.id] != item
    ensures Accepts(h, WithEvidence(base, item), base, map[]) <==> base.acceptance.schemaVersion != 2
  {
    hide Evidence, Definitions, Milestones, Attestations, Statuses, Records, Criteria, RecordsByPackage;
    AddedEvidence(base, item);
    var now := WithEvidence(base, item);
    if base.acceptance.schemaVersion == 2 {
      assert Reported(h, now, base, map[], Rebound(EVIDENCE, item.id));
    } else {
      SameElsewhere(base, item);
      forall f ensures !Reported(h, now, base, map[], f) {
        UnreportedEvidence(h, base, item, f);
      }
    }
  }

  lemma SameElsewhere(base: Revision, item: Item)
    ensures var now := WithEvidence(base, item);
            && Statuses(now) == Statuses(base) && Records(now) == Records(base) && Criteria(now) == Criteria(base)
            && Definitions(now) == Definitions(base) && Attestations(now) == Attestations(base) && Milestones(now) == Milestones(base)
  {
  }

  lemma UnreportedEvidence(h: Hashes, base: Revision, item: Item, f: Finding)
    requires AllVersioned(base) && item.id in Evidence(base) && base.acceptance.schemaVersion != 2
    ensures !Reported(h, WithEvidence(base, item), base, map[], f)
  {
    hide Evidence, Definitions, Milestones, Attestations, Statuses, Records, Criteria, RecordsByPackage;
    AddedEvidence(base, item);
    SameElsewhere(base, item);
    if f.VersionRegressed? || f.ContentChanged? {
      assert VersionOf(base, f.document).Some?;
    }
  }

  // --- Attestations -----------------------------------------------------------

  /** An attestation that was not there at the start entered at one step, already as it is now,
      with an approval for exactly this attestation, its criteria and its evidence. */
  lemma {:induction false} AttestationWasApproved(h: Hashes, revisions: seq<Revision>, approvals: seq<Approvals>, id: Name, j: nat) returns (k: nat)
    requires Accepted(h, revisions, approvals) && j < |revisions|
    requires id in Attestations(revisions[j]) && id !in Attestations(revisions[0])
    ensures 0 < k <= j && id !in Attestations(revisions[k - 1])
    ensures id in Attestations(revisions[k]) && Attestations(revisions[k])[id] == Attestations(revisions[j])[id]
    ensures AttestationApproved(h, revisions[k], approvals[k - 1], Attestations(revisions[j])[id])
  {
    hide Accepts, Attestations, AttestationApproved;
    if id !in Attestations(revisions[j - 1]) {
      k := j;
      StepAttestation(h, revisions[j], revisions[j - 1], approvals[j - 1], id);
    } else {
      k := AttestationWasApproved(h, revisions, approvals, id, j - 1);
      StepKeepsEntry(h, revisions[j], revisions[j - 1], approvals[j - 1], ATTESTATION, id);
    }
  }

  lemma StepAttestation(h: Hashes, now: Revision, base: Revision, approvals: Approvals, id: Name)
    requires Accepts(h, now, base, approvals) && id in Attestations(now) && id !in Attestations(base)
    ensures AttestationApproved(h, now, approvals, Attestations(now)[id])
  {
    hide Attestations, AttestationApproved;
    assert !Reported(h, now, base, approvals, AttestationUnapproved(id));
  }

  lemma {:induction false} MilestoneWasApproved(h: Hashes, revisions: seq<Revision>, approvals: seq<Approvals>, id: Name, j: nat) returns (k: nat)
    requires Accepted(h, revisions, approvals) && j < |revisions|
    requires id in Milestones(revisions[j]) && id !in Milestones(revisions[0])
    ensures 0 < k <= j && id !in Milestones(revisions[k - 1])
    ensures id in Milestones(revisions[k]) && Milestones(revisions[k])[id] == Milestones(revisions[j])[id]
    ensures MilestoneApproved(h, revisions[k], approvals[k - 1], Milestones(revisions[j])[id])
  {
    hide Accepts, Milestones, MilestoneApproved;
    if id !in Milestones(revisions[j - 1]) {
      k := j;
      StepMilestone(h, revisions[j], revisions[j - 1], approvals[j - 1], id);
    } else {
      k := MilestoneWasApproved(h, revisions, approvals, id, j - 1);
      StepKeepsEntry(h, revisions[j], revisions[j - 1], approvals[j - 1], MILESTONE_ATTESTATION, id);
    }
  }

  lemma StepMilestone(h: Hashes, now: Revision, base: Revision, approvals: Approvals, id: Name)
    requires Accepts(h, now, base, approvals) && id in Milestones(now) && id !in Milestones(base)
    ensures MilestoneApproved(h, now, approvals, Milestones(now)[id])
  {
    hide Milestones, MilestoneApproved;
    assert !Reported(h, now, base, approvals, MilestoneUnapproved(id));
  }

  // --- Approvals stay good ----------------------------------------------------

  /** A selection that could be hashed keeps its hash while its entries are kept. */
  lemma SelectionIsStable(h: Hashes, before: map<Name, Item>, after: map<Name, Item>, ids: seq<Name>)
    requires forall id | id in before :: id in after && after[id] == before[id]
    requires SelectedHash(h, before, ids).Some?
    ensures SelectedHash(h, after, ids) == SelectedHash(h, before, ids)
  {
    var chosen := Ascending(set id | id in ids);
    assert Picked(before, chosen) == Picked(after, chosen);
  }

  lemma CriteriaAreKept(h: Hashes, revisions: seq<Revision>, approvals: seq<Approvals>, i: nat, j: nat)
    requires Accepted(h, revisions, approvals) && i <= j < |revisions|
    ensures forall id | id in Criteria(revisions[i]) :: id in Criteria(revisions[j]) && Criteria(revisions[j])[id] == Criteria(revisions[i])[id]
  {
    hide Accepts, Criteria;
    forall id | id in Criteria(revisions[i])
      ensures id in Criteria(revisions[j]) && Criteria(revisions[j])[id] == Criteria(revisions[i])[id]
    {
      EntriesNeverRebound(h, revisions, approvals, CRITERION, id, i, j);
    }
  }

  lemma EvidenceIsKept(h: Hashes, revisions: seq<Revision>, approvals: seq<Approvals>, i: nat, j: nat)
    requires Accepted(h, revisions, approvals) && i <= j < |revisions| && FrozenThroughout(revisions, EVIDENCE, i, j)
    ensures forall id | id in Evidence(revisions[i]) :: id in Evidence(revisions[j]) && Evidence(revisions[j])[id] == Evidence(revisions[i])[id]
  {
    hide Accepts, Evidence;
    forall id | id in Evidence(revisions[i])
      ensures id in Evidence(revisions[j]) && Evidence(revisions[j])[id] == Evidence(revisions[i])[id]
    {
      EntriesNeverRebound(h, revisions, approvals, EVIDENCE, id, i, j);
    }
  }

  /** An approval given for an attestation at revision `k` still authorizes it against the criteria
      and the evidence of any later revision, as long as evidence is frozen on the way. */
  lemma AttestationApprovalLasts(h: Hashes, revisions: seq<Revision>, approvals: seq<Approvals>, a: Attestation, given: Approvals, k: nat, j: nat)
    requires Accepted(h, revisions, approvals) && k <= j < |revisions| && FrozenThroughout(revisions, EVIDENCE, k, j)
    requires AttestationApproved(h, revisions[k], given, a)
    requires SelectedHash(h, Criteria(revisions[k]), a.criteria).Some? && SelectedHash(h, Evidence(revisions[k]), a.evidence).Some?
    ensures AttestationApproved(h, revisions[j], given, a)
  {
    hide Accepted, Criteria, Evidence, SelectedHash, FrozenThroughout;
    CriteriaAreKept(h, revisions, approvals, k, j);
    EvidenceIsKept(h, revisions, approvals, k, j);
    SelectionIsStable(h, Criteria(revisions[k]), Criteria(revisions[j]), a.criteria);
    SelectionIsStable(h, Evidence(revisions[k]), Evidence(revisions[j]), a.evidence);
  }

  lemma MilestoneApprovalLasts(h: Hashes, revisions: seq<Revision>, approvals: seq<Approvals>, m: Milestone, given: Approvals, k: nat, j: nat)
    requires Accepted(h, revisions, approvals) && k <= j < |revisions| && FrozenThroughout(revisions, EVIDENCE, k, j)
    requires MilestoneApproved(h, revisions[k], given, m) && m.definition in Definitions(revisions[k])
    requires SelectedHash(h, Evidence(revisions[k]), GateEvidence(revisions[k], m)).Some?
    ensures MilestoneApproved(h, revisions[j], given, m)
  {
    hide Accepts, Definitions, Evidence, SelectedHash;
    EvidenceIsKept(h, revisions, approvals, k, j);
    EntriesNeverRebound(h, revisions, approvals, MILESTONE_DEFINITION, m.definition, k, j);
    SelectionIsStable(h, Evidence(revisions[k]), Evidence(revisions[j]), GateEvidence(revisions[k], m));
  }

  /** Every attestation in force at `j` that was added since the start is covered by an approval
      that still fits revision `j`, when its selections were valid and evidence stayed frozen. */
  lemma AttestationsStayCovered(h: Hashes, revisions: seq<Revision>, approvals: seq<Approvals>, id: Name, j: nat) returns (k: nat)
    requires Accepted(h, revisions, approvals) && j < |revisions| && FrozenThroughout(revisions, EVIDENCE, 0, j)
    requires id in Attestations(revisions[j]) && id !in Attestations(revisions[0])
    ensures 0 < k <= j
    ensures var a := Attestations(revisions[j])[id];
            SelectedHash(h, Criteria(revisions[k]), a.criteria).Some? && SelectedHash(h, Evidence(revisions[k]), a.evidence).Some? ==>
              AttestationApproved(h, revisions[j], approvals[k - 1], a)
  {
    hide Accepts, Attestations, AttestationApproved, Criteria, Evidence, SelectedHash;
    k := AttestationWasApproved(h, revisions, approvals, id, j);
    var a := Attestations(revisions[j])[id];
    if SelectedHash(h, Criteria(revisions[k]), a.criteria).Some? && SelectedHash(h, Evidence(revisions[k]), a.evidence).Some? {
      AttestationApprovalLasts(h, revisions, approvals, a, approvals[k - 1], k, j);
    }
  }
}

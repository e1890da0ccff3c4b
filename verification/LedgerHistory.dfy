/** The ledger of allocated threat and test identifiers across revisions. */
module LedgerHistory {
  import opened Identifiers
  import opened RevisionHistory

  datatype State = ACTIVE | RETIRED | OTHER

  /** `exact` says that the row has exactly the fields of schema version 1. */
  datatype Allocation = Allocation(id: Option<Name>, kind: Option<Content>, identity: Option<Content>,
                                   introducedIn: Option<Content>, state: State, exact: bool)

  /** `exact` says that the top level has exactly the fields of schema version 1. */
  datatype Ledger = Ledger(exact: bool, schemaVersion: int, allocations: seq<Allocation>)

  /** The last row of an identifier counts; rows without one are passed over. */
  function Rows(rows: seq<Allocation>): (m: map<Name, Allocation>)
    ensures forall id | id in m :: m[id] in rows && m[id].id == Some(id)
  {
    if rows == [] then map[]
    else
      var last := rows[|rows| - 1];
      var before := Rows(rows[..|rows| - 1]);
      if last.id.Some? then before[last.id.value := last] else before
  }

  datatype Field = KIND | IDENTITY | INTRODUCED_IN

  predicate SameField(a: Allocation, b: Allocation, f: Field) {
    match f
    case KIND => a.kind == b.kind
    case IDENTITY => a.identity == b.identity
    case INTRODUCED_IN => a.introducedIn == b.introducedIn
  }

  datatype Fault =
    | WrongDocument
    | WrongRows
    | Gone(id: Name)
    | FieldChanged(id: Name, field: Field)
    | Reactivated(id: Name)

  predicate DocumentExact(l: Ledger) {
    l.exact && l.schemaVersion == 1
  }

  predicate RowsExact(l: Ledger) {
    forall a | a in l.allocations :: a.exact
  }

  /** What each fault means. A baseline of the wrong shape hides every other fault. */
  predicate Found(now: Ledger, base: Ledger, f: Fault) {
    var before, after := Rows(base.allocations), Rows(now.allocations);
    match f
    case WrongDocument => !DocumentExact(base)
    case WrongRows => DocumentExact(base) && !RowsExact(base)
    case Gone(id) => DocumentExact(base) && RowsExact(base) && id in before && id !in after
    case FieldChanged(id, field) =>
      DocumentExact(base) && RowsExact(base) && id in before && id in after && !SameField(before[id], after[id], field)
    case Reactivated(id) =>
      DocumentExact(base) && RowsExact(base) && id in before && id in after && before[id].state == RETIRED && after[id].state != RETIRED
  }

  method FindGone(before: map<Name, Allocation>, after: map<Name, Allocation>) returns (faults: seq<Fault>)
    ensures forall f :: f in faults <==> f.Gone? && f.id in before && f.id !in after
  {
    var rest := before.Keys - after.Keys;
    faults := [];
    while rest != {}
      invariant rest <= before.Keys - after.Keys
      invariant forall f :: f in faults <==> f.Gone? && f.id in before && f.id !in after && f.id !in rest
      decreases |rest|
    {
      var id := Least(rest);
      faults := faults + [Gone(id)];
      rest := rest - {id};
    }
  }

  const FIELDS: seq<Field> := [KIND, IDENTITY, INTRODUCED_IN]

  lemma AllFields()
    ensures forall f: Field :: f in FIELDS[..|FIELDS|]
  {
    var all := FIELDS[..|FIELDS|];
    forall f: Field ensures f in all {
      match f
      case KIND => assert all[0] in all;
      case IDENTITY => assert all[1] in all;
      case INTRODUCED_IN => assert all[2] in all;
    }
  }

  /** The faults of one allocation that both ledgers have. */
  method CompareAllocations(id: Name, before: Allocation, after: Allocation) returns (faults: seq<Fault>)
    ensures forall f :: f in faults <==>
              (f.FieldChanged? && f.id == id && !SameField(before, after, f.field))
              || (f == Reactivated(id) && before.state == RETIRED && after.state != RETIRED)
  {
    faults := [];
    for i := 0 to |FIELDS|
      invariant forall f :: f in faults <==> f.FieldChanged? && f.id == id && f.field in FIELDS[..i] && !SameField(before, after, f.field)
    {
      assert FIELDS[..i + 1] == FIELDS[..i] + [FIELDS[i]];
      if !SameField(before, after, FIELDS[i]) {
        faults := faults + [FieldChanged(id, FIELDS[i])];
      }
    }
    AllFields();
    if before.state == RETIRED && after.state != RETIRED {
      faults := faults + [Reactivated(id)];
    }
  }

  method ValidateHistory(now: Ledger, base: Ledger) returns (faults: seq<Fault>)
    ensures forall f :: f in faults <==> Found(now, base, f)
    ensures faults == [] <==> Passes(now, base)
  {
    hide Rows, SameField;
    if !DocumentExact(base) {
      assert Found(now, base, WrongDocument);
      return [WrongDocument];
    }
    if !RowsExact(base) {
      assert Found(now, base, WrongRows);
      return [WrongRows];
    }
    hide RowsExact;
    var before, after := Rows(base.allocations), Rows(now.allocations);
    faults := FindGone(before, after);
    ghost var gone := faults;
    var rest := before.Keys * after.Keys;
    while rest != {}
      invariant rest <= before.Keys * after.Keys
      invariant forall f :: f in faults <==> Found(now, base, f) && (f.Gone? || f.id !in rest)
      decreases |rest|
    {
      var id := Least(rest);
      var more := CompareAllocations(id, before[id], after[id]);
      faults := faults + more;
      rest := rest - {id};
    }
    if faults != [] {
      assert faults[0] in faults;
    }
  }

  // --- Chains -----------------------------------------------------------------

  ghost predicate Passes(now: Ledger, base: Ledger) {
    forall f :: !Found(now, base, f)
  }

  /** Each ledger passed against the one before it. */
  ghost predicate Chained(ledgers: seq<Ledger>) {
    forall i | 0 < i < |ledgers| :: Passes(ledgers[i], ledgers[i - 1])
  }

  /** How an allocation may look later. */
  predicate Continues(a: Allocation, b: Allocation) {
    && a.kind == b.kind && a.identity == b.identity && a.introducedIn == b.introducedIn
    && (a.state == RETIRED ==> b.state == RETIRED)
  }

  lemma StepContinues(now: Ledger, base: Ledger, id: Name)
    requires Passes(now, base) && id in Rows(base.allocations)
    ensures id in Rows(now.allocations) && Continues(Rows(base.allocations)[id], Rows(now.allocations)[id])
  {
    hide Rows, RowsExact, DocumentExact;
    assert !Found(now, base, WrongDocument) && !Found(now, base, WrongRows);
    assert !Found(now, base, Gone(id)) && !Found(now, base, Reactivated(id));
    assert !Found(now, base, FieldChanged(id, KIND)) && !Found(now, base, FieldChanged(id, IDENTITY));
    assert !Found(now, base, FieldChanged(id, INTRODUCED_IN));
  }

  /** Over any number of accepted revisions an allocated identifier stays allocated, keeps its kind,
      its identity and the version that introduced it, and once RETIRED is RETIRED for good. */
  lemma {:induction false} AllocationsAreForever(ledgers: seq<Ledger>, id: Name, i: nat, j: nat)
    requires Chained(ledgers) && i <= j < |ledgers| && id in Rows(ledgers[i].allocations)
    ensures id in Rows(ledgers[j].allocations)
    ensures Continues(Rows(ledgers[i].allocations)[id], Rows(ledgers[j].allocations)[id])
  {
    hide Rows, Found;
    if i < j {
      AllocationsAreForever(ledgers, id, i, j - 1);
      StepContinues(ledgers[j], ledgers[j - 1], id);
    }
  }

  // --- The same, told from the rows ----------------------------------------------

  /** `a` is the last row under its identifier: the one that counts. */
  ghost predicate Counts(rows: seq<Allocation>, a: Allocation) {
    a.id.Some? && exists n :: 0 <= n < |rows| && rows[n] == a && forall m :: n < m < |rows| ==> rows[m].id != a.id
  }

  lemma {:induction false} RowsCount(rows: seq<Allocation>, a: Allocation)
    ensures Counts(rows, a) <==> a.id.Some? && a.id.value in Rows(rows) && Rows(rows)[a.id.value] == a
  {
    if rows != [] {
      RowsCount(rows[..|rows| - 1], a);
      CountsInFront(rows, a);
    }
  }

  lemma CountsInFront(rows: seq<Allocation>, a: Allocation)
    requires rows != []
    ensures Counts(rows, a) <==>
            a.id.Some? && if rows[|rows| - 1].id == a.id then rows[|rows| - 1] == a else Counts(rows[..|rows| - 1], a)
  {
    var last, front := rows[|rows| - 1], rows[..|rows| - 1];
    if last == a {
      assert rows[|rows| - 1] == a;
    }
    if Counts(front, a) && last.id != a.id {
      var n :| 0 <= n < |front| && front[n] == a && forall m :: n < m < |front| ==> front[m].id != a.id;
      forall m | n < m < |rows| ensures rows[m].id != a.id {
        assert m < |front| ==> rows[m] == front[m];
      }
      assert rows[n] == a;
    }
    if Counts(rows, a) && last.id != a.id {
      var n :| 0 <= n < |rows| && rows[n] == a && forall m :: n < m < |rows| ==> rows[m].id != a.id;
      assert front[n] == a;
      forall m | n < m < |front| ensures front[m].id != a.id {
        assert rows[m] == front[m];
      }
    }
  }

  /** The identifier is still allocated, for the same kind, identity and version, and is not in use again
      if it was RETIRED. */
  ghost predicate Continued(now: Ledger, a: Allocation) {
    exists b ::
      && Counts(now.allocations, b) && b.id == a.id && b.kind == a.kind && b.identity == a.identity && b.introducedIn == a.introducedIn
      && (a.state == RETIRED ==> b.state == RETIRED)
  }

  lemma ContinuedExactly(now: Ledger, a: Allocation)
    requires a.id.Some?
    ensures Continued(now, a) <==> a.id.value in Rows(now.allocations) && Continues(a, Rows(now.allocations)[a.id.value])
  {
    hide Rows, Counts;
    if Continued(now, a) {
      var b :| && Counts(now.allocations, b) && b.id == a.id && b.kind == a.kind && b.identity == a.identity && b.introducedIn == a.introducedIn
               && (a.state == RETIRED ==> b.state == RETIRED);
      RowsCount(now.allocations, b);
    }
    if a.id.value in Rows(now.allocations) {
      RowsCount(now.allocations, Rows(now.allocations)[a.id.value]);
    }
  }

  /** A ledger passes exactly when its base is of schema version 1, with exact rows, and every allocation
      of the base is continued. */
  lemma PassesExactly(now: Ledger, base: Ledger)
    ensures Passes(now, base) <==>
            && base.exact && base.schemaVersion == 1 && (forall a | a in base.allocations :: a.exact)
            && forall a | Counts(base.allocations, a) :: Continued(now, a)
  {
    hide Rows, Counts, Continued, Continues, Found, DocumentExact;
    if Passes(now, base) {
      ShapeOfBase(now, base);
      forall a | Counts(base.allocations, a) ensures Continued(now, a) {
        RowsCount(base.allocations, a);
        StepContinues(now, base, a.id.value);
        ContinuedExactly(now, a);
      }
    }
    if base.exact && base.schemaVersion == 1 && (forall a | a in base.allocations :: a.exact)
       && forall a | Counts(base.allocations, a) :: Continued(now, a) {
      forall f ensures !Found(now, base, f) {
        if f.Gone? || f.FieldChanged? || f.Reactivated? {
          if f.id in Rows(base.allocations) {
            RowsCount(base.allocations, Rows(base.allocations)[f.id]);
            ContinuedExactly(now, Rows(base.allocations)[f.id]);
          }
        }
        NotFound(now, base, f);
      }
    }
  }

  lemma ShapeOfBase(now: Ledger, base: Ledger)
    requires Passes(now, base)
    ensures base.exact && base.schemaVersion == 1 && forall a | a in base.allocations :: a.exact
  {
    hide Rows;
    assert !Found(now, base, WrongDocument) && !Found(now, base, WrongRows);
  }

  lemma NotFound(now: Ledger, base: Ledger, f: Fault)
    requires base.exact && base.schemaVersion == 1 && forall a | a in base.allocations :: a.exact
    requires (f.Gone? || f.FieldChanged? || f.Reactivated?) && f.id in Rows(base.allocations) ==>
               f.id in Rows(now.allocations) && Continues(Rows(base.allocations)[f.id], Rows(now.allocations)[f.id])
    ensures !Found(now, base, f)
  {
    hide Rows;
  }
}

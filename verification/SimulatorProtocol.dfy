/** The synthetic simulator's scripts: steps chained from START, and their delays. */
module SimulatorProtocol {
  import opened Identifiers

  const MAX_MAIL_MESSAGES := 16
  const MAX_REQUESTS_PER_SESSION := 8
  const MAX_SESSIONS := 64
  const MAX_STEPS_PER_SCENARIO := 8
  const MAX_ADVANCE_SECONDS := 31_622_400

  datatype ScenarioName =
    | HAPPY | NAMED_NOT_FOUND | NAMED_AMBIGUOUS | CAPTCHA | MFA | RATE_LIMIT
    | TIMEOUT_UNKNOWN | DRIFT | NAMED_PARTIAL | NAMED_DENIED | RESURFACING

  datatype ScenarioState =
    | START | CANDIDATE | NOT_FOUND | AMBIGUOUS | CHALLENGE_CAPTCHA | CHALLENGE_MFA | RATE_LIMITED
    | OUTCOME_UNKNOWN | SCHEMA_DRIFT | PARTIAL | DENIED | SIMULATED_ABSENT | RESURFACED | COMPLETE

  datatype MailFixture = MailFixture(recipient: string, subject: string, body: string)

  datatype ScenarioStep = ScenarioStep(
    fromState: ScenarioState,
    toState: ScenarioState,
    statusCode: int,
    body: string,
    evidence: string,
    delay: nat,
    mail: Option<MailFixture>)

  datatype ScenarioResult = ScenarioResult(
    scenario: ScenarioName,
    state: ScenarioState,
    statusCode: int,
    body: string,
    evidence: string,
    occurredAt: nat,
    mail: Option<MailFixture>)

  /** Each step starts where the one before it ended, the first at START. */
  predicate Chained(steps: seq<ScenarioStep>) {
    forall i | 0 <= i < |steps| :: steps[i].fromState == StateAfter(steps, i)
  }

  function StateAfter(steps: seq<ScenarioStep>, n: nat): ScenarioState
    requires n <= |steps|
  {
    if n == 0 then START else steps[n - 1].toState
  }

  predicate WellFormed(steps: seq<ScenarioStep>) {
    1 <= |steps| <= MAX_STEPS_PER_SCENARIO && Chained(steps)
  }

  /** The check a definition makes when it is built. */
  method AcceptsDefinition(steps: seq<ScenarioStep>) returns (ok: bool)
    ensures ok == WellFormed(steps)
  {
    if !(1 <= |steps| <= MAX_STEPS_PER_SCENARIO) {
      return false;
    }
    var expected := START;
    for i := 0 to |steps|
      invariant expected == StateAfter(steps, i)
      invariant forall k | 0 <= k < i :: steps[k].fromState == StateAfter(steps, k)
    {
      if steps[i].fromState != expected {
        return false;
      }
      expected := steps[i].toState;
    }
    ok := true;
  }

  /** A catalog holds only definitions that were accepted. */
  type Catalog = map<ScenarioName, seq<ScenarioStep>>

  predicate CatalogValid(catalog: Catalog) {
    forall name | name in catalog :: WellFormed(catalog[name])
  }

  /** The clock only moves when its owner advances it, and never backwards. */
  class ControllableClock {
    var current: nat

    constructor (current: nat)
      ensures this.current == current
    {
      this.current := current;
    }

    method Advance(seconds: int) returns (ok: bool)
      modifies this
      ensures ok == (0 <= seconds <= MAX_ADVANCE_SECONDS)
      ensures current == if ok then old(current) + seconds else old(current)
      ensures old(current) <= current
    {
      if !(0 <= seconds <= MAX_ADVANCE_SECONDS) {
        return false;
      }
      current := current + seconds;
      ok := true;
    }
  }
}

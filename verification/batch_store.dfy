/** The batch execution table: its rows and CHECK constraints, the meaning of the
    four statements in two-valued logic, and the statements as SQL evaluates them. */
module BatchStore {
  import opened Sql

  const MAX_STEPS := 10000
  const MAX_TEXT := 512
  const FAILURE_KINDS: set<string> := {"error", "canceled", "panic"}

  datatype Key = Key(job: string, unit: string, instance: string) {
    /** The CHECK constraints on the key columns. */
    predicate Checks() { Fits(job, MAX_TEXT) && Fits(unit, MAX_TEXT) && Fits(instance, MAX_TEXT) }
  }
  datatype State = Running | Failed | Complete
  datatype Outcome = Started | Resumed | AlreadyComplete | AlreadyRunning | Changed | Overflow

  /** A stored execution. Step names are JSON strings. */
  datatype Row = Row(
    steps: seq<string>,
    attempt: BigInt,
    completed: seq<string>,
    state: State,
    leaseUntil: Option<Time>,
    failureStep: Option<string>,
    failureKind: Option<string>,
    beginOutcome: Outcome,
    updatedAt: Time)

  datatype Statement =
    | Begin(steps: seq<string>, now: Time, lease: Time)
    | Checkpoint(attempt: int, step: string, now: Time, lease: Time)
    | Finish(attempt: int, now: Time)
    | Fail(attempt: int, step: string, kind: string, now: Time)

  /** What the client sees: the RETURNING row of Begin, a row count, or a constraint error. */
  datatype Reply =
    | Began(outcome: Outcome, attempt: int, completed: seq<string>)
    | Affected(rows: nat)
    | Rejected

  /** The table's CHECK constraints, apart from those on the key. */
  predicate Checks(r: Row) {
    && 1 <= |r.steps| <= MAX_STEPS
    && 1 <= r.attempt
    && |r.completed| <= |r.steps|
    && (r.failureStep.Some? ==> Fits(r.failureStep.value, MAX_TEXT))
    && (r.failureKind.Some? ==> r.failureKind.value in FAILURE_KINDS)
    && (r.state.Running? <==> r.leaseUntil.Some?)
    && (r.state.Failed? <==> r.failureStep.Some? && r.failureKind.Some?)
    && (r.state.Complete? ==> |r.completed| == |r.steps|)
  }

  /** The step an attempt is working on: the next one, or the last when none is left. */
  function CurrentStep(r: Row): string
    requires |r.steps| > 0
  {
    if |r.completed| < |r.steps| then r.steps[|r.completed|] else r.steps[|r.steps| - 1]
  }

  /** What the statements keep true beyond the CHECK constraints. */
  predicate Sound(r: Row) {
    && Checks(r)
    && r.completed <= r.steps
    && (!r.state.Failed? ==> r.failureStep.None? && r.failureKind.None?)
    && (r.state.Failed? ==> r.failureStep == Some(CurrentStep(r)))
  }

  /** What is stored under a key is sound. */
  predicate SoundAt(key: Key, row: Option<Row>) {
    row.Some? ==> key.Checks() && Sound(row.value)
  }

  // ----- the statements' meaning, in two-valued logic over one row

  function Fresh(steps: seq<string>, now: Time, lease: Time): Row {
    Row(steps, 1, [], Running, Some(lease), None, None, Started, now)
  }

  /** Whether a live lease keeps others out of this execution at time `now`. */
  predicate Leased(r: Row, now: Time) {
    r.state.Running? && r.leaseUntil.Some? && now < r.leaseUntil.value
  }

  function Decide(r: Row, steps: seq<string>, now: Time): Outcome {
    if r.steps != steps then Changed
    else if r.state.Complete? then AlreadyComplete
    else if Leased(r, now) then AlreadyRunning
    else if r.attempt == MAX_BIGINT then Overflow
    else Resumed
  }

  /** Whether the row is held by the running attempt `attempt`. */
  predicate HeldBy(r: Row, attempt: int) {
    r.state.Running? && r.attempt == attempt
  }

  /** The row a matched UPDATE would store; `None` when the WHERE clause rejects the row. */
  function Updated(r: Row, s: Statement): Option<Row>
    requires !s.Begin?
    requires |r.steps| > 0
  {
    if !HeldBy(r, s.attempt) then None else
    match s
    case Checkpoint(_, step, now, lease) =>
      if |r.completed| < |r.steps| && r.steps[|r.completed|] == step
      then Some(r.(completed := r.completed + [step], leaseUntil := Some(lease), updatedAt := now))
      else None
    case Finish(_, now) =>
      if |r.completed| == |r.steps|
      then Some(r.(state := Complete, leaseUntil := None, failureStep := None, failureKind := None, updatedAt := now))
      else None
    case Fail(_, step, kind, now) =>
      if |r.completed| <= |r.steps| && CurrentStep(r) == step
      then Some(r.(state := Failed, leaseUntil := None, failureStep := Some(step), failureKind := Some(kind),
                   updatedAt := now))
      else None
  }

  /** One statement against the row stored under its key. */
  function Apply(key: Key, row: Option<Row>, s: Statement): (result: (Option<Row>, Reply))
    requires SoundAt(key, row)
  {
    match s
    case Begin(steps, now, lease) =>
      if !key.Checks() || !Checks(Fresh(steps, now, lease)) then (row, Rejected)
      else if row.None? then (Some(Fresh(steps, now, lease)), Began(Started, 1, []))
      else
        var r := row.value;
        var outcome := Decide(r, steps, now);
        var next :=
          if outcome.Resumed?
          then r.(attempt := r.attempt + 1, state := Running, leaseUntil := Some(lease), failureStep := None,
                  failureKind := None, updatedAt := now, beginOutcome := Resumed)
          else r.(beginOutcome := outcome);
        (Some(next), Began(outcome, next.attempt, next.completed))
    case _ =>
      if row.None? || Updated(row.value, s).None? then (row, Affected(0))
      else if !Checks(Updated(row.value, s).value) then (row, Rejected)
      else (Updated(row.value, s), Affected(1))
  }

  lemma ApplyKeepsSound(key: Key, row: Option<Row>, s: Statement)
    requires SoundAt(key, row)
    ensures SoundAt(key, Apply(key, row, s).0)
    ensures row.Some? ==> Apply(key, row, s).0.Some?
  {
  }

  /** The CHECK constraints stop a statement exactly when the caller begins under a key that does not fit its
      columns or with a step list of the wrong size, or reports a failure with an unknown kind or an
      unstorable step name: no statement relies on them to keep a stored row well formed. */
  lemma RejectedExactly(key: Key, row: Option<Row>, s: Statement)
    requires SoundAt(key, row)
    ensures Apply(key, row, s).1.Rejected? <==>
            || (s.Begin? && !(key.Checks() && 1 <= |s.steps| <= MAX_STEPS))
            || (&& s.Fail? && row.Some? && HeldBy(row.value, s.attempt) && s.step == CurrentStep(row.value)
                && (s.kind !in FAILURE_KINDS || !Fits(s.step, MAX_TEXT)))
    ensures Apply(key, row, s).1.Rejected? ==> Apply(key, row, s).0 == row
  {
  }

  // ----- the statements as SQL evaluates them

  /** The `resumable` fragment shared by six column assignments. */
  function Resumable(execution: Row, steps: seq<string>, now: Time): Tri {
    Truth(execution.steps == steps)
    .And(Truth(!execution.state.Complete?))
    .And(Truth(execution.state.Running?).And(Greater(execution.leaseUntil, now)).Not())
    .And(Truth(execution.attempt < MAX_BIGINT))
  }

  /** The CASE expression assigned to `begin_outcome`. */
  function OutcomeCase(execution: Row, steps: seq<string>, now: Time): Outcome {
    if Truth(execution.steps != steps).Holds() then Changed
    else if Truth(execution.state.Complete?).Holds() then AlreadyComplete
    else if Truth(execution.state.Running?).And(Greater(execution.leaseUntil, now)).Holds() then AlreadyRunning
    else if Truth(execution.attempt == MAX_BIGINT).Holds() then Overflow
    else Resumed
  }

  /** On any row at all, CHECKs or not, the columns and the reported outcome tell the same story
      unless the row is running without a lease while nothing else stops the Begin; and that is also
      exactly when `resumable` is unknown. */
  lemma AgreementExactly(execution: Row, steps: seq<string>, now: Time)
    ensures (Resumable(execution, steps, now).Holds() <==> OutcomeCase(execution, steps, now).Resumed?)
            <==> !(&& execution.steps == steps && execution.state.Running? && execution.leaseUntil.None?
                   && execution.attempt < MAX_BIGINT)
    ensures Resumable(execution, steps, now).Unknown?
            <==> (&& execution.steps == steps && execution.state.Running? && execution.leaseUntil.None?
                  && execution.attempt < MAX_BIGINT)
  {
  }

  lemma AgreementUnderChecks(execution: Row, steps: seq<string>, now: Time)
    requires Checks(execution)
    ensures !Resumable(execution, steps, now).Unknown?
    ensures Resumable(execution, steps, now).Holds() <==> OutcomeCase(execution, steps, now).Resumed?
    ensures OutcomeCase(execution, steps, now) == Decide(execution, steps, now)
  {
    AgreementExactly(execution, steps, now);
  }
}
